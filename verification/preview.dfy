/** The text a voice preview reads: the first paragraph of a chapter with
    Markdown header markers removed, cut down to three sentences when it is
    long. The server's `_extract_preview_text` (api.py) and the Streamlit
    app's inline version (app.py) differ in how they cut and in their
    fallback when no paragraph exists; both are modelled. */
module Preview {
  import opened Js
  import opened Text

  /** The fallback preview sentence of both versions. */
  const DefaultPreview: string := "This is a preview " + "of the selected voice."

  /** Paragraphs longer than this are shortened. */
  const PreviewLimit: nat := 300

  /** How many `". "`-separated pieces a long paragraph keeps. */
  const KeptSentences: nat := 3

  /** `c` repeated `n` times. */
  function Repeat(c: char, n: nat): (r: string)
    ensures |r| == n
  {
    if n == 0 then "" else [c] + Repeat(c, n - 1)
  }

  /** `re.sub(r'#{1,6}\s*', '', text)`: every '#' is removed together with
      the whitespace directly after its run (a run longer than six is
      matched in several pieces, with the same outcome). */
  function RemoveHeaders(s: string): (r: string)
    ensures |r| <= |s|
    decreases |s|
  {
    if |s| == 0 then ""
    else if s[0] == '#' then RemoveHeaders(TrimStart(s[1..]))
    else [s[0]] + RemoveHeaders(s[1..])
  }

  /** No '#' survives the clean-up. */
  lemma {:induction false} NoHashAfterRemoval(s: string)
    ensures '#' !in RemoveHeaders(s)
    decreases |s|
  {
    if |s| > 0 {
      if s[0] == '#' {
        NoHashAfterRemoval(TrimStart(s[1..]));
      } else {
        NoHashAfterRemoval(s[1..]);
      }
    }
  }

  /** Text without '#' comes through unchanged. */
  lemma {:induction false} HashFreeUnchanged(s: string)
    requires '#' !in s
    ensures RemoveHeaders(s) == s
    decreases |s|
  {
    if |s| > 0 {
      assert '#' !in s[1..] by {
        forall k | 0 <= k < |s| - 1 ensures s[1..][k] != '#' { assert s[k + 1] in s; }
      }
      HashFreeUnchanged(s[1..]);
    }
  }

  /** `[p.strip() for p in pieces if p.strip()]`. */
  function NonBlank(pieces: seq<string>): (r: seq<string>)
    ensures |r| <= |pieces|
    ensures forall k :: 0 <= k < |r| ==> r[k] != ""
    decreases |pieces|
  {
    if |pieces| == 0 then []
    else if Strip(pieces[0]) != "" then [Strip(pieces[0])] + NonBlank(pieces[1..])
    else NonBlank(pieces[1..])
  }

  /** The non-blank paragraphs of header-free text, stripped. */
  function Paragraphs(cleaned: string): seq<string> {
    NonBlank(SplitOn(cleaned, "\n\n"))
  }

  /** The first `KeptSentences` pieces of `p` joined back together. */
  function FirstSentences(p: string): (r: string)
    ensures r == p[..KeptEnd(p)]
  {
    JoinTakeSplit(p, ". ", KeptSentences);
    Join(Take(SplitOn(p, ". "), KeptSentences), ". ")
  }

  /** Where the kept sentences of `p` end: at the start of its third ". ",
      or at its end when it has fewer. */
  function KeptEnd(p: string): (i: nat)
    ensures i <= |p|
    ensures i < |p| ==> i + 2 <= |p| && p[i..i + 2] == ". "
  {
    NthIndex(p, ". ", KeptSentences)
  }

  /** What api.py makes of a paragraph over the limit: the kept sentences,
      stripped, ending in a period (one is added only when missing), and
      the default sentence when nothing is left. */
  predicate ApiCut(p: string, r: string) {
    Punctuated(Strip(p[..KeptEnd(p)]), r)
  }

  /** `r` is `q` ending in a period, one being added only when missing, or
      the default sentence for an empty `q`. */
  predicate Punctuated(q: string, r: string) {
    && (q == "" ==> r == DefaultPreview)
    && (q != "" && q[|q| - 1] == '.' ==> r == q)
    && (q != "" && q[|q| - 1] != '.' ==> r == q + ".")
  }

  /** api.py's cut of a long paragraph, with the empty result replaced by
      the default: stripped, and a period added unless there is one. */
  function ApiShorten(p: string): (r: string)
    ensures r != "" && r[|r| - 1] == '.'
    ensures ApiCut(p, r)
  {
    var f := FirstSentences(p);
    assert f == p[..KeptEnd(p)];
    var q := Strip(f);
    if q == "" then DefaultPreviewShort(); DefaultPreview
    else if q[|q| - 1] == '.' then q
    else q + "."
  }

  /** The tail of `_extract_preview_text`: cut a long candidate, and fall
      back to the default for an empty one. */
  function ApiFinish(preview: string): (r: string)
    ensures r != ""
    ensures 0 < |preview| <= PreviewLimit ==> r == preview
    ensures preview == "" ==> r == DefaultPreview
    ensures |preview| > PreviewLimit ==> r[|r| - 1] == '.' && ApiCut(preview, r)
  {
    if |preview| == 0 then DefaultPreviewShort(); DefaultPreview
    else if |preview| <= PreviewLimit then preview
    else ApiShorten(preview)
  }

  /** The default sentence is within the limit and ends with a period. */
  lemma DefaultPreviewShort()
    ensures 0 < |DefaultPreview| <= PreviewLimit
    ensures DefaultPreview[|DefaultPreview| - 1] == '.'
  {
  }

  /** `_extract_preview_text(text)`. */
  function ApiPreviewText(text: string): (r: string)
    ensures r != ""
    ensures |Paragraphs(RemoveHeaders(text))| > 0 && |Paragraphs(RemoveHeaders(text))[0]| <= PreviewLimit
            ==> r == Paragraphs(RemoveHeaders(text))[0]
    ensures |Paragraphs(RemoveHeaders(text))| > 0 && |Paragraphs(RemoveHeaders(text))[0]| > PreviewLimit
            ==> ApiCut(Paragraphs(RemoveHeaders(text))[0], r)
  {
    var cleaned := RemoveHeaders(text);
    var ps := Paragraphs(cleaned);
    ApiFinish(if |ps| > 0 then ps[0] else Strip(cleaned))
  }

  /** The app's preview (app.py): no strip after the cut, and the period
      is added unconditionally. */
  function AppPreviewText(text: string): (r: string)
    ensures r != ""
    ensures |Paragraphs(RemoveHeaders(text))| > 0 && |Paragraphs(RemoveHeaders(text))[0]| <= PreviewLimit
            ==> r == Paragraphs(RemoveHeaders(text))[0]
    ensures |Paragraphs(RemoveHeaders(text))| == 0 ==> r == DefaultPreview
    ensures |Paragraphs(RemoveHeaders(text))| > 0 && |Paragraphs(RemoveHeaders(text))[0]| > PreviewLimit
            ==> r == Paragraphs(RemoveHeaders(text))[0][..KeptEnd(Paragraphs(RemoveHeaders(text))[0])] + "."
  {
    var ps := Paragraphs(RemoveHeaders(text));
    var preview := if |ps| > 0 then ps[0] else DefaultPreview;
    if |preview| > PreviewLimit then FirstSentences(preview) + "." else preview
  }

  // ---------------------------------------------------------------------
  // Properties
  // ---------------------------------------------------------------------

  predicate IsPrefix(a: string, b: string) {
    |a| <= |b| && b[..|a|] == a
  }

  /** A header marker of any length, the blank space after it and nothing
      else are removed: `'#' * n + ws + t` cleans like `t` when `t` does
      not start with whitespace. */
  lemma HeaderMarkerDropped(n: nat, ws: string, t: string)
    requires n >= 1 && IsBlank(ws)
    requires t == "" || !IsSpace(t[0])
    ensures RemoveHeaders(Repeat('#', n) + (ws + t)) == RemoveHeaders(t)
  {
    HashRunDropped(n, ws + t);
    TrimStartBlankPrefix(ws, t);
  }

  /** A run of '#' goes together with the whitespace after it. */
  lemma {:induction false} HashRunDropped(n: nat, x: string)
    requires n >= 1
    ensures RemoveHeaders(Repeat('#', n) + x) == RemoveHeaders(TrimStart(x))
    decreases n
  {
    RepeatTail(n, x);
    HashDropped(Repeat('#', n) + x);
    if n > 1 {
      RepeatTail(n - 1, x);
      TrimStartKeeps(Repeat('#', n - 1) + x);
      HashRunDropped(n - 1, x);
    }
  }

  /** `'#' * n + x` starts with '#' and continues with `'#' * (n - 1) + x`. */
  lemma RepeatTail(n: nat, x: string)
    requires n >= 1
    ensures |Repeat('#', n) + x| > 0 && (Repeat('#', n) + x)[0] == '#'
    ensures (Repeat('#', n) + x)[1..] == Repeat('#', n - 1) + x
    ensures n == 1 ==> (Repeat('#', n) + x)[1..] == x
  {
    assert Repeat('#', n) == "#" + Repeat('#', n - 1);
    assert n == 1 ==> Repeat('#', n - 1) == "";
  }

  /** Text that starts with a visible character has nothing to trim. */
  lemma TrimStartKeeps(s: string)
    requires |s| > 0 && !IsSpace(s[0])
    ensures TrimStart(s) == s
  {
  }

  /** A '#' goes together with the whitespace after it. */
  lemma HashDropped(s: string)
    requires |s| > 0 && s[0] == '#'
    ensures RemoveHeaders(s) == RemoveHeaders(TrimStart(s[1..]))
  {
  }

  /** Stripping the front of `ws + t` removes exactly the blank `ws`. */
  lemma {:induction false} TrimStartBlankPrefix(ws: string, t: string)
    requires IsBlank(ws)
    requires t == "" || !IsSpace(t[0])
    ensures TrimStart(ws + t) == t
    decreases |ws|
  {
    if |ws| > 0 {
      assert (ws + t)[1..] == ws[1..] + t;
      TrimStartBlankPrefix(ws[1..], t);
    } else {
      assert ws + t == t;
    }
  }

  /** Cleaning once is enough. */
  lemma RemoveHeadersIdempotent(s: string)
    ensures RemoveHeaders(RemoveHeaders(s)) == RemoveHeaders(s)
  {
    NoHashAfterRemoval(s);
    HashFreeUnchanged(RemoveHeaders(s));
  }

  /** No non-blank paragraph means nothing but blank pieces. */
  lemma {:induction false} NonBlankEmpty(pieces: seq<string>)
    requires |NonBlank(pieces)| == 0
    ensures forall k :: 0 <= k < |pieces| ==> IsBlank(pieces[k])
    decreases |pieces|
  {
    if |pieces| > 0 {
      StripEmptyIffBlank(pieces[0]);
      NonBlankEmpty(pieces[1..]);
      assert forall k :: 1 <= k < |pieces| ==> pieces[k] == pieces[1..][k - 1];
    }
  }

  /** Text without a non-blank paragraph is blank, so the server's
      fallback `cleaned_text.strip()` is empty too. */
  lemma NoParagraphMeansBlank(cleaned: string)
    requires |Paragraphs(cleaned)| == 0
    ensures Strip(cleaned) == ""
  {
    var pieces := SplitOn(cleaned, "\n\n");
    NonBlankEmpty(pieces);
    JoinBlank(pieces, "\n\n");
    JoinSplit(cleaned, "\n\n");
    StripEmptyIffBlank(cleaned);
  }

  /** Without a paragraph the server returns the default sentence. */
  lemma ApiPreviewWithoutParagraph(text: string)
    requires |Paragraphs(RemoveHeaders(text))| == 0
    ensures ApiPreviewText(text) == DefaultPreview
  {
    NoParagraphMeansBlank(RemoveHeaders(text));
  }

  /** Joining a non-empty prefix of the pieces gives a prefix of the whole. */
  lemma {:induction false} JoinPrefix(parts: seq<string>, m: nat, sep: string)
    requires 1 <= m < |parts|
    ensures Join(parts, sep) == Join(parts[..m], sep) + sep + Join(parts[m..], sep)
    decreases m
  {
    if m > 1 {
      JoinPrefix(parts[1..], m - 1, sep);
      assert parts[1..][..m - 1] == parts[..m][1..];
      assert parts[1..][m - 1..] == parts[m..];
    }
  }

  /** The kept sentences are the start of the paragraph, and they are not
      empty when the paragraph is not. */
  lemma FirstSentencesPrefix(p: string)
    requires p != ""
    ensures IsPrefix(FirstSentences(p), p)
    ensures FirstSentences(p) != ""
  {
    var parts := SplitOn(p, ". ");
    JoinSplit(p, ". ");
    if |parts| > KeptSentences {
      JoinPrefix(parts, KeptSentences, ". ");
      assert Take(parts, KeptSentences) == parts[..KeptSentences];
    } else {
      assert Take(parts, KeptSentences) == parts;
    }
    if |parts| > 1 {
      var t := Take(parts, KeptSentences);
      assert Join(t, ". ") == t[0] + ". " + Join(t[1..], ". ");
    }
  }

  /** A long stripped paragraph is cut at a sentence boundary: the result
      is a start of the paragraph, possibly followed by one added period. */
  lemma ApiShortenKeepsOpening(p: string)
    requires p != "" && !IsSpace(p[0])
    ensures IsPrefix(ApiShorten(p), p) || IsPrefix(ApiShorten(p)[..|ApiShorten(p)| - 1], p)
  {
    var f := FirstSentences(p);
    FirstSentencesPrefix(p);
    assert f[0] == p[0];
    assert TrimStart(f) == f;
    var q := Strip(f);
    assert q == TrimEnd(f);
    StripKeepsVisible(f, 0);
    assert IsPrefix(q, p);
    if q[|q| - 1] != '.' {
      assert (q + ".")[..|q|] == q;
    }
  }

  /** Where the server and the app agree: without a paragraph both give the
      default sentence, and a paragraph of at most 300 characters is used
      unchanged by both. */
  lemma PreviewsAgree(text: string)
    requires var ps := Paragraphs(RemoveHeaders(text)); |ps| == 0 || |ps[0]| <= PreviewLimit
    ensures ApiPreviewText(text) == AppPreviewText(text)
  {
    if |Paragraphs(RemoveHeaders(text))| == 0 {
      ApiPreviewWithoutParagraph(text);
    }
  }
}
