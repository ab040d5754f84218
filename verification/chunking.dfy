/** `AudiobookGenerator.chunk_text` of src/make_a_book/audiobook_generator.py:
    cleaned text short enough for one speech request is sent whole,
    otherwise its sentences are packed greedily, in order, into chunks.
    The regex cleaning and the sentence split are inputs here: `text` is the
    cleaned text and `sentences` the pieces the split produced. */
module Chunking {
  import opened Text

  /** The default `max_chars`. */
  const DefaultMaxChars: nat := 4000

  /** How one sentence is appended to the accumulator: `sentence + ". "`. */
  function Piece(sentence: string): string {
    sentence + ". "
  }

  /** The accumulator text after appending every sentence of a group. */
  function Render(g: seq<string>): (r: string)
    ensures |g| > 0 ==> |r| >= 2 && r[|r| - 2..] == ". "
    decreases |g|
  {
    if |g| == 0 then "" else Render(g[..|g| - 1]) + Piece(g[|g| - 1])
  }

  // ---------------------------------------------------------------------
  // The loop as written
  // ---------------------------------------------------------------------

  /** The `for sentence in sentences` loop with accumulator `current`,
      followed by the final flush. */
  function PackFrom(sentences: seq<string>, current: string, maxChars: int): seq<string>
    decreases |sentences|
  {
    if |sentences| == 0 then
      (if current != "" then [Strip(current)] else [])
    else
      var s := sentences[0];
      if |current + s| <= maxChars then PackFrom(sentences[1..], current + s + ". ", maxChars)
      else (if current != "" then [Strip(current)] else []) + PackFrom(sentences[1..], s + ". ", maxChars)
  }

  // ---------------------------------------------------------------------
  // The reference: a greedy partition of the sentences
  // ---------------------------------------------------------------------

  /** Sentence `j` of a group was admitted because the accumulator before
      it plus the sentence fitted in `maxChars`. */
  ghost predicate Fits(g: seq<string>, maxChars: int) {
    forall j :: 1 <= j < |g| ==> |Render(g[..j])| + |g[j]| <= maxChars
  }

  /** The groups are non-empty, every group was filled by admitted
      sentences, and every group was closed because the next sentence did
      not fit. */
  ghost predicate GreedyPartition(gs: seq<seq<string>>, maxChars: int) {
    && (forall k :: 0 <= k < |gs| ==> |gs[k]| > 0 && Fits(gs[k], maxChars))
    && (forall k :: 0 <= k < |gs| - 1 ==> |Render(gs[k])| + |gs[k + 1][0]| > maxChars)
  }

  function Flatten(gs: seq<seq<string>>): seq<string>
    decreases |gs|
  {
    if |gs| == 0 then [] else gs[0] + Flatten(gs[1..])
  }

  /** Greedy grouping with the open group `current`. */
  function GroupFrom(sentences: seq<string>, current: seq<string>, maxChars: int): seq<seq<string>>
    decreases |sentences|
  {
    if |sentences| == 0 then
      (if |current| > 0 then [current] else [])
    else
      var s := sentences[0];
      if |Render(current)| + |s| <= maxChars then GroupFrom(sentences[1..], current + [s], maxChars)
      else (if |current| > 0 then [current] else []) + GroupFrom(sentences[1..], [s], maxChars)
  }

  function Groups(sentences: seq<string>, maxChars: int): seq<seq<string>> {
    GroupFrom(sentences, [], maxChars)
  }

  /** The chunk text of each group. */
  function ChunksOf(gs: seq<seq<string>>): (r: seq<string>)
    ensures |r| == |gs|
    ensures forall k :: 0 <= k < |gs| ==> r[k] == Strip(Render(gs[k]))
    decreases |gs|
  {
    if |gs| == 0 then [] else [Strip(Render(gs[0]))] + ChunksOf(gs[1..])
  }

  /** `chunk_text(text, max_chars)` on the cleaned text and its sentences:
      one chunk holding the whole text when it fits, otherwise one chunk
      per group of the greedy partition. */
  function ChunkText(text: string, sentences: seq<string>, maxChars: int): (r: seq<string>)
    ensures |text| <= maxChars ==> r == [text]
    ensures |text| > maxChars ==> r == ChunksOf(Groups(sentences, maxChars))
  {
    if |text| <= maxChars then [text]
    else
      PackMatchesGroups(sentences, [], maxChars);
      PackFrom(sentences, "", maxChars)
  }

  // ---------------------------------------------------------------------
  // Proofs
  // ---------------------------------------------------------------------

  lemma RenderEmptyIff(g: seq<string>)
    ensures Render(g) == "" <==> |g| == 0
  {
  }

  lemma RenderSnoc(g: seq<string>, s: string)
    ensures Render(g + [s]) == Render(g) + s + ". "
  {
    assert (g + [s])[..|g|] == g;
  }

  lemma ChunksOfCons(g: seq<string>, gs: seq<seq<string>>)
    ensures ChunksOf([g] + gs) == [Strip(Render(g))] + ChunksOf(gs)
  {
  }

  /** The source's string accumulator and the group accumulator agree: the
      loop as written emits exactly the chunks of the greedy groups. */
  lemma {:induction false} PackMatchesGroups(sentences: seq<string>, current: seq<string>, maxChars: int)
    ensures PackFrom(sentences, Render(current), maxChars) == ChunksOf(GroupFrom(sentences, current, maxChars))
    decreases |sentences|
  {
    RenderEmptyIff(current);
    if |sentences| == 0 {
      if |current| > 0 {
        ChunksOfCons(current, []);
      }
    } else {
      var s := sentences[0];
      var acc := Render(current);
      assert |acc + s| == |acc| + |s|;
      if |acc| + |s| <= maxChars {
        RenderSnoc(current, s);
        PackMatchesGroups(sentences[1..], current + [s], maxChars);
        assert PackFrom(sentences, acc, maxChars) == PackFrom(sentences[1..], Render(current + [s]), maxChars);
      } else {
        RenderSnoc([], s);
        assert [] + [s] == [s];
        assert "" + s + ". " == s + ". ";
        assert Render([s]) == s + ". ";
        PackMatchesGroups(sentences[1..], [s], maxChars);
        var rest := GroupFrom(sentences[1..], [s], maxChars);
        assert PackFrom(sentences, acc, maxChars)
            == (if acc != "" then [Strip(acc)] else []) + PackFrom(sentences[1..], Render([s]), maxChars);
        if |current| > 0 {
          ChunksOfCons(current, rest);
        } else {
          assert [] + ChunksOf(rest) == ChunksOf(rest);
        }
      }
    }
  }

  lemma FlattenCons(g: seq<string>, gs: seq<seq<string>>)
    ensures Flatten([g] + gs) == g + Flatten(gs)
  {
    assert ([g] + gs)[1..] == gs;
  }

  /** Grouping neither loses, duplicates nor reorders a sentence. */
  lemma {:induction false} GroupFromFlatten(sentences: seq<string>, current: seq<string>, maxChars: int)
    ensures Flatten(GroupFrom(sentences, current, maxChars)) == current + sentences
    decreases |sentences|
  {
    if |sentences| == 0 {
      if |current| > 0 {
        FlattenCons(current, []);
      }
      assert current + sentences == current;
    } else {
      var s := sentences[0];
      assert sentences == [s] + sentences[1..];
      if |Render(current)| + |s| <= maxChars {
        GroupFromFlatten(sentences[1..], current + [s], maxChars);
        assert (current + [s]) + sentences[1..] == current + sentences;
      } else {
        var rest := GroupFrom(sentences[1..], [s], maxChars);
        GroupFromFlatten(sentences[1..], [s], maxChars);
        if |current| > 0 {
          FlattenCons(current, rest);
          assert GroupFrom(sentences, current, maxChars) == [current] + rest;
        } else {
          assert GroupFrom(sentences, current, maxChars) == rest;
          assert current + sentences == sentences;
        }
      }
    }
  }

  lemma FitsSnoc(g: seq<string>, s: string, maxChars: int)
    requires Fits(g, maxChars) && |Render(g)| + |s| <= maxChars
    ensures Fits(g + [s], maxChars)
  {
    var h := g + [s];
    forall j | 1 <= j < |h| ensures |Render(h[..j])| + |h[j]| <= maxChars {
      if j < |g| {
        assert h[..j] == g[..j];
        assert h[j] == g[j];
      } else {
        assert h[..j] == g;
      }
    }
  }

  /** Closing a fitting group in front of a greedy partition whose first
      sentence did not fit keeps the partition greedy. */
  lemma GreedyCons(g: seq<string>, rest: seq<seq<string>>, maxChars: int)
    requires |g| > 0 && Fits(g, maxChars)
    requires GreedyPartition(rest, maxChars) && |rest| > 0 && |rest[0]| > 0
    requires |Render(g)| + |rest[0][0]| > maxChars
    ensures GreedyPartition([g] + rest, maxChars)
  {
    var gs := [g] + rest;
    forall k | 0 <= k < |gs| ensures |gs[k]| > 0 && Fits(gs[k], maxChars) {
      if k > 0 { assert gs[k] == rest[k - 1]; }
    }
    forall k | 0 <= k < |gs| - 1 ensures |Render(gs[k])| + |gs[k + 1][0]| > maxChars {
      if k > 0 { assert gs[k] == rest[k - 1] && gs[k + 1] == rest[k]; }
    }
  }

  lemma PrefixOfPrefix(x: seq<string>, c: seq<string>, s: string)
    requires |x| >= |c| + 1 && x[..|c| + 1] == c + [s]
    ensures x[..|c|] == c
  {
    assert x[..|c|] == x[..|c| + 1][..|c|];
  }

  /** Greedy grouping from a fitting open group yields a greedy partition
      whose first group extends the open one. */
  lemma {:induction false} GroupFromGreedy(sentences: seq<string>, current: seq<string>, maxChars: int)
    requires |current| > 0 && Fits(current, maxChars)
    ensures var gs := GroupFrom(sentences, current, maxChars);
      && GreedyPartition(gs, maxChars)
      && |gs| > 0 && |gs[0]| >= |current| && gs[0][..|current|] == current
    decreases |sentences|
  {
    if |sentences| == 0 {
      assert GroupFrom(sentences, current, maxChars) == [current];
    } else {
      var s := sentences[0];
      if |Render(current)| + |s| <= maxChars {
        FitsSnoc(current, s, maxChars);
        GroupFromGreedy(sentences[1..], current + [s], maxChars);
        var gs := GroupFrom(sentences[1..], current + [s], maxChars);
        assert GroupFrom(sentences, current, maxChars) == gs;
        PrefixOfPrefix(gs[0], current, s);
      } else {
        assert Fits([s], maxChars);
        GroupFromGreedy(sentences[1..], [s], maxChars);
        var rest := GroupFrom(sentences[1..], [s], maxChars);
        assert rest[0][0] == rest[0][..1][0] == s;
        GreedyCons(current, rest, maxChars);
        assert GroupFrom(sentences, current, maxChars) == [current] + rest;
      }
    }
  }

  /** The reference grouping is a greedy partition of exactly the given
      sentences, in order. */
  lemma GroupsSpec(sentences: seq<string>, maxChars: int)
    ensures GreedyPartition(Groups(sentences, maxChars), maxChars)
    ensures Flatten(Groups(sentences, maxChars)) == sentences
  {
    GroupFromFlatten(sentences, [], maxChars);
    if |sentences| > 0 {
      var s := sentences[0];
      assert [] + [s] == [s];
      assert Fits([s], maxChars);
      GroupFromGreedy(sentences[1..], [s], maxChars);
    }
  }

  /** Stripping a string that ends in whitespace removes at least that
      character. */
  lemma StripShortensTrailingSpace(s: string)
    requires |s| > 0 && IsSpace(s[|s| - 1])
    ensures |Strip(s)| <= |s| - 1
  {
    var t := TrimStart(s);
    if |t| > 0 {
      assert t[|t| - 1] == s[|s| - 1];
    }
  }

  /** The chunk of a non-empty group ends in a period, so it is never "". */
  lemma GroupChunkNonEmpty(g: seq<string>)
    requires |g| > 0
    ensures Strip(Render(g)) != ""
  {
    var r := Render(g);
    assert r[|r| - 2..] == ". ";
    assert r[|r| - 2] == '.';
    StripKeepsVisible(r, |r| - 2);
  }

  /** Every chunk is non-empty: no empty accumulator is ever emitted. */
  lemma ChunksNonEmpty(text: string, sentences: seq<string>, maxChars: int, k: nat)
    requires |text| > maxChars
    requires k < |ChunkText(text, sentences, maxChars)|
    ensures ChunkText(text, sentences, maxChars)[k] != ""
  {
    var gs := Groups(sentences, maxChars);
    GroupsSpec(sentences, maxChars);
    assert |gs[k]| > 0;
    GroupChunkNonEmpty(gs[k]);
  }

  /** The size promise of the packing: a chunk is at most one character
      longer than `maxChars` (the period added after the last sentence),
      unless it is a single sentence that alone does not fit, which is sent
      unsplit. */
  lemma ChunkLength(text: string, sentences: seq<string>, maxChars: int, k: nat)
    requires |text| > maxChars
    requires k < |ChunkText(text, sentences, maxChars)|
    ensures var c := ChunkText(text, sentences, maxChars)[k];
      |c| <= maxChars + 1 || (|Groups(sentences, maxChars)[k]| == 1 && |c| <= |Groups(sentences, maxChars)[k][0]| + 1)
  {
    var gs := Groups(sentences, maxChars);
    GroupsSpec(sentences, maxChars);
    var g := gs[k];
    var r := Render(g);
    StripShortensTrailingSpace(r);
    var n := |g| - 1;
    assert r == Render(g[..n]) + Piece(g[n]);
    if n == 0 {
      assert g[..0] == [];
    } else {
      assert Fits(g, maxChars);
      assert |Render(g[..n])| + |g[n]| <= maxChars;
    }
  }

  /** One loop step that admits the next sentence. */
  lemma PackAdmits(sentences: seq<string>, current: string, maxChars: int)
    requires |sentences| > 0 && |current + sentences[0]| <= maxChars
    ensures PackFrom(sentences, current, maxChars) == PackFrom(sentences[1..], current + sentences[0] + ". ", maxChars)
  {
  }

  /** One loop step that flushes a non-empty accumulator. */
  lemma PackFlushes(sentences: seq<string>, current: string, maxChars: int)
    requires |sentences| > 0 && current != "" && |current + sentences[0]| > maxChars
    ensures PackFrom(sentences, current, maxChars) == [Strip(current)] + PackFrom(sentences[1..], sentences[0] + ". ", maxChars)
  {
  }

  /** A sentence rendered with its period and space strips to the sentence
      and its period. */
  lemma StripPiece(x: string)
    requires |x| > 0 && !IsSpace(x[0])
    ensures Strip(Piece(x)) == x + "."
  {
    var s := Piece(x);
    assert s[0] == x[0];
    assert TrimStart(s) == s;
    assert s[|s| - 1] == ' ';
    assert s[..|s| - 1] == x + ".";
    assert TrimEnd(s) == TrimEnd(x + ".");
    assert (x + ".")[|x|] == '.';
  }

  /** A first sentence exactly `maxChars` long is admitted, and the chunk it
      ends up in, with its period, is one character over the limit. */
  lemma TwoSentenceOvershoot(a: string, b: string, maxChars: int)
    requires |a| == maxChars && |a| > 0 && !IsSpace(a[0])
    requires |b| > 0 && !IsSpace(b[0])
    ensures PackFrom([a, b], "", maxChars) == [a + ".", b + "."]
    ensures |a + "."| == maxChars + 1
  {
    var ss := [a, b];
    assert "" + ss[0] == a;
    PackAdmits(ss, "", maxChars);
    assert ss[1..] == [b] && "" + a + ". " == Piece(a);
    PackFlushes([b], Piece(a), maxChars);
    assert [b][1..] == [];
    StripPiece(a);
    StripPiece(b);
  }

  /** The one-character overshoot happens: a first sentence exactly
      `max_chars` long is admitted, so its chunk, with the period, is one
      character over (for example, with `max_chars = 5`, "abcde. f" gives the
      chunks "abcde." and "f."). */
  lemma ChunkMayExceedLimitByOne(a: string, b: string, maxChars: int)
    requires |a| == maxChars && |a| > 0 && !IsSpace(a[0])
    requires |b| > 0 && !IsSpace(b[0])
    ensures ChunkText(a + ". " + b, [a, b], maxChars) == [a + ".", b + "."]
    ensures |ChunkText(a + ". " + b, [a, b], maxChars)[0]| == maxChars + 1
  {
    TwoSentenceOvershoot(a, b, maxChars);
    assert |a + ". " + b| > maxChars;
  }
}
