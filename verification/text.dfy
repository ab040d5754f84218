/** String primitives with the semantics of the Python and JavaScript
    built-ins the application uses: `str.isspace`, `str.strip`,
    `str.split(sep)`, `sep.join`, `str(int)`, `f"{n:02d}"`, `str.lower`,
    `str.replace(' ', '_')` and `String.prototype.slice`. */
module Text {
  import opened Js

  // ---------------------------------------------------------------------
  // Whitespace and stripping
  // ---------------------------------------------------------------------

  /** The characters Python's `str.isspace` (and so `strip`, `split()` and the
      regex class `\s`) treats as whitespace. */
  predicate IsSpace(c: char) {
    || c == ' ' || c == '\t' || c == '\n' || c == '\r' || c == '\U{000B}' || c == '\U{000C}'
    || ('\U{001C}' <= c <= '\U{001F}') || c == '\U{0085}' || c == '\U{00A0}' || c == '\U{1680}'
    || ('\U{2000}' <= c <= '\U{200A}') || c == '\U{2028}' || c == '\U{2029}' || c == '\U{202F}'
    || c == '\U{205F}' || c == '\U{3000}'
  }

  /** Every character is whitespace (Python: `not s.strip()`). */
  predicate IsBlank(s: string) {
    forall i :: 0 <= i < |s| ==> IsSpace(s[i])
  }

  /** `s.lstrip()`: the suffix left after dropping leading whitespace. */
  function TrimStart(s: string): (r: string)
    ensures |r| <= |s| && r == s[|s| - |r|..]
    ensures forall k :: 0 <= k < |s| - |r| ==> IsSpace(s[k])
    ensures |r| > 0 ==> !IsSpace(r[0])
    decreases |s|
  {
    if |s| > 0 && IsSpace(s[0]) then TrimStart(s[1..]) else s
  }

  /** `s.rstrip()`: the prefix left after dropping trailing whitespace. */
  function TrimEnd(s: string): (r: string)
    ensures |r| <= |s| && r == s[..|r|]
    ensures forall k :: |r| <= k < |s| ==> IsSpace(s[k])
    ensures |r| > 0 ==> !IsSpace(r[|r| - 1])
    decreases |s|
  {
    if |s| > 0 && IsSpace(s[|s| - 1]) then TrimEnd(s[..|s| - 1]) else s
  }

  /** `s.strip()`: the slice of `s` left after dropping whitespace at both
      ends. */
  function Strip(s: string): (r: string)
    ensures |r| <= |s|
    ensures |r| > 0 ==> !IsSpace(r[0]) && !IsSpace(r[|r| - 1])
    ensures exists i, j :: 0 <= i <= j <= |s| && r == s[i..j] && IsBlank(s[..i]) && IsBlank(s[j..])
  {
    StripSpan(s);
    TrimEnd(TrimStart(s))
  }

  /** `TrimEnd(TrimStart(s))` is `s` less a blank prefix and a blank
      suffix. */
  lemma StripSpan(s: string)
    ensures exists i, j :: 0 <= i <= j <= |s| && TrimEnd(TrimStart(s)) == s[i..j] && IsBlank(s[..i]) && IsBlank(s[j..])
  {
    var t := TrimStart(s);
    var i := |s| - |t|;
    var j := i + |TrimEnd(t)|;
    StripSlice(s, t, i, j);
    StripLeading(s, t, i);
    StripTrailing(s, t, i, j);
    assert TrimEnd(t) == s[i..j] && IsBlank(s[..i]) && IsBlank(s[j..]);
  }

  /** What `TrimStart` drops is whitespace. */
  lemma StripLeading(s: string, t: string, i: nat)
    requires t == TrimStart(s) && i == |s| - |t|
    ensures IsBlank(s[..i])
  {
  }

  /** `TrimEnd` of the suffix `s[i..]` is a slice of `s`. */
  lemma StripSlice(s: string, t: string, i: nat, j: nat)
    requires i <= |s| && t == s[i..] && j == i + |TrimEnd(t)|
    ensures j <= |s| && TrimEnd(t) == s[i..j]
  {
  }

  /** What `TrimEnd` drops from the suffix `s[i..]` is whitespace of `s`. */
  lemma StripTrailing(s: string, t: string, i: nat, j: nat)
    requires i <= |s| && t == s[i..] && j == i + |TrimEnd(t)|
    ensures j <= |s| && IsBlank(s[j..])
  {
    forall k | j <= k < |s| ensures IsSpace(s[k]) {
      assert s[k] == t[k - i];
    }
  }

  /** `s.strip()` is empty exactly when `s` is blank. */
  lemma StripEmptyIffBlank(s: string)
    ensures Strip(s) == "" <==> IsBlank(s)
  {
    var t := TrimStart(s);
    if Strip(s) == "" {
      assert |t| == 0;
    } else {
      var r := Strip(s);
      assert r[0] == t[0];
      assert t[0] == s[|s| - |t|];
    }
  }

  /** A string holding a non-whitespace character does not strip to "". */
  lemma StripKeepsVisible(s: string, k: nat)
    requires k < |s| && !IsSpace(s[k])
    ensures Strip(s) != ""
  {
    StripEmptyIffBlank(s);
  }

  // ---------------------------------------------------------------------
  // Splitting and joining on a literal separator
  // ---------------------------------------------------------------------

  /** `s.split(sep)` for a non-empty literal separator: cut at every
      occurrence found scanning left to right, without overlap. */
  function SplitOn(s: string, sep: string): (parts: seq<string>)
    requires |sep| > 0
    ensures |parts| >= 1
    decreases |s|
  {
    if |s| < |sep| then [s]
    else if s[..|sep|] == sep then [""] + SplitOn(s[|sep|..], sep)
    else
      var rest := SplitOn(s[1..], sep);
      [[s[0]] + rest[0]] + rest[1..]
  }

  /** `sep.join(parts)`. */
  function Join(parts: seq<string>, sep: string): string
    decreases |parts|
  {
    if |parts| == 0 then ""
    else if |parts| == 1 then parts[0]
    else parts[0] + sep + Join(parts[1..], sep)
  }

  lemma JoinPrepend(c: char, parts: seq<string>, sep: string)
    requires |parts| >= 1
    ensures Join([[c] + parts[0]] + parts[1..], sep) == [c] + Join(parts, sep)
  {
    var ps := [[c] + parts[0]] + parts[1..];
    assert ps[1..] == parts[1..];
  }

  /** Joining the pieces with the separator they were cut at gives the
      input back, so `split` loses nothing. */
  lemma {:induction false} JoinSplit(s: string, sep: string)
    requires |sep| > 0
    ensures Join(SplitOn(s, sep), sep) == s
    decreases |s|
  {
    if |s| < |sep| {
    } else if s[..|sep|] == sep {
      var rest := SplitOn(s[|sep|..], sep);
      JoinSplit(s[|sep|..], sep);
      assert ([""] + rest)[1..] == rest;
      assert s == sep + s[|sep|..];
    } else {
      var rest := SplitOn(s[1..], sep);
      JoinSplit(s[1..], sep);
      JoinPrepend(s[0], rest, sep);
      assert s == [s[0]] + s[1..];
    }
  }

  /** A string without the (one-character) separator is not cut. */
  lemma {:induction false} SplitOnAbsent(x: string, sep: string)
    requires |sep| == 1 && sep[0] !in x
    ensures SplitOn(x, sep) == [x]
    decreases |x|
  {
    if |x| >= 1 {
      assert x[..1] != sep by { assert x[0] in x; }
      assert sep[0] !in x[1..] by {
        forall k | 0 <= k < |x| - 1 ensures x[1..][k] != sep[0] { assert x[k + 1] in x; }
      }
      SplitOnAbsent(x[1..], sep);
      assert [x[0]] + x[1..] == x;
    }
  }

  /** The first cut falls at the first occurrence of a one-character
      separator. */
  lemma {:induction false} SplitOnFirst(x: string, sep: string, y: string)
    requires |sep| == 1 && sep[0] !in x
    ensures SplitOn(x + sep + y, sep) == [x] + SplitOn(y, sep)
    decreases |x|
  {
    var s := x + sep + y;
    if |x| == 0 {
      assert s[..1] == sep;
      assert s[1..] == y;
    } else {
      assert s[..1] != sep by { assert s[0] == x[0]; assert x[0] in x; }
      assert sep[0] !in x[1..] by {
        forall k | 0 <= k < |x| - 1 ensures x[1..][k] != sep[0] { assert x[k + 1] in x; }
      }
      assert s[1..] == x[1..] + sep + y;
      SplitOnFirst(x[1..], sep, y);
      assert [x[0]] + x[1..] == x;
    }
  }

  /** Joining blank pieces with a blank separator gives a blank string. */
  lemma {:induction false} JoinBlank(parts: seq<string>, sep: string)
    requires IsBlank(sep)
    requires forall k :: 0 <= k < |parts| ==> IsBlank(parts[k])
    ensures IsBlank(Join(parts, sep))
    decreases |parts|
  {
    if |parts| > 1 {
      JoinBlank(parts[1..], sep);
      var j := Join(parts[1..], sep);
      var r := parts[0] + sep + j;
      forall k | 0 <= k < |r| ensures IsSpace(r[k]) {
        if k < |parts[0]| {
          assert r[k] == parts[0][k];
        } else if k < |parts[0]| + |sep| {
          assert r[k] == sep[k - |parts[0]|];
        } else {
          assert r[k] == j[k - |parts[0]| - |sep|];
        }
      }
    }
  }

  /** The first `n` pieces (Python `parts[:n]`). */
  function Take<T>(parts: seq<T>, n: nat): (r: seq<T>)
    ensures |r| == if |parts| < n then |parts| else n
    ensures forall k :: 0 <= k < |r| ==> r[k] == parts[k]
  {
    if |parts| < n then parts else parts[..n]
  }

  /** Where the `n`-th occurrence of `sep` starts when `s` is scanned left
      to right without overlap, or `|s|` when there are fewer than `n`. */
  function NthIndex(s: string, sep: string, n: nat): (r: nat)
    requires |sep| > 0 && n >= 1
    ensures r <= |s|
    ensures r < |s| ==> r + |sep| <= |s| && s[r..r + |sep|] == sep
    decreases |s|
  {
    if |s| < |sep| then |s|
    else if s[..|sep|] == sep then (if n == 1 then 0 else |sep| + NthIndex(s[|sep|..], sep, n - 1))
    else 1 + NthIndex(s[1..], sep, n)
  }

  /** `sep.join(s.split(sep)[:n])` is `s` up to, not including, the `n`-th
      separator, or all of `s` when it has fewer. */
  lemma {:induction false} JoinTakeSplit(s: string, sep: string, n: nat)
    requires |sep| > 0 && n >= 1
    ensures Join(Take(SplitOn(s, sep), n), sep) == s[..NthIndex(s, sep, n)]
    decreases |s|
  {
    if |s| < |sep| {
    } else if s[..|sep|] == sep {
      if n > 1 {
        JoinTakeSplit(s[|sep|..], sep, n - 1);
        TakeAfterSeparator(s, sep, n);
      }
    } else {
      JoinTakeSplit(s[1..], sep, n);
      TakeAfterChar(s, sep, n);
    }
  }

  /** The inductive step of `JoinTakeSplit` when `s` starts with `sep`. */
  lemma TakeAfterSeparator(s: string, sep: string, n: nat)
    requires |sep| > 0 && n > 1 && |s| >= |sep| && s[..|sep|] == sep
    requires Join(Take(SplitOn(s[|sep|..], sep), n - 1), sep) == s[|sep|..][..NthIndex(s[|sep|..], sep, n - 1)]
    ensures Join(Take(SplitOn(s, sep), n), sep) == s[..NthIndex(s, sep, n)]
  {
    var rest := SplitOn(s[|sep|..], sep);
    var i := NthIndex(s[|sep|..], sep, n - 1);
    calc {
      Join(Take(SplitOn(s, sep), n), sep);
      { assert SplitOn(s, sep) == [""] + rest; }
      Join(Take([""] + rest, n), sep);
      { TakeCons("", rest, n); }
      Join([""] + Take(rest, n - 1), sep);
      { JoinCons("", Take(rest, n - 1), sep); }
      "" + sep + Join(Take(rest, n - 1), sep);
      { assert "" + sep == sep; }
      sep + s[|sep|..][..i];
      { SliceAfter(s, |sep|, i); }
      s[..|sep| + i];
      { assert NthIndex(s, sep, n) == |sep| + i; }
      s[..NthIndex(s, sep, n)];
    }
  }

  /** The inductive step of `JoinTakeSplit` when `s` does not start with
      `sep`. */
  lemma TakeAfterChar(s: string, sep: string, n: nat)
    requires |sep| > 0 && n >= 1 && |s| >= |sep| && s[..|sep|] != sep
    requires Join(Take(SplitOn(s[1..], sep), n), sep) == s[1..][..NthIndex(s[1..], sep, n)]
    ensures Join(Take(SplitOn(s, sep), n), sep) == s[..NthIndex(s, sep, n)]
  {
    var rest := SplitOn(s[1..], sep);
    var t := Take(rest, n);
    var i := NthIndex(s[1..], sep, n);
    assert SplitOn(s, sep) == [[s[0]] + rest[0]] + rest[1..];
    TakeHead(s[0], rest, n);
    JoinPrepend(s[0], t, sep);
    assert NthIndex(s, sep, n) == 1 + i;
    SliceAfter(s, 1, i);
  }

  lemma TakeCons<T>(x: T, xs: seq<T>, n: nat)
    requires n >= 1
    ensures Take([x] + xs, n) == [x] + Take(xs, n - 1)
  {
  }

  lemma TakeHead(c: char, rest: seq<string>, n: nat)
    requires n >= 1 && |rest| >= 1
    ensures Take([[c] + rest[0]] + rest[1..], n) == [[c] + Take(rest, n)[0]] + Take(rest, n)[1..]
  {
    var ps := [[c] + rest[0]] + rest[1..];
    assert |ps| == |rest|;
  }

  lemma JoinCons(x: string, t: seq<string>, sep: string)
    requires |t| >= 1
    ensures Join([x] + t, sep) == x + sep + Join(t, sep)
  {
    assert ([x] + t)[1..] == t;
  }

  lemma SliceAfter(s: string, k: nat, i: nat)
    requires k + i <= |s|
    ensures s[..k + i] == s[..k] + s[k..][..i]
  {
  }

  // ---------------------------------------------------------------------
  // Decimal numerals
  // ---------------------------------------------------------------------

  predicate IsDigit(c: char) {
    '0' <= c <= '9'
  }

  predicate AllDigits(s: string) {
    forall i :: 0 <= i < |s| ==> IsDigit(s[i])
  }

  function DigitChar(d: nat): (c: char)
    requires d < 10
    ensures IsDigit(c)
  {
    (48 + d) as char
  }

  function DigitValue(c: char): nat
    requires IsDigit(c)
  {
    c as int - 48
  }

  /** Python `str(n)` / JavaScript `${n}` for a natural number. */
  function NatToString(n: nat): (r: string)
    ensures |r| >= 1 && AllDigits(r)
    decreases n
  {
    if n < 10 then [DigitChar(n)] else NatToString(n / 10) + [DigitChar(n % 10)]
  }

  /** The value of a string of decimal digits. */
  function DigitsValue(s: string): nat
    requires AllDigits(s)
    decreases |s|
  {
    if |s| == 0 then 0 else 10 * DigitsValue(s[..|s| - 1]) + DigitValue(s[|s| - 1])
  }

  /** Reads a decimal numeral back; `None` for anything else. */
  function ParseNat(s: string): (r: Option<nat>)
    ensures r.Some? <==> |s| > 0 && AllDigits(s)
  {
    if |s| > 0 && AllDigits(s) then Some(DigitsValue(s)) else None
  }

  /** Reading back what `str(n)` wrote gives `n`. */
  lemma {:induction false} ParseNatToString(n: nat)
    ensures ParseNat(NatToString(n)) == Some(n)
    decreases n
  {
    if n < 10 {
      var s := NatToString(n);
      assert s[..|s| - 1] == [];
      assert DigitsValue(s[..|s| - 1]) == 0;
      assert DigitValue(s[|s| - 1]) == n;
      assert DigitsValue(s) == n;
    } else {
      var p := NatToString(n / 10);
      var s := p + [DigitChar(n % 10)];
      ParseNatToString(n / 10);
      assert s[..|s| - 1] == p;
      assert DigitsValue(p) == n / 10;
      assert DigitValue(s[|s| - 1]) == n % 10;
      assert DigitsValue(s) == 10 * (n / 10) + n % 10;
    }
  }

  /** A numeral as `str(n)` writes it: digits, no leading zero. */
  predicate Canonical(d: string) {
    |d| > 0 && AllDigits(d) && (|d| == 1 || d[0] != '0')
  }

  /** `str(n)` is canonical, and starts with '0' only for 0. */
  lemma {:induction false} NatToStringCanonical(n: nat)
    ensures Canonical(NatToString(n))
    ensures NatToString(n)[0] == '0' ==> n == 0
    decreases n
  {
    if n >= 10 {
      NatToStringCanonical(n / 10);
      assert NatToString(n)[0] == NatToString(n / 10)[0];
    }
  }

  /** A canonical numeral is what `str` prints for its value. */
  lemma {:induction false} CanonicalPrints(d: string)
    requires Canonical(d)
    ensures NatToString(DigitsValue(d)) == d
    ensures d[0] != '0' ==> DigitsValue(d) >= 1
    decreases |d|
  {
    var p := d[..|d| - 1];
    var x := DigitValue(d[|d| - 1]);
    assert DigitChar(x) == d[|d| - 1];
    if |d| == 1 {
      assert p == [];
      assert DigitsValue(d) == x;
      assert d == [d[0]];
    } else {
      assert p[0] == d[0];
      CanonicalPrints(p);
      var v := DigitsValue(p);
      var n := 10 * v + x;
      assert DigitsValue(d) == n;
      assert n / 10 == v && n % 10 == x;
      assert d == p + [d[|d| - 1]];
    }
  }

  /** A canonical numeral reads back as the number `str` printed. */
  lemma CanonicalUnique(d: string, n: nat)
    requires Canonical(d) && DigitsValue(d) == n
    ensures d == NatToString(n)
  {
    CanonicalPrints(d);
  }

  /** Different numbers print differently. */
  lemma NatToStringInjective(a: nat, b: nat)
    requires NatToString(a) == NatToString(b)
    ensures a == b
  {
    ParseNatToString(a);
    ParseNatToString(b);
  }

  /** Python `str(i)` / JavaScript `${i}` for any integer. */
  function IntToString(i: int): (r: string)
    ensures i < 0 ==> |r| >= 2 && r[0] == '-' && AllDigits(r[1..])
    ensures i >= 0 ==> AllDigits(r)
    ensures |r| >= 1
  {
    if i < 0 then "-" + NatToString(-i) else NatToString(i)
  }

  /** Python `f"{n:02d}"` for a natural number: zero-padded to two digits. */
  function Pad2(n: nat): (r: string)
    ensures |r| >= 2 && AllDigits(r)
    ensures n >= 10 ==> r == NatToString(n)
  {
    if n < 10 then "0" + NatToString(n) else NatToString(n)
  }

  /** The padding is transparent to a reader: the padded numeral still reads
      as `n`, so distinct numbers get distinct padded names. */
  lemma Pad2RoundTrip(n: nat)
    ensures ParseNat(Pad2(n)) == Some(n)
  {
    if n < 10 {
      var s := Pad2(n);
      assert s[..1] == "0";
      assert DigitsValue(s[..1]) == 0;
    } else {
      ParseNatToString(n);
    }
  }

  lemma Pad2Injective(a: nat, b: nat)
    requires Pad2(a) == Pad2(b)
    ensures a == b
  {
    Pad2RoundTrip(a);
    Pad2RoundTrip(b);
  }

  /** In `a + [c] + x` with `c` not in `a`, the first `c` sits right after `a`. */
  lemma MarkerPosition(a: string, c: char, x: string)
    requires c !in a
    ensures (a + [c] + x)[|a|] == c
    ensures forall k :: 0 <= k < |a| ==> (a + [c] + x)[k] != c
  {
    forall k | 0 <= k < |a| ensures (a + [c] + x)[k] != c {
      assert (a + [c] + x)[k] == a[k];
      assert a[k] in a;
    }
  }

  /** If `a + c + x == b + c + y` and the marker `c` occurs in neither `a` nor
      `b`, the two decompositions are the same. */
  lemma SplitAtMarker(a: string, b: string, c: char, x: string, y: string)
    requires c !in a && c !in b
    requires a + [c] + x == b + [c] + y
    ensures a == b && x == y
  {
    var s := a + [c] + x;
    MarkerPosition(a, c, x);
    MarkerPosition(b, c, y);
    assert |a| == |b|;
    assert a == s[..|a|] && b == s[..|b|];
    assert x == s[|a| + 1..] && y == s[|b| + 1..];
  }

  /** No decimal numeral contains a non-digit marker. */
  lemma DigitsLackMarker(s: string, c: char)
    requires AllDigits(s) && !IsDigit(c)
    ensures c !in s
  {
  }

  /** A common prefix can be cancelled. */
  lemma DropPrefix(p: string, x: string, y: string)
    requires p + x == p + y
    ensures x == y
  {
    assert x == (p + x)[|p|..];
  }

  /** The three pieces of `p + d + q` can be cut back out of it. */
  lemma Framed(p: string, d: string, q: string)
    ensures (p + d + q)[..|p|] == p
    ensures (p + d + q)[|p + d + q| - |q|..] == q
    ensures (p + d + q)[|p|..|p + d + q| - |q|] == d
  {
  }

  /** In `a + x` with `a` a numeral and `x` starting with a non-digit, the
      first non-digit sits right after `a`. */
  lemma FirstNonDigit(a: string, x: string)
    requires AllDigits(a) && |x| > 0 && !IsDigit(x[0])
    ensures !IsDigit((a + x)[|a|])
    ensures forall k :: 0 <= k < |a| ==> IsDigit((a + x)[k])
  {
  }

  /** A numeral followed by a non-digit is read off unambiguously. */
  lemma DigitRunsAlign(a: string, b: string, x: string, y: string)
    requires AllDigits(a) && AllDigits(b)
    requires |x| > 0 && !IsDigit(x[0]) && |y| > 0 && !IsDigit(y[0])
    requires a + x == b + y
    ensures a == b && x == y
  {
    var s := a + x;
    FirstNonDigit(a, x);
    FirstNonDigit(b, y);
    assert |a| == |b|;
    assert a == s[..|a|] && b == s[..|b|];
  }

  // ---------------------------------------------------------------------
  // Slugs and display clipping
  // ---------------------------------------------------------------------

  /** Python `c.lower()` on the ASCII range; other characters are kept. */
  function LowerAscii(c: char): char {
    if 'A' <= c <= 'Z' then (c as int + 32) as char else c
  }

  /** `title.replace(' ', '_').lower()`: character `i` of the slug is
      character `i` of the title, with a space turned into '_' and then
      lower-cased. */
  function Slug(title: string): (r: string)
    ensures |r| == |title|
    ensures forall i :: 0 <= i < |r| ==> r[i] == LowerAscii(if title[i] == ' ' then '_' else title[i])
    ensures forall i :: 0 <= i < |r| ==> r[i] != ' ' && !('A' <= r[i] <= 'Z')
    decreases |title|
  {
    if |title| == 0 then ""
    else [LowerAscii(if title[0] == ' ' then '_' else title[0])] + Slug(title[1..])
  }

  /** Slugging a slug changes nothing. */
  lemma SlugIdempotent(title: string)
    ensures Slug(Slug(title)) == Slug(title)
  {
    var s := Slug(title);
    assert forall i :: 0 <= i < |s| ==> Slug(s)[i] == s[i];
  }

  // ---------------------------------------------------------------------
  // JavaScript string lengths
  // ---------------------------------------------------------------------

  /** The UTF-16 code units JavaScript stores for `c`: two for a character
      beyond the Basic Multilingual Plane, one otherwise. */
  function Utf16Units(c: char): nat {
    if c as int >= 0x1_0000 then 2 else 1
  }

  /** JavaScript's `.length`: the number of UTF-16 code units. */
  function JsLength(s: string): (n: nat)
    ensures |s| <= n <= 2 * |s|
  {
    if s == [] then 0 else Utf16Units(s[0]) + JsLength(s[1..])
  }

  lemma {:induction false} JsLengthAppend(a: string, b: string)
    ensures JsLength(a + b) == JsLength(a) + JsLength(b)
    decreases |a|
  {
    if a == [] {
      assert a + b == b;
    } else {
      assert (a + b)[0] == a[0] && (a + b)[1..] == a[1..] + b;
      JsLengthAppend(a[1..], b);
    }
  }

  /** A longer prefix never has fewer code units. */
  lemma PrefixUnitsMonotone(s: string, i: nat, j: nat)
    requires i <= j <= |s|
    ensures JsLength(s[..i]) <= JsLength(s[..j])
  {
    assert s[..j] == s[..i] + s[i..j];
    JsLengthAppend(s[..i], s[i..j]);
  }

  /** Each character of a string whose length in code units is its length
      in characters takes one unit, so its prefixes do too. */
  lemma BmpPrefix(s: string, k: nat)
    requires JsLength(s) == |s| && k <= |s|
    ensures JsLength(s[..k]) == k
  {
    assert s == s[..k] + s[k..];
    JsLengthAppend(s[..k], s[k..]);
  }

  /** `r` is what `s.slice(0, n) + (s.length > n ? '…' : '')` shows: `s`
      itself when it has at most `n` code units, otherwise the longest run
      of whole characters within `n` units followed by an ellipsis. */
  predicate ClippedTo(s: string, n: nat, r: string) {
    if JsLength(s) <= n then r == s
    else exists k :: 0 <= k < |s| && r == s[..k] + "\U{2026}" && JsLength(s[..k]) <= n < JsLength(s[..k + 1])
  }

  /** The number of leading whole characters that fit in `n` code units. */
  function FitChars(s: string, n: nat): (k: nat)
    ensures k <= |s| && JsLength(s[..k]) <= n
    ensures k < |s| ==> n < JsLength(s[..k + 1])
    decreases |s|
  {
    if s == [] || Utf16Units(s[0]) > n then 0
    else
      var k := 1 + FitChars(s[1..], n - Utf16Units(s[0]));
      assert s[..k][1..] == s[1..][..k - 1];
      assert k < |s| ==> s[..k + 1][1..] == s[1..][..k];
      k
  }

  /** The clip of a string to `n` code units, as shown under a preview or
      a chapter card. */
  function Clip(s: string, n: nat): (r: string)
    ensures ClippedTo(s, n, r)
    ensures JsLength(s) == |s| && |s| > n ==> r == s[..n] + "\U{2026}"
  {
    if JsLength(s) <= n then s
    else
      var k := FitChars(s, n);
      assert s[..|s|] == s;
      FitCharsBmp(s, n);
      s[..k] + "\U{2026}"
  }

  /** Without characters beyond the Basic Multilingual Plane, `n` code
      units hold `n` characters. */
  lemma FitCharsBmp(s: string, n: nat)
    ensures JsLength(s) == |s| && n < |s| ==> FitChars(s, n) == n
  {
    if JsLength(s) == |s| && n < |s| {
      var k := FitChars(s, n);
      BmpPrefix(s, k);
      if k < |s| {
        BmpPrefix(s, k + 1);
      }
    }
  }

  /** There is one way to clip a string. */
  lemma ClippedToUnique(s: string, n: nat, r1: string, r2: string)
    requires ClippedTo(s, n, r1) && ClippedTo(s, n, r2)
    ensures r1 == r2
  {
    if JsLength(s) > n {
      var k1 :| 0 <= k1 < |s| && r1 == s[..k1] + "\U{2026}" && JsLength(s[..k1]) <= n < JsLength(s[..k1 + 1]);
      var k2 :| 0 <= k2 < |s| && r2 == s[..k2] + "\U{2026}" && JsLength(s[..k2]) <= n < JsLength(s[..k2 + 1]);
      CutUnique(s, n, k1, k2);
    }
  }

  /** The cut is the one place where the prefix still fits and one more
      character would not. */
  lemma CutUnique(s: string, n: nat, k1: nat, k2: nat)
    requires k1 < |s| && JsLength(s[..k1]) <= n < JsLength(s[..k1 + 1])
    requires k2 < |s| && JsLength(s[..k2]) <= n < JsLength(s[..k2 + 1])
    ensures k1 == k2
  {
    if k1 < k2 {
      PrefixUnitsMonotone(s, k1 + 1, k2);
    } else if k2 < k1 {
      PrefixUnitsMonotone(s, k2 + 1, k1);
    }
  }

  // ---------------------------------------------------------------------
  // Python repr of a string
  // ---------------------------------------------------------------------

  /** The quote `repr` puts around `s`: a double quote when `s` holds a
      single quote and no double quote, a single quote otherwise. */
  function ReprQuote(s: string): char {
    if '\'' in s && '"' !in s then '"' else '\''
  }

  function HexDigit(d: nat): (c: char)
    requires d < 16
  {
    if d < 10 then (48 + d) as char else (87 + d) as char
  }

  predicate IsHexDigit(c: char) {
    '0' <= c <= '9' || 'a' <= c <= 'f'
  }

  function HexValue(c: char): (d: nat)
    requires IsHexDigit(c)
    ensures d < 16
  {
    if c <= '9' then c as int - 48 else c as int - 87
  }

  /** How `repr` writes one character between the quotes `q`: the quote and
      the backslash escaped, tab, newline and return by name, other ASCII
      control characters as `\xhh`, and everything else as itself. */
  function EscapeChar(c: char, q: char): string {
    if c == q || c == '\\' then ['\\', c]
    else if c == '\t' then "\\t"
    else if c == '\n' then "\\n"
    else if c == '\r' then "\\r"
    else if c < ' ' || c as int == 0x7f then ['\\', 'x', HexDigit(c as int / 16), HexDigit(c as int % 16)]
    else [c]
  }

  function Escape(s: string, q: char): string {
    if s == [] then [] else EscapeChar(s[0], q) + Escape(s[1..], q)
  }

  /** Python's `repr(s)` of a string. */
  function PyRepr(s: string): (r: string)
    ensures |r| >= |s| + 2
    ensures r[0] == r[|r| - 1] == ReprQuote(s)
    ensures Unquote(r) == Some(s)
  {
    var q := ReprQuote(s);
    EscapeRoundTrip(s, q);
    EscapeLength(s, q);
    [q] + Escape(s, q) + [q]
  }

  lemma {:induction false} EscapeLength(s: string, q: char)
    ensures |Escape(s, q)| >= |s|
    decreases |s|
  {
    if s != [] {
      EscapeLength(s[1..], q);
    }
  }

  function PrependTo(c: char, o: Option<string>): Option<string> {
    if o.Some? then Some([c] + o.value) else None
  }

  /** Reads back what `Escape` writes between the quotes `q`; `None` for
      an unescaped quote or an unknown escape. */
  function Unescape(t: string, q: char): (r: Option<string>)
    decreases |t|
  {
    if t == [] then Some([])
    else if t[0] == q then None
    else if t[0] != '\\' then PrependTo(t[0], Unescape(t[1..], q))
    else if |t| < 2 then None
    else if t[1] == q || t[1] == '\\' then PrependTo(t[1], Unescape(t[2..], q))
    else if t[1] == 't' then PrependTo('\t', Unescape(t[2..], q))
    else if t[1] == 'n' then PrependTo('\n', Unescape(t[2..], q))
    else if t[1] == 'r' then PrependTo('\r', Unescape(t[2..], q))
    else if t[1] == 'x' && |t| >= 4 && IsHexDigit(t[2]) && IsHexDigit(t[3]) then
      PrependTo((16 * HexValue(t[2]) + HexValue(t[3])) as char, Unescape(t[4..], q))
    else None
  }

  /** Reads a quoted `repr` back to the string it shows. */
  function Unquote(r: string): Option<string> {
    if |r| >= 2 && (r[0] == '\'' || r[0] == '"') && r[|r| - 1] == r[0] then Unescape(r[1..|r| - 1], r[0])
    else None
  }

  lemma UnescapeChar(c: char, q: char, rest: string)
    requires q == '\'' || q == '"'
    ensures Unescape(EscapeChar(c, q) + rest, q) == PrependTo(c, Unescape(rest, q))
  {
    var e := EscapeChar(c, q);
    var t := e + rest;
    if |e| == 1 {
      assert t[1..] == rest;
    } else if |e| == 2 {
      assert t[2..] == rest;
    } else {
      assert t[4..] == rest;
      assert (16 * HexValue(t[2]) + HexValue(t[3])) == c as int;
    }
  }

  lemma {:induction false} EscapeRoundTrip(s: string, q: char)
    requires q == '\'' || q == '"'
    ensures Unescape(Escape(s, q), q) == Some(s)
    decreases |s|
  {
    if s != [] {
      UnescapeChar(s[0], q, Escape(s[1..], q));
      EscapeRoundTrip(s[1..], q);
      assert [s[0]] + s[1..] == s;
    }
  }
}
