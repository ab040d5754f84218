/** Human-readable durations: the front end's `formatDuration` in
    frontend/src/steps/AudiobookStep.tsx and the server's `format_duration`
    in src/make_a_book/tts_time_estimator.py. Both print space-separated
    `<number><unit>` tokens. `ReadClock` and `ReadDuration` accept exactly
    the texts each format prints and read them back; the round-trip lemmas
    in both directions make each format a bijection onto its reader's
    language. */
module Duration {
  import opened Js
  import opened Text

  /** A number of seconds split into hours, minutes and seconds. */
  datatype Parts = Parts(hours: nat, minutes: nat, seconds: nat)

  /** The two `divmod` steps of `format_duration`. */
  function SplitSeconds(n: nat): (p: Parts)
    ensures p.hours * 3600 + p.minutes * 60 + p.seconds == n
    ensures p.minutes < 60 && p.seconds < 60
  {
    Parts((n / 60) / 60, (n / 60) % 60, n % 60)
  }

  /** `formatDuration(seconds)` of the audiobook step, for whole seconds:
      plain seconds below a minute, otherwise minutes and seconds. */
  function FormatClock(seconds: int): (r: string)
    ensures |r| >= 2 && r[|r| - 1] == 's'
    ensures seconds < 0 ==> r[0] == '-'
    ensures 'm' in r <==> seconds >= 60
  {
    if seconds < 60 then
      assert 'm' !in IntToString(seconds) by {
        if seconds < 0 {
          DigitsLackMarker(IntToString(seconds)[1..], 'm');
        } else {
          DigitsLackMarker(IntToString(seconds), 'm');
        }
      }
      IntToString(seconds) + "s"
    else
      var r := NatToString(seconds / 60) + "m " + NatToString(seconds % 60) + "s";
      assert r[|NatToString(seconds / 60)|] == 'm';
      r
  }

  /** `format_duration(seconds)` of the estimator: "0s" for anything not
      positive, hours and minutes (seconds dropped) from one hour up, then
      minutes and seconds, then seconds alone. */
  function FormatDuration(seconds: int): (r: string)
    ensures seconds <= 0 ==> r == "0s"
    ensures |r| >= 2
    ensures seconds >= 3600 ==> r[|r| - 1] == 'm'
    ensures seconds < 3600 ==> r[|r| - 1] == 's'
  {
    if seconds <= 0 then "0s"
    else
      var p := SplitSeconds(seconds);
      if p.hours != 0 then NatToString(p.hours) + "h " + NatToString(p.minutes) + "m"
      else if p.minutes != 0 then NatToString(p.minutes) + "m " + NatToString(p.seconds) + "s"
      else NatToString(p.seconds) + "s"
  }

  // ---------------------------------------------------------------------
  // Reading durations back
  // ---------------------------------------------------------------------

  /** One `<number><unit>` token. */
  datatype Token = Token(value: nat, unit: char)

  /** A canonical numeral followed by one character. */
  function ReadToken(t: string): Option<Token> {
    if |t| >= 2 && Canonical(t[..|t| - 1]) then Some(Token(DigitsValue(t[..|t| - 1]), t[|t| - 1]))
    else None
  }

  /** The value of a one-token text: seconds below a minute. */
  function SecondsOf(a: Token): Option<nat> {
    if a.unit == 's' && a.value < 60 then Some(a.value) else None
  }

  /** The value of `<m>m <s>s` with m at least `minMinutes`, m below
      `maxMinutes` when one is given, and s below 60. */
  function MinutesOf(a: Token, b: Token, maxMinutes: Option<nat>): Option<nat> {
    if a.unit == 'm' && b.unit == 's' && a.value >= 1 && b.value < 60
       && (maxMinutes.None? || a.value < maxMinutes.value)
    then Some(60 * a.value + b.value)
    else None
  }

  /** The value of `<h>h <m>m` with h at least 1 and m below 60. */
  function HoursOf(a: Token, b: Token): Option<nat> {
    if a.unit == 'h' && b.unit == 'm' && a.value >= 1 && b.value < 60 then Some(3600 * a.value + 60 * b.value)
    else None
  }

  /** The text `formatDuration` of the audiobook step prints for a
      non-negative number of seconds: `<s>s` with s below 60, or
      `<m>m <s>s` with m at least 1 and s below 60. */
  function ReadClock(s: string): Option<nat> {
    var ps := SplitOn(s, " ");
    if |ps| == 1 && ReadToken(ps[0]).Some? then SecondsOf(ReadToken(ps[0]).value)
    else if |ps| == 2 && ReadToken(ps[0]).Some? && ReadToken(ps[1]).Some? then
      MinutesOf(ReadToken(ps[0]).value, ReadToken(ps[1]).value, None)
    else None
  }

  /** The text `format_duration` prints: `<s>s` with s below 60,
      `<m>m <s>s` with m in 1..59 and s below 60, or `<h>h <m>m` with h at
      least 1 and m below 60. The value is the duration shown, in seconds. */
  function ReadDuration(s: string): Option<nat> {
    var ps := SplitOn(s, " ");
    if |ps| == 1 && ReadToken(ps[0]).Some? then SecondsOf(ReadToken(ps[0]).value)
    else if |ps| == 2 && ReadToken(ps[0]).Some? && ReadToken(ps[1]).Some? then
      var a, b := ReadToken(ps[0]).value, ReadToken(ps[1]).value;
      if a.unit == 'h' then HoursOf(a, b) else MinutesOf(a, b, Some(60))
    else None
  }

  /** A printed token reads back as its number and unit and holds no
      space. */
  lemma TokenRoundTrip(v: nat, u: char)
    requires u != ' ' && !IsDigit(u)
    ensures ' ' !in NatToString(v) + [u]
    ensures ReadToken(NatToString(v) + [u]) == Some(Token(v, u))
  {
    var t := NatToString(v) + [u];
    DigitsLackMarker(NatToString(v), ' ');
    assert t[..|t| - 1] == NatToString(v);
    NatToStringCanonical(v);
    ParseNatToString(v);
  }

  /** A token that reads is the printed form of what it reads as. */
  lemma TokenReadBack(t: string)
    requires ReadToken(t).Some?
    ensures t == NatToString(ReadToken(t).value.value) + [ReadToken(t).value.unit]
  {
    CanonicalPrints(t[..|t| - 1]);
    assert t == t[..|t| - 1] + [t[|t| - 1]];
  }

  /** One printed token is read as that token. */
  lemma OneToken(a: nat, u: char)
    requires u != ' ' && !IsDigit(u)
    ensures ReadClock(NatToString(a) + [u]) == SecondsOf(Token(a, u))
    ensures ReadDuration(NatToString(a) + [u]) == SecondsOf(Token(a, u))
  {
    var t := NatToString(a) + [u];
    TokenRoundTrip(a, u);
    SplitOnAbsent(t, " ");
    ReadOne(t, t);
  }

  /** Two printed tokens and the space between them are read as those two
      tokens. */
  lemma TwoTokens(a: nat, u: char, b: nat, w: char)
    requires u != ' ' && !IsDigit(u) && w != ' ' && !IsDigit(w)
    ensures ReadClock(NatToString(a) + [u, ' '] + NatToString(b) + [w])
         == MinutesOf(Token(a, u), Token(b, w), None)
    ensures ReadDuration(NatToString(a) + [u, ' '] + NatToString(b) + [w])
         == if u == 'h' then HoursOf(Token(a, u), Token(b, w)) else MinutesOf(Token(a, u), Token(b, w), Some(60))
  {
    var x := NatToString(a) + [u];
    var y := NatToString(b) + [w];
    TokenRoundTrip(a, u);
    TokenRoundTrip(b, w);
    assert NatToString(a) + [u, ' '] + NatToString(b) + [w] == x + " " + y;
    SplitOnFirst(x, " ", y);
    SplitOnAbsent(y, " ");
    ReadTwo(x + " " + y, x, y);
  }

  /** Reading a text that is one piece. */
  lemma ReadOne(t: string, x: string)
    requires SplitOn(t, " ") == [x] && ReadToken(x).Some?
    ensures ReadClock(t) == SecondsOf(ReadToken(x).value)
    ensures ReadDuration(t) == SecondsOf(ReadToken(x).value)
  {
  }

  /** Reading a text that is two pieces. */
  lemma ReadTwo(t: string, x: string, y: string)
    requires SplitOn(t, " ") == [x, y] && ReadToken(x).Some? && ReadToken(y).Some?
    ensures ReadClock(t) == MinutesOf(ReadToken(x).value, ReadToken(y).value, None)
    ensures ReadDuration(t) == if ReadToken(x).value.unit == 'h' then HoursOf(ReadToken(x).value, ReadToken(y).value)
                               else MinutesOf(ReadToken(x).value, ReadToken(y).value, Some(60))
  {
  }

  /** A text that splits into one or two pieces is those pieces, joined by
      the space. */
  lemma SplitBack(s: string)
    ensures |SplitOn(s, " ")| == 1 ==> s == SplitOn(s, " ")[0]
    ensures |SplitOn(s, " ")| == 2 ==> s == SplitOn(s, " ")[0] + " " + SplitOn(s, " ")[1]
  {
    var ps := SplitOn(s, " ");
    JoinSplit(s, " ");
    if |ps| == 2 {
      assert ps[1..] == [ps[1]];
    }
  }

  /** What `formatDuration` prints below a minute. */
  lemma ClockOfSeconds(n: nat)
    requires n < 60
    ensures FormatClock(n) == NatToString(n) + ['s']
  {
  }

  /** What `formatDuration` prints from one minute up. */
  lemma ClockOfMinutes(m: nat, s: nat)
    requires m >= 1 && s < 60
    ensures FormatClock(60 * m + s) == NatToString(m) + ['m', ' '] + NatToString(s) + ['s']
  {
    DivMod60(m, s);
  }

  /** Whole minutes and the remaining seconds. */
  lemma DivMod60(q: nat, r: nat)
    requires r < 60
    ensures (60 * q + r) / 60 == q && (60 * q + r) % 60 == r
  {
  }

  /** A token, the space and the next text, glued. */
  lemma Glue(x: string, u: char, y: string, w: char)
    ensures (x + [u]) + " " + (y + [w]) == x + [u, ' '] + y + [w]
  {
    assert (x + [u]) + " " + (y + [w]) == x + [u, ' '] + (y + [w]);
  }

  /** The audiobook step prints every non-negative duration unambiguously:
      reading the text back gives the number of seconds. */
  lemma FormatClockRoundTrip(seconds: int)
    requires seconds >= 0
    ensures ReadClock(FormatClock(seconds)) == Some(seconds)
  {
    if seconds < 60 {
      ClockOfSeconds(seconds);
      OneToken(seconds, 's');
    } else {
      var m, s := seconds / 60, seconds % 60;
      ClockOfMinutes(m, s);
      TwoTokens(m, 'm', s, 's');
    }
  }

  /** Every text the clock reader accepts is the one `formatDuration`
      prints for its value: no other spelling (leading zeros, "0m",
      seconds of 60 or more) is read. */
  lemma ClockReadBack(t: string)
    requires ReadClock(t).Some?
    ensures FormatClock(ReadClock(t).value) == t
  {
    var ps := SplitOn(t, " ");
    SplitBack(t);
    if |ps| == 1 {
      ClockBackOne(ps[0]);
    } else {
      ClockBackTwo(ps[0], ps[1]);
    }
  }

  lemma ClockBackOne(x: string)
    requires ReadToken(x).Some? && SecondsOf(ReadToken(x).value).Some?
    ensures FormatClock(SecondsOf(ReadToken(x).value).value) == x
  {
    TokenReadBack(x);
    ClockOfSeconds(ReadToken(x).value.value);
  }

  lemma ClockBackTwo(x: string, y: string)
    requires ReadToken(x).Some? && ReadToken(y).Some?
    requires MinutesOf(ReadToken(x).value, ReadToken(y).value, None).Some?
    ensures FormatClock(MinutesOf(ReadToken(x).value, ReadToken(y).value, None).value) == x + " " + y
  {
    var a, b := ReadToken(x).value, ReadToken(y).value;
    assert MinutesOf(a, b, None).value == 60 * a.value + b.value;
    TokenReadBack(x);
    TokenReadBack(y);
    assert x + " " + y == NatToString(a.value) + ['m', ' '] + NatToString(b.value) + ['s'] by {
      Glue(NatToString(a.value), 'm', NatToString(b.value), 's');
    }
    ClockOfMinutes(a.value, b.value);
  }

  /** Distinct non-negative durations are displayed differently. */
  lemma FormatClockInjective(a: int, b: int)
    requires a >= 0 && b >= 0 && FormatClock(a) == FormatClock(b)
    ensures a == b
  {
    FormatClockRoundTrip(a);
    FormatClockRoundTrip(b);
  }

  /** What `format_duration` prints below a minute. */
  lemma DurationOfSeconds(n: nat)
    requires n < 60
    ensures FormatDuration(n) == NatToString(n) + ['s']
  {
    if n == 0 {
      assert NatToString(0) + ['s'] == "0s";
    } else {
      assert SplitSeconds(n) == Parts(0, 0, n);
    }
  }

  /** What `format_duration` prints from one minute to below an hour. */
  lemma DurationOfMinutes(m: nat, s: nat)
    requires 1 <= m < 60 && s < 60
    ensures FormatDuration(60 * m + s) == NatToString(m) + ['m', ' '] + NatToString(s) + ['s']
  {
    DivMod60(m, s);
    DivMod60(0, m);
    assert SplitSeconds(60 * m + s) == Parts(0, m, s);
  }

  /** What `format_duration` prints from one hour up: the seconds are
      dropped. */
  lemma DurationOfHours(h: nat, m: nat, s: nat)
    requires h >= 1 && m < 60 && s < 60
    ensures FormatDuration(3600 * h + 60 * m + s) == NatToString(h) + ['h', ' '] + NatToString(m) + ['m']
  {
    var n := 3600 * h + 60 * m + s;
    assert n == 60 * (60 * h + m) + s;
    DivMod60(60 * h + m, s);
    DivMod60(h, m);
    assert SplitSeconds(n) == Parts(h, m, s);
  }

  /** What `format_duration` keeps of its input: nothing for non-positive
      values, the whole duration under an hour, and the duration rounded
      down to whole minutes from one hour up (the seconds are dropped). */
  lemma FormatDurationRoundTrip(seconds: int)
    ensures ReadDuration(FormatDuration(seconds))
         == Some(if seconds <= 0 then 0
                 else if seconds >= 3600 then seconds - seconds % 60
                 else seconds)
  {
    if seconds <= 0 {
      DurationOfSeconds(0);
      OneToken(0, 's');
    } else {
      var p := SplitSeconds(seconds);
      if p.hours != 0 {
        DurationOfHours(p.hours, p.minutes, p.seconds);
        TwoTokens(p.hours, 'h', p.minutes, 'm');
        assert seconds % 60 == p.seconds;
      } else if p.minutes != 0 {
        DurationOfMinutes(p.minutes, p.seconds);
        TwoTokens(p.minutes, 'm', p.seconds, 's');
      } else {
        DurationOfSeconds(p.seconds);
        OneToken(p.seconds, 's');
      }
    }
  }

  /** Every text the duration reader accepts is the one `format_duration`
      prints for its value. */
  lemma DurationReadBack(t: string)
    requires ReadDuration(t).Some?
    ensures FormatDuration(ReadDuration(t).value) == t
  {
    var ps := SplitOn(t, " ");
    SplitBack(t);
    if |ps| == 1 {
      DurationBackOne(ps[0]);
    } else if ReadToken(ps[0]).value.unit == 'h' {
      DurationBackHours(ps[0], ps[1]);
    } else {
      DurationBackMinutes(ps[0], ps[1]);
    }
  }

  lemma DurationBackOne(x: string)
    requires ReadToken(x).Some? && SecondsOf(ReadToken(x).value).Some?
    ensures FormatDuration(SecondsOf(ReadToken(x).value).value) == x
  {
    TokenReadBack(x);
    DurationOfSeconds(ReadToken(x).value.value);
  }

  lemma DurationBackMinutes(x: string, y: string)
    requires ReadToken(x).Some? && ReadToken(y).Some?
    requires MinutesOf(ReadToken(x).value, ReadToken(y).value, Some(60)).Some?
    ensures FormatDuration(MinutesOf(ReadToken(x).value, ReadToken(y).value, Some(60)).value) == x + " " + y
  {
    var a, b := ReadToken(x).value, ReadToken(y).value;
    TokenReadBack(x);
    TokenReadBack(y);
    DurationOfMinutes(a.value, b.value);
    Glue(NatToString(a.value), 'm', NatToString(b.value), 's');
  }

  lemma DurationBackHours(x: string, y: string)
    requires ReadToken(x).Some? && ReadToken(y).Some?
    requires HoursOf(ReadToken(x).value, ReadToken(y).value).Some?
    ensures FormatDuration(HoursOf(ReadToken(x).value, ReadToken(y).value).value) == x + " " + y
  {
    var a, b := ReadToken(x).value, ReadToken(y).value;
    TokenReadBack(x);
    TokenReadBack(y);
    DurationOfHours(a.value, b.value, 0);
    Glue(NatToString(a.value), 'h', NatToString(b.value), 'm');
  }
}
