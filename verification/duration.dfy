/**
 * The display form of a track's packed duration (`minutes * 100 + seconds`), as the
 * service's response formatter writes it: whole minutes by `Math.floor(d / 100)`, then a
 * colon, then JavaScript's `d % 100` left-padded with '0' to two characters. Seconds
 * are never clamped, and every integer is covered, negative ones included.
 */
module Duration {
  import opened Wrappers
  import opened Decimal

  /** Whole minutes, `Math.floor(d / 100)`: the greatest `m` with `m * 100 <= d`. */
  function Minutes(d: int): (m: int)
    ensures m * 100 <= d < m * 100 + 100
  {
    d / 100
  }

  /** Seconds, JavaScript's `d % 100`: truncating, so the remainder takes the sign of `d`. */
  function Seconds(d: int): (r: int)
    ensures -100 < r < 100
    ensures d >= 0 ==> r >= 0
    ensures d <= 0 ==> r <= 0
    ensures (d - r) % 100 == 0
  {
    if d >= 0 then
      MultipleOf100(d / 100);
      d % 100
    else
      MultipleOf100(-((-d) / 100));
      -((-d) % 100)
  }

  lemma MultipleOf100(q: int)
    ensures (q * 100) % 100 == 0
  {
  }

  /** `s.padStart(2, '0')`: prefix zeroes until the text is two characters long. */
  function PadStart2(s: string): (r: string)
    ensures |r| == if |s| >= 2 then |s| else 2
    ensures r[|r| - |s|..] == s
    ensures forall i :: 0 <= i < |r| - |s| ==> r[i] == '0'
  {
    if |s| >= 2 then s else if |s| == 1 then "0" + s else "00"
  }

  /** The `M:SS` text the formatter renders for a packed duration. */
  function FormatDuration(d: int): string
  {
    IntToString(Minutes(d)) + ":" + PadStart2(IntToString(Seconds(d)))
  }

  /** Splits a text at its first colon; `None` when it has none. */
  function SplitAtColon(s: string): (r: Option<(string, string)>)
    ensures r.Some? <==> ':' in s
    ensures r.Some? ==> ':' !in r.value.0 && s == r.value.0 + ":" + r.value.1
  {
    if s == [] then None
    else if s[0] == ':' then Some(([], s[1..]))
    else match SplitAtColon(s[1..])
      case None => None
      case Some(parts) => Some(([s[0]] + parts.0, parts.1))
  }

  /** Reads a rendered duration back into its minutes and seconds numbers. */
  function ReadDuration(s: string): Option<(int, int)>
  {
    match SplitAtColon(s)
    case None => None
    case Some(parts) =>
      match (ParseInt(parts.0), ParseInt(parts.1))
      case (Some(m), Some(sec)) => Some((m, sec))
      case _ => None
  }

  /** Reads a rendered duration back into the packed integer `minutes * 100 + seconds`. */
  function ReadPacked(s: string): Option<int>
  {
    match ReadDuration(s)
    case None => None
    case Some(ms) => Some(ms.0 * 100 + ms.1)
  }

  /** A text without a colon is the part before the first colon of itself followed by a colon. */
  lemma {:induction false} SplitAtColonOf(a: string, b: string)
    requires ':' !in a
    ensures SplitAtColon(a + ":" + b) == Some((a, b))
    decreases |a|
  {
    if a == [] {
      assert a + ":" + b == [':'] + b;
    } else {
      var s := a + ":" + b;
      assert s[0] == a[0] && s[1..] == a[1..] + ":" + b;
      SplitAtColonOf(a[1..], b);
      assert [a[0]] + a[1..] == a;
    }
  }

  /** The seconds text (JavaScript's remainder, padded) reads back as the remainder. */
  lemma SecondsRoundTrip(x: int)
    requires -100 < x < 100
    ensures ParseInt(PadStart2(IntToString(x))) == Some(x)
  {
    var t := IntToString(x);
    IntToStringRoundTrip(x);
    if 0 <= x < 10 {
      assert t == [DigitChar(x)];
      LeadingZero(t);
      assert PadStart2(t) == "0" + t;
    }
  }

  /** For every integer, the rendered text reads back as `Math.floor(d / 100)` and `d % 100`. */
  lemma FormatDurationReadsBack(d: int)
    ensures ReadDuration(FormatDuration(d)) == Some((Minutes(d), Seconds(d)))
  {
    var minutes := IntToString(Minutes(d));
    var seconds := PadStart2(IntToString(Seconds(d)));
    SplitAtColonOf(minutes, seconds);
    IntToStringRoundTrip(Minutes(d));
    SecondsRoundTrip(Seconds(d));
  }

  /** The packed reading of a text is its minutes times 100 plus its seconds. */
  lemma PackedOf(s: string)
    ensures ReadDuration(s).Some? ==> ReadPacked(s) == Some(ReadDuration(s).value.0 * 100 + ReadDuration(s).value.1)
    ensures ReadDuration(s).None? ==> ReadPacked(s).None?
  {
  }

  /** Minutes and seconds recombine to `d` exactly when the seconds are the Euclidean remainder. */
  lemma Recombine(d: int)
    ensures Minutes(d) * 100 + Seconds(d) == d <==> Seconds(d) == d % 100
  {
    assert Minutes(d) == d / 100;
  }

  /** Round trip: a non-negative packed duration is recovered from its display text. */
  lemma FormatDurationRoundTrip(d: int)
    requires d >= 0
    ensures ReadPacked(FormatDuration(d)) == Some(d)
  {
    var text := FormatDuration(d);
    FormatDurationReadsBack(d);
    PackedOf(text);
    WholeRecombines(d);
  }

  /** A non-negative duration is its minutes times 100 plus its seconds. */
  lemma WholeRecombines(d: int)
    requires d >= 0
    ensures Minutes(d) * 100 + Seconds(d) == d
  {
    Recombine(d);
  }

  /**
   * A negative duration is recovered only when it is a whole number of minutes: for the
   * others the floor and the truncating remainder disagree (-5 renders as "-1:-5").
   */
  lemma NegativeDurationRoundTrip(d: int)
    requires d < 0
    ensures ReadPacked(FormatDuration(d)) == Some(d) <==> d % 100 == 0
  {
    FormatDurationReadsBack(d);
    PackedOf(FormatDuration(d));
    Recombine(d);
    NegativeSeconds(d);
  }

  /** For negative `d`, JavaScript's remainder equals the Euclidean one only when both are 0. */
  lemma NegativeSeconds(d: int)
    requires d < 0
    ensures Seconds(d) == d % 100 <==> d % 100 == 0
  {
    var r := (-d) % 100;
    assert Seconds(d) == -r;
    if d % 100 == 0 {
      assert d == (d / 100) * 100;
      assert -d == (-(d / 100)) * 100;
      assert r == 0;
    }
  }

  /** For a non-negative duration the text is the minutes digits, a colon and two seconds digits. */
  lemma NonNegativeParts(d: int)
    requires d >= 0
    ensures FormatDuration(d) == NatToString(d / 100) + ":" + PadStart2(NatToString(d % 100))
  {
  }

  /** Two digit characters for a remainder below 100. */
  lemma TwoDigits(x: nat)
    requires x < 100
    ensures var t := PadStart2(NatToString(x));
      |t| == 2 && IsDigit(t[0]) && IsDigit(t[1]) && DigitValue(t[0]) * 10 + DigitValue(t[1]) == x
  {
    if x >= 10 {
      assert NatToString(x) == NatToString(x / 10) + [DigitChar(x % 10)];
      assert NatToString(x / 10) == [DigitChar(x / 10)];
    } else {
      assert NatToString(x) == [DigitChar(x)];
    }
  }

  /**
   * `f` has the `M:SS` shape: digits worth `minutes`, a colon, then exactly two digits worth
   * `seconds`.
   */
  predicate ShowsMinutesSeconds(f: string, minutes: int, seconds: int)
  {
    && |f| >= 4 && f[|f| - 3] == ':'
    && AllDigits(f[..|f| - 3]) && DigitsValue(f[..|f| - 3]) == minutes
    && IsDigit(f[|f| - 2]) && IsDigit(f[|f| - 1])
    && DigitValue(f[|f| - 2]) * 10 + DigitValue(f[|f| - 1]) == seconds
  }

  /**
   * The text of a non-negative duration shows `d / 100` minutes and `d % 100` seconds, the
   * seconds unclamped (199 shows 99 seconds).
   */
  lemma FormatDurationShape(d: int)
    requires d >= 0
    ensures ShowsMinutesSeconds(FormatDuration(d), d / 100, d % 100)
  {
    NonNegativeParts(d);
    TwoDigits(d % 100);
    NatToStringRoundTrip(d / 100);
    JoinedShape(NatToString(d / 100), PadStart2(NatToString(d % 100)));
  }

  /** Digits, a colon and two digits form the `M:SS` shape. */
  lemma JoinedShape(minutes: string, seconds: string)
    requires |minutes| >= 1 && AllDigits(minutes)
    requires |seconds| == 2 && IsDigit(seconds[0]) && IsDigit(seconds[1])
    ensures ShowsMinutesSeconds(minutes + ":" + seconds, DigitsValue(minutes),
      DigitValue(seconds[0]) * 10 + DigitValue(seconds[1]))
  {
    var f := minutes + ":" + seconds;
    assert f[..|f| - 3] == minutes;
  }

  /** A non-negative duration renders as its minutes' digits, a colon and its padded seconds' digits. */
  lemma RenderedAs(d: int, minutes: nat, seconds: nat, text: string)
    requires d >= 0 && d / 100 == minutes && d % 100 == seconds
    requires NatToString(minutes) + ":" + PadStart2(NatToString(seconds)) == text
    ensures FormatDuration(d) == text
  {
    NonNegativeParts(d);
  }

  /** The renderings of whole and part minutes: 245 as "2:45", 100 as "1:00", 59 as "0:59". */
  lemma FormatDurationExamples()
    ensures FormatDuration(245) == "2:45"
    ensures FormatDuration(100) == "1:00"
    ensures FormatDuration(59) == "0:59"
  {
    RenderedAs(245, 2, 45, "2:45");
    RenderedAs(100, 1, 0, "1:00");
    RenderedAs(59, 0, 59, "0:59");
  }

  /** Seconds are not clamped (199 renders as "1:99"); 325 renders as "3:25". */
  lemma FormatDurationUnclamped()
    ensures FormatDuration(199) == "1:99"
    ensures FormatDuration(325) == "3:25"
  {
    RenderedAs(199, 1, 99, "1:99");
    RenderedAs(325, 3, 25, "3:25");
  }

  /** A negative duration shows the floored minutes and a negative remainder. */
  lemma FormatDurationNegativeExample()
    ensures FormatDuration(-5) == "-1:-5"
  {
    assert Minutes(-5) == -1 && Seconds(-5) == -5;
  }
}
