/** TimeHelper.FromTimeSpan: a duration written as "1 day 2 hours 5 secs".

    A TimeSpan is its count of 100-nanosecond ticks; its Days, Hours, Minutes and
    Seconds components are derived from the ticks with C#'s truncating division,
    so every component of a negative span is zero or negative. */
module TimeHelper {
  import opened StringExtensions

  const TicksPerSecond: int := 10_000_000
  const TicksPerMinute: int := 600_000_000
  const TicksPerHour: int := 36_000_000_000
  const TicksPerDay: int := 864_000_000_000

  datatype TimeSpan = TimeSpan(ticks: int)

  /** C#'s `/` on integers: the quotient truncated toward zero. */
  function TruncDiv(a: int, b: int): (q: int)
    requires b > 0
    ensures a >= 0 ==> q >= 0 && q * b <= a < q * b + b
    ensures a < 0 ==> q <= 0 && q * b - b < a <= q * b
  {
    if a >= 0 then a / b else -((-a) / b)
  }

  /** C#'s `%` on integers: the remainder takes the sign of the dividend. */
  function TruncRem(a: int, b: int): (r: int)
    requires b > 0
    ensures -b < r < b
    ensures a >= 0 ==> r >= 0
    ensures a <= 0 ==> r <= 0
    ensures a == TruncDiv(a, b) * b + r
  {
    if a >= 0 then a % b else -((-a) % b)
  }

  function Days(ts: TimeSpan): int {
    TruncDiv(ts.ticks, TicksPerDay)
  }

  function Hours(ts: TimeSpan): int {
    TruncRem(TruncDiv(ts.ticks, TicksPerHour), 24)
  }

  function Minutes(ts: TimeSpan): int {
    TruncRem(TruncDiv(ts.ticks, TicksPerMinute), 60)
  }

  function Seconds(ts: TimeSpan): int {
    TruncRem(TruncDiv(ts.ticks, TicksPerSecond), 60)
  }

  lemma NegativeSpanComponents(ts: TimeSpan)
    requires ts.ticks <= 0
    ensures Days(ts) <= 0 && Hours(ts) <= 0 && Minutes(ts) <= 0 && Seconds(ts) <= 0
  {
  }

  // ---------------------------------------------------------------------------
  // Decimal rendering of a positive component (Int32.ToString)

  function DigitChar(d: nat): (c: char)
    requires d < 10
    ensures '0' <= c <= '9'
  {
    (('0' as int) + d) as char
  }

  function DigitValue(c: char): nat
    requires '0' <= c <= '9'
  {
    (c as int) - ('0' as int)
  }

  predicate AllDigits(s: string) {
    forall i :: 0 <= i < |s| ==> '0' <= s[i] <= '9'
  }

  /** The number a string of decimal digits denotes. */
  function DecimalValue(s: string): nat
    requires AllDigits(s)
  {
    if s == [] then 0 else DecimalValue(s[..|s| - 1]) * 10 + DigitValue(s[|s| - 1])
  }

  /** The decimal digits of `n`, most significant first, without leading zeros. */
  function NatToString(n: nat): (r: string)
    ensures |r| >= 1 && AllDigits(r)
    ensures DecimalValue(r) == n
    ensures n > 0 ==> r[0] != '0'
    decreases n
  {
    if n < 10 then [DigitChar(n)]
    else
      var r := NatToString(n / 10) + [DigitChar(n % 10)];
      assert r[..|r| - 1] == NatToString(n / 10);
      r
  }

  // ---------------------------------------------------------------------------
  // The rendering

  const Units: seq<string> := ["day", "hour", "min", "sec"]

  function Components(ts: TimeSpan): seq<int> {
    [Days(ts), Hours(ts), Minutes(ts), Seconds(ts)]
  }

  /** One present component, "<n> <unit>", plural when n is more than one. */
  function Part(n: nat, unit: string): string {
    NatToString(n) + " " + unit + (if n > 1 then "s" else "")
  }

  /** The parts of the positive components, in the order of the units. */
  function PresentParts(values: seq<int>, units: seq<string>): (r: seq<string>)
    requires |values| == |units|
    ensures |r| <= |values|
    decreases |values|
  {
    if values == [] then []
    else
      var n := |values| - 1;
      PresentParts(values[..n], units[..n]) + (if values[n] > 0 then [Part(values[n], units[n])] else [])
  }

  /** No part is present exactly when no component is positive. */
  lemma {:induction false} PresentPartsNone(values: seq<int>, units: seq<string>)
    requires |values| == |units|
    ensures PresentParts(values, units) == [] <==> forall i :: 0 <= i < |values| ==> values[i] <= 0
    decreases |values|
  {
    if values != [] {
      var n := |values| - 1;
      PresentPartsNone(values[..n], units[..n]);
      assert forall i :: 0 <= i < n ==> values[..n][i] == values[i];
    }
  }

  /** What FromTimeSpan promises: the present parts separated by single spaces. */
  function Describe(ts: TimeSpan): string {
    Join(PresentParts(Components(ts), Units), " ")
  }

  /** The builder's text: one space before each present part. */
  function Spaced(parts: seq<string>): string {
    if parts == [] then "" else " " + parts[0] + Spaced(parts[1..])
  }

  /** `appendPart`: appends " <n> <unit>[s]" to the builder when the part is positive. */
  method AppendPart(result: string, part: int, unit: string) returns (r: string)
    ensures r == result + Spaced(if part > 0 then [Part(part, unit)] else [])
  {
    r := result;
    if part > 0 {
      r := r + " " + Part(part, unit);
    }
  }

  method FromTimeSpan(ts: TimeSpan) returns (r: string)
    ensures r == Describe(ts)
  {
    var result := "";
    result := AppendPart(result, Days(ts), "day");
    ghost var b1 := result;
    result := AppendPart(result, Hours(ts), "hour");
    ghost var b2 := result;
    result := AppendPart(result, Minutes(ts), "min");
    ghost var b3 := result;
    result := AppendPart(result, Seconds(ts), "sec");
    BuilderSteps(Components(ts), Units, b1, b2, b3, result);
    BuilderText(ts, result);
    r := Trim(result);
  }

  /** The four appends of FromTimeSpan leave the builder holding one space before each
      present part. */
  lemma BuilderSteps(values: seq<int>, units: seq<string>, b1: string, b2: string, b3: string, b4: string)
    requires |values| == |units| == 4
    requires b1 == "" + Spaced(if values[0] > 0 then [Part(values[0], units[0])] else [])
    requires b2 == b1 + Spaced(if values[1] > 0 then [Part(values[1], units[1])] else [])
    requires b3 == b2 + Spaced(if values[2] > 0 then [Part(values[2], units[2])] else [])
    requires b4 == b3 + Spaced(if values[3] > 0 then [Part(values[3], units[3])] else [])
    ensures b4 == Spaced(PresentParts(values, units))
  {
    BuilderFirstSteps(values, units, b1, b2);
    BuilderLastSteps(values, units, b2, b3, b4);
  }

  /** The last two appends. */
  lemma BuilderLastSteps(values: seq<int>, units: seq<string>, b2: string, b3: string, b4: string)
    requires |values| == |units| == 4
    requires b2 == Spaced(PresentParts(values[..2], units[..2]))
    requires b3 == b2 + Spaced(if values[2] > 0 then [Part(values[2], units[2])] else [])
    requires b4 == b3 + Spaced(if values[3] > 0 then [Part(values[3], units[3])] else [])
    ensures b4 == Spaced(PresentParts(values, units))
  {
    BuilderStep(values, units, 2, b2);
    BuilderStep(values, units, 3, b3);
    assert values[..4] == values && units[..4] == units;
  }

  /** The first two appends. */
  lemma BuilderFirstSteps(values: seq<int>, units: seq<string>, b1: string, b2: string)
    requires |values| == |units| == 4
    requires b1 == "" + Spaced(if values[0] > 0 then [Part(values[0], units[0])] else [])
    requires b2 == b1 + Spaced(if values[1] > 0 then [Part(values[1], units[1])] else [])
    ensures b2 == Spaced(PresentParts(values[..2], units[..2]))
  {
    assert values[..0] == [] && units[..0] == [];
    BuilderStep(values, units, 0, "");
    BuilderStep(values, units, 1, b1);
  }

  /** The builder's final text is the described text with one leading space, unless
      it is empty, and trimming it gives the described text. */
  lemma BuilderText(ts: TimeSpan, text: string)
    requires text == Spaced(PresentParts(Components(ts), Units))
    ensures Trim(text) == Describe(ts)
  {
    var parts := PresentParts(Components(ts), Units);
    SpacedIsJoin(parts);
    DescribeTrimmed(ts);
    if parts != [] {
      TrimAfterSpace(Join(parts, " "));
    }
  }

  /** Appending the k-th part to the builder's text for the first k components gives
      the builder's text for the first k + 1. */
  lemma BuilderStep(values: seq<int>, units: seq<string>, k: nat, before: string)
    requires |values| == |units| && k < |values|
    requires before == Spaced(PresentParts(values[..k], units[..k]))
    ensures before + Spaced(if values[k] > 0 then [Part(values[k], units[k])] else []) ==
            Spaced(PresentParts(values[..k + 1], units[..k + 1]))
  {
    assert values[..k + 1][..k] == values[..k];
    assert units[..k + 1][..k] == units[..k];
    SpacedConcat(PresentParts(values[..k], units[..k]), if values[k] > 0 then [Part(values[k], units[k])] else []);
  }

  lemma {:induction false} SpacedConcat(a: seq<string>, b: seq<string>)
    ensures Spaced(a + b) == Spaced(a) + Spaced(b)
    decreases |a|
  {
    if a != [] {
      assert (a + b)[0] == a[0];
      assert (a + b)[1..] == a[1..] + b;
      SpacedConcat(a[1..], b);
    } else {
      assert a + b == b;
    }
  }

  predicate PartShaped(p: string) {
    |p| > 0 && '0' <= p[0] <= '9' && !IsWhiteSpace(p[|p| - 1])
  }

  lemma {:induction false} JoinOfParts(parts: seq<string>)
    requires forall k :: 0 <= k < |parts| ==> PartShaped(parts[k])
    ensures parts != [] ==> |Join(parts, " ")| > 0 && '0' <= Join(parts, " ")[0] <= '9'
    ensures IsTrimmed(Join(parts, " "))
    decreases |parts|
  {
    if |parts| > 1 {
      JoinOfParts(parts[1..]);
      var t := Join(parts[1..], " ");
      assert Join(parts, " ") == parts[0] + " " + t;
    }
  }

  lemma {:induction false} PresentPartsShaped(values: seq<int>, units: seq<string>)
    requires |values| == |units|
    requires forall k :: 0 <= k < |units| ==> |units[k]| > 0 && !IsWhiteSpace(units[k][|units[k]| - 1])
    ensures forall k :: 0 <= k < |PresentParts(values, units)| ==> PartShaped(PresentParts(values, units)[k])
    decreases |values|
  {
    if values != [] {
      var n := |values| - 1;
      PresentPartsShaped(values[..n], units[..n]);
    }
  }

  lemma {:induction false} SpacedIsJoin(parts: seq<string>)
    ensures Spaced(parts) == if parts == [] then "" else " " + Join(parts, " ")
    decreases |parts|
  {
    if |parts| > 1 {
      SpacedIsJoin(parts[1..]);
    }
  }

  /** The result is empty exactly when no component is positive, which covers every
      negative span. */
  lemma DescribeEmptyIff(ts: TimeSpan)
    ensures Describe(ts) == "" <==> Days(ts) <= 0 && Hours(ts) <= 0 && Minutes(ts) <= 0 && Seconds(ts) <= 0
    ensures ts.ticks <= 0 ==> Describe(ts) == ""
  {
    var parts := PresentParts(Components(ts), Units);
    PresentPartsNone(Components(ts), Units);
    PresentPartsShaped(Components(ts), Units);
    JoinOfParts(parts);
    var c := Components(ts);
    assert c[0] == Days(ts) && c[1] == Hours(ts) && c[2] == Minutes(ts) && c[3] == Seconds(ts);
  }

  /** The result never starts or ends with white space. */
  lemma DescribeTrimmed(ts: TimeSpan)
    ensures IsTrimmed(Describe(ts))
  {
    PresentPartsShaped(Components(ts), Units);
    JoinOfParts(PresentParts(Components(ts), Units));
  }

  /** A part takes the plural "s" exactly when its value is more than one. */
  lemma PartPlural(n: nat, unit: string)
    requires unit in Units
    ensures var p := Part(n, unit); p[|p| - 1] == 's' <==> n > 1
  {
    var p := Part(n, unit);
    if n <= 1 {
      assert p[|p| - 1] == unit[|unit| - 1];
    }
  }

  /** One day, two hours and five seconds. */
  lemma DescribeExample()
    ensures Describe(TimeSpan(TicksPerDay + 2 * TicksPerHour + 5 * TicksPerSecond)) == "1 day 2 hours 5 secs"
  {
    var ts := TimeSpan(TicksPerDay + 2 * TicksPerHour + 5 * TicksPerSecond);
    ExampleComponents(ts);
    ExampleParts();
    assert Join(["1 day", "2 hours", "5 secs"], " ") == "1 day 2 hours 5 secs";
  }

  lemma ExampleComponents(ts: TimeSpan)
    requires ts.ticks == TicksPerDay + 2 * TicksPerHour + 5 * TicksPerSecond
    ensures Components(ts) == [1, 2, 0, 5]
  {
    assert Days(ts) == 1;
    assert Hours(ts) == 2;
    assert Minutes(ts) == 0;
    assert Seconds(ts) == 5;
  }

  lemma ExampleParts()
    ensures PresentParts([1, 2, 0, 5], Units) == ["1 day", "2 hours", "5 secs"]
  {
    assert NatToString(1) == "1" && NatToString(2) == "2" && NatToString(5) == "5";
    assert Part(1, "day") == "1 day" && Part(2, "hour") == "2 hours" && Part(5, "sec") == "5 secs";
    var c := [1, 2, 0, 5];
    assert c[..3] == [1, 2, 0] && c[..3][..2] == [1, 2] && c[..3][..2][..1] == [1];
    assert Units[..3][..2][..1] == ["day"];
    assert PresentParts([1], ["day"]) == ["1 day"];
    assert PresentParts(c[..3][..2], Units[..3][..2]) == ["1 day", "2 hours"];
    assert PresentParts(c[..3], Units[..3]) == ["1 day", "2 hours"];
  }
}
