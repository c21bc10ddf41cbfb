/** The countdown page's arithmetic (src/pages/Countdown.tsx): the time left until
    the target instant split into days, hours, minutes and seconds, and the
    two-digit rendering of each unit. Instants are integer milliseconds; the
    clock reading is a parameter. */
module Countdown {
  import opened Common

  const MillisPerSecond: int := 1000
  const MillisPerMinute: int := 1000 * 60
  const MillisPerHour: int := 1000 * 60 * 60
  const MillisPerDay: int := 1000 * 60 * 60 * 24

  datatype TimeLeft = TimeLeft(days: nat, hours: nat, minutes: nat, seconds: nat)

  /** Whole seconds a TimeLeft stands for. */
  function TotalSeconds(t: TimeLeft): nat
  {
    t.days * 86400 + t.hours * 3600 + t.minutes * 60 + t.seconds
  }

  /** `calculateTimeLeft()`: the fields shown and whether the expired flag is raised
      (it is raised, and every field is 0, once the difference is no longer
      positive). */
  function CalculateTimeLeft(target: int, now: int): (r: (TimeLeft, bool))
    ensures r.1 <==> target - now <= 0
    ensures r.1 ==> r.0 == TimeLeft(0, 0, 0, 0)
    ensures !r.1 ==> && r.0.days == (target - now) / MillisPerDay
                     && r.0.hours < 24 && r.0.minutes < 60 && r.0.seconds < 60
                     && TotalSeconds(r.0) == (target - now) / MillisPerSecond
  {
    var difference := target - now;
    if difference <= 0 then (TimeLeft(0, 0, 0, 0), true)
    else
      var t := TimeLeft(difference / MillisPerDay,
                        (difference / MillisPerHour) % 24,
                        (difference / MillisPerMinute) % 60,
                        (difference / MillisPerSecond) % 60);
      SplitSeconds(difference);
      (t, false)
  }

  /** The four fields recompose the whole seconds left. */
  lemma SplitSeconds(d: nat)
    ensures (d / MillisPerDay) * 86400 + ((d / MillisPerHour) % 24) * 3600
            + ((d / MillisPerMinute) % 60) * 60 + (d / MillisPerSecond) % 60 == d / MillisPerSecond
  {
    var s := d / 1000;
    DivDiv(d, 1000, 60);
    DivDiv(d, 60000, 60);
    DivDiv(d, 3600000, 24);
    assert d / MillisPerMinute == s / 60;
    assert d / MillisPerHour == (s / 60) / 60;
    assert d / MillisPerDay == ((s / 60) / 60) / 24;
    var m, h := s / 60, (s / 60) / 60;
    assert s == m * 60 + s % 60;
    assert m == h * 60 + m % 60;
    assert h == (h / 24) * 24 + h % 24;
  }

  /** Dividing twice is dividing by the product. */
  lemma DivDiv(a: nat, b: nat, c: nat)
    requires b > 0 && c > 0
    ensures a / b / c == a / (b * c)
  {
    var q := a / b / c;
    var r1 := a % b;
    var r2 := (a / b) % c;
    assert a == (q * c + r2) * b + r1;
    assert a == q * (b * c) + (r2 * b + r1);
    assert r2 * b + r1 < b * c by {
      assert r2 * b <= (c - 1) * b;
    }
    DivUnique(a, b * c, q, r2 * b + r1);
  }

  lemma DivUnique(a: int, n: int, q: int, r: int)
    requires n > 0 && 0 <= r < n && a == q * n + r
    ensures a / n == q
  {
    var q0, r0 := a / n, a % n;
    assert n * (q - q0) == r0 - r;
    assert n * (q0 - q) == r - r0;
    MulBelowDivisor(n, q - q0);
    MulBelowDivisor(n, q0 - q);
  }

  /** A TimeLeft within the unit bounds is determined by its total seconds. */
  lemma TimeLeftUnique(a: TimeLeft, b: TimeLeft)
    requires a.hours < 24 && a.minutes < 60 && a.seconds < 60
    requires b.hours < 24 && b.minutes < 60 && b.seconds < 60
    requires TotalSeconds(a) == TotalSeconds(b)
    ensures a == b
  {
    var ma := a.days * 1440 + a.hours * 60 + a.minutes;
    var mb := b.days * 1440 + b.hours * 60 + b.minutes;
    DivUnique(TotalSeconds(a), 60, ma, a.seconds);
    DivUnique(TotalSeconds(b), 60, mb, b.seconds);
    var ha, hb := a.days * 24 + a.hours, b.days * 24 + b.hours;
    DivUnique(ma, 60, ha, a.minutes);
    DivUnique(mb, 60, hb, b.minutes);
    DivUnique(ha, 24, a.days, a.hours);
    DivUnique(hb, 24, b.days, b.hours);
  }

  /** One tick of the one-second timer removes exactly one second from the display
      while more than a second is left. */
  lemma TickRemovesOneSecond(target: int, now: int)
    requires target - now > MillisPerSecond
    ensures var before := CalculateTimeLeft(target, now).0;
            var after := CalculateTimeLeft(target, now + MillisPerSecond).0;
            TotalSeconds(after) + 1 == TotalSeconds(before)
  {
    var d := target - now;
    assert (d - 1000) / 1000 == d / 1000 - 1;
  }

  /** `Math.floor(x % m)` for a non-negative x, with JavaScript's `%` on numbers. */
  function FloorRem(x: real, m: int): int
    requires m > 0
  {
    (x - m as real * (x / m as real).Floor as real).Floor
  }

  lemma FloorOfFraction(k: int, y: real)
    requires 0.0 <= y < 1.0
    ensures (k as real + y).Floor == k
  {
  }

  lemma FractionBelowOne(y: real, m: int)
    requires m > 0 && 0.0 <= y < m as real
    ensures 0.0 <= y / m as real < 1.0
  {
    assert (y / m as real) * m as real == y;
  }

  lemma DivideSum(k: int, m: int, y: real)
    requires m > 0
    ensures ((k * m) as real + y) / m as real == k as real + y / m as real
  {
    assert (k as real + y / m as real) * m as real == (k * m) as real + y;
  }

  /** The expressions as written, evaluated on reals, agree with the integer
      fields: `Math.floor((d / unit) % m)` is `(d div unit) mod m`. */
  lemma {:induction false} FloorRemAsWritten(d: nat, unit: int, m: int)
    requires unit > 0 && m > 0
    ensures FloorRem(d as real / unit as real, m) == (d / unit) % m
  {
    var x := d as real / unit as real;
    FloorOfQuotient(d, unit);
    FloorOfRealQuotient(x, m);
    var k := (x / m as real).Floor;
    FloorMinusInteger(x, m * k);
    assert (x - m as real * k as real) == x - (m * k) as real;
  }

  /** For x >= 0, the floor of x / m is the integer quotient of the floor of x. */
  lemma FloorOfRealQuotient(x: real, m: int)
    requires x >= 0.0 && m > 0
    ensures (x / m as real).Floor == x.Floor / m
  {
    var n := x.Floor;
    var k, r := n / m, n % m;
    var f := x - n as real;
    assert x == (k * m) as real + (r as real + f);
    DivideSum(k, m, r as real + f);
    FractionBelowOne(r as real + f, m);
    FloorOfFraction(k, (r as real + f) / m as real);
  }

  lemma FloorMinusInteger(x: real, z: int)
    ensures (x - z as real).Floor == x.Floor - z
  {
    FloorOfFraction(x.Floor - z, x - x.Floor as real);
    assert x - z as real == (x.Floor - z) as real + (x - x.Floor as real);
  }

  /** The four expressions of `calculateTimeLeft`, evaluated on reals as written
      (minutes as `difference / 1000 / 60`), give the fields of CalculateTimeLeft. */
  lemma CalculateTimeLeftAsWritten(target: int, now: int)
    requires target - now > 0
    ensures var d := target - now;
            var t := CalculateTimeLeft(target, now).0;
            && (d as real / MillisPerDay as real).Floor == t.days
            && FloorRem(d as real / MillisPerHour as real, 24) == t.hours
            && FloorRem(d as real / 1000.0 / 60.0, 60) == t.minutes
            && FloorRem(d as real / 1000.0, 60) == t.seconds
  {
    var d := target - now;
    var t := CalculateTimeLeft(target, now).0;
    assert t == TimeLeft(d / MillisPerDay, (d / MillisPerHour) % 24, (d / MillisPerMinute) % 60,
                         (d / MillisPerSecond) % 60);
    FloorOfQuotient(d, MillisPerDay);
    FloorRemAsWritten(d, MillisPerHour, 24);
    FloorRemAsWritten(d, MillisPerMinute, 60);
    FloorRemAsWritten(d, MillisPerSecond, 60);
    SecondsThenMinutes(d);
  }

  /** Helper: dividing by 1000 and then by 60 is dividing by a minute's milliseconds. */
  lemma SecondsThenMinutes(d: int)
    ensures d as real / 1000.0 / 60.0 == d as real / MillisPerMinute as real
  {
  }

  // ---------------------------------------------------------------------------
  // Two-digit rendering
  // ---------------------------------------------------------------------------

  /** `s.padStart(targetLength, fill)` with a one-character fill. */
  function PadStart(s: string, targetLength: nat, fill: char): (r: string)
    ensures |r| == if |s| < targetLength then targetLength else |s|
    ensures r[|r| - |s|..] == s
    ensures forall i :: 0 <= i < |r| - |s| ==> r[i] == fill
  {
    if |s| < targetLength then seq(targetLength - |s|, _ => fill) + s else s
  }

  /** `String(value).padStart(2, '0')` in `TimeUnit`. */
  function TwoDigits(value: nat): string
  {
    PadStart(NatToString(value), 2, '0')
  }

  /** Each unit is shown with at least two digits that read back as its value;
      values of 10 or more are shown as they are. */
  lemma TwoDigitsShowsValue(value: nat)
    ensures |TwoDigits(value)| >= 2
    ensures forall i :: 0 <= i < |TwoDigits(value)| ==> IsDigit(TwoDigits(value)[i])
    ensures ParseDigits(TwoDigits(value)) == value
    ensures value >= 10 ==> TwoDigits(value) == NatToString(value)
    ensures value < 10 ==> TwoDigits(value) == ['0', DigitChar(value)]
  {
    ParseNatToString(value);
    if value < 10 {
      assert NatToString(value) == [DigitChar(value)];
      assert TwoDigits(value) == "0" + NatToString(value);
      ParseLeadingZero(NatToString(value));
    }
  }
}
