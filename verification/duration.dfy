/**
 The time-formatting helper `timestampToObject`: a number of seconds split
 into days, hours, minutes and seconds.
 */
module Duration {

  const SECONDS_PER_MINUTE: nat := 60
  const SECONDS_PER_HOUR: nat := 60 * 60
  const SECONDS_PER_DAY: nat := 60 * 60 * 24

  datatype Duration = Duration(days: nat, hours: nat, minutes: nat, seconds: nat)

  /** Every field below the day count is below its unit's range. */
  predicate Normal(d: Duration)
  {
    d.hours < 24 && d.minutes < 60 && d.seconds < 60
  }

  /** The number of seconds a duration stands for. */
  function Recompose(d: Duration): nat
  {
    d.days * SECONDS_PER_DAY + d.hours * SECONDS_PER_HOUR + d.minutes * SECONDS_PER_MINUTE + d.seconds
  }

  /** A whole number of seconds as days, hours, minutes and seconds. */
  function Breakdown(t: nat): (d: Duration)
    ensures Normal(d)
    ensures Recompose(d) == t
  {
    SplitUnits(t);
    Duration(t / SECONDS_PER_DAY, (t / SECONDS_PER_HOUR) % 24, (t / SECONDS_PER_MINUTE) % 60, t % 60)
  }

  /** The quotients by a minute, an hour and a day are nested: each one is the
      previous one divided by the next unit's size. */
  lemma SplitUnits(t: nat)
    ensures t / SECONDS_PER_HOUR == t / 60 / 60
    ensures t / SECONDS_PER_DAY == t / 60 / 60 / 24
  {
    var m, s := t / 60, t % 60;
    var h, mm := m / 60, m % 60;
    var d, hh := h / 24, h % 24;
    assert t == 3600 * h + (60 * mm + s);
    assert t == 86400 * d + (3600 * hh + 60 * mm + s);
  }

  /** Breakdown is the inverse of Recompose on normal durations: the split is
      the only one with every unit in range. */
  lemma BreakdownOfRecompose(d: Duration)
    requires Normal(d)
    ensures Breakdown(Recompose(d)) == d
  {
    var t := Recompose(d);
    var e := Breakdown(t);
    var low := d.hours * SECONDS_PER_HOUR + d.minutes * SECONDS_PER_MINUTE + d.seconds;
    assert low < SECONDS_PER_DAY;
    assert e.days == d.days;
    var low2 := d.minutes * SECONDS_PER_MINUTE + d.seconds;
    assert low2 < SECONDS_PER_HOUR;
    assert e.hours == d.hours;
    assert e.minutes == d.minutes;
  }

  /** JavaScript's `x % m` for a non-negative `x` and positive `m`. */
  function Mod(x: real, m: real): (r: real)
    requires x >= 0.0 && m > 0.0
  {
    x - m * (x / m).Floor as real
  }

  /** `timestampToObject` as written: each field floors a quotient or a
      remainder of the real number of seconds it is given. */
  function BreakdownSeconds(x: real): (d: Duration)
    requires x >= 0.0
    ensures d == Breakdown(x.Floor)
  {
    FieldFloors(x);
    Duration((x / 60.0 / 60.0 / 24.0).Floor,
             Mod(x / 60.0 / 60.0, 24.0).Floor,
             Mod(x / 60.0, 60.0).Floor,
             Mod(x, 60.0).Floor)
  }

  /** Each field of `BreakdownSeconds` floors to the integer computation. */
  lemma FieldFloors(x: real)
    requires x >= 0.0
    ensures (x / 60.0 / 60.0 / 24.0).Floor == x.Floor / SECONDS_PER_DAY
    ensures Mod(x / 60.0 / 60.0, 24.0).Floor == (x.Floor / SECONDS_PER_HOUR) % 24
    ensures Mod(x / 60.0, 60.0).Floor == (x.Floor / SECONDS_PER_MINUTE) % 60
    ensures Mod(x, 60.0).Floor == x.Floor % 60
  {
    var k := x.Floor;
    var a := x / 60.0;
    var b := a / 60.0;
    FloorDiv(x, 60);
    assert a.Floor == k / 60;
    FloorDiv(a, 60);
    assert b.Floor == k / 60 / 60;
    FloorDiv(b, 24);
    FloorMod(b, 24);
    FloorMod(a, 60);
    FloorMod(x, 60);
    SplitUnits(k);
  }

  /** Flooring a quotient by a whole divisor only sees the floor of the dividend. */
  lemma FloorDiv(x: real, n: nat)
    requires x >= 0.0 && n > 0
    ensures (x / n as real).Floor == x.Floor / n
  {
    var k := x.Floor;
    var q := k / n;
    var r := k % n;
    assert k == q * n + r;
    assert q as real <= x / n as real by {
      assert (q * n) as real <= x;
    }
    assert x / n as real < (q + 1) as real by {
      assert x < (k + 1) as real;
      assert k + 1 <= (q + 1) * n;
    }
  }

  /** Flooring a remainder by a whole modulus only sees the floor of the dividend. */
  lemma FloorMod(x: real, n: nat)
    requires x >= 0.0 && n > 0
    ensures Mod(x, n as real).Floor == x.Floor % n
  {
    FloorDiv(x, n);
    var q := x.Floor / n;
    assert Mod(x, n as real) == x - (n * q) as real;
  }
}
