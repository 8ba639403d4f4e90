/** Per-second rates from counter differences; times are in milliseconds. */
module Rates {
  import opened Words

  /** `round` of a non-negative number: to the nearest, halves up. */
  function RateOf(delta: u64, dt: real): nat
    requires dt > 0.0
  {
    RateNonNegative(delta, dt);
    (delta as real / dt * 1000.0 + 0.5).Floor
  }

  lemma RateNonNegative(delta: u64, dt: real)
    requires dt > 0.0
    ensures delta as real / dt >= 0.0
  {
  }

  /** The rate per second nearest to the quotient, times being in milliseconds. */
  lemma RateMeaning(delta: u64, dt: real, n: nat)
    requires dt > 0.0
    ensures RateOf(delta, dt) == n <==> n as real - 0.5 <= delta as real / dt * 1000.0 < n as real + 0.5
  {
    RateNonNegative(delta, dt);
  }

  /** A positive rate needs a counter that moved. */
  lemma RatePositive(delta: u64, dt: real)
    requires dt > 0.0
    ensures RateOf(delta, dt) > 0 ==> delta > 0
  {
  }

  function Abs(x: real): real {
    if x < 0.0 then -x else x
  }

  /** Read back over its tick, a rate is off by at most half a packet per second. */
  lemma RateClose(delta: u64, dt: real)
    requires dt > 0.0
    ensures Abs(RateOf(delta, dt) as real * dt / 1000.0 - delta as real) <= dt / 2000.0
  {
    var x := delta as real / dt * 1000.0;
    var r := RateOf(delta, dt) as real;
    assert x - 0.5 <= r <= x + 0.5;
    Undivide(delta as real, dt, x);
    ScaleBounds(x, r, dt, delta as real);
  }

  lemma Undivide(a: real, dt: real, x: real)
    requires dt > 0.0 && x == a / dt * 1000.0
    ensures x * dt == a * 1000.0
  {
  }

  lemma NonNegative(a: real, b: real)
    requires a >= 0.0 && b > 0.0
    ensures a * b >= 0.0
  {
  }

  lemma Squeezed(x: real, r: real, dt: real, z: real, y: real)
    requires dt > 0.0 && x - 0.5 <= r <= x + 0.5 && z == x * dt && y == r * dt
    ensures z - 0.5 * dt <= y <= z + 0.5 * dt
  {
    NonNegative(r - x + 0.5, dt);
    NonNegative(x - r + 0.5, dt);
  }

  lemma Thousandth(y: real, a: real, dt: real)
    requires dt > 0.0 && a * 1000.0 - 0.5 * dt <= y <= a * 1000.0 + 0.5 * dt
    ensures Abs(y / 1000.0 - a) <= dt / 2000.0
  {
  }

  lemma ScaleBounds(x: real, r: real, dt: real, a: real)
    requires dt > 0.0 && x - 0.5 <= r <= x + 0.5 && x * dt == a * 1000.0
    ensures Abs(r * dt / 1000.0 - a) <= dt / 2000.0
  {
    var y := r * dt;
    Squeezed(x, r, dt, a * 1000.0, y);
    Thousandth(y, a, dt);
  }

  /** One tick of one rule: what was merged, how long it took, the rate computed. */
  datatype Tick = Tick(count: nat, dt: real, rate: nat)

  predicate Faithful(t: Tick) {
    t.dt > 0.0 && t.rate == RateOf(Wrap64(t.count), t.dt)
  }

  /** The packets a rate stands for over its tick. */
  function ReadBack(t: Tick): real {
    t.rate as real * t.dt / 1000.0
  }

  lemma TickClose(t: Tick)
    requires Faithful(t) && t.count < 0x1_0000_0000_0000_0000
    ensures -t.dt / 2000.0 <= ReadBack(t) - t.count as real <= t.dt / 2000.0
  {
    Wrap64Is(t.count, 0, t.count);
    RateClose(t.count, t.dt);
  }

  function Integral(ts: seq<Tick>): real {
    if ts == [] then 0.0
    else Integral(ts[..|ts| - 1]) + ReadBack(ts[|ts| - 1])
  }

  function Duration(ts: seq<Tick>): real {
    if ts == [] then 0.0 else Duration(ts[..|ts| - 1]) + ts[|ts| - 1].dt
  }

  function Counted(ts: seq<Tick>): nat {
    if ts == [] then 0 else Counted(ts[..|ts| - 1]) + ts[|ts| - 1].count
  }

  /** Within half a unit per second of elapsed time. */
  predicate IntegratesTo(ts: seq<Tick>, total: nat) {
    Abs(Integral(ts) - total as real) <= Duration(ts) / 2000.0
  }

  /** Rates integrate back to counts. */
  lemma {:induction false} RatesIntegrate(ts: seq<Tick>)
    requires forall i :: 0 <= i < |ts| ==> Faithful(ts[i]) && ts[i].count < 0x1_0000_0000_0000_0000
    ensures IntegratesTo(ts, Counted(ts))
    ensures -Duration(ts) / 2000.0 <= Integral(ts) - Counted(ts) as real <= Duration(ts) / 2000.0
  {
    IntegralBounds(ts);
  }

  lemma {:induction false} IntegralBounds(ts: seq<Tick>)
    requires forall i :: 0 <= i < |ts| ==> Faithful(ts[i]) && ts[i].count < 0x1_0000_0000_0000_0000
    ensures -Duration(ts) / 2000.0 <= Integral(ts) - Counted(ts) as real <= Duration(ts) / 2000.0
  {
    if ts != [] {
      var before, t := ts[..|ts| - 1], ts[|ts| - 1];
      IntegralBounds(before);
      assert Faithful(t);
      TickClose(t);
      assert Integral(ts) - Counted(ts) as real
          == (Integral(before) - Counted(before) as real) + (ReadBack(t) - t.count as real);
    }
  }
}
