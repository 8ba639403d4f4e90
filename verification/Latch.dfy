/**
  One of the two timed triggers of a rule, on its own: a latch that remembers the last check at
  which it was calm or expired, and expires when it has stayed over its threshold for longer than
  its period.
 */
module Latches {
  import opened Words

  /**
    One check, as one trigger sees it. `Skip`: the trigger is off, or the call returned before
    reaching it. `Over`: over the threshold; `known` says whether a destination is known.
   */
  datatype View = Skip(now: int) | Calm(now: int) | Over(now: int, known: bool)

  predicate Expires(period: nat, last: int, e: View) {
    e.Over? && e.now - last > period
  }

  function After(period: nat, last: int, e: View): int {
    if e.Calm? || Expires(period, last, e) then e.now else last
  }

  predicate Fires(period: nat, last: int, e: View) {
    Expires(period, last, e) && e.known
  }

  /** The remembered time before event `i` of a run. */
  function Last(period: nat, start: int, es: seq<View>, i: nat): int
    requires i <= |es|
  {
    if i == 0 then start else After(period, Last(period, start, es, i - 1), es[i - 1])
  }

  predicate FiresAt(period: nat, start: int, es: seq<View>, i: nat)
    requires i < |es|
  {
    Fires(period, Last(period, start, es, i), es[i])
  }

  ghost predicate Ordered(es: seq<View>) {
    forall i, j :: 0 <= i <= j < |es| ==> es[i].now <= es[j].now
  }

  /** Once reset at event `j`, the remembered time never falls behind that event again. */
  lemma {:induction false} LastKeepsUp(period: nat, start: int, es: seq<View>, j: nat, i: nat)
    requires Ordered(es) && j < i <= |es|
    requires es[j].Calm? || Expires(period, Last(period, start, es, j), es[j])
    ensures es[j].now <= Last(period, start, es, i) <= es[i - 1].now
  {
    if j + 1 < i {
      LastKeepsUp(period, start, es, j, i - 1);
    }
  }

  /**
    Safety. A latch that fires was not calm at any earlier check within the last `period` seconds,
    and fired at none of them.
   */
  lemma FiringIsSustained(period: nat, start: int, es: seq<View>, j: nat, i: nat)
    requires Ordered(es) && j < i < |es|
    requires FiresAt(period, start, es, i)
    requires es[j].now >= es[i].now - period
    ensures !es[j].Calm? && !FiresAt(period, start, es, j)
  {
    if es[j].Calm? || FiresAt(period, start, es, j) {
      LastKeepsUp(period, start, es, j, i);
    }
  }

  lemma {:induction false} LastUnmoved(period: nat, start: int, es: seq<View>, a: nat, b: nat)
    requires a <= b <= |es|
    requires forall i :: a <= i < b ==> !es[i].Calm? && (es[i].Over? ==> es[i].known)
    requires forall i :: a <= i < b ==> !FiresAt(period, start, es, i)
    ensures Last(period, start, es, b) == Last(period, start, es, a)
  {
    if a < b {
      LastUnmoved(period, start, es, a, b - 1);
      assert !FiresAt(period, start, es, b - 1);
    }
  }

  /**
    Liveness. Over the threshold, with a known destination, at every check until more than the
    period has passed since the latch was last reset: some check fires.
   */
  lemma SustainedFires(period: nat, start: int, es: seq<View>, a: nat, b: nat)
    requires a <= b < |es|
    requires forall i :: a <= i <= b ==> es[i].Over? && es[i].known
    requires es[b].now - Last(period, start, es, a) > period
    ensures exists i :: a <= i <= b && FiresAt(period, start, es, i)
  {
    if forall i :: a <= i < b ==> !FiresAt(period, start, es, i) {
      LastUnmoved(period, start, es, a, b);
      assert FiresAt(period, start, es, b);
    }
  }

  lemma {:induction false} LastInPast(period: nat, start: int, es: seq<View>, i: nat)
    requires Ordered(es) && i < |es| && start <= es[0].now
    ensures Last(period, start, es, i) <= es[i].now
  {
    if i > 0 {
      LastInPast(period, start, es, i - 1);
    }
  }

  /** A reset at check `j`, or before it, lies no later than that check. */
  lemma LastNotAfter(period: nat, start: int, es: seq<View>, j: nat)
    requires Ordered(es) && j < |es| && start <= es[0].now
    ensures Last(period, start, es, j + 1) <= es[j].now
  {
    LastInPast(period, start, es, j);
  }

  /**
    A latch that expires with no destination known fires nothing and is reset all the same. If it
    is over its threshold, with a known destination, from then on, it fires at the first check more
    than a period later, and not before.
   */
  lemma SwallowedDelays(period: nat, start: int, es: seq<View>, j: nat, b: nat)
    requires Ordered(es) && j < b < |es|
    requires Expires(period, Last(period, start, es, j), es[j]) && !es[j].known
    requires forall i :: j < i <= b ==> es[i].Over? && es[i].known
    ensures !FiresAt(period, start, es, j)
    ensures (exists i :: j < i <= b && FiresAt(period, start, es, i)) <==> es[b].now - es[j].now > period
  {
    if es[b].now - es[j].now > period {
      SustainedFires(period, start, es, j + 1, b);
    }
    if i: nat :| j < i <= b && FiresAt(period, start, es, i) {
      LastKeepsUp(period, start, es, j, i);
    }
  }

  function Count(period: nat, start: int, es: seq<View>, a: nat, b: nat): nat
    requires a <= b <= |es|
  {
    if a == b then 0
    else Count(period, start, es, a, b - 1) + if FiresAt(period, start, es, b - 1) then 1 else 0
  }

  /** Two firings are more than a period apart, so `n` of them span at least `(n-1)(period+1)`. */
  lemma OneFurther(first: int, n: nat, d: nat, last: int, next: int)
    requires n > 0 && first + (n - 1) * d <= last && last + d <= next
    ensures first + n * d <= next
  {
  }

  lemma {:induction false} FiringsSpread(period: nat, start: int, es: seq<View>, a: nat, b: nat)
    requires Ordered(es) && a < b <= |es|
    ensures var n := Count(period, start, es, a, b);
            n > 0 ==>
              && es[a].now + (n - 1) * (period + 1) <= Last(period, start, es, b)
              && Last(period, start, es, b) <= es[b - 1].now
  {
    if a + 1 < b {
      FiringsSpread(period, start, es, a, b - 1);
      var n := Count(period, start, es, a, b - 1);
      if FiresAt(period, start, es, b - 1) && n > 0 {
        OneFurther(es[a].now, n, period + 1, Last(period, start, es, b - 1), Last(period, start, es, b));
      }
    }
  }

  /** The number of firings that fit into `width` seconds. */
  function Quota(width: nat, period: nat): nat {
    width / (period + 1) + 1
  }

  /** As many times as one, and one more for each whole `period + 1` seconds. */
  lemma QuotaMeaning(width: nat, period: nat)
    ensures (Quota(width, period) - 1) * (period + 1) <= width < Quota(width, period) * (period + 1)
  {
    assert width == (period + 1) * (width / (period + 1)) + width % (period + 1);
  }

  /** The count is the number of events in the span at which the latch fires. */
  lemma {:induction false} CountMeaning(period: nat, start: int, es: seq<View>, a: nat, b: nat)
    requires a <= b <= |es|
    ensures Count(period, start, es, a, b) == |set i | a <= i < b && FiresAt(period, start, es, i)|
  {
    var fired := set i | a <= i < b && FiresAt(period, start, es, i);
    if a < b {
      CountMeaning(period, start, es, a, b - 1);
      var before := set i | a <= i < b - 1 && FiresAt(period, start, es, i);
      assert fired == before + if FiresAt(period, start, es, b - 1) then {b - 1} else {};
    }
  }

  /** Rate bound. */
  lemma FiringsBounded(period: nat, start: int, es: seq<View>, a: nat, b: nat, width: nat)
    requires Ordered(es) && a < b <= |es|
    requires es[b - 1].now - es[a].now <= width
    ensures Count(period, start, es, a, b) <= Quota(width, period)
  {
    FiringsSpread(period, start, es, a, b);
    var n := Count(period, start, es, a, b);
    if n > 0 {
      QuotientBound(n - 1, period + 1, width);
    }
  }

  lemma QuotientBound(n: nat, d: nat, w: nat)
    requires d > 0 && n * d <= w
    ensures n <= w / d
  {
    var q := w / d;
    assert w < (q + 1) * d;
    if n > q {
      Monotone(d, q + 1, n);
    }
  }
}
