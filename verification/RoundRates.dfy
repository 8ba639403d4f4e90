/**
  When the rates of a round are true. The law of a round says what the counters become; here the
  rates computed from them are set against what the threads really brought, for any mixture of
  fresh and stale threads, and packets anywhere.
 */
module RoundRates {
  import opened Doubling
  import opened Words
  import opened Tallies
  import opened Rates
  import opened Rules
  import opened RulesLists
  import opened Watchers
  import opened RoundLaw

  /**
    Between rounds: the watcher has taken over the last reload, so the next rates will be examined,
    and the counters of rule `k` of list `l` are those of the snapshot.
   */
  predicate Level<C>(l: nat, k: nat, s: Sys<C>) {
    && s.pc.Idle? && s.seen == s.change && Has(s.master, l, k) && Has(s.prev, l, k)
    && |s.prev[l].rules| == |s.master[l].rules|
    && s.prev[l].rules[k].tally.packets == s.master[l].rules[k].tally.packets
    && s.prev[l].rules[k].tally.bytes == s.master[l].rules[k].tally.bytes
  }

  /** The visits of the round that begins in `s`, up to `v`. */
  ghost predicate Visits<C, H>(p: Protocol<C, H>, s: Sys<C>, es: seq<Event<C, H>>, v: Sys<C>) {
    Shape(s) && FirstRound(p, s, es) && Steps(p, s, es) == Some(v) && v.pc.CalcDelta?
  }

  /** What the threads bring: the packets, or bytes, really merged in the round are their `PlainSum`. */
  ghost function Own<C, H>(
      p: Protocol<C, H>, l: nat, k: nat, s: Sys<C>, es: seq<Event<C, H>>, bytes: bool): seq<Brought>
    requires Shape(s) && l < LISTS && Steps(p, s, es).Some?
  {
    BroughtBy(Journal(p, l, k, s, es).visits, bytes)
  }

  /** The difference that the rate is computed from. */
  function Difference<C>(l: nat, k: nat, v: Sys<C>, bytes: bool): u64
    requires Has(v.master, l, k) && Has(v.prev, l, k)
  {
    Sub64(Meter(v.master[l].rules[k].tally, bytes), Meter(v.prev[l].rules[k].tally, bytes))
  }

  ghost predicate SameRates<C>(a: Coll<C>, b: Coll<C>, l: nat, k: nat) {
    Has(a, l, k) ==> Has(b, l, k) && a[l].rules[k].pps == b[l].rules[k].pps && a[l].rules[k].bps == b[l].rules[k].bps
  }

  /** Visits touch neither the snapshot nor the change stamps, nor the rates and lengths of the master. */
  lemma {:induction false} VisitsKeep<C, H>(p: Protocol<C, H>, l: nat, k: nat, s0: Sys<C>, es: seq<Event<C, H>>)
    requires Shape(s0) && l < LISTS && FirstRound(p, s0, es) && Steps(p, s0, es).Some?
    ensures var s := Steps(p, s0, es).value;
            && s.prev == s0.prev && s.seen == s0.seen && s.change == s0.change
            && |s.master[l].rules| == |s0.master[l].rules| && SameRates(s0.master, s.master, l, k)
  {
    if es != [] {
      VisitsKeep(p, l, k, s0, es[..|es| - 1]);
      RoundKeeps(p, l, k, s0, es[..|es| - 1]);
    }
  }

  lemma LevelKept<C, H>(p: Protocol<C, H>, l: nat, k: nat, s: Sys<C>, es: seq<Event<C, H>>, v: Sys<C>)
    requires Level(l, k, s) && l < LISTS && Visits(p, s, es, v)
    ensures v.seen == v.change && Has(v.master, l, k) && v.prev == s.prev
    ensures |v.prev[l].rules| == |v.master[l].rules|
  {
    VisitsKeep(p, l, k, s, es);
  }

  /** The counter seems to have moved by `Moves` since the snapshot, modulo 2^64. */
  lemma RoundCounts<C, H>(
      p: Protocol<C, H>, l: nat, k: nat, s: Sys<C>, es: seq<Event<C, H>>, v: Sys<C>, bytes: bool)
    requires Level(l, k, s) && l < LISTS && Visits(p, s, es, v)
    ensures Has(v.master, l, k) && Has(v.prev, l, k)
    ensures var bs := Own(p, l, k, s, es, bytes);
            && |bs| == |s.threads|
            && (forall i {:trigger bs[i]} :: 0 <= i < |bs| ==> (bs[i].stale <==> Stale(p, s, i)))
            && Difference(l, k, v, bytes) == Wrap64(Moves(Meter(s.master[l].rules[k].tally, bytes), bs))
  {
    LevelKept(p, l, k, s, es, v);
    Law(p, l, k, s, es, bytes);
    MovesOnWords(Meter(s.master[l].rules[k].tally, bytes), Own(p, l, k, s, es, bytes),
                 Meter(v.master[l].rules[k].tally, bytes));
  }

  /**
    The round counts a rule right: no thread is stale if the rule had counted anything before, and
    no packet of the rule is brought by a thread that a stale thread comes after.
   */
  ghost predicate CountsRight<C, H>(
      p: Protocol<C, H>, l: nat, k: nat, s: Sys<C>, es: seq<Event<C, H>>, bytes: bool)
    requires Shape(s) && l < LISTS && Has(s.master, l, k) && Steps(p, s, es).Some?
  {
    var bs := Own(p, l, k, s, es, bytes);
    && (Meter(s.master[l].rules[k].tally, bytes) == 0 || AllFresh(p, s))
    && forall i, j :: 0 <= i < j < |s.threads| && i < |bs| && bs[i].own > 0 ==> !Stale(p, s, j)
  }

  lemma StaleBehind<C, H>(p: Protocol<C, H>, s: Sys<C>, bs: seq<Brought>, i: nat)
    requires i <= |bs| == |s.threads|
    requires forall j {:trigger bs[j]} :: 0 <= j < |bs| ==> (bs[j].stale <==> Stale(p, s, j))
    ensures StaleIn(bs[i..]) == 0 <==> forall j :: i <= j < |bs| ==> !Stale(p, s, j)
  {
    var rest := bs[i..];
    StaleInNone(rest);
    if StaleIn(rest) == 0 {
      forall j | i <= j < |bs|
        ensures !Stale(p, s, j)
      {
        assert !rest[j - i].stale && rest[j - i] == bs[j];
      }
    }
    if forall j :: i <= j < |bs| ==> !Stale(p, s, j) {
      forall j | 0 <= j < |rest|
        ensures !rest[j].stale
      {
        assert rest[j] == bs[i + j] && !Stale(p, s, i + j);
      }
    }
  }

  lemma CleanIff<C, H>(p: Protocol<C, H>, s: Sys<C>, start: u64, bs: seq<Brought>)
    requires |bs| == |s.threads|
    requires forall j {:trigger bs[j]} :: 0 <= j < |bs| ==> (bs[j].stale <==> Stale(p, s, j))
    ensures Clean(start, bs) <==>
            && (start == 0 || AllFresh(p, s))
            && forall i, j :: 0 <= i < j < |s.threads| && i < |bs| && bs[i].own > 0 ==> !Stale(p, s, j)
  {
    StaleBehind(p, s, bs, 0);
    assert bs[0..] == bs;
    forall i {:trigger bs[i]} | 0 <= i < |bs|
      ensures StaleIn(bs[i + 1..]) == 0 <==> forall j :: i < j < |bs| ==> !Stale(p, s, j)
    {
      StaleBehind(p, s, bs, i + 1);
    }
  }

  lemma RightIsClean<C, H>(p: Protocol<C, H>, l: nat, k: nat, s: Sys<C>, es: seq<Event<C, H>>, v: Sys<C>, bytes: bool)
    requires Level(l, k, s) && l < LISTS && Visits(p, s, es, v)
    ensures CountsRight(p, l, k, s, es, bytes) <==>
            Clean(Meter(s.master[l].rules[k].tally, bytes), Own(p, l, k, s, es, bytes))
  {
    RoundCounts(p, l, k, s, es, v, bytes);
    CleanIff(p, s, Meter(s.master[l].rules[k].tally, bytes), Own(p, l, k, s, es, bytes));
  }

  /**
    When a count is true. Whatever the threads hold when the round begins, and wherever packets
    arrive during it: as long as the counter does not wrap, the count that the next examined rate
    is computed from is never below the true one, and it is the true one exactly if no thread is
    stale, or the rule had counted nothing before and brings nothing ahead of a stale thread.
   */
  lemma CountIsTrueIff<C, H>(
      p: Protocol<C, H>, l: nat, k: nat, s: Sys<C>, es: seq<Event<C, H>>, v: Sys<C>, bytes: bool)
    requires Level(l, k, s) && l < LISTS && Visits(p, s, es, v)
    requires Moves(Meter(s.master[l].rules[k].tally, bytes), Own(p, l, k, s, es, bytes)) < 0x1_0000_0000_0000_0000
    ensures v.seen == v.change && Has(v.master, l, k) && Has(v.prev, l, k)
    ensures var true_ := TrueCount(Own(p, l, k, s, es, bytes));
            && Difference(l, k, v, bytes) >= true_
            && (Difference(l, k, v, bytes) == true_ <==> CountsRight(p, l, k, s, es, bytes))
  {
    LevelKept(p, l, k, s, es, v);
    RoundCounts(p, l, k, s, es, v, bytes);
    RightIsClean(p, l, k, s, es, v, bytes);
    WrappedMovesAreTrueIff(Meter(s.master[l].rules[k].tally, bytes), Own(p, l, k, s, es, bytes));
  }

  /** In a round that brings the rule nothing, no bound is needed. */
  lemma QuietCountIsTrueIff<C, H>(
      p: Protocol<C, H>, l: nat, k: nat, s: Sys<C>, es: seq<Event<C, H>>, v: Sys<C>, bytes: bool)
    requires Level(l, k, s) && l < LISTS && Visits(p, s, es, v)
    requires var bs := Own(p, l, k, s, es, bytes); forall i {:trigger bs[i]} :: 0 <= i < |bs| ==> bs[i].own == 0
    ensures Has(v.master, l, k) && Has(v.prev, l, k)
    ensures PlainSum(Own(p, l, k, s, es, bytes)) == 0
    ensures Difference(l, k, v, bytes) == 0 <==> Meter(s.master[l].rules[k].tally, bytes) == 0 || AllFresh(p, s)
  {
    RoundCounts(p, l, k, s, es, v, bytes);
    var bs := Own(p, l, k, s, es, bytes);
    StaleBehind(p, s, bs, 0);
    assert bs[0..] == bs;
    NothingMovesIff(Meter(s.master[l].rules[k].tally, bytes), bs);
  }

  // ---- from counts to the rates that are examined ----

  /** The watcher's next two steps: the decision that follows will examine the rates. */
  ghost predicate Examines<C, H>(p: Protocol<C, H>, v: Sys<C>, x: Event<C, H>, y: Event<C, H>, w: Sys<C>) {
    && Shape(v) && v.pc.CalcDelta? && x.Work? && y.Work? && Enabled(v, x) && Shape(Next(p, v, x))
    && Enabled(Next(p, v, x), y) && w == Next(p, Next(p, v, x), y)
  }

  lemma RateExamined<C, H>(p: Protocol<C, H>, l: nat, k: nat, v: Sys<C>, x: Event<C, H>, y: Event<C, H>, w: Sys<C>)
    requires Examines(p, v, x, y, w) && l < LISTS && Has(v.master, l, k) && Has(v.prev, l, k)
    requires |v.prev[l].rules| == |v.master[l].rules| && v.seen == v.change
    ensures v.master[l].updated > v.prev[l].updated
    ensures w.pc.Decide? && w.seen == w.change && Has(w.master, l, k)
    ensures w.master[l].rules[k] ==
            DeltaRule(v.master[l].rules[k], v.prev[l].rules[k], v.master[l].updated - v.prev[l].updated)
  {
    assert DeltaDefined(v.master[l], v.prev[l]);
  }

  lemma RateOfDifference<C, H>(
      p: Protocol<C, H>, l: nat, k: nat, v: Sys<C>, x: Event<C, H>, y: Event<C, H>, w: Sys<C>, bytes: bool)
    requires Examines(p, v, x, y, w) && l < LISTS && Has(v.master, l, k) && Has(v.prev, l, k)
    requires |v.prev[l].rules| == |v.master[l].rules| && v.seen == v.change
    ensures v.master[l].updated > v.prev[l].updated
    ensures w.pc.Decide? && w.seen == w.change && Has(w.master, l, k)
    ensures (if bytes then w.master[l].rules[k].bps else w.master[l].rules[k].pps) ==
            RateOf(Difference(l, k, v, bytes), v.master[l].updated - v.prev[l].updated)
  {
    RateExamined(p, l, k, v, x, y, w);
  }

  /** A larger count gives no smaller a rate. */
  lemma RateGrows(a: u64, b: u64, dt: real)
    requires a <= b && dt > 0.0
    ensures RateOf(a, dt) <= RateOf(b, dt)
  {
    var x, y := a as real / dt, b as real / dt;
    Quotients(a as real, b as real, dt);
  }

  lemma Quotients(a: real, b: real, dt: real)
    requires a <= b && dt > 0.0
    ensures a / dt <= b / dt
  {
  }

  /** So the rate examined is never below the true one, and it is the true one if the count is right. */
  lemma ExaminedRates<C, H>(
      p: Protocol<C, H>, l: nat, k: nat, s: Sys<C>, es: seq<Event<C, H>>, v: Sys<C>,
      x: Event<C, H>, y: Event<C, H>, w: Sys<C>, bytes: bool)
    requires Level(l, k, s) && l < LISTS && Visits(p, s, es, v) && Examines(p, v, x, y, w)
    requires Moves(Meter(s.master[l].rules[k].tally, bytes), Own(p, l, k, s, es, bytes)) < 0x1_0000_0000_0000_0000
    ensures w.pc.Decide? && w.seen == w.change && Has(w.master, l, k) && v.master[l].updated > v.prev[l].updated
    ensures var examined := if bytes then w.master[l].rules[k].bps else w.master[l].rules[k].pps;
            var right := RateOf(TrueCount(Own(p, l, k, s, es, bytes)), v.master[l].updated - v.prev[l].updated);
            examined >= right && (CountsRight(p, l, k, s, es, bytes) ==> examined == right)
  {
    CountIsTrueIff(p, l, k, s, es, v, bytes);
    LevelKept(p, l, k, s, es, v);
    RateOfDifference(p, l, k, v, x, y, w, bytes);
    RateGrows(TrueCount(Own(p, l, k, s, es, bytes)), Difference(l, k, v, bytes),
              v.master[l].updated - v.prev[l].updated);
  }
}
