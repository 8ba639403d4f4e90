/**
  The point of the design: counting on one private copy of the rules per receiver thread, and
  merging the copies now and then, counts what a single list would have counted.
 */
module Sharding {
  import opened Words
  import opened Tallies
  import opened Rules
  import opened RulesLists

  /** The master list and the copy of each receiver thread. */
  datatype Shards<C> = Shards(master: seq<Rule<C>>, threads: seq<seq<Rule<C>>>)

  /** The atomic steps that leave the rules alone, in any interleaving. */
  datatype Step<C, H> =
    | Arrive(i: nat, pkt: Packet<H>)
    | Merge(i: nat)
    | Rates(prev: seq<Rule<C>>, dt: real)
    | Check(clock: Clock)

  /** Every thread works on a copy of the master's rules. */
  ghost predicate Aligned<C(!new)>(s: Shards<C>) {
    forall i {:trigger s.threads[i]} :: 0 <= i < |s.threads| ==> SameSpecs(s.threads[i], s.master)
  }

  /** The thread exists, and time has passed. */
  predicate Legal<C, H>(threads: nat, step: Step<C, H>) {
    match step
    case Arrive(i, _) => i < threads
    case Merge(i) => i < threads
    case Rates(_, dt) => dt > 0.0
    case Check(_) => true
  }

  ghost function Next<C(!new), H>(p: Protocol<C, H>, s: Shards<C>, step: Step<C, H>): Shards<C>
    requires Aligned(s) && Legal(|s.threads|, step)
  {
    match step
    case Arrive(i, pkt) => s.(threads := s.threads[i := Credited(p, s.threads[i], pkt)])
    case Merge(i) => Shards(Merged(s.master, s.threads[i]), s.threads[i := Zeroed(s.threads[i])])
    case Rates(prev, dt) => s.(master := Delta(ListState(s.master, dt), ListState(prev, 0.0)))
    case Check(clock) => s.(master := Checked(s.master, clock))
  }

  lemma NextAligned<C(!new), H>(p: Protocol<C, H>, s: Shards<C>, step: Step<C, H>)
    requires Aligned(s) && Legal(|s.threads|, step)
    ensures Aligned(Next(p, s, step)) && SameSpecs(Next(p, s, step).master, s.master)
    ensures |Next(p, s, step).threads| == |s.threads|
  {
  }

  ghost predicate LegalRun<C(!new), H>(threads: nat, steps: seq<Step<C, H>>) {
    forall n {:trigger steps[n]} :: 0 <= n < |steps| ==> Legal(threads, steps[n])
  }

  ghost function Run<C(!new), H>(p: Protocol<C, H>, s: Shards<C>, steps: seq<Step<C, H>>): (t: Shards<C>)
    requires Aligned(s) && LegalRun(|s.threads|, steps)
    ensures Aligned(t) && SameSpecs(t.master, s.master) && |t.threads| == |s.threads|
  {
    if steps == [] then s
    else
      var before := Run(p, s, steps[..|steps| - 1]);
      assert Legal(|s.threads|, steps[|steps| - 1]);
      NextAligned(p, before, steps[|steps| - 1]);
      Next(p, before, steps[|steps| - 1])
  }

  function PacketsOf<C, H>(steps: seq<Step<C, H>>): seq<Packet<H>> {
    if steps == [] then []
    else
      var before, last := PacketsOf(steps[..|steps| - 1]), steps[|steps| - 1];
      if last.Arrive? then before + [last.pkt] else before
  }

  // ---- what all lists together hold ----

  /** The counters of one rule, thread by thread. */
  ghost function Column<C(!new)>(s: Shards<C>, k: nat): (ts: seq<Tally>)
    requires Aligned(s) && k < |s.master|
    ensures |ts| == |s.threads|
    ensures forall i {:trigger ts[i]} :: 0 <= i < |ts| ==> k < |s.threads[i]| && ts[i] == s.threads[i][k].tally
  {
    assert forall i :: 0 <= i < |s.threads| ==> SameSpecs(s.threads[i], s.master);
    seq(|s.threads|, i requires 0 <= i < |s.threads| => s.threads[i][k].tally)
  }

  function Sum(ts: seq<Tally>): Tally {
    if ts == [] then ZERO else Plus(Sum(ts[..|ts| - 1]), ts[|ts| - 1])
  }

  /** The counters of rule `k` over the master and all threads. */
  ghost function Total<C(!new)>(s: Shards<C>, k: nat): Tally
    requires Aligned(s) && k < |s.master|
  {
    Plus(s.master[k].tally, Sum(Column(s, k)))
  }

  /** Adding `extra` to one summand adds it to the sum. */
  lemma {:induction false} SumGrows(ts: seq<Tally>, i: nat, t: Tally, extra: Tally)
    requires i < |ts| && t == Plus(ts[i], extra)
    ensures Sum(ts[i := t]) == Plus(Sum(ts), extra)
  {
    var front, last := ts[..|ts| - 1], ts[|ts| - 1];
    if i == |front| {
      SumSnoc(front, t);
      assert ts[i := t] == front + [t];
      PlusAssociates(Sum(front), last, extra);
    } else {
      SumSnoc(front[i := t], last);
      assert ts[i := t] == front[i := t] + [last];
      SumGrows(front, i, t, extra);
      PlusMiddle(Sum(front), extra, last);
    }
  }

  lemma SumSnoc(front: seq<Tally>, t: Tally)
    ensures Sum(front + [t]) == Plus(Sum(front), t)
  {
  }

  lemma PlusMiddle(a: Tally, b: Tally, c: Tally)
    ensures Plus(Plus(a, b), c) == Plus(Plus(a, c), b)
  {
    PlusAssociates(a, b, c);
    PlusCommutes(b, c);
    PlusAssociates(a, c, b);
  }

  // ---- one list fed a stream ----

  ghost function Feed<C, H>(p: Protocol<C, H>, rules: seq<Rule<C>>, pkts: seq<Packet<H>>): (out: seq<Rule<C>>)
    ensures SameSpecs(out, rules)
  {
    if pkts == [] then rules else Credited(p, Feed(p, rules, pkts[..|pkts| - 1]), pkts[|pkts| - 1])
  }

  /** The hits of rule `k` in a stream. */
  ghost function HitsOf<C, H>(p: Protocol<C, H>, rules: seq<Rule<C>>, pkts: seq<Packet<H>>, k: nat): seq<Hit>
    requires k < |rules|
  {
    if pkts == [] then []
    else
      var before, last := HitsOf(p, rules, pkts[..|pkts| - 1], k), pkts[|pkts| - 1];
      if Credits(p, rules, last, k) then before + [HitOf(last)] else before
  }

  lemma CreditIsPlus(t: Tally, h: Hit)
    ensures Credit(t, h) == Plus(t, TallyOf([h]))
  {
  }

  /** What feeding adds to a rule: the tally of its hits. */
  lemma {:induction false} FeedTally<C, H>(p: Protocol<C, H>, rules: seq<Rule<C>>, pkts: seq<Packet<H>>, k: nat)
    requires k < |rules|
    ensures Feed(p, rules, pkts)[k].tally == Plus(rules[k].tally, TallyOf(HitsOf(p, rules, pkts, k)))
  {
    if pkts == [] {
      PlusZero(rules[k].tally);
    } else {
      var front, last := pkts[..|pkts| - 1], pkts[|pkts| - 1];
      FeedTally(p, rules, front, k);
      var fed := Feed(p, rules, front);
      CreditsBySpec(p, fed, rules, last, k);
      if Credits(p, rules, last, k) {
        var hits := HitsOf(p, rules, front, k);
        assert (hits + [HitOf(last)])[..|hits|] == hits;
        CreditPlus(rules[k].tally, TallyOf(hits), HitOf(last));
      }
    }
  }

  lemma {:induction false} FeedConcat<C, H>(
      p: Protocol<C, H>, rules: seq<Rule<C>>, a: seq<Packet<H>>, b: seq<Packet<H>>)
    ensures Feed(p, rules, a + b) == Feed(p, Feed(p, rules, a), b)
  {
    if b == [] {
      assert a + b == a;
    } else {
      assert (a + b)[..|a + b| - 1] == a + b[..|b| - 1];
      FeedConcat(p, rules, a, b[..|b| - 1]);
    }
  }

  /** Two packets can be swapped. */
  lemma FeedSwaps<C, H>(p: Protocol<C, H>, rules: seq<Rule<C>>, x: Packet<H>, y: Packet<H>)
    ensures Credited(p, Credited(p, rules, x), y) == Credited(p, Credited(p, rules, y), x)
  {
    var byX, byY := Credited(p, rules, x), Credited(p, rules, y);
    forall k | 0 <= k < |rules|
      ensures Credited(p, byX, y)[k] == Credited(p, byY, x)[k]
    {
      CreditsBySpec(p, byX, rules, y, k);
      CreditsBySpec(p, byY, rules, x, k);
      CreditCommutes(rules[k].tally, HitOf(x), HitOf(y));
    }
  }

  /** A packet fed first might as well be fed last. */
  lemma {:induction false} FeedRotates<C, H>(
      p: Protocol<C, H>, rules: seq<Rule<C>>, x: Packet<H>, rest: seq<Packet<H>>)
    ensures Feed(p, Credited(p, rules, x), rest) == Credited(p, Feed(p, rules, rest), x)
  {
    if rest != [] {
      var front, last := rest[..|rest| - 1], rest[|rest| - 1];
      FeedRotates(p, rules, x, front);
      FeedSwaps(p, Feed(p, rules, front), x, last);
    }
  }

  lemma FeedLast<C, H>(
      p: Protocol<C, H>, rules: seq<Rule<C>>, left: seq<Packet<H>>, x: Packet<H>, right: seq<Packet<H>>)
    ensures Feed(p, rules, left + ([x] + right)) == Credited(p, Feed(p, rules, left + right), x)
  {
    var mid := Feed(p, rules, left);
    FeedConcat(p, rules, left, [x] + right);
    FeedConcat(p, rules, left, right);
    FeedConcat(p, mid, [x], right);
    assert [x][..0] == [];
    assert Feed(p, mid, [x]) == Credited(p, mid, x);
    FeedRotates(p, mid, x, right);
  }

  lemma Remove<T>(a: seq<T>, b: seq<T>) returns (j: nat)
    requires a != [] && multiset(a) == multiset(b)
    ensures j < |b| && b[j] == a[|a| - 1] && b == b[..j] + ([b[j]] + b[j + 1..])
    ensures multiset(a[..|a| - 1]) == multiset(b[..j] + b[j + 1..])
  {
    var front, x := a[..|a| - 1], a[|a| - 1];
    assert a == front + [x];
    assert x in multiset(b);
    j :| 0 <= j < |b| && b[j] == x;
    assert b == b[..j] + ([x] + b[j + 1..]);
    MultisetSplit(front, x, b[..j], b[j + 1..]);
  }

  lemma MultisetSplit<T>(front: seq<T>, x: T, left: seq<T>, right: seq<T>)
    requires multiset(front + [x]) == multiset(left + ([x] + right))
    ensures multiset(front) == multiset(left + right)
  {
    assert multiset(front + [x]) - multiset{x} == multiset(front);
    assert multiset(left + ([x] + right)) - multiset{x} == multiset(left + right);
  }

  /** The order of the stream does not matter. */
  lemma {:induction false} FeedAnyOrder<C, H>(
      p: Protocol<C, H>, rules: seq<Rule<C>>, a: seq<Packet<H>>, b: seq<Packet<H>>)
    requires multiset(a) == multiset(b)
    ensures Feed(p, rules, a) == Feed(p, rules, b)
    decreases |a|
  {
    if a == [] {
      assert |multiset(b)| == 0;
    } else {
      var j := Remove(a, b);
      FeedAnyOrder(p, rules, a[..|a| - 1], b[..j] + b[j + 1..]);
      FeedLast(p, rules, b[..j], b[j], b[j + 1..]);
    }
  }

  // ---- the refinement ----

  ghost predicate SameCounts(a: Tally, b: Tally) {
    a.packets == b.packets && a.bytes == b.bytes
  }

  /** How one step changes the total of a rule. */
  lemma StepTotal<C(!new), H>(p: Protocol<C, H>, s: Shards<C>, step: Step<C, H>, k: nat)
    requires Aligned(s) && Legal(|s.threads|, step) && k < |s.master|
    ensures var t := Next(p, s, step);
            && Aligned(t) && |t.master| == |s.master|
            && (step.Arrive? ==>
                  Total(t, k) == if Credits(p, s.master, step.pkt, k) then Credit(Total(s, k), HitOf(step.pkt))
                                 else Total(s, k))
            && (step.Merge? || step.Rates? ==> Total(t, k) == Total(s, k))
            && (step.Check? ==> SameCounts(Total(t, k), Total(s, k)))
  {
    NextAligned(p, s, step);
    match step
    case Arrive(i, pkt) => ArriveTotal(p, s, i, pkt, k);
    case Merge(i) => MergeTotal(p, s, i, k);
    case Rates(prev, dt) =>
      assert Column(Next(p, s, step), k) == Column(s, k);
    case Check(clock) =>
      assert Column(Next(p, s, step), k) == Column(s, k);
  }

  lemma ArriveTotal<C(!new), H>(p: Protocol<C, H>, s: Shards<C>, i: nat, pkt: Packet<H>, k: nat)
    requires Aligned(s) && i < |s.threads| && k < |s.master|
    requires Aligned(Next(p, s, Arrive(i, pkt)))
    ensures Total(Next(p, s, Arrive(i, pkt)), k) ==
            if Credits(p, s.master, pkt, k) then Credit(Total(s, k), HitOf(pkt)) else Total(s, k)
  {
    var list, ts := s.threads[i], Column(s, k);
    assert SameSpecs(list, s.master);
    CreditsBySpec(p, list, s.master, pkt, k);
    if Credits(p, s.master, pkt, k) {
      var hit := HitOf(pkt);
      assert Column(Next(p, s, Arrive(i, pkt)), k) == ts[i := Credit(ts[i], hit)];
      CreditIsPlus(ts[i], hit);
      SumGrows(ts, i, Credit(ts[i], hit), TallyOf([hit]));
      CreditIsPlus(Sum(ts), hit);
      CreditPlus(s.master[k].tally, Sum(ts), hit);
    } else {
      assert Column(Next(p, s, Arrive(i, pkt)), k) == ts;
    }
  }

  lemma MergeTotal<C(!new), H>(p: Protocol<C, H>, s: Shards<C>, i: nat, k: nat)
    requires Aligned(s) && i < |s.threads| && k < |s.master|
    requires Aligned(Next<C, H>(p, s, Merge(i)))
    ensures Total(Next<C, H>(p, s, Merge(i)), k) == Total(s, k)
  {
    var ts := Column(s, k);
    assert SameSpecs(s.threads[i], s.master);
    var emptied := ts[i := ZERO];
    assert Column(Next<C, H>(p, s, Merge(i)), k) == emptied;
    PlusZero(ts[i]);
    SumGrows(emptied, i, ts[i], ts[i]);
    assert emptied[i := ts[i]] == ts;
    PlusAssociates(s.master[k].tally, ts[i], Sum(emptied));
    PlusCommutes(ts[i], Sum(emptied));
  }

  /**
    However packets are split among threads and however packets, merges, rate computations and
    trigger checks interleave: the packet and byte counts of each rule, over the master and all
    threads, are those of one list fed the same packets in any order. Without a trigger check,
    which clears the master's destination tables, the destination counts agree too; so from any
    point on, they agree relative to the last clear.
   */
  lemma {:induction false} ShardingRefinesOneList<C(!new), H>(
      p: Protocol<C, H>, s: Shards<C>, steps: seq<Step<C, H>>, whole: seq<Rule<C>>, pkts: seq<Packet<H>>, k: nat)
    requires Aligned(s) && LegalRun(|s.threads|, steps) && k < |s.master|
    requires SameSpecs(whole, s.master) && whole[k].tally == Total(s, k)
    requires multiset(pkts) == multiset(PacketsOf(steps))
    ensures SameCounts(Total(Run(p, s, steps), k), Feed(p, whole, pkts)[k].tally)
    ensures (forall n :: 0 <= n < |steps| ==> !steps[n].Check?) ==>
              Total(Run(p, s, steps), k) == Feed(p, whole, pkts)[k].tally
  {
    FeedAnyOrder(p, whole, pkts, PacketsOf(steps));
    RunTotal(p, s, steps, whole, k);
  }

  lemma FedOneMore<C, H>(
      p: Protocol<C, H>, whole: seq<Rule<C>>, pkts: seq<Packet<H>>, pkt: Packet<H>, master: seq<Rule<C>>, k: nat)
    requires SameSpecs(Feed(p, whole, pkts), master) && k < |master|
    ensures var fed := Feed(p, whole, pkts)[k].tally;
            |Feed(p, whole, pkts + [pkt])| == |master|
            && Feed(p, whole, pkts + [pkt])[k].tally ==
               if Credits(p, master, pkt, k) then Credit(fed, HitOf(pkt)) else fed
  {
  }

  /** One more step keeps the shards in agreement with a single list. */
  lemma StepAgrees<C(!new), H>(
      p: Protocol<C, H>, s: Shards<C>, step: Step<C, H>, whole: seq<Rule<C>>, pkts: seq<Packet<H>>, k: nat)
    requires Aligned(s) && Legal(|s.threads|, step) && k < |s.master| && SameSpecs(Feed(p, whole, pkts), s.master)
    ensures var t := Next(p, s, step);
            var was, now := Feed(p, whole, pkts), Feed(p, whole, if step.Arrive? then pkts + [step.pkt] else pkts);
            && Aligned(t) && k < |t.master| == |now|
            && (SameCounts(Total(s, k), was[k].tally) ==> SameCounts(Total(t, k), now[k].tally))
            && (!step.Check? && Total(s, k) == was[k].tally ==> Total(t, k) == now[k].tally)
  {
    StepTotal(p, s, step, k);
    if step.Arrive? {
      FedOneMore(p, whole, pkts, step.pkt, s.master, k);
    }
  }

  lemma {:induction false} RunTotal<C(!new), H>(
      p: Protocol<C, H>, s: Shards<C>, steps: seq<Step<C, H>>, whole: seq<Rule<C>>, k: nat)
    requires Aligned(s) && LegalRun(|s.threads|, steps) && k < |s.master|
    requires SameSpecs(whole, s.master) && whole[k].tally == Total(s, k)
    ensures var fed := Feed(p, whole, PacketsOf(steps))[k].tally;
            && SameCounts(Total(Run(p, s, steps), k), fed)
            && ((forall n :: 0 <= n < |steps| ==> !steps[n].Check?) ==> Total(Run(p, s, steps), k) == fed)
  {
    if steps != [] {
      var front, step := steps[..|steps| - 1], steps[|steps| - 1];
      RunTotal(p, s, front, whole, k);
      assert Legal(|s.threads|, step);
      var mid := Run(p, s, front);
      assert SameSpecs(Feed(p, whole, PacketsOf(front)), mid.master);
      StepAgrees(p, mid, step, whole, PacketsOf(front), k);
    }
  }
}
