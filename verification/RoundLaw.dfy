/**
  What one round of the watcher does to the master's counters, whatever the threads hold and
  wherever packets arrive in between. `operator=` copies counters along with rules, so each stale
  thread doubles the master; the law below says exactly by how much.
 */
module RoundLaw {
  import opened Doubling
  import opened Words
  import opened Tallies
  import opened Rules
  import opened RulesLists
  import opened Watchers

  /** A visit as it was made: was the thread stale, and what had it counted itself. */
  datatype Visit = Visit(stale: bool, own: Tally)

  /**
    The history of a round for one rule: per thread, the packets credited to the rule since the
    round began or its list was copied; whether the thread being visited is stale; the visits made.
   */
  datatype Ledger = Ledger(came: seq<seq<Hit>>, stale: bool, visits: seq<Visit>)

  function Blank(n: nat): Ledger {
    Ledger(seq(n, i => []), false, [])
  }

  /** What thread `i` had counted for the rule when the round began. */
  function CountedAt<C>(c: Coll<C>, l: nat, k: nat): Tally {
    if Has(c, l, k) then c[l].rules[k].tally else ZERO
  }

  ghost function WorkNoted<C, H>(p: Protocol<C, H>, l: nat, k: nat, s0: Sys<C>, s: Sys<C>, g: Ledger): (f: Ledger)
    requires Shape(s0) && Shape(s) && |s0.threads| == |s.threads| == |g.came| && l < LISTS
    ensures |f.came| == |g.came|
  {
    match s.pc
    case Compare(i) => g.(stale := !SameColl(p, s.threads[i], s.master))
    case Copy(i, m) => if m == l then g.(came := g.came[i := []]) else g
    case Merge(i, m) =>
      if m == l then
        var own := TallyOf(g.came[i]);
        var whole := if g.stale then own else Plus(CountedAt(s0.threads[i], l, k), own);
        Ledger(g.came[i := []], g.stale, g.visits + [Visit(g.stale, whole)])
      else g
    case _ => g
  }

  ghost function Noted<C, H>(
      p: Protocol<C, H>, l: nat, k: nat, s0: Sys<C>, s: Sys<C>, g: Ledger, e: Event<C, H>): (f: Ledger)
    requires Shape(s0) && Shape(s) && Enabled(s, e) && |s0.threads| == |s.threads| == |g.came| && l < LISTS
    ensures |f.came| == |g.came|
  {
    match e
    case Arrive(i, m, pkt) =>
      var rules := s.threads[i][l].rules;
      if m == l && k < |rules| && Credits(p, rules, pkt, k) then
        g.(came := g.came[i := g.came[i] + [HitOf(pkt)]])
      else g
    case Load(_, _) => g
    case Edit(_, _) => g
    case Work(_, _) => WorkNoted(p, l, k, s0, s, g)
  }

  ghost function Journal<C, H>(p: Protocol<C, H>, l: nat, k: nat, s0: Sys<C>, es: seq<Event<C, H>>): (g: Ledger)
    requires Shape(s0) && l < LISTS && Steps(p, s0, es).Some?
    ensures |g.came| == |s0.threads|
  {
    if es == [] then Blank(|s0.threads|)
    else
      var front := es[..|es| - 1];
      Noted(p, l, k, s0, Steps(p, s0, front).value, Journal(p, l, k, s0, front), es[|es| - 1])
  }

  /** From an idle watcher, packets and visits only: the first round is not over before the end. */
  ghost predicate FirstRound<C, H>(p: Protocol<C, H>, s0: Sys<C>, es: seq<Event<C, H>>)
    requires Shape(s0)
  {
    if es == [] then s0.pc.Idle?
    else
      var front := es[..|es| - 1];
      FirstRound(p, s0, front) && Steps(p, s0, es).Some? && (es[|es| - 1].Arrive? || es[|es| - 1].Work?)
      && !Steps(p, s0, front).value.pc.CalcDelta?
  }

  // ---- the invariant of a round ----

  ghost predicate Stale<C, H>(p: Protocol<C, H>, s0: Sys<C>, i: nat)
    requires i < |s0.threads|
  {
    !SameColl(p, s0.threads[i], s0.master)
  }

  function Meter(t: Tally, bytes: bool): u64 {
    if bytes then t.bytes else t.packets
  }

  ghost function BroughtBy(vs: seq<Visit>, bytes: bool): (bs: seq<Brought>)
    ensures |bs| == |vs|
    ensures forall i {:trigger bs[i]} :: 0 <= i < |vs| ==> bs[i] == Brought(vs[i].stale, Meter(vs[i].own, bytes))
  {
    seq(|vs|, i requires 0 <= i < |vs| => Brought(vs[i].stale, Meter(vs[i].own, bytes)))
  }

  /** How many visits have merged list `l`. */
  function MergedBy<C>(s: Sys<C>, l: nat): nat {
    match s.pc
    case Compare(i) => i
    case Copy(i, _) => i
    case Merge(i, m) => if m > l then i + 1 else i
    case CalcDelta => |s.threads|
    case _ => 0
  }

  /** List `l` of thread `j` has been copied from the master in this visit. */
  predicate Copied<C>(s: Sys<C>, g: Ledger, l: nat, j: nat) {
    match s.pc
    case Copy(i, m) => i == j && m > l
    case Merge(i, m) => i == j && g.stale && m <= l
    case _ => false
  }

  /** The first thread whose visit has not begun. */
  function Unvisited<C>(s: Sys<C>): nat {
    match s.pc
    case Compare(i) => i
    case Copy(i, _) => i + 1
    case Merge(i, _) => i + 1
    case CalcDelta => |s.threads|
    case _ => 0
  }

  ghost predicate SpecsKept<C>(a: Coll<C>, b: Coll<C>) {
    |a| == |b| && forall m {:trigger a[m]} {:trigger b[m]} :: 0 <= m < |a| ==> SameSpecs(a[m].rules, b[m].rules)
  }

  ghost predicate SpecInv<C>(s0: Sys<C>, s: Sys<C>) {
    && |s.threads| == |s0.threads| && SpecsKept(s0.master, s.master)
    && forall j {:trigger s.threads[j]} :: Unvisited(s) <= j < |s.threads| ==> SpecsKept(s0.threads[j], s.threads[j])
  }

  ghost predicate MasterInv<C>(l: nat, k: nat, s0: Sys<C>, s: Sys<C>, g: Ledger) {
    Has(s0.master, l, k) ==>
      Has(s.master, l, k)
      && forall bytes {:trigger BroughtBy(g.visits, bytes)} ::
           Meter(s.master[l].rules[k].tally, bytes) ==
           AllVisits(Meter(s0.master[l].rules[k].tally, bytes), BroughtBy(g.visits, bytes))
  }

  ghost predicate ThreadInv<C>(l: nat, k: nat, s0: Sys<C>, s: Sys<C>, g: Ledger, j: nat)
    requires j < |s.threads| == |s0.threads| == |g.came|
  {
    j >= MergedBy(s, l) && Has(s.threads[j], l, k) ==>
      var from := if Copied(s, g, l, j) then s.master else s0.threads[j];
      Has(from, l, k) && s.threads[j][l].rules[k].tally == Plus(from[l].rules[k].tally, TallyOf(g.came[j]))
  }

  ghost predicate ThreadsInv<C>(l: nat, k: nat, s0: Sys<C>, s: Sys<C>, g: Ledger)
    requires |s.threads| == |s0.threads| == |g.came|
  {
    forall j {:trigger ThreadInv(l, k, s0, s, g, j)} :: 0 <= j < |s.threads| ==> ThreadInv(l, k, s0, s, g, j)
  }

  ghost predicate FlagInv<C, H>(p: Protocol<C, H>, l: nat, s0: Sys<C>, s: Sys<C>, g: Ledger)
    requires |s.threads| == |s0.threads| && Shape(s)
  {
    && |g.visits| == MergedBy(s, l) <= |s.threads|
    && (forall i {:trigger g.visits[i]} :: 0 <= i < |g.visits| ==> (g.visits[i].stale <==> Stale(p, s0, i)))
    && (s.pc.Copy? ==> g.stale && Stale(p, s0, s.pc.i))
    && (s.pc.Merge? ==> (g.stale <==> Stale(p, s0, s.pc.i)))
  }

  ghost predicate LedgerInv<C, H>(p: Protocol<C, H>, l: nat, k: nat, s0: Sys<C>, s: Sys<C>, g: Ledger) {
    && Shape(s0) && Shape(s) && l < LISTS && |s.threads| == |s0.threads| == |g.came|
    && !s.pc.Snapshot? && !s.pc.Decide?
    && (!s.pc.Crashed? ==>
          && SpecInv(s0, s) && MasterInv(l, k, s0, s, g) && FlagInv(p, l, s0, s, g)
          && ThreadsInv(l, k, s0, s, g))
  }

  lemma SameKept<C, H>(p: Protocol<C, H>, a: Coll<C>, a': Coll<C>, b: Coll<C>, b': Coll<C>)
    requires SpecsKept(a, a') && SpecsKept(b, b')
    ensures SameColl(p, a, b) <==> SameColl(p, a', b')
  {
    if |a| == |b| {
      forall m | 0 <= m < |a|
        ensures SameRules(p, a[m].rules, b[m].rules) <==> SameRules(p, a'[m].rules, b'[m].rules)
      {
        SameBySpec(p, a[m].rules, a'[m].rules, b[m].rules, b'[m].rules);
      }
    }
  }

  // ---- every step keeps it ----

  lemma ArriveThread<C, H>(
      p: Protocol<C, H>, l: nat, k: nat, s0: Sys<C>, s: Sys<C>, g: Ledger, e: Event<C, H>, j: nat)
    requires Shape(s0) && Shape(s) && l < LISTS && j < |s.threads| == |s0.threads| == |g.came|
    requires Enabled(s, e) && e.Arrive? && ThreadInv(l, k, s0, s, g, j)
    ensures ThreadInv(l, k, s0, Next(p, s, e), Noted(p, l, k, s0, s, g, e), j)
  {
    var Arrive(i, m, pkt) := e;
    if i == j && m == l && Has(s.threads[j], l, k) && Credits(p, s.threads[j][l].rules, pkt, k) && j >= MergedBy(s, l) {
      var from := if Copied(s, g, l, j) then s.master else s0.threads[j];
      var was := g.came[j];
      assert (was + [HitOf(pkt)])[..|was|] == was;
      CreditPlus(from[l].rules[k].tally, TallyOf(was), HitOf(pkt));
    }
  }

  lemma CompareThread<C, H>(
      p: Protocol<C, H>, l: nat, k: nat, s0: Sys<C>, s: Sys<C>, g: Ledger, e: Event<C, H>, j: nat)
    requires Shape(s0) && Shape(s) && l < LISTS && j < |s.threads| == |s0.threads| == |g.came|
    requires Enabled(s, e) && e.Work? && (s.pc.Idle? || s.pc.Compare?) && ThreadInv(l, k, s0, s, g, j)
    ensures ThreadInv(l, k, s0, Next(p, s, e), Noted(p, l, k, s0, s, g, e), j)
  {
  }

  lemma CopyThread<C, H>(
      p: Protocol<C, H>, l: nat, k: nat, s0: Sys<C>, s: Sys<C>, g: Ledger, e: Event<C, H>, j: nat)
    requires Shape(s0) && Shape(s) && l < LISTS && j < |s.threads| == |s0.threads| == |g.came|
    requires Enabled(s, e) && e.Work? && s.pc.Copy? && g.stale && ThreadInv(l, k, s0, s, g, j)
    ensures ThreadInv(l, k, s0, Next(p, s, e), Noted(p, l, k, s0, s, g, e), j)
  {
    if j == s.pc.i && s.pc.l == l && Has(s.master, l, k) {
      PlusZero(s.master[l].rules[k].tally);
    }
  }

  lemma MergeThread<C, H>(
      p: Protocol<C, H>, l: nat, k: nat, s0: Sys<C>, s: Sys<C>, g: Ledger, e: Event<C, H>, j: nat)
    requires Shape(s0) && Shape(s) && l < LISTS && j < |s.threads| == |s0.threads| == |g.came|
    requires Enabled(s, e) && e.Work? && s.pc.Merge? && ThreadInv(l, k, s0, s, g, j)
    requires Shape(Next(p, s, e)) && !Next(p, s, e).pc.Crashed?
    ensures ThreadInv(l, k, s0, Next(p, s, e), Noted(p, l, k, s0, s, g, e), j)
  {
  }

  lemma ArriveNoted<C, H>(
      p: Protocol<C, H>, l: nat, k: nat, s0: Sys<C>, s: Sys<C>, g: Ledger, e: Event<C, H>)
    requires LedgerInv(p, l, k, s0, s, g) && Enabled(s, e) && e.Arrive?
    ensures LedgerInv(p, l, k, s0, Next(p, s, e), Noted(p, l, k, s0, s, g, e))
  {
    NextShape(p, s, e);
    var f := Noted(p, l, k, s0, s, g, e);
    if !s.pc.Crashed? {
      forall j | 0 <= j < |s.threads|
        ensures ThreadInv(l, k, s0, Next(p, s, e), f, j)
      {
        assert ThreadInv(l, k, s0, s, g, j);
        ArriveThread(p, l, k, s0, s, g, e, j);
      }
    }
  }

  lemma CompareNoted<C, H>(
      p: Protocol<C, H>, l: nat, k: nat, s0: Sys<C>, s: Sys<C>, g: Ledger, e: Event<C, H>)
    requires LedgerInv(p, l, k, s0, s, g) && Enabled(s, e) && e.Work? && (s.pc.Idle? || s.pc.Compare?)
    ensures LedgerInv(p, l, k, s0, Next(p, s, e), Noted(p, l, k, s0, s, g, e))
  {
    NextShape(p, s, e);
    if s.pc.Compare? {
      SameKept(p, s0.threads[s.pc.i], s.threads[s.pc.i], s0.master, s.master);
    }
    var f := Noted(p, l, k, s0, s, g, e);
    forall j | 0 <= j < |s.threads|
      ensures ThreadInv(l, k, s0, Next(p, s, e), f, j)
    {
      assert ThreadInv(l, k, s0, s, g, j);
      CompareThread(p, l, k, s0, s, g, e, j);
    }
  }

  lemma CopyNoted<C, H>(
      p: Protocol<C, H>, l: nat, k: nat, s0: Sys<C>, s: Sys<C>, g: Ledger, e: Event<C, H>)
    requires LedgerInv(p, l, k, s0, s, g) && Enabled(s, e) && e.Work? && s.pc.Copy?
    ensures LedgerInv(p, l, k, s0, Next(p, s, e), Noted(p, l, k, s0, s, g, e))
  {
    NextShape(p, s, e);
    var f := Noted(p, l, k, s0, s, g, e);
    forall j | 0 <= j < |s.threads|
      ensures ThreadInv(l, k, s0, Next(p, s, e), f, j)
    {
      assert ThreadInv(l, k, s0, s, g, j);
      CopyThread(p, l, k, s0, s, g, e, j);
    }
  }

  /** The counter moves by one visit. */
  lemma MergeMaster<C, H>(
      p: Protocol<C, H>, l: nat, k: nat, s0: Sys<C>, s: Sys<C>, g: Ledger, e: Event<C, H>)
    requires LedgerInv(p, l, k, s0, s, g) && Enabled(s, e) && e.Work? && s.pc.Merge?
    requires !Next(p, s, e).pc.Crashed?
    ensures MasterInv(l, k, s0, Next(p, s, e), Noted(p, l, k, s0, s, g, e))
  {
    if s.pc.l == l && Has(s0.master, l, k) {
      var i := s.pc.i;
      assert ThreadInv(l, k, s0, s, g, i);
      var f := Noted(p, l, k, s0, s, g, e);
      forall bytes {:trigger BroughtBy(f.visits, bytes)}
        ensures Meter(Next(p, s, e).master[l].rules[k].tally, bytes) ==
                AllVisits(Meter(s0.master[l].rules[k].tally, bytes), BroughtBy(f.visits, bytes))
      {
        var bs := BroughtBy(f.visits, bytes);
        assert bs[..|bs| - 1] == BroughtBy(g.visits, bytes);
      }
    }
  }

  lemma MergeNoted<C, H>(
      p: Protocol<C, H>, l: nat, k: nat, s0: Sys<C>, s: Sys<C>, g: Ledger, e: Event<C, H>)
    requires LedgerInv(p, l, k, s0, s, g) && Enabled(s, e) && e.Work? && s.pc.Merge?
    ensures LedgerInv(p, l, k, s0, Next(p, s, e), Noted(p, l, k, s0, s, g, e))
  {
    NextShape(p, s, e);
    var f := Noted(p, l, k, s0, s, g, e);
    if !Next(p, s, e).pc.Crashed? {
      MergeMaster(p, l, k, s0, s, g, e);
      forall j | 0 <= j < |s.threads|
        ensures ThreadInv(l, k, s0, Next(p, s, e), f, j)
      {
        assert ThreadInv(l, k, s0, s, g, j);
        MergeThread(p, l, k, s0, s, g, e, j);
      }
    }
  }

  lemma StartNoted<C, H>(p: Protocol<C, H>, l: nat, k: nat, s0: Sys<C>)
    requires Shape(s0) && s0.pc.Idle? && l < LISTS
    ensures LedgerInv(p, l, k, s0, s0, Blank(|s0.threads|))
  {
    forall j | 0 <= j < |s0.threads|
      ensures ThreadInv(l, k, s0, s0, Blank(|s0.threads|), j)
    {
      if Has(s0.threads[j], l, k) {
        PlusZero(s0.threads[j][l].rules[k].tally);
      }
    }
  }

  lemma {:induction false} RoundKeeps<C, H>(p: Protocol<C, H>, l: nat, k: nat, s0: Sys<C>, es: seq<Event<C, H>>)
    requires Shape(s0) && l < LISTS && FirstRound(p, s0, es)
    ensures Steps(p, s0, es).Some? && LedgerInv(p, l, k, s0, Steps(p, s0, es).value, Journal(p, l, k, s0, es))
  {
    if es == [] {
      StartNoted(p, l, k, s0);
    } else {
      var front, e := es[..|es| - 1], es[|es| - 1];
      RoundKeeps(p, l, k, s0, front);
      var s, g := Steps(p, s0, front).value, Journal(p, l, k, s0, front);
      if e.Arrive? {
        ArriveNoted(p, l, k, s0, s, g, e);
      } else if s.pc.Copy? {
        CopyNoted(p, l, k, s0, s, g, e);
      } else if s.pc.Merge? {
        MergeNoted(p, l, k, s0, s, g, e);
      } else {
        CompareNoted(p, l, k, s0, s, g, e);
      }
    }
  }

  // ---- the law ----

  /**
    Whatever the threads hold and wherever packets arrive, at whichever thread: a counter that
    stood at `M` ends the visits of a round at `2^s * M`, plus, for each thread, what it brings
    times 2 to the number of stale threads after it, modulo 2^64. A fresh thread brings all it has
    counted; a stale one only what came between the copy of its list and its merge. A thread is
    stale if its rules differ from the master's when the round begins.
   */
  lemma Law<C, H>(p: Protocol<C, H>, l: nat, k: nat, s0: Sys<C>, es: seq<Event<C, H>>, bytes: bool)
    requires Shape(s0) && l < LISTS && Has(s0.master, l, k)
    requires FirstRound(p, s0, es) && Steps(p, s0, es).Some? && Steps(p, s0, es).value.pc.CalcDelta?
    ensures var s, g := Steps(p, s0, es).value, Journal(p, l, k, s0, es);
            && |g.visits| == |s0.threads|
            && (forall i {:trigger g.visits[i]} :: 0 <= i < |g.visits| ==> (g.visits[i].stale <==> Stale(p, s0, i)))
            && Has(s.master, l, k)
            && Meter(s.master[l].rules[k].tally, bytes) ==
               Wrap64(ClosedForm(Meter(s0.master[l].rules[k].tally, bytes), BroughtBy(g.visits, bytes)))
  {
    RoundKeeps(p, l, k, s0, es);
    var g := Journal(p, l, k, s0, es);
    VisitsAreClosedForm(Meter(s0.master[l].rules[k].tally, bytes), BroughtBy(g.visits, bytes));
  }

  ghost predicate AllFresh<C, H>(p: Protocol<C, H>, s0: Sys<C>) {
    forall i :: 0 <= i < |s0.threads| ==> !Stale(p, s0, i)
  }

  ghost predicate AllStale<C, H>(p: Protocol<C, H>, s0: Sys<C>) {
    forall i :: 0 <= i < |s0.threads| ==> Stale(p, s0, i)
  }

  /** If no thread is stale, nothing is lost or counted twice. */
  lemma FreshRoundConserves<C, H>(p: Protocol<C, H>, l: nat, k: nat, s0: Sys<C>, es: seq<Event<C, H>>, bytes: bool)
    requires Shape(s0) && l < LISTS && Has(s0.master, l, k) && AllFresh(p, s0)
    requires FirstRound(p, s0, es) && Steps(p, s0, es).Some? && Steps(p, s0, es).value.pc.CalcDelta?
    ensures var s, bs := Steps(p, s0, es).value, BroughtBy(Journal(p, l, k, s0, es).visits, bytes);
            Has(s.master, l, k)
            && Meter(s.master[l].rules[k].tally, bytes) ==
               Wrap64(Everything(Meter(s0.master[l].rules[k].tally, bytes), bs))
  {
    Law(p, l, k, s0, es, bytes);
    var bs := BroughtBy(Journal(p, l, k, s0, es).visits, bytes);
    FreshForm(Meter(s0.master[l].rules[k].tally, bytes), bs);
  }

  /**
    If every thread is stale and no packet of the rule slips in between a copy and its merge, the
    counter is only doubled, once for each thread; so counters of freshly loaded rules stay zero.
   */
  lemma StaleRoundDoubles<C, H>(p: Protocol<C, H>, l: nat, k: nat, s0: Sys<C>, es: seq<Event<C, H>>, bytes: bool)
    requires Shape(s0) && l < LISTS && Has(s0.master, l, k) && AllStale(p, s0)
    requires FirstRound(p, s0, es) && Steps(p, s0, es).Some? && Steps(p, s0, es).value.pc.CalcDelta?
    requires var vs := Journal(p, l, k, s0, es).visits;
             forall i {:trigger vs[i]} :: 0 <= i < |vs| ==> Meter(vs[i].own, bytes) == 0
    ensures var s, start := Steps(p, s0, es).value, Meter(s0.master[l].rules[k].tally, bytes);
            && Has(s.master, l, k)
            && Meter(s.master[l].rules[k].tally, bytes) == Wrap64(Pow2(|s0.threads|) * start)
            && (start == 0 ==> Meter(s.master[l].rules[k].tally, bytes) == 0)
  {
    Law(p, l, k, s0, es, bytes);
    IdleForm(Meter(s0.master[l].rules[k].tally, bytes), BroughtBy(Journal(p, l, k, s0, es).visits, bytes));
  }
}
