/**
  Rules edited from the console between two rounds. Such an edit changes one list of the master
  and leaves its change stamp alone, so the rates of the next round are examined, although every
  thread is stale in it.
 */
module ConsoleEdits {
  import opened Doubling
  import opened Words
  import opened Tallies
  import opened Rates
  import opened Alarms
  import opened Rules
  import opened RulesLists
  import opened Watchers
  import opened WatcherInvariants
  import opened WatcherRates
  import opened RoundRates
  import RoundSteps
  import RoundLaw

  /** Insertions and deletions past the end change nothing. */
  predicate Applies<C>(rules: seq<Rule<C>>, edit: ListEdit<C>) {
    edit.Add? || edit.num < |rules|
  }

  /** The threads agree with the master. */
  ghost predicate InAgreement<C, H>(p: Protocol<C, H>, s: Sys<C>) {
    forall i {:trigger s.threads[i]} :: 0 <= i < |s.threads| ==> SameColl(p, s.threads[i], s.master)
  }

  /** After an edit every thread that agreed with the master is stale. */
  lemma EditMakesStale<C, H>(p: Protocol<C, H>, s: Sys<C>, m: nat, edit: ListEdit<C>)
    requires Shape(s) && m < LISTS && InAgreement(p, s)
    ensures Applies(s.master[m].rules, edit) ==> RoundLaw.AllStale(p, Edited(s, m, edit))
    ensures !Applies(s.master[m].rules, edit) ==> Edited(s, m, edit) == s
  {
    var rules := AfterEdit(s.master[m].rules, edit);
    assert Applies(s.master[m].rules, edit) <==> |rules| != |s.master[m].rules|;
    forall i | 0 <= i < |s.threads| && Applies(s.master[m].rules, edit)
      ensures RoundLaw.Stale(p, Edited(s, m, edit), i)
    {
      assert SameColl(p, s.threads[i], s.master);
      assert SameRules(p, s.threads[i][m].rules, s.master[m].rules);
      assert !SameRules(p, s.threads[i][m].rules, Edited(s, m, edit).master[m].rules);
    }
  }

  /** In every run an idle watcher that has picked up all changes is level, and in agreement. */
  lemma RunsSettle<C(!new), H>(
      p: Protocol<C, H>, l: nat, k: nat, s0: Sys<C>, es: seq<Event<C, H>>, s: Sys<C>, h: Probe)
    requires Reflexive(p) && Start(s0) && l < LISTS && Run(p, l, k, s0, es) == Some(Point(s, h))
    requires s.pc.Idle? && s.seen == s.change && !h.changed && Has(s.master, l, k)
    ensures Level(l, k, s) && InAgreement(p, s)
  {
    RunKeeps(p, l, k, s0, es);
  }

  /** The next visits after an edit that applies to another list. */
  ghost predicate EditedVisits<C, H>(
      p: Protocol<C, H>, l: nat, k: nat, s: Sys<C>, m: nat, edit: ListEdit<C>, es: seq<Event<C, H>>, v: Sys<C>) {
    && Shape(s) && Level(l, k, s) && InAgreement(p, s) && l < LISTS && m < LISTS && m != l
    && Applies(s.master[m].rules, edit) && Visits(p, Edited(s, m, edit), es, v)
  }

  /**
    Reload safety does not extend to console edits. In the round after one, the count of a rule of
    another list, which the next check examines, is true exactly if the rule had never counted
    anything, and brings nothing but by the last thread. Else it is too high.
   */
  lemma EditedCountIsTrueIff<C, H>(
      p: Protocol<C, H>, l: nat, k: nat, s: Sys<C>, m: nat, edit: ListEdit<C>, es: seq<Event<C, H>>, v: Sys<C>,
      bytes: bool)
    requires EditedVisits(p, l, k, s, m, edit, es, v)
    requires Moves(RoundLaw.Meter(s.master[l].rules[k].tally, bytes), Own(p, l, k, Edited(s, m, edit), es, bytes))
             < 0x1_0000_0000_0000_0000
    ensures v.seen == v.change && Has(v.master, l, k) && Has(v.prev, l, k)
    ensures var bs := Own(p, l, k, Edited(s, m, edit), es, bytes);
            && |bs| == |s.threads| && Difference(l, k, v, bytes) >= TrueCount(bs)
            && (Difference(l, k, v, bytes) == TrueCount(bs) <==>
                && RoundLaw.Meter(s.master[l].rules[k].tally, bytes) == 0
                && forall i {:trigger bs[i]} :: 0 <= i < |bs| - 1 ==> bs[i].own == 0)
  {
    var u := Edited(s, m, edit);
    EditMakesStale(p, s, m, edit);
    CountIsTrueIff(p, l, k, u, es, v, bytes);
    RoundCounts(p, l, k, u, es, v, bytes);
    LastIsStale(p, u, Own(p, l, k, u, es, bytes));
  }

  lemma LastIsStale<C, H>(p: Protocol<C, H>, u: Sys<C>, bs: seq<Brought>)
    requires |bs| == |u.threads| > 0 && RoundLaw.AllStale(p, u)
    ensures !RoundLaw.AllFresh(p, u)
    ensures (forall i, j :: 0 <= i < j < |u.threads| && i < |bs| && bs[i].own > 0 ==> !RoundLaw.Stale(p, u, j)) <==>
            forall i {:trigger bs[i]} :: 0 <= i < |bs| - 1 ==> bs[i].own == 0
  {
    var last := |bs| - 1;
    assert RoundLaw.Stale(p, u, last);
    if forall i, j :: 0 <= i < j < |u.threads| && i < |bs| && bs[i].own > 0 ==> !RoundLaw.Stale(p, u, j) {
      forall i | 0 <= i < last
        ensures bs[i].own == 0
      {
        if bs[i].own > 0 {
          assert false;
        }
      }
    }
  }

  // ---- one thread, and what becomes of alarms ----

  /** A rule after such a round that brought it nothing: its counters doubled, its rates those of all it had counted. */
  function Phantom<C>(r: Rule<C>, dt: real): Rule<C>
    requires dt > 0.0
  {
    r.(tally := Plus(r.tally, r.tally), pps := RateOf(r.tally.packets, dt), bps := RateOf(r.tally.bytes, dt))
  }

  lemma DoubledLessOnce(a: u64)
    ensures Sub64(Add64(a, a), a) == a
  {
  }

  /** What one visit to a stale thread leaves, and the rates of it. */
  lemma StaleVisitRates<C, H>(
      p: Protocol<C, H>, l: nat, k: nat, u: Sys<C>, begin: real, stamps: seq<seq<real>>, walls: Walls)
    requires RoundSteps.Readable(u, begin, stamps, walls) && |u.threads| == 1 && RoundLaw.AllStale(p, u)
    requires Level(l, k, u) && l < LISTS
    ensures var v := RoundSteps.Halfway(p, u, begin, stamps);
            && (forall j :: 0 <= j < LISTS ==> DeltaDefined(v.master[j], v.prev[j]))
            && |stamps[0]| == LISTS && stamps[0][l] > u.prev[l].updated && v.seen == v.change && Has(v.master, l, k)
            && DeltaAll(v.master, v.prev)[l].rules[k]
               == Phantom(u.master[l].rules[k], stamps[0][l] - u.prev[l].updated)
  {
    RoundSteps.HalfwayDefined(p, u, begin, stamps, walls);
    RoundSteps.StampsAbove(begin, stamps, 0, l);
    RoundSteps.VisitedKeeps(p, u.(pc := Compare(0), clock := begin), stamps, 1);
    var v := RoundSteps.Halfway(p, u, begin, stamps);
    assert RoundLaw.Stale(p, u, 0);
    assert RoundSteps.VisitedTo(p, u.(pc := Compare(0), clock := begin), stamps, 0)
        == u.(pc := Compare(0), clock := begin);
    var r := u.master[l].rules[k];
    assert v.master[l].rules[k] == MergedRule(r, r);
    DoubledLessOnce(r.tally.packets);
    DoubledLessOnce(r.tally.bytes);
  }

  lemma RulesExamined<C>(v: Sys<C>, walls: Walls, l: nat, k: nat)
    requires |v.master| == |v.prev| == |walls.at| == LISTS && v.seen == v.change && l < LISTS && Has(v.master, l, k)
    requires forall j :: 0 <= j < |v.master| ==> DeltaDefined(v.master[j], v.prev[j])
    ensures var t := RoundSteps.Examined(v, walls);
            && t.pc.Idle? && Has(t.master, l, k)
            && t.master[l].rules[k] == CheckedRule(DeltaAll(v.master, v.prev)[l].rules[k], walls.at[l](k))
  {
  }

  lemma EditedLevel<C>(l: nat, k: nat, s: Sys<C>, m: nat, edit: ListEdit<C>)
    requires Shape(s) && Level(l, k, s) && l < LISTS && m < LISTS && m != l
    ensures Level(l, k, Edited(s, m, edit)) && Edited(s, m, edit).master[l] == s.master[l]
    ensures Edited(s, m, edit).prev == s.prev && Edited(s, m, edit).threads == s.threads
  {
  }

  /** The watcher's round, left alone, with its one thread stale. */
  lemma StaleRound<C, H>(
      p: Protocol<C, H>, l: nat, k: nat, u: Sys<C>, begin: real, stamps: seq<seq<real>>, walls: Walls)
    returns (es: seq<Event<C, H>>, t: Sys<C>)
    requires RoundSteps.Readable(u, begin, stamps, walls) && |u.threads| == 1 && RoundLaw.AllStale(p, u)
    requires Level(l, k, u) && l < LISTS
    ensures RoundSteps.Reaches(p, u, es, t) && t.pc.Idle? && Has(t.master, l, k)
    ensures |stamps[0]| == LISTS && stamps[0][l] > u.prev[l].updated
    ensures t.master[l].rules[k] ==
            CheckedRule(Phantom(u.master[l].rules[k], stamps[0][l] - u.prev[l].updated), walls.at[l](k))
  {
    StaleVisitRates(p, l, k, u, begin, stamps, walls);
    es := RoundSteps.RoundReaches(p, u, begin, stamps, walls);
    var v := RoundSteps.Halfway(p, u, begin, stamps);
    t := RoundSteps.Examined(v, walls);
    RulesExamined(v, walls, l, k);
  }

  /**
    A literal case, with one thread. Edit another list and let the watcher make its round: whatever
    the rule had counted in its life is examined as if it had come in this tick.
   */
  lemma PhantomRate<C, H>(
      p: Protocol<C, H>, l: nat, k: nat, s: Sys<C>, m: nat, edit: ListEdit<C>,
      begin: real, stamps: seq<seq<real>>, walls: Walls)
    returns (es: seq<Event<C, H>>, t: Sys<C>)
    requires Shape(s) && Level(l, k, s) && InAgreement(p, s) && l < LISTS && m < LISTS && m != l && |s.threads| == 1
    requires RoundSteps.Readable(Edited(s, m, edit), begin, stamps, walls) && Applies(s.master[m].rules, edit)
    ensures RoundSteps.Reaches(p, Edited(s, m, edit), es, t) && t.pc.Idle? && Has(t.master, l, k)
    ensures |stamps[0]| == LISTS && stamps[0][l] > s.prev[l].updated
    ensures var seen := Phantom(s.master[l].rules[k], stamps[0][l] - s.prev[l].updated);
            && t.master[l].rules[k] == CheckedRule(seen, walls.at[l](k))
            && t.master[l].rules[k].pps == RateOf(s.master[l].rules[k].tally.packets, stamps[0][l] - s.prev[l].updated)
  {
    EditMakesStale(p, s, m, edit);
    EditedLevel(l, k, s, m, edit);
    es, t := StaleRound(p, l, k, Edited(s, m, edit), begin, stamps, walls);
  }

  /**
    What such a rate does to an alarm, if it is over the threshold and the period is over: with a
    destination left in the table it raises one that no packet has earned; with an empty table, as
    a check leaves it, it raises none. Either way the period begins anew.
   */
  lemma PhantomAlarm<C>(r: Rule<C>, dt: real, now: int)
    requires dt > 0.0
    ensures RateOf(r.tally.packets, dt) > r.spec.th.pps > 0 && now - r.memory.ppsLast > r.spec.th.ppsPeriod ==>
              && (Triggered(Phantom(r, dt), now) <==> r.tally.dst != map[])
              && CheckedRule(Phantom(r, dt), now).memory.ppsLast == now
  {
    var dst := Plus(r.tally, r.tally).dst;
    assert dst.Keys == r.tally.dst.Keys;
    assert r.tally.dst == map[] <==> r.tally.dst.Keys == {};
    assert |dst| > 0 <==> dst.Keys != {};
  }

  /** So an edit can swallow an alarm: over the threshold, the period over, and yet no alarm. */
  lemma EditSwallowsAlarm<C, H>(
      p: Protocol<C, H>, l: nat, k: nat, s: Sys<C>, m: nat, edit: ListEdit<C>,
      begin: real, stamps: seq<seq<real>>, walls: Walls)
    returns (es: seq<Event<C, H>>, t: Sys<C>)
    requires Shape(s) && Level(l, k, s) && InAgreement(p, s) && l < LISTS && m < LISTS && m != l && |s.threads| == 1
    requires RoundSteps.Readable(Edited(s, m, edit), begin, stamps, walls) && Applies(s.master[m].rules, edit)
    requires |stamps[0]| == LISTS && stamps[0][l] > s.prev[l].updated
    requires var r, now := s.master[l].rules[k], walls.at[l](k);
             && RateOf(r.tally.packets, stamps[0][l] - s.prev[l].updated) > r.spec.th.pps > 0
             && now - r.memory.ppsLast > r.spec.th.ppsPeriod && r.tally.dst == map[]
    ensures RoundSteps.Reaches(p, Edited(s, m, edit), es, t) && t.pc.Idle? && Has(t.master, l, k)
    ensures !Triggered(Phantom(s.master[l].rules[k], stamps[0][l] - s.prev[l].updated), walls.at[l](k))
    ensures t.master[l].rules[k].memory.ppsLast == walls.at[l](k)
  {
    es, t := PhantomRate(p, l, k, s, m, edit, begin, stamps, walls);
    PhantomAlarm(s.master[l].rules[k], stamps[0][l] - s.prev[l].updated, walls.at[l](k));
  }

  // ---- the edited list itself ----

  /** The edited list has another length than its snapshot, so its rules are examined with the rates they had. */
  lemma EditedListKeepsRates<C, H>(
      p: Protocol<C, H>, s: Sys<C>, m: nat, edit: ListEdit<C>, es: seq<Event<C, H>>, v: Sys<C>,
      x: Event<C, H>, y: Event<C, H>, w: Sys<C>, k: nat)
    requires Shape(s) && s.pc.Idle? && m < LISTS && |s.prev[m].rules| == |s.master[m].rules|
    requires Applies(s.master[m].rules, edit) && k < |AfterEdit(s.master[m].rules, edit)|
    requires Visits(p, Edited(s, m, edit), es, v) && Examines(p, v, x, y, w)
    ensures var r := AfterEdit(s.master[m].rules, edit)[k];
            Has(w.master, m, k) && w.master[m].rules[k].pps == r.pps && w.master[m].rules[k].bps == r.bps
  {
    VisitsKeep(p, m, k, Edited(s, m, edit), es);
  }
}
