/**
  A reload that lands inside a round: where it can crash the watcher, which threads it leaves with
  old rules, and what becomes of the rates that are examined next.
 */
module LateLoads {
  import opened Words
  import opened Tallies
  import opened Rules
  import opened RulesLists
  import opened Watchers
  import opened WatcherInvariants
  import opened WatcherRates
  import opened Doubling
  import opened RoundRates
  import RoundLaw
  import RoundSteps

  /** Packets, and the watcher up to the end of its round. */
  ghost predicate SameRound<C, H>(p: Protocol<C, H>, u: Sys<C>, es: seq<Event<C, H>>)
    requires Shape(u)
  {
    es == [] ||
    var front, e := es[..|es| - 1], es[|es| - 1];
    && SameRound(p, u, front) && Steps(p, u, es).Some?
    && (e.Arrive? || (e.Work? && !Steps(p, u, front).value.pc.Idle?))
  }

  /** The reload replaces the rules of a state of the protocol, and the watcher ends its round. */
  ghost predicate Rest<C, H>(
      p: Protocol<C, H>, s: Sys<C>, rules: seq<seq<Rule<C>>>, stamp: int, es: seq<Event<C, H>>, v: Sys<C>) {
    && Shape(s) && |rules| == LISTS && Shape(Landed(s, rules, stamp))
    && SameRound(p, Landed(s, rules, stamp), es) && Steps(p, Landed(s, rules, stamp), es) == Some(v)
  }

  /** List `m` of thread `j` is not compared with the master any more in a round that has got this far. */
  predicate Passed(pc: Pc, j: nat, m: nat) {
    match pc
    case Idle => false
    case Compare(i) => j < i
    case Copy(i, l) => j < i || (j == i && m < l)
    case Merge(i, _) => j <= i
    case _ => true
  }

  // ---- crashes ----

  /** The thread under visit, or -1. */
  function UnderVisit(pc: Pc): int {
    match pc
    case Copy(i, _) => i
    case Merge(i, _) => i
    case _ => -1
  }

  /** List `m` of the thread under visit is not compared again, but still to be merged. */
  predicate Exposed(pc: Pc, m: nat) {
    match pc
    case Copy(_, l) => m < l
    case Merge(_, l) => m >= l
    case _ => false
  }

  ghost predicate Fits<C>(s: Sys<C>, rules: seq<seq<Rule<C>>>, m: nat)
    requires Shape(s) && |rules| == LISTS && m < LISTS
  {
    UnderVisit(s.pc) >= 0 && Exposed(s.pc, m) ==> |s.threads[UnderVisit(s.pc)][m].rules| == |rules[m]|
  }

  ghost predicate FitsUpTo<C>(s: Sys<C>, rules: seq<seq<Rule<C>>>, n: nat)
    requires Shape(s) && |rules| == LISTS && n <= LISTS
  {
    forall m {:trigger Fits(s, rules, m)} :: 0 <= m < n ==> Fits(s, rules, m)
  }

  /** How long list `m` of thread `j` is when it comes to be merged. */
  function Expected<C>(s: Sys<C>, rules: seq<seq<Rule<C>>>, j: nat, m: nat): nat
    requires |rules| == LISTS && m < LISTS && j < |s.threads| && m < |s.threads[j]|
  {
    if j == UnderVisit(s.pc) && Exposed(s.pc, m) then |s.threads[j][m].rules| else |rules[m]|
  }

  ghost predicate LengthsFrom<C>(s: Sys<C>, rules: seq<seq<Rule<C>>>, v: Sys<C>, j: nat, from: nat, to: nat)
    requires Shape(s) && Shape(v) && |rules| == LISTS && j < |s.threads| == |v.threads| && to <= LISTS
  {
    forall m {:trigger v.threads[j][m]} :: from <= m < to ==> |v.threads[j][m].rules| == Expected(s, rules, j, m)
  }

  ghost predicate CrashInv<C>(s: Sys<C>, rules: seq<seq<Rule<C>>>, v: Sys<C>)
    requires Shape(s) && |rules| == LISTS
  {
    && Shape(v) && |v.threads| == |s.threads|
    && (forall m {:trigger v.master[m]} :: 0 <= m < LISTS ==> |v.master[m].rules| == |rules[m]|)
    && match v.pc
       case Compare(j) => j > UnderVisit(s.pc) && FitsUpTo(s, rules, LISTS)
       case Copy(j, m) =>
         && LengthsFrom(s, rules, v, j, 0, m) && j >= UnderVisit(s.pc)
         && (j > UnderVisit(s.pc) ==> FitsUpTo(s, rules, LISTS))
         && (j == UnderVisit(s.pc) ==> s.pc.Copy? && m >= s.pc.l)
       case Merge(j, m) =>
         && LengthsFrom(s, rules, v, j, m, LISTS) && j >= UnderVisit(s.pc)
         && FitsUpTo(s, rules, if j > UnderVisit(s.pc) then LISTS else m)
       case Crashed => !FitsUpTo(s, rules, LISTS)
       case _ => FitsUpTo(s, rules, LISTS)
  }

  lemma LandedCrashInv<C>(s: Sys<C>, rules: seq<seq<Rule<C>>>, stamp: int)
    requires Shape(s) && |rules| == LISTS && !s.pc.Crashed?
    ensures CrashInv(s, rules, Landed(s, rules, stamp))
  {
  }

  lemma ArriveCrashInv<C, H>(p: Protocol<C, H>, s: Sys<C>, rules: seq<seq<Rule<C>>>, v: Sys<C>, e: Event<C, H>)
    requires Shape(s) && |rules| == LISTS && CrashInv(s, rules, v) && Enabled(v, e) && e.Arrive?
    ensures CrashInv(s, rules, Next(p, v, e))
  {
    NextShape(p, v, e);
  }

  lemma CompareCrashInv<C, H>(p: Protocol<C, H>, s: Sys<C>, rules: seq<seq<Rule<C>>>, v: Sys<C>, e: Event<C, H>)
    requires Shape(s) && |rules| == LISTS && CrashInv(s, rules, v) && Enabled(v, e) && e.Work? && v.pc.Compare?
    ensures CrashInv(s, rules, Next(p, v, e))
  {
    var i, t := v.pc.i, Next(p, v, e);
    if SameColl(p, v.threads[i], v.master) {
      forall m | 0 <= m < LISTS
        ensures |t.threads[i][m].rules| == Expected(s, rules, i, m)
      {
        assert SameRules(p, v.threads[i][m].rules, v.master[m].rules);
      }
    }
  }

  lemma CopyCrashInv<C, H>(p: Protocol<C, H>, s: Sys<C>, rules: seq<seq<Rule<C>>>, v: Sys<C>, e: Event<C, H>)
    requires Shape(s) && |rules| == LISTS && CrashInv(s, rules, v) && Enabled(v, e) && e.Work? && v.pc.Copy?
    ensures CrashInv(s, rules, Next(p, v, e))
  {
  }

  lemma MergeCrashInv<C, H>(p: Protocol<C, H>, s: Sys<C>, rules: seq<seq<Rule<C>>>, v: Sys<C>, e: Event<C, H>)
    requires Shape(s) && |rules| == LISTS && CrashInv(s, rules, v) && Enabled(v, e) && e.Work? && v.pc.Merge?
    ensures CrashInv(s, rules, Next(p, v, e))
  {
    var i, m := v.pc.i, v.pc.l;
    assert |v.threads[i][m].rules| == Expected(s, rules, i, m);
    if i == UnderVisit(s.pc) {
      assert Fits(s, rules, m) <==> |v.threads[i][m].rules| == |v.master[m].rules|;
    } else {
      assert |v.threads[i][m].rules| == |v.master[m].rules|;
    }
  }

  lemma LastCrashInv<C, H>(p: Protocol<C, H>, s: Sys<C>, rules: seq<seq<Rule<C>>>, v: Sys<C>, e: Event<C, H>)
    requires Shape(s) && |rules| == LISTS && CrashInv(s, rules, v) && Enabled(v, e) && e.Work?
    requires v.pc.CalcDelta? || v.pc.Snapshot? || v.pc.Decide?
    ensures CrashInv(s, rules, Next(p, v, e))
  {
  }

  lemma {:induction false} RestCrashInv<C, H>(
      p: Protocol<C, H>, s: Sys<C>, rules: seq<seq<Rule<C>>>, stamp: int, es: seq<Event<C, H>>, v: Sys<C>)
    requires Rest(p, s, rules, stamp, es, v) && !s.pc.Crashed?
    ensures CrashInv(s, rules, v)
  {
    if es == [] {
      LandedCrashInv(s, rules, stamp);
    } else {
      var front, e := es[..|es| - 1], es[|es| - 1];
      var u := Steps(p, Landed(s, rules, stamp), front).value;
      RestCrashInv(p, s, rules, stamp, front, u);
      if e.Arrive? {
        ArriveCrashInv(p, s, rules, u, e);
      } else if u.pc.Compare? {
        CompareCrashInv(p, s, rules, u, e);
      } else if u.pc.Copy? {
        CopyCrashInv(p, s, rules, u, e);
      } else if u.pc.Merge? {
        MergeCrashInv(p, s, rules, u, e);
      } else {
        LastCrashInv(p, s, rules, u, e);
      }
    }
  }

  /**
    Where a reload crashes the watcher. Whatever packets come, the rest of the round ends in a
    crash exactly if the reload hits the thread under visit between comparison and merge, and
    changes the length of a list that is not compared again but still to be merged.
   */
  lemma LateLoadCrashesIff<C, H>(
      p: Protocol<C, H>, s: Sys<C>, rules: seq<seq<Rule<C>>>, stamp: int, es: seq<Event<C, H>>, v: Sys<C>)
    requires Rest(p, s, rules, stamp, es, v) && !s.pc.Crashed?
    requires v.pc.Crashed? || v.pc.CalcDelta? || v.pc.Snapshot? || v.pc.Decide? || v.pc.Idle?
    ensures v.pc.Crashed? <==>
            UnderVisit(s.pc) >= 0 && exists m :: 0 <= m < LISTS && Exposed(s.pc, m)
                                         && |s.threads[UnderVisit(s.pc)][m].rules| != |rules[m]|
  {
    RestCrashInv(p, s, rules, stamp, es, v);
    if !FitsUpTo(s, rules, LISTS) {
      var m :| 0 <= m < LISTS && !Fits(s, rules, m);
      assert Exposed(s.pc, m) && |s.threads[UnderVisit(s.pc)][m].rules| != |rules[m]|;
    } else {
      forall m | 0 <= m < LISTS && UnderVisit(s.pc) >= 0 && Exposed(s.pc, m)
        ensures |s.threads[UnderVisit(s.pc)][m].rules| == |rules[m]|
      {
        assert Fits(s, rules, m);
      }
    }
  }

  /**
    A crash is within reach of every program: right after the first comparison, reload a rules file
    with another number of TCP rules.
   */
  lemma CrashIsReachable<C(!new), H>(p: Protocol<C, H>, s0: Sys<C>, rules: seq<seq<Rule<C>>>, stamp: int)
    returns (es: seq<Event<C, H>>, s: Sys<C>, e: Event<C, H>)
    requires Reflexive(p) && Start(s0) && FreshRules(rules) && stamp > s0.change
    requires |rules[0]| != |s0.master[0].rules|
    ensures RoundSteps.Reaches(p, s0, es, s) && s.change < stamp
    ensures Shape(Landed(s, rules, stamp)) && Enabled(Landed(s, rules, stamp), e) && e.Work?
    ensures Next(p, Landed(s, rules, stamp), e).pc.Crashed?
  {
    e := Work(s0.clock + 1.0, RoundSteps.Steady(s0.wall));
    RoundSteps.OneStep(p, s0, e);
    var a := Next(p, s0, e);
    RoundSteps.OneStep(p, a, e);
    s := Next(p, a, e);
    RoundSteps.ReachesOn(p, s0, [e], a, [e], s);
    es := [e] + [e];
    assert SameColl(p, s0.threads[0], s0.master);
    assert s.pc == Merge(0, 0) && s.threads[0] == s0.master;
  }

  // ---- threads left with old rules ----

  /** The same for a round that may have ended. */
  predicate Reached(pc: Pc, j: nat, m: nat) {
    pc.Idle? || Passed(pc, j, m)
  }

  ghost predicate Kept<C>(s: Sys<C>, v: Sys<C>, j: nat, m: nat)
    requires Shape(s) && Shape(v) && j < |s.threads| == |v.threads| && m < LISTS
  {
    Passed(s.pc, j, m) ==> Reached(v.pc, j, m) && SameSpecs(s.threads[j][m].rules, v.threads[j][m].rules)
  }

  ghost predicate CaughtUp<C, H>(p: Protocol<C, H>, s: Sys<C>, v: Sys<C>, j: nat, m: nat)
    requires Shape(v) && j < |v.threads| && m < LISTS
  {
    Reached(v.pc, j, m) && !Passed(s.pc, j, m) ==> SameRules(p, v.threads[j][m].rules, v.master[m].rules)
  }

  ghost predicate Trails<C, H>(p: Protocol<C, H>, s: Sys<C>, v: Sys<C>, j: nat)
    requires Shape(s) && Shape(v) && j < |s.threads| == |v.threads|
  {
    forall m {:trigger v.threads[j][m]} :: 0 <= m < LISTS ==> Kept(s, v, j, m) && CaughtUp(p, s, v, j, m)
  }

  ghost predicate MasterHas<C>(rules: seq<seq<Rule<C>>>, v: Sys<C>)
    requires Shape(v) && |rules| == LISTS
  {
    forall m {:trigger v.master[m]} :: 0 <= m < LISTS ==> SameSpecs(rules[m], v.master[m].rules)
  }

  ghost predicate TrailInv<C, H>(p: Protocol<C, H>, s: Sys<C>, rules: seq<seq<Rule<C>>>, v: Sys<C>)
    requires Shape(s) && |rules| == LISTS
  {
    && Shape(v) && |v.threads| == |s.threads|
    && (!v.pc.Crashed? ==>
          && MasterHas(rules, v)
          && forall j {:trigger Trails(p, s, v, j)} :: 0 <= j < |v.threads| ==> Trails(p, s, v, j))
  }

  /** Neither the master's rules nor those of thread `j` change in a step that passes no list of it. */
  lemma TrailsOn<C, H>(p: Protocol<C, H>, s: Sys<C>, v: Sys<C>, t: Sys<C>, j: nat)
    requires Shape(s) && Shape(v) && Shape(t) && j < |s.threads| == |v.threads| == |t.threads| && Trails(p, s, v, j)
    requires RoundLaw.SpecsKept(v.master, t.master) && RoundLaw.SpecsKept(v.threads[j], t.threads[j])
    requires forall m {:trigger Reached(t.pc, j, m)} :: 0 <= m < LISTS ==>
               (Reached(v.pc, j, m) <==> Reached(t.pc, j, m))
    ensures Trails(p, s, t, j)
  {
    forall m | 0 <= m < LISTS
      ensures Kept(s, t, j, m) && CaughtUp(p, s, t, j, m)
    {
      assert Kept(s, v, j, m) && CaughtUp(p, s, v, j, m) by {
        assert v.threads[j][m] == v.threads[j][m];
      }
      assert Reached(v.pc, j, m) <==> Reached(t.pc, j, m);
      SameBySpec(p, v.threads[j][m].rules, t.threads[j][m].rules, v.master[m].rules, t.master[m].rules);
    }
  }

  lemma MasterHasOn<C>(rules: seq<seq<Rule<C>>>, v: Sys<C>, t: Sys<C>)
    requires Shape(v) && Shape(t) && |rules| == LISTS && MasterHas(rules, v) && RoundLaw.SpecsKept(v.master, t.master)
    ensures MasterHas(rules, t)
  {
  }

  lemma LandedTrails<C, H>(p: Protocol<C, H>, s: Sys<C>, rules: seq<seq<Rule<C>>>, stamp: int)
    requires Shape(s) && |rules| == LISTS && !s.pc.Idle?
    ensures TrailInv(p, s, rules, Landed(s, rules, stamp))
  {
    var v := Landed(s, rules, stamp);
    forall j | 0 <= j < |s.threads|
      ensures Trails(p, s, v, j)
    {
      assert forall m :: 0 <= m < LISTS ==> Kept(s, v, j, m) && CaughtUp(p, s, v, j, m);
    }
  }

  /** Packets, rates, snapshots, decisions and merges keep every rule as it is. */
  lemma StepSpecs<C, H>(p: Protocol<C, H>, v: Sys<C>, e: Event<C, H>)
    requires Shape(v) && Enabled(v, e) && (e.Arrive? || (e.Work? && !v.pc.Copy?))
    ensures Shape(Next(p, v, e)) && |Next(p, v, e).threads| == |v.threads|
    ensures RoundLaw.SpecsKept(v.master, Next(p, v, e).master)
    ensures forall j {:trigger v.threads[j]} :: 0 <= j < |v.threads| ==>
              RoundLaw.SpecsKept(v.threads[j], Next(p, v, e).threads[j])
  {
    NextShape(p, v, e);
  }

  /** No list is passed by such a step, unless it is a comparison. */
  lemma StepReaches<C, H>(p: Protocol<C, H>, v: Sys<C>, e: Event<C, H>, j: nat, m: nat)
    requires Shape(v) && Enabled(v, e) && (e.Arrive? || (e.Work? && !v.pc.Copy? && !v.pc.Compare? && !v.pc.Idle?))
    requires j < |v.threads| && m < LISTS && !Next(p, v, e).pc.Crashed?
    ensures Reached(v.pc, j, m) <==> Reached(Next(p, v, e).pc, j, m)
  {
  }

  lemma PlainTrails<C, H>(p: Protocol<C, H>, s: Sys<C>, rules: seq<seq<Rule<C>>>, v: Sys<C>, e: Event<C, H>)
    requires Shape(s) && |rules| == LISTS && TrailInv(p, s, rules, v) && Enabled(v, e)
    requires e.Arrive? || (e.Work? && !v.pc.Copy? && !v.pc.Compare? && !v.pc.Idle?)
    ensures TrailInv(p, s, rules, Next(p, v, e))
  {
    StepSpecs(p, v, e);
    var t := Next(p, v, e);
    if !t.pc.Crashed? {
      MasterHasOn(rules, v, t);
      forall j | 0 <= j < |t.threads|
        ensures Trails(p, s, t, j)
      {
        assert Trails(p, s, v, j) && RoundLaw.SpecsKept(v.threads[j], t.threads[j]);
        forall m | 0 <= m < LISTS
          ensures Reached(v.pc, j, m) <==> Reached(t.pc, j, m)
        {
          StepReaches(p, v, e, j, m);
        }
        TrailsOn(p, s, v, t, j);
      }
    }
  }

  lemma CompareTrails<C, H>(p: Protocol<C, H>, s: Sys<C>, rules: seq<seq<Rule<C>>>, v: Sys<C>, e: Event<C, H>)
    requires Shape(s) && |rules| == LISTS && TrailInv(p, s, rules, v) && Enabled(v, e) && e.Work? && v.pc.Compare?
    ensures TrailInv(p, s, rules, Next(p, v, e))
  {
    StepSpecs(p, v, e);
    var t, i := Next(p, v, e), v.pc.i;
    forall j | 0 <= j < |t.threads|
      ensures Trails(p, s, t, j)
    {
      assert Trails(p, s, v, j);
      if j != i || t.pc.Copy? {
        TrailsOn(p, s, v, t, j);
      } else {
        forall m | 0 <= m < LISTS
          ensures Kept(s, t, j, m) && CaughtUp(p, s, t, j, m)
        {
          assert Kept(s, v, j, m);
          assert SameRules(p, v.threads[j][m].rules, v.master[m].rules);
        }
      }
    }
  }

  lemma CopyTrails<C(!new), H>(p: Protocol<C, H>, s: Sys<C>, rules: seq<seq<Rule<C>>>, v: Sys<C>, e: Event<C, H>)
    requires Reflexive(p) && Shape(s) && |rules| == LISTS && TrailInv(p, s, rules, v)
    requires Enabled(v, e) && e.Work? && v.pc.Copy?
    ensures TrailInv(p, s, rules, Next(p, v, e))
  {
    NextShape(p, v, e);
    var t, i, l := Next(p, v, e), v.pc.i, v.pc.l;
    forall j | 0 <= j < |t.threads|
      ensures Trails(p, s, t, j)
    {
      assert Trails(p, s, v, j);
      if j != i {
        TrailsOn(p, s, v, t, j);
      } else {
        forall m | 0 <= m < LISTS
          ensures Kept(s, t, j, m) && CaughtUp(p, s, t, j, m)
        {
          assert v.threads[j][m] == v.threads[j][m];
          assert Kept(s, v, j, m) && CaughtUp(p, s, v, j, m);
        }
      }
    }
  }

  lemma {:induction false} RestTrails<C(!new), H>(
      p: Protocol<C, H>, s: Sys<C>, rules: seq<seq<Rule<C>>>, stamp: int, es: seq<Event<C, H>>, v: Sys<C>)
    requires Reflexive(p) && Rest(p, s, rules, stamp, es, v) && !s.pc.Idle?
    ensures TrailInv(p, s, rules, v)
  {
    if es == [] {
      LandedTrails(p, s, rules, stamp);
    } else {
      var front, e := es[..|es| - 1], es[|es| - 1];
      var u := Steps(p, Landed(s, rules, stamp), front).value;
      RestTrails(p, s, rules, stamp, front, u);
      if e.Work? && u.pc.Compare? {
        CompareTrails(p, s, rules, u, e);
      } else if e.Work? && u.pc.Copy? {
        CopyTrails(p, s, rules, u, e);
      } else {
        PlainTrails(p, s, rules, u, e);
      }
    }
  }

  /**
    Which threads a reload leaves with old rules when the round ends: exactly those with a list
    that had been passed when it landed, and whose rules differ from the new ones.
   */
  lemma LateLoadLeavesStale<C(!new), H>(
      p: Protocol<C, H>, s: Sys<C>, rules: seq<seq<Rule<C>>>, stamp: int, es: seq<Event<C, H>>, v: Sys<C>, j: nat)
    requires Reflexive(p) && Rest(p, s, rules, stamp, es, v) && !s.pc.Idle? && v.pc.Idle?
    requires j < |v.threads|
    ensures |v.threads| == |s.threads|
    ensures RoundLaw.Stale(p, v, j) <==>
            exists m :: 0 <= m < LISTS && Passed(s.pc, j, m) && !SameRules(p, s.threads[j][m].rules, rules[m])
  {
    RestTrails(p, s, rules, stamp, es, v);
    assert Trails(p, s, v, j);
    forall m | 0 <= m < LISTS
      ensures SameRules(p, v.threads[j][m].rules, v.master[m].rules) <==>
              !(Passed(s.pc, j, m) && !SameRules(p, s.threads[j][m].rules, rules[m]))
    {
      assert v.threads[j][m] == v.threads[j][m] && v.master[m] == v.master[m];
      assert Kept(s, v, j, m) && CaughtUp(p, s, v, j, m);
      if Passed(s.pc, j, m) {
        SameBySpec(p, s.threads[j][m].rules, v.threads[j][m].rules, rules[m], v.master[m].rules);
      }
    }
  }

  /** A reload is sure to leave no list behind, whatever it brings, exactly in these places. */
  lemma NothingPassedIff(pc: Pc)
    ensures BetweenRounds(pc) <==> forall j: nat, m: nat {:trigger Passed(pc, j, m)} :: m < LISTS ==> !Passed(pc, j, m)
  {
    if !BetweenRounds(pc) {
      assert Passed(pc, 0, 0);
    }
  }

  // ---- the rates that are examined next ----

  ghost predicate StampInv<C>(s: Sys<C>, rules: seq<seq<Rule<C>>>, stamp: int, v: Sys<C>)
    requires |s.master| == |rules|
  {
    && v.change == stamp && v.seen == (if v.pc.Idle? then stamp else s.seen)
    && (s.pc.Decide? ==> (v.pc.Decide? || v.pc.Idle?) && v.prev == s.prev && v.master == LoadAll(s.master, rules))
    && (!s.pc.Decide? && (v.pc.Decide? || v.pc.Idle?) ==> v.prev == v.master)
  }

  lemma StampKept<C, H>(
      p: Protocol<C, H>, s: Sys<C>, rules: seq<seq<Rule<C>>>, stamp: int, v: Sys<C>, e: Event<C, H>)
    requires |s.master| == |rules| && s.seen < stamp && StampInv(s, rules, stamp, v) && Shape(v) && Enabled(v, e)
    requires e.Arrive? || (e.Work? && !v.pc.Idle?)
    ensures StampInv(s, rules, stamp, Next(p, v, e))
  {
  }

  lemma {:induction false} RestStamps<C, H>(
      p: Protocol<C, H>, s: Sys<C>, rules: seq<seq<Rule<C>>>, stamp: int, es: seq<Event<C, H>>, v: Sys<C>)
    requires Rest(p, s, rules, stamp, es, v) && !s.pc.Idle? && s.seen < stamp
    ensures StampInv(s, rules, stamp, v)
  {
    if es != [] {
      var front := es[..|es| - 1];
      var u := Steps(p, Landed(s, rules, stamp), front).value;
      RestStamps(p, s, rules, stamp, front, u);
      StampKept(p, s, rules, stamp, u, es[|es| - 1]);
    }
  }

  lemma LateLoadIsLevel<C, H>(
      p: Protocol<C, H>, l: nat, k: nat, s: Sys<C>, rules: seq<seq<Rule<C>>>, stamp: int,
      es: seq<Event<C, H>>, v: Sys<C>)
    requires Rest(p, s, rules, stamp, es, v) && !s.pc.Idle? && !s.pc.Decide? && v.pc.Idle? && s.seen < stamp
    requires Has(v.master, l, k)
    ensures Level(l, k, v)
  {
    RestStamps(p, s, rules, stamp, es, v);
  }

  /**
    A reload inside a round, before the watcher decides. The rates of that round are not examined,
    but those of the next are, whatever threads still have old rules: as long as the counter does
    not wrap, the count behind them is true exactly if none has, or the rule has counted nothing
    since the reload and brings nothing ahead of such a thread.
   */
  lemma LateLoadRates<C(!new), H>(
      p: Protocol<C, H>, l: nat, k: nat, s: Sys<C>, rules: seq<seq<Rule<C>>>, stamp: int,
      es: seq<Event<C, H>>, v: Sys<C>,
      next: seq<Event<C, H>>, w: Sys<C>, bytes: bool)
    requires Reflexive(p) && Rest(p, s, rules, stamp, es, v) && s.seen < stamp && l < LISTS
    requires !s.pc.Idle? && !s.pc.Decide? && v.pc.Idle? && Has(v.master, l, k) && Visits(p, v, next, w)
    requires Moves(RoundLaw.Meter(v.master[l].rules[k].tally, bytes), Own(p, l, k, v, next, bytes))
             < 0x1_0000_0000_0000_0000
    ensures w.seen == w.change && Has(w.master, l, k) && Has(w.prev, l, k)
    ensures Difference(l, k, w, bytes) >= TrueCount(Own(p, l, k, v, next, bytes))
    ensures Difference(l, k, w, bytes) == TrueCount(Own(p, l, k, v, next, bytes)) <==>
            CountsRight(p, l, k, v, next, bytes)
    ensures RoundLaw.AllFresh(p, v) <==>
            forall j, m :: 0 <= j < |s.threads| && 0 <= m < LISTS && Passed(s.pc, j, m) ==>
              SameRules(p, s.threads[j][m].rules, rules[m])
  {
    LateLoadIsLevel(p, l, k, s, rules, stamp, es, v);
    CountIsTrueIff(p, l, k, v, next, w, bytes);
    RestTrails(p, s, rules, stamp, es, v);
    forall j | 0 <= j < |v.threads|
      ensures RoundLaw.Stale(p, v, j) <==>
              exists m :: 0 <= m < LISTS && Passed(s.pc, j, m) && !SameRules(p, s.threads[j][m].rules, rules[m])
    {
      LateLoadLeavesStale(p, s, rules, stamp, es, v, j);
    }
  }

  /**
    The worst place is between snapshot and decision: the new counters, which begin at zero, are
    then set against the old snapshot, and the difference, wrapped, is examined
    (`Doubling.OldSnapshotIsTrueIff`).
   */
  lemma DecideLoadWraps<C, H>(
      p: Protocol<C, H>, l: nat, k: nat, s: Sys<C>, rules: seq<seq<Rule<C>>>, stamp: int,
      es: seq<Event<C, H>>, v: Sys<C>,
      next: seq<Event<C, H>>, w: Sys<C>, bytes: bool)
    requires Rest(p, s, rules, stamp, es, v) && FreshRules(rules) && s.seen < stamp && s.pc.Decide? && v.pc.Idle?
    requires l < LISTS && k < |rules[l]| == |s.prev[l].rules| && Visits(p, v, next, w)
    ensures w.seen == w.change && Has(w.master, l, k) && Has(w.prev, l, k)
    ensures var bs, before := Own(p, l, k, v, next, bytes), RoundLaw.Meter(s.prev[l].rules[k].tally, bytes);
            Difference(l, k, w, bytes) == Wrap64(MovesFrom(before, bs))
  {
    RestStamps(p, s, rules, stamp, es, v);
    assert FreshRule(rules[l][k]);
    FreshAgainstOld(p, l, k, v, next, w, bytes);
  }

  /** The round of a rule that counts from zero, with the snapshot of another. */
  lemma FreshAgainstOld<C, H>(
      p: Protocol<C, H>, l: nat, k: nat, v: Sys<C>, next: seq<Event<C, H>>, w: Sys<C>, bytes: bool)
    requires Visits(p, v, next, w) && v.seen == v.change && l < LISTS && Has(v.master, l, k) && Has(v.prev, l, k)
    requires |v.prev[l].rules| == |v.master[l].rules| && RoundLaw.Meter(v.master[l].rules[k].tally, bytes) == 0
    ensures w.seen == w.change && Has(w.master, l, k) && Has(w.prev, l, k)
    ensures var bs, before := Own(p, l, k, v, next, bytes), RoundLaw.Meter(v.prev[l].rules[k].tally, bytes);
            Difference(l, k, w, bytes) == Wrap64(MovesFrom(before, bs))
  {
    VisitsKeep(p, l, k, v, next);
    RoundLaw.Law(p, l, k, v, next, bytes);
    AgainstOldSnapshot(Own(p, l, k, v, next, bytes), RoundLaw.Meter(w.master[l].rules[k].tally, bytes),
                       RoundLaw.Meter(v.prev[l].rules[k].tally, bytes));
  }
}
