/**
  End to end: from the trigger checks of one rule to firings, and from a sustained flood to the job
  that the task runner executes.
 */
module Alerts {
  import opened Words
  import Latches
  import opened Alarms
  import opened Rules
  import opened RulesLists
  import opened Watchers
  import opened WatcherInvariants
  import opened WatcherRates
  import opened WatcherTheorems
  import opened Deliveries
  import opened Queues

  // ---- checks and firings are the same events ----

  /** The events of a run at which the checks in the history of a rule were made. */
  ghost function CheckEvents<C, H>(p: Protocol<C, H>, l: nat, k: nat, s0: Sys<C>, es: seq<Event<C, H>>): seq<nat>
    requires Start(s0) && l < LISTS && Run(p, l, k, s0, es).Some?
  {
    if es == [] then []
    else
      var front, e := es[..|es| - 1], es[|es| - 1];
      var s := Run(p, l, k, s0, front).value.s;
      if e.Load? || (e.Edit? && e.m == l) then []
      else if Checking(s, e) && Has(s.master, l, k) then CheckEvents(p, l, k, s0, front) + [|front|]
      else CheckEvents(p, l, k, s0, front)
  }

  /** How often rule `k` of list `l` is among some firings, from event `from` on. */
  function Times(fs: seq<Firing>, l: nat, k: nat, from: nat): nat {
    if fs == [] then 0
    else
      var last := fs[|fs| - 1];
      Times(fs[..|fs| - 1], l, k, from) + if last.l == l && last.k == k && last.at >= from then 1 else 0
  }

  /** So many of them there are. */
  lemma {:induction false} TimesMeaning(fs: seq<Firing>, l: nat, k: nat, from: nat)
    ensures Times(fs, l, k, from) == |set i | 0 <= i < |fs| && fs[i].l == l && fs[i].k == k && fs[i].at >= from|
  {
    if fs != [] {
      var front, last := fs[..|fs| - 1], fs[|fs| - 1];
      TimesMeaning(front, l, k, from);
      var before := set i | 0 <= i < |front| && front[i].l == l && front[i].k == k && front[i].at >= from;
      var all := set i | 0 <= i < |fs| && fs[i].l == l && fs[i].k == k && fs[i].at >= from;
      assert all == before + if last.l == l && last.k == k && last.at >= from then {|front|} else {};
    }
  }

  lemma {:induction false} TimesJoin(a: seq<Firing>, b: seq<Firing>, l: nat, k: nat, from: nat)
    ensures Times(a + b, l, k, from) == Times(a, l, k, from) + Times(b, l, k, from)
  {
    if b == [] {
      assert a + b == a;
    } else {
      assert (a + b)[..|a + b| - 1] == a + b[..|b| - 1];
      TimesJoin(a, b[..|b| - 1], l, k, from);
    }
  }

  lemma {:induction false} TimesTagged(at: nat, m: nat, ks: seq<nat>, l: nat, k: nat, from: nat)
    requires forall i, j :: 0 <= i < j < |ks| ==> ks[i] < ks[j]
    ensures Times(Tagged(at, m, ks), l, k, from) == if m == l && at >= from && k in ks then 1 else 0
  {
    if ks != [] {
      var front, last := ks[..|ks| - 1], ks[|ks| - 1];
      TimesTagged(at, m, front, l, k, from);
      assert Tagged(at, m, ks)[..|ks| - 1] == Tagged(at, m, front);
      assert k in ks <==> k in front || k == last;
      assert last !in front;
    }
  }

  lemma TimesInList<C>(at: nat, m: nat, rules: seq<Rule<C>>, clock: Clock, l: nat, k: nat, from: nat)
    ensures Times(Tagged(at, m, Fired(rules, clock)), l, k, from) ==
            if m == l && at >= from && k < |rules| && Triggered(rules[k], clock(k)) then 1 else 0
  {
    FiredMeaning(rules, clock);
    TimesTagged(at, m, Fired(rules, clock), l, k, from);
  }

  /** One check holds at most one firing of a rule. */
  lemma TimesAtCheck<C>(at: nat, c: Coll<C>, clocks: seq<Clock>, l: nat, k: nat, from: nat)
    requires |c| == |clocks| == LISTS && l < LISTS
    ensures Times(FiredAt(at, c, clocks), l, k, from) ==
            if at >= from && Has(c, l, k) && Triggered(c[l].rules[k], clocks[l](k)) then 1 else 0
  {
    TimesInList(at, 0, c[0].rules, clocks[0], l, k, from);
    TimesInList(at, 1, c[1].rules, clocks[1], l, k, from);
    TimesInList(at, 2, c[2].rules, clocks[2], l, k, from);
    TimesJoinThree(Tagged(at, 0, Fired(c[0].rules, clocks[0])), Tagged(at, 1, Fired(c[1].rules, clocks[1])),
                   Tagged(at, 2, Fired(c[2].rules, clocks[2])), l, k, from);
  }

  lemma TimesJoinThree(x: seq<Firing>, y: seq<Firing>, z: seq<Firing>, l: nat, k: nat, from: nat)
    ensures Times(x + y + z, l, k, from) == Times(x, l, k, from) + Times(y, l, k, from) + Times(z, l, k, from)
  {
    TimesJoin(x + y, z, l, k, from);
    TimesJoin(x, y, l, k, from);
  }

  lemma {:induction false} NoneLater(fs: seq<Firing>, l: nat, k: nat, from: nat)
    requires forall i {:trigger fs[i]} :: 0 <= i < |fs| ==> fs[i].at < from
    ensures Times(fs, l, k, from) == 0
  {
    if fs != [] {
      NoneLater(fs[..|fs| - 1], l, k, from);
    }
  }

  /** Later checks do not change the count of earlier alarms. */
  lemma {:induction false} AlarmCountPrefix(th: Thresholds, m: Memory, cs: seq<Check>, c: Check, a: nat, b: nat)
    requires a <= b <= |cs|
    ensures AlarmCount(th, m, cs + [c], a, b) == AlarmCount(th, m, cs, a, b)
  {
    if a < b {
      AlarmCountPrefix(th, m, cs, c, a, b - 1);
      MemoryPrefix(th, m, cs, c, b - 1);
    }
  }

  /** From which event on check `a`, and those after it, were made. */
  function From(ats: seq<nat>, a: nat, n: nat): nat {
    if a < |ats| then ats[a] else n
  }

  predicate AllBelow(ats: seq<nat>, n: nat) {
    forall i {:trigger ats[i]} :: 0 <= i < |ats| ==> ats[i] < n
  }

  /** Check `i` of the history is a firing exactly if its outcome is an alarm. */
  ghost predicate CheckFires<C, H>(
      p: Protocol<C, H>, l: nat, k: nat, s0: Sys<C>, es: seq<Event<C, H>>, ats: seq<nat>,
      th: Thresholds, base: Memory, checks: seq<Check>, i: nat)
    requires Shape(s0) && i < |ats| == |checks|
  {
    ats[i] < |es| && (IsFiring(p, s0, es, Firing(ats[i], l, k)) <==> OutcomeAt(th, base, checks, i) != Quiet)
  }

  ghost predicate AllFire<C, H>(
      p: Protocol<C, H>, l: nat, k: nat, s0: Sys<C>, es: seq<Event<C, H>>, ats: seq<nat>,
      th: Thresholds, base: Memory, checks: seq<Check>)
    requires Shape(s0)
  {
    && |ats| == |checks|
    && forall i {:trigger CheckFires(p, l, k, s0, es, ats, th, base, checks, i)} ::
         0 <= i < |ats| ==> CheckFires(p, l, k, s0, es, ats, th, base, checks, i)
  }

  /** The firings of the rule from check `a` on are as many as the alarms among its checks. */
  ghost predicate TalliesFrom<C, H>(
      p: Protocol<C, H>, l: nat, k: nat, s0: Sys<C>, es: seq<Event<C, H>>, ats: seq<nat>,
      th: Thresholds, base: Memory, checks: seq<Check>, a: nat)
    requires Shape(s0) && Steps(p, s0, es).Some? && a <= |checks|
  {
    Times(Firings(p, s0, es), l, k, From(ats, a, |es|)) == AlarmCount(th, base, checks, a, |checks|)
  }

  ghost predicate Tallies<C, H>(
      p: Protocol<C, H>, l: nat, k: nat, s0: Sys<C>, es: seq<Event<C, H>>, ats: seq<nat>,
      th: Thresholds, base: Memory, checks: seq<Check>)
    requires Shape(s0) && Steps(p, s0, es).Some?
  {
    && |ats| == |checks|
    && forall a {:trigger TalliesFrom(p, l, k, s0, es, ats, th, base, checks, a)} ::
         0 <= a <= |checks| ==> TalliesFrom(p, l, k, s0, es, ats, th, base, checks, a)
  }

  /** Whether an earlier event was a firing does not depend on the events after it. */
  lemma FiringStays<C, H>(p: Protocol<C, H>, s0: Sys<C>, front: seq<Event<C, H>>, e: Event<C, H>, f: Firing)
    requires Shape(s0) && f.at < |front|
    ensures IsFiring(p, s0, front + [e], f) <==> IsFiring(p, s0, front, f)
  {
    assert (front + [e])[..f.at] == front[..f.at];
  }

  lemma NoFiringsAtEnd<C, H>(p: Protocol<C, H>, s0: Sys<C>, es: seq<Event<C, H>>, l: nat, k: nat)
    requires Shape(s0) && Steps(p, s0, es).Some?
    ensures Times(Firings(p, s0, es), l, k, |es|) == 0
  {
    FiringsInOrder(p, s0, es);
    NoneLater(Firings(p, s0, es), l, k, |es|);
  }

  lemma FiringsSnoc<C, H>(p: Protocol<C, H>, s0: Sys<C>, front: seq<Event<C, H>>, s: Sys<C>, e: Event<C, H>)
    requires Shape(s0) && Steps(p, s0, front) == Some(s) && Enabled(s, e)
    ensures Steps(p, s0, front + [e]) == Some(Next(p, s, e))
    ensures Firings(p, s0, front + [e]) == Firings(p, s0, front) + FiredBy(|front|, s, e)
  {
    assert (front + [e])[..|front|] == front;
  }

  lemma FiringsOneMore<C, H>(
      p: Protocol<C, H>, s0: Sys<C>, front: seq<Event<C, H>>, s: Sys<C>, e: Event<C, H>, l: nat, k: nat, from: nat)
    requires Shape(s0) && Steps(p, s0, front) == Some(s) && Enabled(s, e) && l < LISTS
    ensures Steps(p, s0, front + [e]) == Some(Next(p, s, e))
    ensures Times(Firings(p, s0, front + [e]), l, k, from) == Times(Firings(p, s0, front), l, k, from)
            + if Checking(s, e) && |front| >= from && Has(s.master, l, k)
                 && Triggered(s.master[l].rules[k], e.walls.at[l](k)) then 1 else 0
  {
    FiringsSnoc(p, s0, front, s, e);
    TimesJoin(Firings(p, s0, front), FiredBy(|front|, s, e), l, k, from);
    if Checking(s, e) {
      TimesAtCheck(|front|, s.master, e.walls.at, l, k, from);
    }
  }

  // ---- every step keeps both ----

  lemma ResetTallies<C, H>(
      p: Protocol<C, H>, l: nat, k: nat, s0: Sys<C>, es: seq<Event<C, H>>, th: Thresholds, base: Memory)
    requires Shape(s0) && Steps(p, s0, es).Some?
    ensures Tallies(p, l, k, s0, es, [], th, base, [])
  {
    NoFiringsAtEnd(p, s0, es, l, k);
  }

  lemma QuietFires<C, H>(
      p: Protocol<C, H>, l: nat, k: nat, s0: Sys<C>, front: seq<Event<C, H>>, e: Event<C, H>,
      ats: seq<nat>, th: Thresholds, base: Memory, checks: seq<Check>)
    requires Shape(s0) && AllFire(p, l, k, s0, front, ats, th, base, checks)
    ensures AllFire(p, l, k, s0, front + [e], ats, th, base, checks)
  {
    forall i | 0 <= i < |ats|
      ensures CheckFires(p, l, k, s0, front + [e], ats, th, base, checks, i)
    {
      assert CheckFires(p, l, k, s0, front, ats, th, base, checks, i);
      FiringStays(p, s0, front, e, Firing(ats[i], l, k));
    }
  }

  lemma QuietTallies<C, H>(
      p: Protocol<C, H>, l: nat, k: nat, s0: Sys<C>, front: seq<Event<C, H>>, s: Sys<C>, e: Event<C, H>,
      ats: seq<nat>, th: Thresholds, base: Memory, checks: seq<Check>)
    requires Shape(s0) && Steps(p, s0, front) == Some(s) && Enabled(s, e) && l < LISTS && !Checking(s, e)
    requires Tallies(p, l, k, s0, front, ats, th, base, checks)
    ensures Steps(p, s0, front + [e]).Some? && Tallies(p, l, k, s0, front + [e], ats, th, base, checks)
  {
    var es := front + [e];
    FiringsOneMore(p, s0, front, s, e, l, k, 0);
    forall a | 0 <= a <= |checks|
      ensures TalliesFrom(p, l, k, s0, es, ats, th, base, checks, a)
    {
      assert TalliesFrom(p, l, k, s0, front, ats, th, base, checks, a);
      if a < |ats| {
        assert From(ats, a, |front|) == From(ats, a, |es|);
        FiringsOneMore(p, s0, front, s, e, l, k, ats[a]);
      } else {
        LastTally(p, l, k, s0, es, ats, th, base, checks);
      }
    }
  }

  lemma CheckFiresToo<C, H>(
      p: Protocol<C, H>, l: nat, k: nat, s0: Sys<C>, front: seq<Event<C, H>>, s: Sys<C>, e: Event<C, H>,
      ats: seq<nat>, base: Memory, checks: seq<Check>)
    requires Shape(s0) && Steps(p, s0, front) == Some(s) && Enabled(s, e) && l < LISTS && Checking(s, e)
    requires Has(s.master, l, k)
    requires var r := s.master[l].rules[k];
             && AllFire(p, l, k, s0, front, ats, r.spec.th, base, checks)
             && r.memory == MemoryAt(r.spec.th, base, checks, |checks|)
    ensures var r := s.master[l].rules[k];
            AllFire(p, l, k, s0, front + [e], ats + [|front|], r.spec.th, base,
                    checks + [CheckOf(r, e.walls.at[l](k))])
  {
    var news := ats + [|front|];
    var r := s.master[l].rules[k];
    var c := CheckOf(r, e.walls.at[l](k));
    forall i | 0 <= i < |news|
      ensures CheckFires(p, l, k, s0, front + [e], news, r.spec.th, base, checks + [c], i)
    {
      NewCheckFires(p, l, k, s0, front, s, e, ats, base, checks, i);
    }
  }

  /** Check `more` adds one alarm, or none. */
  ghost predicate AlarmsMore(th: Thresholds, base: Memory, checks: seq<Check>, more: seq<Check>, fired: bool) {
    && |more| == |checks| + 1
    && forall a {:trigger AlarmCount(th, base, more, a, |more|)} :: 0 <= a <= |checks| ==>
         AlarmCount(th, base, more, a, |more|) == AlarmCount(th, base, checks, a, |checks|) + if fired then 1 else 0
  }

  lemma CheckAlarmsMore<C>(r: Rule<C>, base: Memory, checks: seq<Check>, now: int)
    requires r.memory == MemoryAt(r.spec.th, base, checks, |checks|)
    ensures AlarmsMore(r.spec.th, base, checks, checks + [CheckOf(r, now)], Triggered(r, now))
  {
    var more := checks + [CheckOf(r, now)];
    forall a {:trigger AlarmCount(r.spec.th, base, more, a, |more|)} | 0 <= a <= |checks|
      ensures AlarmCount(r.spec.th, base, more, a, |more|)
              == AlarmCount(r.spec.th, base, checks, a, |checks|) + if Triggered(r, now) then 1 else 0
    {
      OneMoreAlarm(r, base, checks, now, a);
    }
  }

  /** One more event adds one firing of the rule, or none. */
  ghost predicate FiresMore<C, H>(
      p: Protocol<C, H>, l: nat, k: nat, s0: Sys<C>, front: seq<Event<C, H>>, es: seq<Event<C, H>>, fired: bool)
    requires Shape(s0) && Steps(p, s0, front).Some? && Steps(p, s0, es).Some?
  {
    && |es| == |front| + 1
    && forall from {:trigger Times(Firings(p, s0, es), l, k, from)} :: 0 <= from <= |front| ==>
         Times(Firings(p, s0, es), l, k, from) == Times(Firings(p, s0, front), l, k, from) + if fired then 1 else 0
  }

  lemma CheckFiresMore<C, H>(
      p: Protocol<C, H>, l: nat, k: nat, s0: Sys<C>, front: seq<Event<C, H>>, s: Sys<C>, e: Event<C, H>)
    requires Shape(s0) && Steps(p, s0, front) == Some(s) && Enabled(s, e) && l < LISTS && Checking(s, e)
    requires Has(s.master, l, k)
    ensures Steps(p, s0, front + [e]).Some?
    ensures FiresMore(p, l, k, s0, front, front + [e], Triggered(s.master[l].rules[k], e.walls.at[l](k)))
  {
    FiringsOneMore(p, s0, front, s, e, l, k, 0);
    forall from | 0 <= from <= |front|
      ensures Times(Firings(p, s0, front + [e]), l, k, from) == Times(Firings(p, s0, front), l, k, from)
              + if Triggered(s.master[l].rules[k], e.walls.at[l](k)) then 1 else 0
    {
      FiringsOneMore(p, s0, front, s, e, l, k, from);
    }
  }

  lemma TallyCarries<C, H>(
      p: Protocol<C, H>, l: nat, k: nat, s0: Sys<C>, front: seq<Event<C, H>>, es: seq<Event<C, H>>,
      ats: seq<nat>, news: seq<nat>, th: Thresholds, base: Memory, checks: seq<Check>, more: seq<Check>, a: nat, d: nat)
    requires Shape(s0) && Steps(p, s0, front).Some? && Steps(p, s0, es).Some? && a <= |checks| <= |more|
    requires TalliesFrom(p, l, k, s0, front, ats, th, base, checks, a) && From(ats, a, |front|) == From(news, a, |es|)
    ensures Times(Firings(p, s0, es), l, k, From(ats, a, |front|))
            == Times(Firings(p, s0, front), l, k, From(ats, a, |front|)) + d ==>
            AlarmCount(th, base, more, a, |more|) == AlarmCount(th, base, checks, a, |checks|) + d ==>
            TalliesFrom(p, l, k, s0, es, news, th, base, more, a)
  {
  }

  lemma CheckTallies<C, H>(
      p: Protocol<C, H>, l: nat, k: nat, s0: Sys<C>, front: seq<Event<C, H>>, es: seq<Event<C, H>>,
      ats: seq<nat>, th: Thresholds, base: Memory, checks: seq<Check>, more: seq<Check>, fired: bool)
    requires Shape(s0) && Steps(p, s0, front).Some? && Steps(p, s0, es).Some? && AllBelow(ats, |front|)
    requires AlarmsMore(th, base, checks, more, fired) && FiresMore(p, l, k, s0, front, es, fired)
    requires Tallies(p, l, k, s0, front, ats, th, base, checks)
    ensures Tallies(p, l, k, s0, es, ats + [|front|], th, base, more)
  {
    var news := ats + [|front|];
    forall a | 0 <= a <= |more|
      ensures TalliesFrom(p, l, k, s0, es, news, th, base, more, a)
    {
      if a <= |checks| {
        assert TalliesFrom(p, l, k, s0, front, ats, th, base, checks, a);
        TallyCarries(p, l, k, s0, front, es, ats, news, th, base, checks, more, a, if fired then 1 else 0);
      } else {
        LastTally(p, l, k, s0, es, news, th, base, more);
      }
    }
  }

  lemma LastTally<C, H>(
      p: Protocol<C, H>, l: nat, k: nat, s0: Sys<C>, es: seq<Event<C, H>>, ats: seq<nat>,
      th: Thresholds, base: Memory, checks: seq<Check>)
    requires Shape(s0) && Steps(p, s0, es).Some? && |ats| == |checks|
    ensures TalliesFrom(p, l, k, s0, es, ats, th, base, checks, |checks|)
  {
    NoFiringsAtEnd(p, s0, es, l, k);
  }

  lemma OneMoreAlarm<C>(r: Rule<C>, base: Memory, checks: seq<Check>, now: int, a: nat)
    requires a <= |checks| && r.memory == MemoryAt(r.spec.th, base, checks, |checks|)
    ensures AlarmCount(r.spec.th, base, checks + [CheckOf(r, now)], a, |checks| + 1)
            == AlarmCount(r.spec.th, base, checks, a, |checks|) + if Triggered(r, now) then 1 else 0
  {
    AlarmCountPrefix(r.spec.th, base, checks, CheckOf(r, now), a, |checks|);
    MemoryPrefix(r.spec.th, base, checks, CheckOf(r, now), |checks|);
  }

  lemma NewCheckFires<C, H>(
      p: Protocol<C, H>, l: nat, k: nat, s0: Sys<C>, front: seq<Event<C, H>>, s: Sys<C>, e: Event<C, H>,
      ats: seq<nat>, base: Memory, checks: seq<Check>, i: nat)
    requires Shape(s0) && Steps(p, s0, front) == Some(s) && Enabled(s, e) && l < LISTS && Checking(s, e)
    requires Has(s.master, l, k) && i <= |ats|
    requires var r := s.master[l].rules[k];
             && AllFire(p, l, k, s0, front, ats, r.spec.th, base, checks)
             && r.memory == MemoryAt(r.spec.th, base, checks, |checks|)
    ensures var r := s.master[l].rules[k];
            CheckFires(p, l, k, s0, front + [e], ats + [|front|], r.spec.th, base,
                       checks + [CheckOf(r, e.walls.at[l](k))], i)
  {
    var r := s.master[l].rules[k];
    var c := CheckOf(r, e.walls.at[l](k));
    MemoryPrefix(r.spec.th, base, checks, c, i);
    if i < |ats| {
      assert CheckFires(p, l, k, s0, front, ats, r.spec.th, base, checks, i);
      FiringStays(p, s0, front, e, Firing(ats[i], l, k));
    } else {
      assert (front + [e])[..|front|] == front;
    }
  }

  /** The rule keeps its number and its thresholds from step to step. */
  lemma RuleStays<C, H>(p: Protocol<C, H>, l: nat, k: nat, s: Sys<C>, h: Probe, e: Event<C, H>)
    requires AlignInv(p, s, h) && l < LISTS && |h.pending| == |s.threads| && Enabled(s, e)
    requires !e.Load? && !(e.Edit? && e.m == l)
    ensures Has(Next(p, s, e).master, l, k) <==> Has(s.master, l, k)
    ensures Has(s.master, l, k) ==> Next(p, s, e).master[l].rules[k].spec.th == s.master[l].rules[k].spec.th
    ensures !Checking(s, e) ==> Seen(p, l, k, s, h, e).checks == h.checks
    ensures Seen(p, l, k, s, h, e).base == h.base
  {
    if e.Edit? || Checking(s, e) {
      assert e.Edit? ==> Next(p, s, e).master[l] == s.master[l];
    } else {
      MemoryKept(p, l, k, s, h, e);
      HistoryKept(p, l, k, s, h, e);
    }
  }

  /** One step: the events of checks so far, and the history after it. */
  lemma StepFires<C, H>(
      p: Protocol<C, H>, l: nat, k: nat, s0: Sys<C>, front: seq<Event<C, H>>, s: Sys<C>, h: Probe, e: Event<C, H>,
      ats: seq<nat>)
    requires Shape(s0) && Steps(p, s0, front) == Some(s) && l < LISTS && AlignInv(p, s, h) && CheckInv(l, k, s, h)
    requires |h.pending| == |s.threads| && Enabled(s, e) && !e.Load? && !(e.Edit? && e.m == l) && Has(s.master, l, k)
    requires AllFire(p, l, k, s0, front, ats, s.master[l].rules[k].spec.th, h.base, h.checks)
    ensures var g := Seen(p, l, k, s, h, e);
            AllFire(p, l, k, s0, front + [e], if Checking(s, e) then ats + [|front|] else ats,
                    s.master[l].rules[k].spec.th, g.base, g.checks)
  {
    RuleStays(p, l, k, s, h, e);
    if Checking(s, e) {
      CheckFiresToo(p, l, k, s0, front, s, e, ats, h.base, h.checks);
    } else {
      QuietFires(p, l, k, s0, front, e, ats, s.master[l].rules[k].spec.th, h.base, h.checks);
    }
  }

  lemma StepTallies<C, H>(
      p: Protocol<C, H>, l: nat, k: nat, s0: Sys<C>, front: seq<Event<C, H>>, s: Sys<C>, h: Probe, e: Event<C, H>,
      ats: seq<nat>)
    requires Shape(s0) && Steps(p, s0, front) == Some(s) && l < LISTS && AlignInv(p, s, h) && CheckInv(l, k, s, h)
    requires |h.pending| == |s.threads| && Enabled(s, e) && !e.Load? && !(e.Edit? && e.m == l) && Has(s.master, l, k)
    requires AllBelow(ats, |front|) && Tallies(p, l, k, s0, front, ats, s.master[l].rules[k].spec.th, h.base, h.checks)
    ensures Steps(p, s0, front + [e]).Some?
    ensures var g := Seen(p, l, k, s, h, e);
            Tallies(p, l, k, s0, front + [e], if Checking(s, e) then ats + [|front|] else ats,
                    s.master[l].rules[k].spec.th, g.base, g.checks)
  {
    RuleStays(p, l, k, s, h, e);
    if Checking(s, e) {
      var r, now := s.master[l].rules[k], e.walls.at[l](k);
      CheckAlarmsMore(r, h.base, h.checks, now);
      CheckFiresMore(p, l, k, s0, front, s, e);
      CheckTallies(p, l, k, s0, front, front + [e], ats, r.spec.th, h.base, h.checks,
                   h.checks + [CheckOf(r, now)], Triggered(r, now));
    } else {
      QuietTallies(p, l, k, s0, front, s, e, ats, s.master[l].rules[k].spec.th, h.base, h.checks);
    }
  }

  lemma FireBelow<C, H>(
      p: Protocol<C, H>, l: nat, k: nat, s0: Sys<C>, es: seq<Event<C, H>>, ats: seq<nat>,
      th: Thresholds, base: Memory, checks: seq<Check>)
    requires Shape(s0) && AllFire(p, l, k, s0, es, ats, th, base, checks)
    ensures AllBelow(ats, |es|)
  {
    forall i | 0 <= i < |ats|
      ensures ats[i] < |es|
    {
      assert CheckFires(p, l, k, s0, es, ats, th, base, checks, i);
    }
  }

  lemma {:induction false} RunFires<C(!new), H>(
      p: Protocol<C, H>, l: nat, k: nat, s0: Sys<C>, es: seq<Event<C, H>>, s: Sys<C>, h: Probe)
    requires Reflexive(p) && Start(s0) && l < LISTS && Run(p, l, k, s0, es) == Some(Point(s, h)) && Has(s.master, l, k)
    ensures AllFire(p, l, k, s0, es, CheckEvents(p, l, k, s0, es), s.master[l].rules[k].spec.th, h.base, h.checks)
  {
    if es != [] {
      var front, e := es[..|es| - 1], es[|es| - 1];
      var Point(s1, h1) := Run(p, l, k, s0, front).value;
      assert es == front + [e];
      RunIsSteps(p, l, k, s0, front);
      RunKeeps(p, l, k, s0, front);
      if !e.Load? && !(e.Edit? && e.m == l) {
        RuleStays(p, l, k, s1, h1, e);
        RunFires(p, l, k, s0, front, s1, h1);
        StepFires(p, l, k, s0, front, s1, h1, e, CheckEvents(p, l, k, s0, front));
      }
    }
  }

  lemma {:induction false} RunTallies<C(!new), H>(
      p: Protocol<C, H>, l: nat, k: nat, s0: Sys<C>, es: seq<Event<C, H>>, s: Sys<C>, h: Probe)
    requires Reflexive(p) && Start(s0) && l < LISTS && Run(p, l, k, s0, es) == Some(Point(s, h)) && Has(s.master, l, k)
    ensures Steps(p, s0, es) == Some(s)
    ensures Tallies(p, l, k, s0, es, CheckEvents(p, l, k, s0, es), s.master[l].rules[k].spec.th, h.base, h.checks)
  {
    RunIsSteps(p, l, k, s0, es);
    if es == [] {
      ResetTallies(p, l, k, s0, es, s.master[l].rules[k].spec.th, h.base);
    } else {
      var front, e := es[..|es| - 1], es[|es| - 1];
      var Point(s1, h1) := Run(p, l, k, s0, front).value;
      assert es == front + [e];
      RunIsSteps(p, l, k, s0, front);
      RunKeeps(p, l, k, s0, front);
      if e.Load? || (e.Edit? && e.m == l) {
        ResetTallies(p, l, k, s0, es, s.master[l].rules[k].spec.th, h.base);
      } else {
        RuleStays(p, l, k, s1, h1, e);
        RunTallies(p, l, k, s0, front, s1, h1);
        RunFires(p, l, k, s0, front, s1, h1);
        FireBelow(p, l, k, s0, front, CheckEvents(p, l, k, s0, front), s.master[l].rules[k].spec.th,
                  h1.base, h1.checks);
        StepTallies(p, l, k, s0, front, s1, h1, e, CheckEvents(p, l, k, s0, front));
      }
    }
  }

  lemma TalliedFrom<C(!new), H>(
      p: Protocol<C, H>, l: nat, k: nat, s0: Sys<C>, es: seq<Event<C, H>>, s: Sys<C>, h: Probe, a: nat, n: nat)
    requires Reflexive(p) && Start(s0) && l < LISTS && Run(p, l, k, s0, es) == Some(Point(s, h)) && Has(s.master, l, k)
    requires a < n == |h.checks|
    ensures Steps(p, s0, es) == Some(s) && |CheckEvents(p, l, k, s0, es)| == |h.checks|
    ensures Times(Firings(p, s0, es), l, k, CheckEvents(p, l, k, s0, es)[a])
            == AlarmCount(s.master[l].rules[k].spec.th, h.base, h.checks, a, n)
  {
    RunTallies(p, l, k, s0, es, s, h);
    assert TalliesFrom(p, l, k, s0, es, CheckEvents(p, l, k, s0, es), s.master[l].rules[k].spec.th,
                       h.base, h.checks, a);
  }

  // ---- end to end ----

  /** Over one threshold or the other, for longer than its period. */
  ghost predicate OverFor(th: Thresholds, h: Probe, a: nat, b: nat) {
    Flooded(th, h, a, b) || FloodedBytes(th, h, a, b)
  }

  /** A sustained flood, of packets or of bytes, is among the firings of the run, at check `i` of the span. */
  lemma FloodFires<C(!new), H>(
      p: Protocol<C, H>, l: nat, k: nat, s0: Sys<C>, es: seq<Event<C, H>>, s: Sys<C>, h: Probe, a: nat, b: nat)
    returns (f: Firing, i: nat)
    requires Reflexive(p) && Start(s0) && l < LISTS && Run(p, l, k, s0, es) == Some(Point(s, h))
    requires Has(s.master, l, k)
    ensures Steps(p, s0, es) == Some(s)
    ensures OverFor(s.master[l].rules[k].spec.th, h, a, b) ==>
              && a <= i <= b && i < |CheckEvents(p, l, k, s0, es)|
              && f == Firing(CheckEvents(p, l, k, s0, es)[i], l, k) && f in Firings(p, s0, es)
  {
    RunIsSteps(p, l, k, s0, es);
    RunFires(p, l, k, s0, es, s, h);
    var th, ats := s.master[l].rules[k].spec.th, CheckEvents(p, l, k, s0, es);
    f, i := Firing(0, l, k), a;
    if OverFor(th, h, a, b) {
      i := AlarmInSpan(p, l, k, s0, es, s, h, a, b);
      f := Firing(ats[i], l, k);
      assert CheckFires(p, l, k, s0, es, ats, th, h.base, h.checks, i);
      FiringsAreAll(p, s0, es, f);
    }
  }

  lemma AlarmInSpan<C(!new), H>(
      p: Protocol<C, H>, l: nat, k: nat, s0: Sys<C>, es: seq<Event<C, H>>, s: Sys<C>, h: Probe, a: nat, b: nat)
    returns (i: nat)
    requires Reflexive(p) && Start(s0) && l < LISTS && Run(p, l, k, s0, es) == Some(Point(s, h))
    requires Has(s.master, l, k)
    ensures OverFor(s.master[l].rules[k].spec.th, h, a, b) ==>
              a <= i <= b < |h.checks| && OutcomeAt(s.master[l].rules[k].spec.th, h.base, h.checks, i) != Quiet
  {
    var th := s.master[l].rules[k].spec.th;
    i := a;
    if Flooded(th, h, a, b) {
      SustainedFloodAlarms(p, l, k, s0, es, s, h, a, b);
      i :| a <= i <= b && OutcomeAt(th, h.base, h.checks, i) == PpsAlarm;
    } else if FloodedBytes(th, h, a, b) {
      SustainedByteFloodAlarms(p, l, k, s0, es, s, h, a, b);
      if exists j :: a <= j <= b && OutcomeAt(th, h.base, h.checks, j) == BpsAlarm {
        i :| a <= i <= b && OutcomeAt(th, h.base, h.checks, i) == BpsAlarm;
      } else {
        i :| a <= i <= b && OutcomeAt(th, h.base, h.checks, i) == PpsAlarm;
      }
    }
  }

  /** From check `a` on, until now, a rule fires no more often than its quotas allow. */
  lemma FiringsAreBounded<C(!new), H>(
      p: Protocol<C, H>, l: nat, k: nat, s0: Sys<C>, es: seq<Event<C, H>>, s: Sys<C>, h: Probe,
      a: nat, n: nat, width: nat)
    requires Reflexive(p) && Start(s0) && l < LISTS && Run(p, l, k, s0, es) == Some(Point(s, h))
    requires Has(s.master, l, k) && a < n == |h.checks| && h.checks[n - 1].now - h.checks[a].now <= width
    ensures Steps(p, s0, es) == Some(s) && |CheckEvents(p, l, k, s0, es)| == |h.checks|
    ensures var th := s.master[l].rules[k].spec.th;
            Times(Firings(p, s0, es), l, k, CheckEvents(p, l, k, s0, es)[a])
            <= Latches.Quota(width, th.ppsPeriod) + Latches.Quota(width, th.bpsPeriod)
  {
    TalliedFrom(p, l, k, s0, es, s, h, a, n);
    AlarmsAreBounded(p, l, k, s0, es, s, h, a, n, width);
  }

  /**
    From a flood to the action. In the whole system, however its parts interleave: if a rule has
    been over its packet or its byte threshold for longer than the period, one of the checks of
    that span has fired, and the job of that firing has been executed, or waits in the queue or
    with the watcher. Once nothing waits it has been executed.
   */
  lemma FloodIsActedOn<C(!new), H>(
      p: Protocol<C, H>, l: nat, k: nat, s0: Sys<C>, acts: seq<Act<C, H>>, s: Sys<C>, h: Probe, a: nat, b: nat)
    returns (f: Firing, i: nat)
    requires Reflexive(p) && Start(s0) && l < LISTS && Acted(p, s0, acts).Some?
    requires Run(p, l, k, s0, EventsOf(acts)) == Some(Point(s, h)) && Has(s.master, l, k)
    ensures OverFor(s.master[l].rules[k].spec.th, h, a, b) ==>
              var es, w := EventsOf(acts), Acted(p, s0, acts).value;
              && a <= i <= b && i < |CheckEvents(p, l, k, s0, es)|
              && f == Firing(CheckEvents(p, l, k, s0, es)[i], l, k) && IsFiring(p, s0, es, f)
              && JobAt(p, s0, es, f) in AllJobs(w)
              && (w.d.queue == [] && w.backlog == [] ==> JobAt(p, s0, es, f) in w.d.run)
  {
    var es, w := EventsOf(acts), Acted(p, s0, acts).value;
    f, i := FloodFires(p, l, k, s0, es, s, h, a, b);
    if OverFor(s.master[l].rules[k].spec.th, h, a, b) {
      FiringsAreAll(p, s0, es, f);
      AlarmsAreDelivered(p, s0, acts);
      PushedAreFirings(p, s0, es);
      var fs, jobs := Firings(p, s0, es), Pushed(p, s0, es);
      var n: nat :| n < |fs| && fs[n] == f;
      assert MatchedAt(p, s0, es, fs[n], jobs[n]);
      assert jobs[n] in jobs;
    }
  }
}
