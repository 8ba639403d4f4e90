/** What the watcher protocol guarantees over every run, with reloads and console edits between rounds. */
module WatcherTheorems {
  import opened Words
  import opened Tallies
  import opened Rates
  import Latches
  import opened Alarms
  import opened Rules
  import opened RulesLists
  import opened Watchers
  import opened WatcherInvariants
  import opened WatcherRates

  /**
    Synchronisation is sound: the merge never throws, the lists it adds have equal length, and
    when all threads have been visited each of them has the master's rules.
   */
  lemma SyncIsSound<C(!new), H>(p: Protocol<C, H>, s0: Sys<C>, es: seq<Event<C, H>>, s: Sys<C>)
    requires Reflexive(p) && Start(s0) && Steps(p, s0, es) == Some(s)
    ensures !s.pc.Crashed?
    ensures s.pc.Merge? ==> |s.master[s.pc.l].rules| == |s.threads[s.pc.i][s.pc.l].rules|
    ensures s.pc.CalcDelta? || s.pc.Snapshot? || s.pc.Decide? ==>
              forall i {:trigger s.threads[i]} :: 0 <= i < |s.threads| ==> SameColl(p, s.threads[i], s.master)
  {
    RunIsSteps(p, 0, 0, s0, es);
    RunKeeps(p, 0, 0, s0, es);
    if s.pc.Merge? {
      assert SameColl(p, s.threads[s.pc.i], s.master);
      assert SameRules(p, s.threads[s.pc.i][s.pc.l].rules, s.master[s.pc.l].rules);
    }
  }

  /** The watcher is never stuck: whatever the clocks read next, its next step is defined. */
  lemma WatcherNeverStuck<C(!new), H>(
      p: Protocol<C, H>, s0: Sys<C>, es: seq<Event<C, H>>, s: Sys<C>, now: real, walls: Walls)
    requires Reflexive(p) && Start(s0) && Steps(p, s0, es) == Some(s)
    requires now >= s.clock && (s.pc.Idle? ==> now > s.clock) && Forward(s.wall, walls)
    ensures Enabled<C, H>(s, Work(now, walls))
  {
    RunIsSteps(p, 0, 0, s0, es);
    RunKeeps(p, 0, 0, s0, es);
    if s.pc.CalcDelta? {
      forall l | 0 <= l < LISTS
        ensures DeltaDefined(s.master[l], s.prev[l])
      {
        assert Stamped(s, l);
        assert s.master[l].updated > s.prev[l].updated;
      }
    }
  }

  /**
    Reload safety. Whenever `check_triggers` is about to examine a rule, its rates are the rounded
    true numbers of packets and bytes merged in this tick, over the length of the tick: the rate of
    the first round after a reload, which may be stale or wrapped, is never examined. And a rule
    with a positive rate knows a destination, so the emptiness guard swallows no alarm. The one
    exception is the check right after an edit from the console: `ConsoleEdits` says what it sees.
   */
  lemma ExaminedRatesAreTrue<C(!new), H>(
      p: Protocol<C, H>, l: nat, k: nat, s0: Sys<C>, es: seq<Event<C, H>>, s: Sys<C>, h: Probe)
    requires Reflexive(p) && Start(s0) && l < LISTS && Run(p, l, k, s0, es) == Some(Point(s, h))
    requires s.pc.Decide? && s.seen == s.change && !h.tainted && Has(s.master, l, k)
    ensures h.dt > 0.0
    ensures s.master[l].rules[k].pps == RateOf(Wrap64(|h.tick|), h.dt)
    ensures s.master[l].rules[k].bps == RateOf(Wrap64(TotalLen(h.tick)), h.dt)
    ensures s.master[l].rules[k].pps > 0 || s.master[l].rules[k].bps > 0 ==> s.master[l].rules[k].tally.dst != map[]
  {
    RunKeeps(p, l, k, s0, es);
    TallyMeaning(h.tick);
    var r := s.master[l].rules[k];
    if r.pps > 0 || r.bps > 0 {
      PositiveRateIsKnown(r, h);
    }
  }

  /** The check from which a span beginning at `a` counts: `a`, or the last one right after an edit. */
  function CountsFrom(h: Probe, a: nat): nat {
    if h.trusted <= a then a else h.trusted - 1
  }

  /** Over the packet threshold at every check from `a` to `b`, and for longer than the period. */
  ghost predicate Flooded(th: Thresholds, h: Probe, a: nat, b: nat) {
    && a <= b < |h.checks| && th.pps > 0 && CountsFrom(h, a) <= b
    && (forall i {:trigger h.checks[i]} :: a <= i <= b ==> h.checks[i].pps > th.pps)
    && h.checks[b].now - h.checks[CountsFrom(h, a)].now > th.ppsPeriod
  }

  /** The same for bytes. */
  ghost predicate FloodedBytes(th: Thresholds, h: Probe, a: nat, b: nat) {
    && a <= b < |h.checks| && th.bps > 0 && CountsFrom(h, a) <= b
    && (forall i {:trigger h.checks[i]} :: a <= i <= b ==> h.checks[i].bps > th.bps)
    && h.checks[b].now - h.checks[CountsFrom(h, a)].now > th.bpsPeriod
  }

  /**
    A sustained flood alarms. Take the trigger checks of a rule since it was loaded, or its list
    was edited: if the rule is over its packet threshold at every check of a span, and more than
    its period lies between the end of the span and its beginning, or the last check in it right
    after an edit elsewhere, then one of the checks raises a packet alarm.
   */
  lemma SustainedFloodAlarms<C(!new), H>(
      p: Protocol<C, H>, l: nat, k: nat, s0: Sys<C>, es: seq<Event<C, H>>, s: Sys<C>, h: Probe, a: nat, b: nat)
    requires Reflexive(p) && Start(s0) && l < LISTS && Run(p, l, k, s0, es) == Some(Point(s, h))
    requires Has(s.master, l, k)
    ensures Flooded(s.master[l].rules[k].spec.th, h, a, b) ==>
              exists i :: a <= i <= b && OutcomeAt(s.master[l].rules[k].spec.th, h.base, h.checks, i) == PpsAlarm
  {
    RunKeeps(p, l, k, s0, es);
    var th := s.master[l].rules[k].spec.th;
    if Flooded(th, h, a, b) {
      var from := if h.trusted <= a then a else h.trusted;
      SustainedPpsAlarms(th, h.base, h.checks, from, b);
      var i :| from <= i <= b && OutcomeAt(th, h.base, h.checks, i) == PpsAlarm;
      assert a <= i;
    }
  }

  /** And over the byte threshold: one of the checks raises a byte alarm, if none raises a packet alarm. */
  lemma SustainedByteFloodAlarms<C(!new), H>(
      p: Protocol<C, H>, l: nat, k: nat, s0: Sys<C>, es: seq<Event<C, H>>, s: Sys<C>, h: Probe, a: nat, b: nat)
    requires Reflexive(p) && Start(s0) && l < LISTS && Run(p, l, k, s0, es) == Some(Point(s, h))
    requires Has(s.master, l, k)
    ensures var th := s.master[l].rules[k].spec.th;
            FloodedBytes(th, h, a, b) ==>
              || (exists i :: a <= i <= b && OutcomeAt(th, h.base, h.checks, i) == BpsAlarm)
              || (exists i :: a <= i <= b && OutcomeAt(th, h.base, h.checks, i) == PpsAlarm)
  {
    RunKeeps(p, l, k, s0, es);
    var th := s.master[l].rules[k].spec.th;
    if FloodedBytes(th, h, a, b) && forall i :: a <= i <= b ==> OutcomeAt(th, h.base, h.checks, i) != PpsAlarm {
      var from := if h.trusted <= a then a else h.trusted;
      SustainedBpsAlarms(th, h.base, h.checks, from, b);
      var i :| from <= i <= b && OutcomeAt(th, h.base, h.checks, i) == BpsAlarm;
      assert a <= i;
    }
  }

  /**
    How long an edit can put an alarm off. If the check right after an edit finds the period over
    and no destination, it raises no alarm. The alarm then comes at the first check more than a
    period later, and not before, provided the rule stays over its threshold.
   */
  lemma EditDelaysAlarm<C(!new), H>(
      p: Protocol<C, H>, l: nat, k: nat, s0: Sys<C>, es: seq<Event<C, H>>, s: Sys<C>, h: Probe, j: nat, b: nat)
    requires Reflexive(p) && Start(s0) && l < LISTS && Run(p, l, k, s0, es) == Some(Point(s, h))
    requires Has(s.master, l, k) && j + 1 == h.trusted <= b < |h.checks|
    requires var th := s.master[l].rules[k].spec.th;
             && th.pps > 0 && (forall i {:trigger h.checks[i]} :: j <= i <= b ==> h.checks[i].pps > th.pps)
             && !h.checks[j].known && h.checks[j].now - MemoryAt(th, h.base, h.checks, j).ppsLast > th.ppsPeriod
    ensures var th := s.master[l].rules[k].spec.th;
            && OutcomeAt(th, h.base, h.checks, j) == Quiet
            && ((exists i :: j < i <= b && OutcomeAt(th, h.base, h.checks, i) == PpsAlarm)
                <==> h.checks[b].now - h.checks[j].now > th.ppsPeriod)
  {
    RunKeeps(p, l, k, s0, es);
    SwallowedAlarmDelays(s.master[l].rules[k].spec.th, h.base, h.checks, j, b);
  }

  /** Alarms of a rule since it was loaded, or its list was edited, come at a bounded rate. */
  lemma AlarmsAreBounded<C(!new), H>(
      p: Protocol<C, H>, l: nat, k: nat, s0: Sys<C>, es: seq<Event<C, H>>, s: Sys<C>, h: Probe,
      a: nat, b: nat, width: nat)
    requires Reflexive(p) && Start(s0) && l < LISTS && Run(p, l, k, s0, es) == Some(Point(s, h))
    requires Has(s.master, l, k) && a < b <= |h.checks| && h.checks[b - 1].now - h.checks[a].now <= width
    ensures var th := s.master[l].rules[k].spec.th;
            AlarmCount(th, h.base, h.checks, a, b)
            <= Latches.Quota(width, th.ppsPeriod) + Latches.Quota(width, th.bpsPeriod)
  {
    RunKeeps(p, l, k, s0, es);
    AlarmRateBound(s.master[l].rules[k].spec.th, h.base, h.checks, a, b, width);
  }

  /**
    The checks of the history are the decisions of the program: each sees the clock, the rates of
    the rule, and whether its table is empty; and the rule hands over a job in this check exactly
    when the outcome of the check it adds is an alarm.
   */
  lemma ChecksDecideJobs<C(!new), H>(
      p: Protocol<C, H>, l: nat, k: nat, s0: Sys<C>, es: seq<Event<C, H>>, s: Sys<C>, h: Probe, now: real, walls: Walls)
    requires Reflexive(p) && Start(s0) && l < LISTS && Run(p, l, k, s0, es) == Some(Point(s, h))
    requires Enabled<C, H>(s, Work(now, walls)) && s.pc.Decide? && s.seen == s.change && Has(s.master, l, k)
    ensures var r, g := s.master[l].rules[k], Seen(p, l, k, s, h, Work(now, walls));
            && |g.checks| == |h.checks| + 1
            && g.checks[|h.checks|] == Check(walls.at[l](k), r.pps, r.bps, r.tally.dst != map[])
            && (Triggered(r, walls.at[l](k)) <==> OutcomeAt(r.spec.th, g.base, g.checks, |h.checks|) != Quiet)
  {
    RunKeeps(p, l, k, s0, es);
    var r := s.master[l].rules[k];
    MemoryPrefix(r.spec.th, h.base, h.checks, CheckOf(r, walls.at[l](k)), |h.checks|);
    CheckSees(r, walls.at[l](k));
  }

  /**
    The reported victim. When a rule fires with no reload or edit since the check before it (or since the
    start), the address in its job is the most frequent destination among the packets credited to
    the rule, by whichever thread, and merged since the tables were last cleared; ties go to the
    lowest address. Destination counts are taken to stay below 2^32.
   */
  lemma ReportedVictimIsMostFrequent<C(!new), H>(
      p: Protocol<C, H>, l: nat, k: nat, s0: Sys<C>, es: seq<Event<C, H>>, s: Sys<C>, h: Probe, now: int, d: u32)
    requires Reflexive(p) && Start(s0) && l < LISTS && Run(p, l, k, s0, es) == Some(Point(s, h))
    requires s.pc.Decide? && h.sound && Has(s.master, l, k) && Triggered(s.master[l].rules[k], now)
    requires forall e: u32 :: Occurrences(e, h.recent) < 0x1_0000_0000
    ensures var v := JobOf(s.master[l].rules[k]).victim;
            && Occurrences(v, h.recent) > 0
            && (Occurrences(d, h.recent) < Occurrences(v, h.recent)
                || (Occurrences(d, h.recent) == Occurrences(v, h.recent) && (v <= d)))
  {
    RunKeeps(p, l, k, s0, es);
    assert s.master[l].rules[k].tally.dst == TallyOf(h.recent).dst;
    assert |s.master[l].rules[k].tally.dst| > 0;
    VictimIsMostFrequent(h.recent, d);
  }

  /** A run without reloads and edits is sound, with nothing pending, all the way. */
  lemma {:induction false} EditFreeRunsAreSound<C(!new), H>(
      p: Protocol<C, H>, l: nat, k: nat, s0: Sys<C>, es: seq<Event<C, H>>)
    requires Start(s0) && l < LISTS && Run(p, l, k, s0, es).Some?
    requires forall n {:trigger es[n]} :: 0 <= n < |es| ==> !es[n].Load? && !es[n].Edit?
    ensures var at := Run(p, l, k, s0, es).value; at.h.sound && !at.h.changed
  {
    if es != [] {
      var front := es[..|es| - 1];
      assert forall n {:trigger front[n]} :: 0 <= n < |front| ==> front[n] == es[n];
      EditFreeRunsAreSound(p, l, k, s0, front);
      var at := Run(p, l, k, s0, front).value;
      OnlyChangesUnsettle(p, l, k, at.s, at.h, es[|es| - 1]);
    }
  }

  /** And a run without edits never examines a tainted rate. */
  lemma {:induction false} ReloadsDoNotTaint<C(!new), H>(
      p: Protocol<C, H>, l: nat, k: nat, s0: Sys<C>, es: seq<Event<C, H>>)
    requires Start(s0) && l < LISTS && Run(p, l, k, s0, es).Some?
    requires forall n {:trigger es[n]} :: 0 <= n < |es| ==> !es[n].Edit?
    ensures var at := Run(p, l, k, s0, es).value; !at.h.edited && !at.h.tainted && at.h.trusted == 0
  {
    if es != [] {
      var front := es[..|es| - 1];
      assert forall n {:trigger front[n]} :: 0 <= n < |front| ==> front[n] == es[n];
      ReloadsDoNotTaint(p, l, k, s0, front);
      var at := Run(p, l, k, s0, front).value;
      OnlyEditsTaint(p, l, k, at.s, at.h, es[|es| - 1]);
    }
  }

  lemma OnlyEditsTaint<C, H>(p: Protocol<C, H>, l: nat, k: nat, s: Sys<C>, h: Probe, e: Event<C, H>)
    requires Shape(s) && Enabled(s, e) && |h.pending| == |s.threads| && l < LISTS
    requires !e.Edit? && !h.edited && !h.tainted && h.trusted == 0
    ensures var g := Seen(p, l, k, s, h, e); !g.edited && !g.tainted && g.trusted == 0
  {
    if e.Work? {
      StaysUntainted(p, l, k, s, h, e.walls);
    }
  }

  lemma StaysUntainted<C, H>(p: Protocol<C, H>, l: nat, k: nat, s: Sys<C>, h: Probe, walls: Walls)
    requires Shape(s) && |h.pending| == |s.threads| && l < LISTS && |walls.at| == LISTS
    requires !h.edited && !h.tainted && h.trusted == 0
    ensures var g := WorkSeen(p, l, k, s, h, walls); !g.edited && !g.tainted && g.trusted == 0
  {
  }

  lemma OnlyChangesUnsettle<C, H>(p: Protocol<C, H>, l: nat, k: nat, s: Sys<C>, h: Probe, e: Event<C, H>)
    requires Shape(s) && Enabled(s, e) && |h.pending| == |s.threads| && l < LISTS
    requires !e.Load? && !e.Edit? && h.sound && !h.changed
    ensures Seen(p, l, k, s, h, e).sound && !Seen(p, l, k, s, h, e).changed
  {
    if e.Work? {
      StaysSettled(p, l, k, s, h, e.walls);
    }
  }

  lemma StaysSettled<C, H>(p: Protocol<C, H>, l: nat, k: nat, s: Sys<C>, h: Probe, walls: Walls)
    requires Shape(s) && |h.pending| == |s.threads| && l < LISTS && |walls.at| == LISTS && h.sound && !h.changed
    ensures WorkSeen(p, l, k, s, h, walls).sound && !WorkSeen(p, l, k, s, h, walls).changed
  {
  }

  /**
    Rates integrate back to counts. Between rounds, the rates computed since the last change of
    rules was picked up (or since the start), each times the length of its tick, add up to the
    packets merged since then, and likewise for bytes, within half a unit per second of elapsed time.
   */
  lemma RatesAddUp<C(!new), H>(
      p: Protocol<C, H>, l: nat, k: nat, s0: Sys<C>, es: seq<Event<C, H>>, s: Sys<C>, h: Probe)
    requires Reflexive(p) && Start(s0) && l < LISTS && Run(p, l, k, s0, es) == Some(Point(s, h))
    requires s.pc.Idle? && !h.changed && Has(s.master, l, k)
    requires Counts64(h.ticks) && Counts64(h.byteTicks)
    ensures IntegratesTo(h.ticks, |h.merged|) && IntegratesTo(h.byteTicks, TotalLen(h.merged))
  {
    RunKeeps(p, l, k, s0, es);
    assert Balanced(h, false);
    TicksIntegrate(h.ticks, |h.merged|);
    TicksIntegrate(h.byteTicks, TotalLen(h.merged));
  }

  predicate Counts64(ts: seq<Tick>) {
    forall i {:trigger ts[i]} :: 0 <= i < |ts| ==> ts[i].count < 0x1_0000_0000_0000_0000
  }

  lemma TicksIntegrate(ts: seq<Tick>, total: nat)
    requires AllFaithful(ts) && Counts64(ts) && Counted(ts) == total
    ensures IntegratesTo(ts, total)
  {
    RatesIntegrate(ts);
  }
}
