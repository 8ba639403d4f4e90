/** `BaseRule::is_triggered`: two latches, the packet one first, on the rates of one rule. */
module Alarms {
  import opened Words
  import opened Latches

  /** Zero switches a trigger off. Periods are in seconds. */
  datatype Thresholds = Thresholds(pps: u32, bps: u32, ppsPeriod: u32, bpsPeriod: u32)

  /** `pps_last_not_triggered` and `bps_last_not_triggered`. */
  datatype Memory = Memory(ppsLast: int, bpsLast: int)

  /** What one call looks at besides thresholds and memory. */
  datatype Check = Check(now: int, pps: nat, bps: nat, known: bool)

  datatype Outcome = Quiet | PpsAlarm | BpsAlarm

  function PpsView(th: Thresholds, c: Check): View {
    if th.pps == 0 then Skip(c.now) else if c.pps > th.pps then Over(c.now, c.known) else Calm(c.now)
  }

  /** A packet alarm returns before the byte trigger is looked at. */
  function BpsView(th: Thresholds, c: Check, ppsFired: bool): View {
    if ppsFired || th.bps == 0 then Skip(c.now)
    else if c.bps > th.bps then Over(c.now, c.known) else Calm(c.now)
  }

  function Outcomes(th: Thresholds, m: Memory, c: Check): Outcome {
    if Fires(th.ppsPeriod, m.ppsLast, PpsView(th, c)) then PpsAlarm
    else if Fires(th.bpsPeriod, m.bpsLast, BpsView(th, c, false)) then BpsAlarm
    else Quiet
  }

  function Remember(th: Thresholds, m: Memory, c: Check): Memory {
    Memory(After(th.ppsPeriod, m.ppsLast, PpsView(th, c)),
           After(th.bpsPeriod, m.bpsLast, BpsView(th, c, Outcomes(th, m, c) == PpsAlarm)))
  }

  method IsTriggered(th: Thresholds, m: Memory, pps: nat, bps: nat, tableSize: nat, now: int)
    returns (fired: bool, after: Memory)
    ensures var c := Check(now, pps, bps, tableSize > 0);
            after == Remember(th, m, c) && (fired <==> Outcomes(th, m, c) != Quiet)
  {
    after := m;
    if th.pps > 0 {
      if pps > th.pps {
        if now - after.ppsLast > th.ppsPeriod {
          after := after.(ppsLast := now);
          if tableSize > 0 {
            return true, after;
          }
        }
      } else {
        after := after.(ppsLast := now);
      }
    }
    if th.bps > 0 {
      if bps > th.bps {
        if now - after.bpsLast > th.bpsPeriod {
          after := after.(bpsLast := now);
          if tableSize > 0 {
            return true, after;
          }
        }
      } else {
        after := after.(bpsLast := now);
      }
    }
    return false, after;
  }

  /** When a call raises which alarm, in plain numbers. */
  lemma AlarmMeaning(th: Thresholds, m: Memory, c: Check)
    ensures Outcomes(th, m, c) == PpsAlarm <==>
            th.pps > 0 && c.pps > th.pps && c.now - m.ppsLast > th.ppsPeriod && c.known
    ensures Outcomes(th, m, c) == BpsAlarm <==>
            && th.bps > 0 && c.bps > th.bps && c.now - m.bpsLast > th.bpsPeriod && c.known
            && !(th.pps > 0 && c.pps > th.pps && c.now - m.ppsLast > th.ppsPeriod)
  {
  }

  /** What it remembers: a memory moves to now if its rate is calm, or its period is over. */
  lemma MemoryMeaning(th: Thresholds, m: Memory, c: Check)
    ensures Remember(th, m, c).ppsLast ==
            if th.pps > 0 && (c.pps <= th.pps || c.now - m.ppsLast > th.ppsPeriod) then c.now else m.ppsLast
    ensures Remember(th, m, c).bpsLast ==
            if th.pps > 0 && c.pps > th.pps && c.now - m.ppsLast > th.ppsPeriod && c.known then m.bpsLast
            else if th.bps > 0 && (c.bps <= th.bps || c.now - m.bpsLast > th.bpsPeriod) then c.now else m.bpsLast
  {
  }

  // ---- runs of checks of one rule ----

  function MemoryAt(th: Thresholds, m: Memory, cs: seq<Check>, i: nat): Memory
    requires i <= |cs|
  {
    if i == 0 then m else Remember(th, MemoryAt(th, m, cs, i - 1), cs[i - 1])
  }

  function OutcomeAt(th: Thresholds, m: Memory, cs: seq<Check>, i: nat): Outcome
    requires i < |cs|
  {
    Outcomes(th, MemoryAt(th, m, cs, i), cs[i])
  }

  ghost predicate InOrder(cs: seq<Check>) {
    forall i, j :: 0 <= i <= j < |cs| ==> cs[i].now <= cs[j].now
  }

  /** The run as the packet latch sees it, and as the byte latch sees it. */
  ghost function PpsViews(th: Thresholds, cs: seq<Check>, n: nat := |cs|): (es: seq<View>)
    requires n <= |cs|
    ensures |es| == n && forall i {:trigger es[i]} :: 0 <= i < n ==> es[i] == PpsView(th, cs[i])
  {
    if n == 0 then [] else PpsViews(th, cs, n - 1) + [PpsView(th, cs[n - 1])]
  }

  ghost function BpsViews(th: Thresholds, m: Memory, cs: seq<Check>, n: nat := |cs|): (es: seq<View>)
    requires n <= |cs|
    ensures |es| == n
    ensures forall i {:trigger es[i]} :: 0 <= i < n ==>
              es[i] == BpsView(th, cs[i], OutcomeAt(th, m, cs, i) == PpsAlarm)
  {
    if n == 0 then []
    else BpsViews(th, m, cs, n - 1) + [BpsView(th, cs[n - 1], OutcomeAt(th, m, cs, n - 1) == PpsAlarm)]
  }

  /** The two branches of one call are two latches run side by side. */
  lemma {:induction false} TwoLatches(th: Thresholds, m: Memory, cs: seq<Check>, i: nat)
    requires i <= |cs|
    ensures MemoryAt(th, m, cs, i) == Memory(Last(th.ppsPeriod, m.ppsLast, PpsViews(th, cs), i),
                                             Last(th.bpsPeriod, m.bpsLast, BpsViews(th, m, cs), i))
    ensures i < |cs| ==>
              && (OutcomeAt(th, m, cs, i) == PpsAlarm <==> FiresAt(th.ppsPeriod, m.ppsLast, PpsViews(th, cs), i))
              && (OutcomeAt(th, m, cs, i) == BpsAlarm <==> FiresAt(th.bpsPeriod, m.bpsLast, BpsViews(th, m, cs), i))
  {
    if i > 0 {
      TwoLatches(th, m, cs, i - 1);
    }
  }

  lemma ViewsOrdered(th: Thresholds, m: Memory, cs: seq<Check>)
    requires InOrder(cs)
    ensures Ordered(PpsViews(th, cs)) && Ordered(BpsViews(th, m, cs))
    ensures forall i {:trigger cs[i]} :: 0 <= i < |cs| ==>
              PpsViews(th, cs)[i].now == cs[i].now && BpsViews(th, m, cs)[i].now == cs[i].now
  {
  }

  /**
    A packet alarm means that every earlier check within the period was over the packet threshold
    and raised no packet alarm.
   */
  lemma PpsAlarmSafety(th: Thresholds, m: Memory, cs: seq<Check>, j: nat, i: nat)
    requires InOrder(cs) && j < i < |cs|
    requires OutcomeAt(th, m, cs, i) == PpsAlarm
    requires cs[j].now >= cs[i].now - th.ppsPeriod
    ensures cs[i].pps > th.pps > 0 && cs[i].known
    ensures cs[j].pps > th.pps && OutcomeAt(th, m, cs, j) != PpsAlarm
  {
    TwoLatches(th, m, cs, i);
    TwoLatches(th, m, cs, j);
    FiringIsSustained(th.ppsPeriod, m.ppsLast, PpsViews(th, cs), j, i);
  }

  /**
    A byte alarm means that every earlier check within the period was over the byte threshold or
    was pre-empted by a packet alarm, and raised no byte alarm.
   */
  lemma BpsAlarmSafety(th: Thresholds, m: Memory, cs: seq<Check>, j: nat, i: nat)
    requires InOrder(cs) && j < i < |cs|
    requires OutcomeAt(th, m, cs, i) == BpsAlarm
    requires cs[j].now >= cs[i].now - th.bpsPeriod
    ensures cs[i].bps > th.bps > 0 && cs[i].known
    ensures cs[j].bps > th.bps || OutcomeAt(th, m, cs, j) == PpsAlarm
    ensures OutcomeAt(th, m, cs, j) != BpsAlarm
  {
    TwoLatches(th, m, cs, i);
    TwoLatches(th, m, cs, j);
    FiringIsSustained(th.bpsPeriod, m.bpsLast, BpsViews(th, m, cs), j, i);
  }

  function AlarmCount(th: Thresholds, m: Memory, cs: seq<Check>, a: nat, b: nat): nat
    requires a <= b <= |cs|
  {
    if a == b then 0 else AlarmCount(th, m, cs, a, b - 1) + if OutcomeAt(th, m, cs, b - 1) != Quiet then 1 else 0
  }

  /** The count is the number of checks in the span whose outcome is an alarm. */
  lemma {:induction false} AlarmCountMeaning(th: Thresholds, m: Memory, cs: seq<Check>, a: nat, b: nat)
    requires a <= b <= |cs|
    ensures AlarmCount(th, m, cs, a, b) == |set i | a <= i < b && OutcomeAt(th, m, cs, i) != Quiet|
  {
    var alarms := set i | a <= i < b && OutcomeAt(th, m, cs, i) != Quiet;
    if a < b {
      AlarmCountMeaning(th, m, cs, a, b - 1);
      var before := set i | a <= i < b - 1 && OutcomeAt(th, m, cs, i) != Quiet;
      assert alarms == before + if OutcomeAt(th, m, cs, b - 1) != Quiet then {b - 1} else {};
    }
  }

  lemma {:induction false} AlarmsSplit(th: Thresholds, m: Memory, cs: seq<Check>, a: nat, b: nat)
    requires a <= b <= |cs|
    ensures AlarmCount(th, m, cs, a, b) == Count(th.ppsPeriod, m.ppsLast, PpsViews(th, cs), a, b)
                                       + Count(th.bpsPeriod, m.bpsLast, BpsViews(th, m, cs), a, b)
  {
    if a < b {
      AlarmsSplit(th, m, cs, a, b - 1);
      TwoLatches(th, m, cs, b - 1);
    }
  }

  /** However often a rule is checked, a window of `width` seconds holds a bounded number of alarms. */
  lemma AlarmRateBound(th: Thresholds, m: Memory, cs: seq<Check>, a: nat, b: nat, width: nat)
    requires InOrder(cs) && a < b <= |cs|
    requires cs[b - 1].now - cs[a].now <= width
    ensures AlarmCount(th, m, cs, a, b) <= Quota(width, th.ppsPeriod) + Quota(width, th.bpsPeriod)
  {
    AlarmsSplit(th, m, cs, a, b);
    ViewsOrdered(th, m, cs);
    FiringsBounded(th.ppsPeriod, m.ppsLast, PpsViews(th, cs), a, b, width);
    FiringsBounded(th.bpsPeriod, m.bpsLast, BpsViews(th, m, cs), a, b, width);
  }

  /**
    A rule that is over its packet threshold, with a known destination, at every check from `a` to
    `b` raises a packet alarm at one of them, if more than its period has passed since check `a`,
    or since the check before it.
   */
  lemma SustainedPpsAlarms(th: Thresholds, m: Memory, cs: seq<Check>, a: nat, b: nat)
    requires InOrder(cs) && a <= b < |cs| && m.ppsLast <= cs[0].now
    requires th.pps > 0 && forall i :: a <= i <= b ==> cs[i].pps > th.pps && cs[i].known
    requires cs[b].now - cs[a].now > th.ppsPeriod || (a > 0 && cs[b].now - cs[a - 1].now > th.ppsPeriod)
    ensures exists i :: a <= i <= b && OutcomeAt(th, m, cs, i) == PpsAlarm
  {
    var es := PpsViews(th, cs);
    LastInPast(th.ppsPeriod, m.ppsLast, es, a);
    if a > 0 {
      LastNotAfter(th.ppsPeriod, m.ppsLast, es, a - 1);
    }
    SustainedFires(th.ppsPeriod, m.ppsLast, es, a, b);
    var i: nat :| a <= i <= b && FiresAt(th.ppsPeriod, m.ppsLast, es, i);
    TwoLatches(th, m, cs, i);
    assert OutcomeAt(th, m, cs, i) == PpsAlarm;
  }

  /**
    A rule that is over its byte threshold, with a known destination, at every check from `a` to
    `b`, with no packet alarm at any of them, raises a byte alarm at one of them, if more than its
    byte period has passed since check `a`, or since the check before it.
   */
  lemma SustainedBpsAlarms(th: Thresholds, m: Memory, cs: seq<Check>, a: nat, b: nat)
    requires InOrder(cs) && a <= b < |cs| && m.bpsLast <= cs[0].now
    requires th.bps > 0 && forall i :: a <= i <= b ==> cs[i].bps > th.bps && cs[i].known
    requires forall i :: a <= i <= b ==> OutcomeAt(th, m, cs, i) != PpsAlarm
    requires cs[b].now - cs[a].now > th.bpsPeriod || (a > 0 && cs[b].now - cs[a - 1].now > th.bpsPeriod)
    ensures exists i :: a <= i <= b && OutcomeAt(th, m, cs, i) == BpsAlarm
  {
    var es := BpsViews(th, m, cs);
    LastInPast(th.bpsPeriod, m.bpsLast, es, a);
    if a > 0 {
      LastNotAfter(th.bpsPeriod, m.bpsLast, es, a - 1);
    }
    SustainedFires(th.bpsPeriod, m.bpsLast, es, a, b);
    var i: nat :| a <= i <= b && FiresAt(th.bpsPeriod, m.bpsLast, es, i);
    TwoLatches(th, m, cs, i);
    assert OutcomeAt(th, m, cs, i) == BpsAlarm;
  }

  /**
    A check that finds the packet period over but no destination known raises no alarm and resets
    the memory. If the rule stays over its packet threshold, with a known destination, the alarm
    comes at the first check more than a period later, and not before.
   */
  lemma SwallowedAlarmDelays(th: Thresholds, m: Memory, cs: seq<Check>, j: nat, b: nat)
    requires InOrder(cs) && j < b < |cs|
    requires cs[j].pps > th.pps > 0 && !cs[j].known && cs[j].now - MemoryAt(th, m, cs, j).ppsLast > th.ppsPeriod
    requires forall i :: j < i <= b ==> cs[i].pps > th.pps && cs[i].known
    ensures OutcomeAt(th, m, cs, j) == Quiet && MemoryAt(th, m, cs, j + 1).ppsLast == cs[j].now
    ensures (exists i :: j < i <= b && OutcomeAt(th, m, cs, i) == PpsAlarm)
            <==> cs[b].now - cs[j].now > th.ppsPeriod
  {
    var es := PpsViews(th, cs);
    TwoLatches(th, m, cs, j);
    SwallowedDelays(th.ppsPeriod, m.ppsLast, es, j, b);
    forall i: nat | j < i <= b
      ensures OutcomeAt(th, m, cs, i) == PpsAlarm <==> FiresAt(th.ppsPeriod, m.ppsLast, es, i)
    {
      TwoLatches(th, m, cs, i);
    }
  }

  /** With the memory of a new rule, the very first check over a threshold fires at once. */
  lemma FirstCheckFires(th: Thresholds, c: Check)
    ensures OutcomeAt(th, Memory(0, 0), [c], 0) == PpsAlarm <==>
            c.known && c.pps > th.pps > 0 && c.now > th.ppsPeriod
    ensures OutcomeAt(th, Memory(0, 0), [c], 0) == BpsAlarm <==>
            c.known && c.bps > th.bps > 0 && c.now > th.bpsPeriod && !(c.pps > th.pps > 0 && c.now > th.ppsPeriod)
  {
    assert MemoryAt(th, Memory(0, 0), [c], 0) == Memory(0, 0);
  }
}
