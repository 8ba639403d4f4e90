/**
  The whole protocol: receiver threads counting on their own copies, the watcher visiting them
  round after round, rule files being reloaded, and rules edited from the console. Packets
  interleave with the watcher everywhere; reloads and edits land between rounds.

  A packet, a copy and a merge are each one critical section of the source. `Compare`, `CalcDelta`,
  `Snapshot` and `Decide` stand for three each, one for each protocol: nothing but packets can come
  in between, and a packet may as well come before all three (`RoundSteps.PacketsPassBy`).
 */
module Watchers {
  import opened Words
  import opened Tallies
  import opened Rates
  import opened Alarms
  import opened Rules
  import opened RulesLists

  /** TCP, UDP and ICMP. */
  const LISTS: nat := 3

  /** Of a rule that has just been parsed. */
  const NO_MEMORY := Memory(0, 0)

  type Coll<C> = seq<ListState<C>>

  /** Where the watcher is in its round; `Crashed` if the merge threw. */
  datatype Pc =
    | Idle
    | Compare(i: nat)
    | Copy(i: nat, l: nat)
    | Merge(i: nat, l: nat)
    | CalcDelta
    | Snapshot
    | Decide
    | Crashed

  /** `change` and `seen` are `last_change` of the master and of the watcher. */
  datatype Sys<C> = Sys(
    master: Coll<C>, change: int, threads: seq<Coll<C>>, prev: Coll<C>, seen: int,
    pc: Pc, clock: real, wall: int)

  /** What the wall clock shows to each rule in a step, and a reading from after all of them. */
  datatype Walls = Walls(upTo: int, at: seq<Clock>)

  /**
    A packet of protocol `l` at thread `i`, a reload, an edit of list `m` from the console, or the
    watcher's next step with its clocks.
   */
  datatype Event<C, H> =
    | Arrive(i: nat, l: nat, pkt: Packet<H>)
    | Load(rules: seq<seq<Rule<C>>>, stamp: int)
    | Edit(m: nat, edit: ListEdit<C>)
    | Work(now: real, walls: Walls)

  ghost predicate SameColl<C, H>(p: Protocol<C, H>, a: Coll<C>, b: Coll<C>) {
    |a| == |b| && forall l {:trigger a[l]} {:trigger b[l]} :: 0 <= l < |a| ==> SameRules(p, a[l].rules, b[l].rules)
  }

  ghost predicate Shape<C>(s: Sys<C>) {
    && |s.master| == |s.prev| == LISTS && |s.threads| > 0
    && (forall i {:trigger s.threads[i]} :: 0 <= i < |s.threads| ==> |s.threads[i]| == LISTS)
    && match s.pc
       case Compare(i) => i < |s.threads|
       case Copy(i, l) => i < |s.threads| && l < LISTS
       case Merge(i, l) => i < |s.threads| && l < LISTS
       case _ => true
  }

  predicate FreshRule<C>(r: Rule<C>) {
    r.tally == ZERO && r.memory == NO_MEMORY
  }

  predicate FreshRules<C>(rules: seq<seq<Rule<C>>>) {
    |rules| == LISTS && forall l, k :: 0 <= l < |rules| && 0 <= k < |rules[l]| ==> FreshRule(rules[l][k])
  }

  /** The wall clock does not go back. */
  ghost predicate Forward(wall: int, walls: Walls) {
    && |walls.at| == LISTS && wall <= walls.upTo
    && forall l: nat, k: nat {:trigger walls.at[l](k)} :: l < LISTS ==> wall <= walls.at[l](k) <= walls.upTo
  }

  /** Between rounds, or so early in one that no list has been passed: see `LateLoads.NothingPassedIff`. */
  predicate BetweenRounds(pc: Pc) {
    pc.Idle? || pc == Compare(0) || pc == Copy(0, 0)
  }

  ghost predicate Enabled<C, H>(s: Sys<C>, e: Event<C, H>)
    requires Shape(s)
  {
    match e
    case Arrive(i, l, _) => i < |s.threads| && l < LISTS
    case Load(rules, stamp) => BetweenRounds(s.pc) && FreshRules(rules) && stamp > s.change
    case Edit(m, edit) => BetweenRounds(s.pc) && m < LISTS && (edit.Del? || FreshRule(edit.r))
    case Work(now, walls) =>
      && now >= s.clock && (s.pc.Idle? ==> now > s.clock) && Forward(s.wall, walls) && !s.pc.Crashed?
      && (s.pc.CalcDelta? ==> forall l :: 0 <= l < LISTS ==> DeltaDefined(s.master[l], s.prev[l]))
  }

  ghost function DeltaAll<C>(a: Coll<C>, b: Coll<C>): (out: Coll<C>)
    requires |a| == |b| && forall l :: 0 <= l < |a| ==> DeltaDefined(a[l], b[l])
    ensures |out| == |a|
    ensures forall l {:trigger out[l]} :: 0 <= l < |a| ==> out[l] == ListState(Delta(a[l], b[l]), a[l].updated)
  {
    seq(|a|, l requires 0 <= l < |a| => ListState(Delta(a[l], b[l]), a[l].updated))
  }

  ghost function CheckAll<C>(a: Coll<C>, clocks: seq<Clock>): (out: Coll<C>)
    requires |a| == |clocks|
    ensures |out| == |a|
    ensures forall l {:trigger out[l]} :: 0 <= l < |a| ==>
              out[l] == ListState(Checked(a[l].rules, clocks[l]), a[l].updated)
  {
    seq(|a|, l requires 0 <= l < |a| => ListState(Checked(a[l].rules, clocks[l]), a[l].updated))
  }

  /** A reload keeps the time stamps of the lists and replaces their rules. */
  ghost function LoadAll<C>(a: Coll<C>, rules: seq<seq<Rule<C>>>): (out: Coll<C>)
    requires |a| == |rules|
    ensures |out| == |a|
    ensures forall l {:trigger out[l]} :: 0 <= l < |a| ==> out[l] == ListState(rules[l], a[l].updated)
  {
    seq(|a|, l requires 0 <= l < |a| => ListState(rules[l], a[l].updated))
  }

  /** A reload that lands in this state. */
  ghost function Landed<C>(s: Sys<C>, rules: seq<seq<Rule<C>>>, stamp: int): Sys<C>
    requires |s.master| == |rules|
  {
    s.(master := LoadAll(s.master, rules), change := stamp)
  }

  function WithRules<C>(c: Coll<C>, l: nat, rules: seq<Rule<C>>): Coll<C>
    requires l < |c|
  {
    c[l := c[l].(rules := rules)]
  }

  /** An edit leaves the other lists, and the change stamp, alone. */
  function Edited<C>(s: Sys<C>, m: nat, edit: ListEdit<C>): Sys<C>
    requires m < |s.master|
  {
    s.(master := WithRules(s.master, m, AfterEdit(s.master[m].rules, edit)))
  }

  function AfterMerge<C>(s: Sys<C>, i: nat, l: nat): Pc {
    if l + 1 < LISTS then Merge(i, l + 1) else if i + 1 < |s.threads| then Compare(i + 1) else CalcDelta
  }

  /** The watcher's next atomic step. */
  ghost function WorkNext<C, H>(p: Protocol<C, H>, s: Sys<C>, now: real, walls: Walls): (t: Sys<C>)
    requires Shape(s) && Enabled<C, H>(s, Work(now, walls))
  {
    var u := s.(clock := now, wall := walls.upTo);
    match s.pc
    case Idle => u.(pc := Compare(0))
    case Compare(i) => u.(pc := if SameColl(p, s.threads[i], s.master) then Merge(i, 0) else Copy(i, 0))
    case Copy(i, l) =>
      u.(threads := s.threads[i := s.threads[i][l := s.master[l]]],
         pc := if l + 1 < LISTS then Copy(i, l + 1) else Merge(i, 0))
    case Merge(i, l) =>
      var mine, theirs := s.master[l], s.threads[i][l];
      if |mine.rules| == |theirs.rules| then
        u.(master := s.master[l := ListState(Merged(mine.rules, theirs.rules), now)],
           threads := s.threads[i := s.threads[i][l := theirs.(rules := Zeroed(theirs.rules))]],
           pc := AfterMerge(s, i, l))
      else
        u.(master := s.master[l := mine.(updated := now)], pc := Crashed)
    case CalcDelta => u.(master := DeltaAll(s.master, s.prev), pc := Snapshot)
    case Snapshot => u.(prev := s.master, pc := Decide)
    case Decide =>
      if s.seen == s.change then u.(master := CheckAll(s.master, walls.at), pc := Idle)
      else u.(seen := s.change, pc := Idle)
    case Crashed => u
  }

  ghost function Next<C, H>(p: Protocol<C, H>, s: Sys<C>, e: Event<C, H>): Sys<C>
    requires Shape(s) && Enabled(s, e)
  {
    match e
    case Arrive(i, l, pkt) =>
      var list := s.threads[i][l];
      s.(threads := s.threads[i := s.threads[i][l := list.(rules := Credited(p, list.rules, pkt))]])
    case Load(rules, stamp) => Landed(s, rules, stamp)
    case Edit(m, edit) => Edited(s, m, edit)
    case Work(now, walls) => WorkNext(p, s, now, walls)
  }

  /** The state when the watcher starts: freshly loaded rules, and a copy of them in every thread. */
  ghost predicate Start<C>(s: Sys<C>) {
    && Shape(s) && s.pc.Idle?
    && (forall l, k :: 0 <= l < LISTS && 0 <= k < |s.master[l].rules| ==> FreshRule(s.master[l].rules[k]))
    && (forall i {:trigger s.threads[i]} :: 0 <= i < |s.threads| ==> s.threads[i] == s.master)
    && s.prev == s.master && s.seen == 0 < s.change && 0 <= s.wall
    && (forall l :: 0 <= l < LISTS ==> s.master[l].updated <= s.clock)
  }

  // ---- what really happened, for one rule ----

  /**
    The history of rule `k` of list `l`: nothing here influences a run.
    `pending`: per thread, the packets it has credited to the rule since its counters were last
    merged or overwritten. `tick`: those merged in this round. `recent`: those merged since the
    destination tables were last cleared. `merged`: those merged since the last change of rules was
    picked up. `changed`: a change of rules has not been picked up by a complete round yet;
    `edited`: one that its stamp does not tell. `stale`: the thread being visited was stale.
    `sound`: no change of rules since the last trigger check. `exact`: the last rates were computed
    with no change pending; `tainted`: with an edit pending; `dt`: over what time. `checks`: the
    trigger checks of the rule since it was loaded, or its own list was edited, and `base` its
    memory then; those before `trusted` may have seen tainted rates. `ticks`, `byteTicks`: the
    rates computed.
   */
  datatype Probe = Probe(
    pending: seq<seq<Hit>>, tick: seq<Hit>, recent: seq<Hit>, merged: seq<Hit>,
    changed: bool, edited: bool, stale: bool, sound: bool, exact: bool, tainted: bool, dt: real,
    base: Memory, checks: seq<Check>, trusted: nat, ticks: seq<Tick>, byteTicks: seq<Tick>)

  function NoHistory(n: nat): Probe {
    Probe(seq(n, i => []), [], [], [], false, false, false, true, false, false, 0.0, NO_MEMORY, [], 0, [], [])
  }

  predicate Has<C>(c: Coll<C>, l: nat, k: nat) {
    l < |c| && k < |c[l].rules|
  }

  function MemoryOf<C>(rules: seq<Rule<C>>, k: nat): Memory {
    if k < |rules| then rules[k].memory else NO_MEMORY
  }

  ghost function WorkSeen<C, H>(p: Protocol<C, H>, l: nat, k: nat, s: Sys<C>, h: Probe, walls: Walls): Probe
    requires Shape(s) && |h.pending| == |s.threads| && l < LISTS && |walls.at| == LISTS
  {
    match s.pc
    case Idle => h.(tick := [])
    case Compare(i) => h.(stale := !SameColl(p, s.threads[i], s.master))
    case Copy(i, m) => if m == l then h.(pending := h.pending[i := []]) else h
    case Merge(i, m) =>
      var new_ := h.pending[i];
      if m == l then
        h.(tick := h.tick + new_, recent := h.recent + new_, merged := h.merged + new_, pending := h.pending[i := []])
      else h
    case CalcDelta => h.(dt := s.master[l].updated - s.prev[l].updated, exact := !h.changed, tainted := h.edited)
    case Snapshot =>
      var g := h.(changed := false, edited := false);
      if h.changed then g.(merged := [], ticks := [], byteTicks := [])
      else if Has(s.master, l, k) then
        var r := s.master[l].rules[k];
        g.(ticks := h.ticks + [Tick(|h.tick|, h.dt, r.pps)],
           byteTicks := h.byteTicks + [Tick(TotalLen(h.tick), h.dt, r.bps)])
      else g
    case Decide =>
      if s.seen != s.change then h
      else if Has(s.master, l, k) then
        h.(recent := [], sound := true, checks := h.checks + [CheckOf(s.master[l].rules[k], walls.at[l](k))],
           trusted := if h.tainted then |h.checks| + 1 else h.trusted)
      else h.(recent := [], sound := true)
    case Crashed => h
  }

  ghost function Seen<C, H>(p: Protocol<C, H>, l: nat, k: nat, s: Sys<C>, h: Probe, e: Event<C, H>): (g: Probe)
    requires Shape(s) && Enabled(s, e) && |h.pending| == |s.threads| && l < LISTS
    ensures |g.pending| == |h.pending|
  {
    match e
    case Arrive(i, m, pkt) =>
      var rules := s.threads[i][l].rules;
      if m == l && k < |rules| && Credits(p, rules, pkt, k) then
        h.(pending := h.pending[i := h.pending[i] + [HitOf(pkt)]])
      else h
    case Load(_, _) =>
      h.(tick := [], recent := [], changed := true, edited := false, sound := false,
         base := NO_MEMORY, checks := [], trusted := 0)
    case Edit(m, edit) =>
      var g := h.(changed := true, edited := h.edited || s.seen == s.change, sound := false);
      if m == l then g.(base := MemoryOf(AfterEdit(s.master[l].rules, edit), k), checks := [], trusted := 0) else g
    case Work(_, walls) => WorkSeen(p, l, k, s, h, walls)
  }

  // ---- runs ----

  datatype Point<C> = Point(s: Sys<C>, h: Probe)

  lemma NextShape<C, H>(p: Protocol<C, H>, s: Sys<C>, e: Event<C, H>)
    requires Shape(s) && Enabled(s, e)
    ensures Shape(Next(p, s, e)) && |Next(p, s, e).threads| == |s.threads|
  {
  }

  /** The state after some events, from any state; `None` if one of them was not possible. */
  ghost function Steps<C, H>(p: Protocol<C, H>, s: Sys<C>, es: seq<Event<C, H>>): (r: Option<Sys<C>>)
    requires Shape(s)
    ensures r.Some? ==> Shape(r.value) && |r.value.threads| == |s.threads|
  {
    if es == [] then Some(s)
    else
      match Steps(p, s, es[..|es| - 1])
      case None => None
      case Some(u) =>
        var e := es[|es| - 1];
        if !Enabled(u, e) then None
        else
          NextShape(p, u, e);
          Some(Next(p, u, e))
  }

  /** The end of a run from `s0`, watching rule `k` of list `l`; `None` if a step was not possible. */
  ghost function Run<C, H>(p: Protocol<C, H>, l: nat, k: nat, s0: Sys<C>, es: seq<Event<C, H>>): (r: Option<Point<C>>)
    requires Start(s0) && l < LISTS
    ensures r.Some? ==> Shape(r.value.s) && |r.value.h.pending| == |r.value.s.threads| == |s0.threads|
  {
    if es == [] then Some(Point(s0, NoHistory(|s0.threads|)))
    else
      match Run(p, l, k, s0, es[..|es| - 1])
      case None => None
      case Some(at) =>
        var e := es[|es| - 1];
        if !Enabled(at.s, e) then None
        else
          NextShape(p, at.s, e);
          Some(Point(Next(p, at.s, e), Seen(p, l, k, at.s, at.h, e)))
  }

  /** The history does not influence the run. */
  lemma {:induction false} RunIsSteps<C, H>(p: Protocol<C, H>, l: nat, k: nat, s0: Sys<C>, es: seq<Event<C, H>>)
    requires Start(s0) && l < LISTS
    ensures match Run(p, l, k, s0, es)
            case None => Steps(p, s0, es).None?
            case Some(at) => Steps(p, s0, es) == Some(at.s)
  {
    if es != [] {
      RunIsSteps(p, l, k, s0, es[..|es| - 1]);
    }
  }
}
