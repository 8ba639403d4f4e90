/** The atomic steps of the watcher, run without interference, as larger units. */
module RoundSteps {
  import opened Words
  import opened Rules
  import opened RulesLists
  import opened Watchers

  ghost predicate AllWork<C, H>(es: seq<Event<C, H>>) {
    forall n {:trigger es[n]} :: 0 <= n < |es| ==> es[n].Work?
  }

  lemma OneMore<C, H>(p: Protocol<C, H>, s: Sys<C>, es: seq<Event<C, H>>, e: Event<C, H>, u: Sys<C>)
    requires Shape(s) && Steps(p, s, es) == Some(u) && Enabled(u, e)
    ensures Steps(p, s, es + [e]) == Some(Next(p, u, e))
  {
    assert (es + [e])[..|es|] == es;
  }

  lemma {:induction false} StepsOn<C, H>(
      p: Protocol<C, H>, s: Sys<C>, a: seq<Event<C, H>>, b: seq<Event<C, H>>, u: Sys<C>)
    requires Shape(s) && Steps(p, s, a) == Some(u)
    ensures Steps(p, s, a + b) == Steps(p, u, b)
  {
    if b == [] {
      assert a + b == a;
    } else {
      StepsOn(p, s, a, b[..|b| - 1], u);
      assert (a + b)[..|a + b| - 1] == a + b[..|b| - 1];
    }
  }

  /** The watcher's steps `es`, with nothing in between, lead from `s` to `t`. */
  ghost predicate Reaches<C, H>(p: Protocol<C, H>, s: Sys<C>, es: seq<Event<C, H>>, t: Sys<C>) {
    Shape(s) && AllWork(es) && Steps(p, s, es) == Some(t)
  }

  lemma ReachesOn<C, H>(
      p: Protocol<C, H>, s: Sys<C>, a: seq<Event<C, H>>, u: Sys<C>, b: seq<Event<C, H>>, t: Sys<C>)
    requires Reaches(p, s, a, u) && Reaches(p, u, b, t)
    ensures Reaches(p, s, a + b, t)
  {
    StepsOn(p, s, a, b, u);
  }

  lemma OneStep<C, H>(p: Protocol<C, H>, s: Sys<C>, e: Event<C, H>)
    requires Shape(s) && Enabled(s, e) && e.Work?
    ensures Reaches(p, s, [e], Next(p, s, e))
  {
    assert Steps(p, s, []) == Some(s);
    OneMore(p, s, [], e, s);
    assert [] + [e] == [e];
  }

  /**
    Packets pass by the steps that stand for three critical sections each: whether a packet comes
    before such a step or after it makes no difference, so it makes none in between either.
   */
  lemma PacketsPassBy<C, H>(p: Protocol<C, H>, s: Sys<C>, a: Event<C, H>, e: Event<C, H>)
    requires Shape(s) && Enabled(s, a) && Enabled(s, e) && a.Arrive? && e.Work?
    requires s.pc.Compare? || s.pc.CalcDelta? || s.pc.Snapshot? || s.pc.Decide?
    ensures Shape(Next(p, s, a)) && Shape(Next(p, s, e)) && Enabled(Next(p, s, a), e) && Enabled(Next(p, s, e), a)
    ensures Next(p, Next(p, s, a), e) == Next(p, Next(p, s, e), a)
  {
    NextShape(p, s, a);
    NextShape(p, s, e);
    if s.pc.Compare? {
      StillSame(p, s, a, s.pc.i);
    }
  }

  /** Counting does not change what a thread is compared by. */
  lemma StillSame<C, H>(p: Protocol<C, H>, s: Sys<C>, a: Event<C, H>, i: nat)
    requires Shape(s) && Enabled(s, a) && a.Arrive? && i < |s.threads|
    ensures SameColl(p, Next(p, s, a).threads[i], s.master) <==> SameColl(p, s.threads[i], s.master)
  {
    var t := Next(p, s, a).threads[i];
    forall l | 0 <= l < LISTS
      ensures SameRules(p, t[l].rules, s.master[l].rules) <==> SameRules(p, s.threads[i][l].rules, s.master[l].rules)
    {
      SameBySpec(p, t[l].rules, s.threads[i][l].rules, s.master[l].rules, s.master[l].rules);
    }
  }

  /** A wall clock that shows the same to everyone. */
  function Steady(wall: int): (w: Walls)
    ensures Forward(wall, w) && w.upTo == wall
  {
    var same := (k: nat) => wall;
    Walls(wall, [same, same, same])
  }

  // ---- one visit ----

  ghost predicate SameSizes<C>(a: Coll<C>, b: Coll<C>) {
    |a| == |b| && forall l {:trigger a[l]} {:trigger b[l]} :: 0 <= l < |a| ==> |a[l].rules| == |b[l].rules|
  }

  /** What a thread brings to its merge: its own lists, or the master's if it was stale. */
  ghost function Synced<C, H>(p: Protocol<C, H>, thread: Coll<C>, master: Coll<C>): (c: Coll<C>)
    ensures SameSizes(master, c)
  {
    if SameColl(p, thread, master) then thread else master
  }

  ghost function MergedColl<C>(a: Coll<C>, b: Coll<C>, stamps: seq<real>): (out: Coll<C>)
    requires SameSizes(a, b) && |stamps| == |a|
    ensures |out| == |a|
    ensures forall l {:trigger out[l]} :: 0 <= l < |a| ==>
              out[l] == ListState(Merged(a[l].rules, b[l].rules), stamps[l])
  {
    seq(|a|, l requires 0 <= l < |a| => ListState(Merged(a[l].rules, b[l].rules), stamps[l]))
  }

  ghost function ZeroedColl<C>(a: Coll<C>): (out: Coll<C>)
    ensures |out| == |a|
    ensures forall l {:trigger out[l]} :: 0 <= l < |a| ==> out[l] == a[l].(rules := Zeroed(a[l].rules))
  {
    seq(|a|, l requires 0 <= l < |a| => a[l].(rules := Zeroed(a[l].rules)))
  }

  function AfterVisit<C>(s: Sys<C>, i: nat): Pc {
    if i + 1 < |s.threads| then Compare(i + 1) else CalcDelta
  }

  /** Three merge steps, one for each protocol, at these clock readings. */
  lemma MergeSteps<C, H>(p: Protocol<C, H>, s: Sys<C>, i: nat, stamps: seq<real>) returns (es: seq<Event<C, H>>)
    requires Shape(s) && s.pc == Merge(i, 0) && SameSizes(s.master, s.threads[i])
    requires |stamps| == LISTS && s.clock <= stamps[0] <= stamps[1] <= stamps[2]
    ensures Reaches(p, s, es,
                    s.(master := MergedColl(s.master, s.threads[i], stamps),
                       threads := s.threads[i := ZeroedColl(s.threads[i])],
                       clock := stamps[2], pc := AfterVisit(s, i)))
  {
    var w := Steady(s.wall);
    var x, y, z: Event<C, H> := Work(stamps[0], w), Work(stamps[1], w), Work(stamps[2], w);
    OneStep(p, s, x);
    var a := Next(p, s, x);
    OneStep(p, a, y);
    var b := Next(p, a, y);
    OneStep(p, b, z);
    var c := Next(p, b, z);
    ReachesOn(p, s, [x], a, [y], b);
    ReachesOn(p, s, [x] + [y], b, [z], c);
    es := [x] + [y] + [z];
    assert c.master == MergedColl(s.master, s.threads[i], stamps);
    assert c.threads[i] == ZeroedColl(s.threads[i]);
    assert c.threads == s.threads[i := ZeroedColl(s.threads[i])];
  }

  /** Three copy steps leave the thread equal to the master. */
  lemma CopySteps<C, H>(p: Protocol<C, H>, s: Sys<C>, i: nat) returns (es: seq<Event<C, H>>)
    requires Shape(s) && s.pc == Copy(i, 0)
    ensures Reaches(p, s, es, s.(threads := s.threads[i := s.master], pc := Merge(i, 0)))
  {
    var e: Event<C, H> := Work(s.clock, Steady(s.wall));
    OneStep(p, s, e);
    var a := Next(p, s, e);
    OneStep(p, a, e);
    var b := Next(p, a, e);
    OneStep(p, b, e);
    var c := Next(p, b, e);
    ReachesOn(p, s, [e], a, [e], b);
    ReachesOn(p, s, [e] + [e], b, [e], c);
    es := [e] + [e] + [e];
    assert c.threads[i] == s.master;
    assert c.threads == s.threads[i := s.master];
  }

  /** From the comparison to the merges: one step if the thread is fresh, four if it is stale. */
  lemma SyncSteps<C, H>(p: Protocol<C, H>, s: Sys<C>, i: nat) returns (es: seq<Event<C, H>>)
    requires Shape(s) && s.pc == Compare(i)
    ensures Reaches(p, s, es, s.(threads := s.threads[i := Synced(p, s.threads[i], s.master)], pc := Merge(i, 0)))
  {
    var e: Event<C, H> := Work(s.clock, Steady(s.wall));
    OneStep(p, s, e);
    var a := Next(p, s, e);
    if SameColl(p, s.threads[i], s.master) {
      es := [e];
      assert s.threads[i := s.threads[i]] == s.threads;
    } else {
      var more := CopySteps(p, a, i);
      ReachesOn(p, s, [e], a, more, a.(threads := a.threads[i := a.master], pc := Merge(i, 0)));
      es := [e] + more;
    }
  }

  /** The visit to thread `i`, with the clock readings of its merges: compare, copy if stale, merge, zero. */
  ghost function Visited<C, H>(p: Protocol<C, H>, s: Sys<C>, i: nat, stamps: seq<real>): (t: Sys<C>)
    requires Shape(s) && i < |s.threads| && |stamps| == LISTS
    ensures Shape(t) && |t.threads| == |s.threads|
    ensures forall l {:trigger t.master[l]} :: 0 <= l < LISTS ==> t.master[l].updated == stamps[l]
  {
    var c := Synced(p, s.threads[i], s.master);
    s.(master := MergedColl(s.master, c, stamps), threads := s.threads[i := ZeroedColl(c)],
       clock := stamps[2], pc := AfterVisit(s, i))
  }

  /** Four atomic steps for a fresh thread, seven for a stale one, with nothing in between, are a visit. */
  lemma VisitSteps<C, H>(p: Protocol<C, H>, s: Sys<C>, i: nat, stamps: seq<real>) returns (es: seq<Event<C, H>>)
    requires Shape(s) && s.pc == Compare(i)
    requires |stamps| == LISTS && s.clock <= stamps[0] <= stamps[1] <= stamps[2]
    ensures Reaches(p, s, es, Visited(p, s, i, stamps))
  {
    var c := Synced(p, s.threads[i], s.master);
    var a := SyncSteps(p, s, i);
    var u := s.(threads := s.threads[i := c], pc := Merge(i, 0));
    var b := MergeSteps(p, u, i, stamps);
    assert s.threads[i := c][i := ZeroedColl(c)] == s.threads[i := ZeroedColl(c)];
    ReachesOn(p, s, a, u, b, Visited(p, s, i, stamps));
    es := a + b;
  }

  // ---- a whole round ----

  /** Three readings for each thread, none before `clock` or before the one ahead of it. */
  ghost predicate Climbing(clock: real, stamps: seq<seq<real>>) {
    && (forall i {:trigger stamps[i]} :: 0 <= i < |stamps| ==>
          |stamps[i]| == LISTS && stamps[i][0] <= stamps[i][1] <= stamps[i][2])
    && forall i {:trigger stamps[i]} :: 0 <= i < |stamps| ==>
         (if i == 0 then clock else stamps[i - 1][2]) <= stamps[i][0]
  }

  /** The first `n` visits of a round. */
  ghost function VisitedTo<C, H>(p: Protocol<C, H>, s: Sys<C>, stamps: seq<seq<real>>, n: nat): (t: Sys<C>)
    requires Shape(s) && n <= |stamps| == |s.threads| && forall i :: 0 <= i < |stamps| ==> |stamps[i]| == LISTS
    ensures Shape(t) && |t.threads| == |s.threads|
    ensures n > 0 ==> forall l {:trigger t.master[l]} :: 0 <= l < LISTS ==> t.master[l].updated == stamps[n - 1][l]
  {
    if n == 0 then s else Visited(p, VisitedTo(p, s, stamps, n - 1), n - 1, stamps[n - 1])
  }

  lemma {:induction false} VisitedKeeps<C, H>(p: Protocol<C, H>, s: Sys<C>, stamps: seq<seq<real>>, n: nat)
    requires Shape(s) && s.pc == Compare(0) && n <= |stamps| == |s.threads| && Climbing(s.clock, stamps)
    ensures var t := VisitedTo(p, s, stamps, n);
            && t.prev == s.prev && t.change == s.change && t.seen == s.seen && t.wall == s.wall
            && t.pc == (if n < |s.threads| then Compare(n) else CalcDelta)
            && t.clock == (if n == 0 then s.clock else stamps[n - 1][2]) >= s.clock
  {
    if n > 0 {
      VisitedKeeps(p, s, stamps, n - 1);
    }
  }

  lemma StampsAbove(clock: real, stamps: seq<seq<real>>, i: nat, l: nat)
    requires Climbing(clock, stamps) && i < |stamps| && l < LISTS
    ensures |stamps[i]| == LISTS && (i > 0 ==> |stamps[i - 1]| == LISTS)
    ensures (if i == 0 then clock else stamps[i - 1][2]) <= stamps[i][l]
  {
  }

  lemma VisitedStamp<C, H>(p: Protocol<C, H>, s: Sys<C>, stamps: seq<seq<real>>, n: nat, l: nat)
    requires Shape(s) && s.pc == Compare(0) && 0 < n <= |stamps| == |s.threads| && Climbing(s.clock, stamps)
    requires l < LISTS
    ensures VisitedTo(p, s, stamps, n).master[l].updated >= s.clock
  {
    VisitedKeeps(p, s, stamps, n - 1);
    StampsAbove(s.clock, stamps, n - 1, l);
  }

  lemma {:induction false} VisitsReach<C, H>(p: Protocol<C, H>, s: Sys<C>, stamps: seq<seq<real>>, n: nat)
    returns (es: seq<Event<C, H>>)
    requires Shape(s) && s.pc == Compare(0) && n <= |stamps| == |s.threads| && Climbing(s.clock, stamps)
    ensures Reaches(p, s, es, VisitedTo(p, s, stamps, n))
  {
    if n == 0 {
      es := [];
    } else {
      var before := VisitsReach(p, s, stamps, n - 1);
      VisitedKeeps(p, s, stamps, n - 1);
      var u := VisitedTo(p, s, stamps, n - 1);
      var more := VisitSteps(p, u, n - 1, stamps[n - 1]);
      ReachesOn(p, s, before, u, more, VisitedTo(p, s, stamps, n));
      es := before + more;
    }
  }

  // ---- behind the visits ----

  /** Rates and snapshot. */
  lemma RateSteps<C, H>(p: Protocol<C, H>, s: Sys<C>) returns (es: seq<Event<C, H>>)
    requires Shape(s) && s.pc.CalcDelta? && forall l :: 0 <= l < LISTS ==> DeltaDefined(s.master[l], s.prev[l])
    ensures var d := DeltaAll(s.master, s.prev); Reaches(p, s, es, s.(master := d, prev := d, pc := Decide))
  {
    var e: Event<C, H> := Work(s.clock, Steady(s.wall));
    OneStep(p, s, e);
    var u := Next(p, s, e);
    OneStep(p, u, e);
    ReachesOn(p, s, [e], u, [e], Next(p, u, e));
    es := [e] + [e];
  }

  /** Rates, snapshot, and the triggers unless the rules are new. */
  ghost function Examined<C>(s: Sys<C>, walls: Walls): Sys<C>
    requires |s.master| == |s.prev| == |walls.at|
    requires forall l :: 0 <= l < |s.master| ==> DeltaDefined(s.master[l], s.prev[l])
  {
    var d := DeltaAll(s.master, s.prev);
    s.(master := if s.seen == s.change then CheckAll(d, walls.at) else d,
       prev := d, seen := s.change, wall := walls.upTo, pc := Idle)
  }

  lemma ExaminedReach<C, H>(p: Protocol<C, H>, s: Sys<C>, walls: Walls) returns (es: seq<Event<C, H>>)
    requires Shape(s) && s.pc.CalcDelta? && Forward(s.wall, walls)
    requires forall l :: 0 <= l < LISTS ==> DeltaDefined(s.master[l], s.prev[l])
    ensures Reaches(p, s, es, Examined(s, walls))
  {
    var rates := RateSteps(p, s);
    var d := DeltaAll(s.master, s.prev);
    var u := s.(master := d, prev := d, pc := Decide);
    OneStep(p, u, Work(s.clock, walls));
    ReachesOn(p, s, rates, u, [Work(s.clock, walls)], Examined(s, walls));
    es := rates + [Work(s.clock, walls)];
  }

  ghost predicate Readable<C>(s: Sys<C>, begin: real, stamps: seq<seq<real>>, walls: Walls) {
    && Shape(s) && s.pc.Idle? && s.clock < begin && |stamps| == |s.threads| && Climbing(begin, stamps)
    && Forward(s.wall, walls) && forall l {:trigger s.prev[l]} :: 0 <= l < LISTS ==> s.prev[l].updated <= s.clock
  }

  /** After the visits of a round that begins at `begin`. */
  ghost function Halfway<C, H>(p: Protocol<C, H>, s: Sys<C>, begin: real, stamps: seq<seq<real>>): (v: Sys<C>)
    requires Shape(s) && |stamps| == |s.threads| && Climbing(begin, stamps)
    ensures Shape(v) && |v.threads| == |s.threads|
  {
    VisitedTo(p, s.(pc := Compare(0), clock := begin), stamps, |stamps|)
  }

  lemma HalfwayDefined<C, H>(p: Protocol<C, H>, s: Sys<C>, begin: real, stamps: seq<seq<real>>, walls: Walls)
    requires Readable(s, begin, stamps, walls)
    ensures var v := Halfway(p, s, begin, stamps);
            && v.pc.CalcDelta? && v.wall == s.wall && v.change == s.change && v.seen == s.seen
            && v.clock == stamps[|stamps| - 1][2]
            && forall l :: 0 <= l < LISTS ==> DeltaDefined(v.master[l], v.prev[l])
  {
    var u := s.(pc := Compare(0), clock := begin);
    VisitedKeeps(p, u, stamps, |stamps|);
    var v := Halfway(p, s, begin, stamps);
    forall l: nat | l < LISTS
      ensures DeltaDefined(v.master[l], v.prev[l])
    {
      VisitedStamp(p, u, stamps, |stamps|, l);
      assert s.prev[l].updated <= s.clock;
    }
  }

  /**
    A round without interference is a run of the protocol. The clock readings are of its start, of
    the merges, and of the trigger checks.
   */
  lemma RoundReaches<C, H>(p: Protocol<C, H>, s: Sys<C>, begin: real, stamps: seq<seq<real>>, walls: Walls)
    returns (es: seq<Event<C, H>>)
    requires Readable(s, begin, stamps, walls)
    ensures var v := Halfway(p, s, begin, stamps);
            (forall l :: 0 <= l < LISTS ==> DeltaDefined(v.master[l], v.prev[l]))
            && Reaches(p, s, es, Examined(v, walls))
  {
    HalfwayDefined(p, s, begin, stamps, walls);
    var e: Event<C, H> := Work(begin, Steady(s.wall));
    OneStep(p, s, e);
    var u, v := Next(p, s, e), Halfway(p, s, begin, stamps);
    var a := VisitsReach(p, u, stamps, |stamps|);
    var b := ExaminedReach(p, v, walls);
    ReachesOn(p, s, [e], u, a, v);
    ReachesOn(p, s, [e] + a, v, b, Examined(v, walls));
    es := [e] + a + b;
  }
}
