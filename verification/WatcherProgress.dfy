/** The watcher makes progress: rounds end, and trigger checks happen, from every state of every run. */
module WatcherProgress {
  import opened Words
  import opened Rules
  import opened RulesLists
  import opened Watchers
  import opened WatcherTheorems
  import opened RoundSteps

  /** At most so many of the watcher's steps are left before the triggers are decided on. */
  function Distance<C>(s: Sys<C>): int {
    var n := |s.threads|;
    match s.pc
    case Idle => 3 + 7 * n
    case Compare(i) => 2 + 7 * (n - i)
    case Copy(i, l) => 2 + 7 * (n - i) - 1 - l
    case Merge(i, l) => 2 + 7 * (n - i) - 4 - l
    case CalcDelta => 2
    case Snapshot => 1
    case _ => 0
  }

  lemma GetsCloser<C, H>(p: Protocol<C, H>, s: Sys<C>, now: real, walls: Walls)
    requires Shape(s) && Enabled<C, H>(s, Work(now, walls)) && !s.pc.Decide?
    requires s.pc.Merge? ==> |s.master[s.pc.l].rules| == |s.threads[s.pc.i][s.pc.l].rules|
    ensures 0 <= Distance(WorkNext(p, s, now, walls)) < Distance(s)
    ensures WorkNext(p, s, now, walls).seen == s.seen && WorkNext(p, s, now, walls).change == s.change
  {
  }

  /** Left alone, the watcher reaches its next decision. */
  lemma {:induction false} ReachesDecide<C(!new), H>(
      p: Protocol<C, H>, s0: Sys<C>, es: seq<Event<C, H>>, s: Sys<C>) returns (more: seq<Event<C, H>>, t: Sys<C>)
    requires Reflexive(p) && Start(s0) && Steps(p, s0, es) == Some(s)
    ensures Reaches(p, s, more, t) && Steps(p, s0, es + more) == Some(t)
    ensures t.pc.Decide? && t.seen == s.seen && t.change == s.change
    decreases Distance(s)
  {
    if s.pc.Decide? {
      more, t := [], s;
      assert es + more == es;
    } else {
      var e: Event<C, H> := Work(s.clock + 1.0, Steady(s.wall));
      WatcherNeverStuck(p, s0, es, s, s.clock + 1.0, Steady(s.wall));
      SyncIsSound(p, s0, es, s);
      GetsCloser(p, s, s.clock + 1.0, Steady(s.wall));
      OneMore(p, s0, es, e, s);
      OneStep(p, s, e);
      var u := Next(p, s, e);
      more, t := ReachesDecide(p, s0, es + [e], u);
      ReachesOn(p, s, [e], u, more, t);
      more := [e] + more;
      StepsOn(p, s0, es, more, s);
    }
  }

  /**
    From every state of every run, reloads included, the watcher left alone reaches a decision in
    which it does check the triggers: at once if the rules are the ones of the last round, else in
    the round after.
   */
  lemma ChecksAreReached<C(!new), H>(
      p: Protocol<C, H>, s0: Sys<C>, es: seq<Event<C, H>>, s: Sys<C>) returns (more: seq<Event<C, H>>, t: Sys<C>)
    requires Reflexive(p) && Start(s0) && Steps(p, s0, es) == Some(s)
    ensures Reaches(p, s, more, t) && t.pc.Decide? && t.seen == t.change
  {
    more, t := ReachesDecide(p, s0, es, s);
    if t.seen != t.change {
      var e: Event<C, H> := Work(t.clock, Steady(t.wall));
      OneStep(p, t, e);
      var u := Next(p, t, e);
      ReachesOn(p, s, more, t, [e], u);
      OneMore(p, s0, es + more, e, t);
      var rest, v := ReachesDecide(p, s0, es + more + [e], u);
      ReachesOn(p, s, more + [e], u, rest, v);
      more, t := more + [e] + rest, v;
    }
  }
}
