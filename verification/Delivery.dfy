/**
  From firings to executed jobs: watcher, packets, reloads, the job queue and the task runner in
  one system, in any interleaving.
 */
module Deliveries {
  import opened Words
  import opened Rules
  import opened RulesLists
  import opened Watchers
  import opened Collections
  import opened Queues

  // ---- what a run pushes ----

  /** What one step of the protocol has to push, in order. */
  ghost function PushedBy<C, H>(s: Sys<C>, e: Event<C, H>): seq<Job>
    requires Shape(s) && Enabled(s, e)
  {
    if e.Work? && s.pc.Decide? && s.seen == s.change then JobsOfAll(s.master, e.walls.at) else []
  }

  /** The jobs of a run, in order. */
  ghost function Pushed<C, H>(p: Protocol<C, H>, s0: Sys<C>, es: seq<Event<C, H>>): seq<Job>
    requires Shape(s0) && Steps(p, s0, es).Some?
  {
    if es == [] then []
    else
      var front := es[..|es| - 1];
      Pushed(p, s0, front) + PushedBy(Steps(p, s0, front).value, es[|es| - 1])
  }

  // ---- the combined system ----

  /** A step of the protocol, the watcher pushing its next job, or the task runner taking one. */
  datatype Act<C, H> = Do(e: Event<C, H>) | Push | Pop

  /** `backlog`: the jobs of the current check that the watcher has not pushed yet. */
  datatype World<C> = World(s: Sys<C>, backlog: seq<Job>, d: Delivery<Job>)

  /** The watcher does nothing else, and no reload lands, until a check has pushed all its jobs. */
  ghost predicate MayAct<C, H>(w: World<C>, a: Act<C, H>) {
    match a
    case Do(e) => Shape(w.s) && Enabled(w.s, e) && (e.Arrive? || w.backlog == [])
    case Push => w.backlog != []
    case Pop => true
  }

  ghost function Acting<C, H>(p: Protocol<C, H>, w: World<C>, a: Act<C, H>): World<C>
    requires MayAct(w, a)
  {
    match a
    case Do(e) => World(Next(p, w.s, e), w.backlog + PushedBy(w.s, e), w.d)
    case Push => w.(backlog := w.backlog[1..], d := QueueNext(w.d, Produce(w.backlog[0])))
    case Pop => w.(d := QueueNext(w.d, Consume))
  }

  /** The world after some acts, from an empty queue; `None` if one of them was not possible. */
  ghost function Acted<C, H>(p: Protocol<C, H>, s0: Sys<C>, acts: seq<Act<C, H>>): Option<World<C>> {
    if acts == [] then Some(World(s0, [], Delivery([], [])))
    else
      match Acted(p, s0, acts[..|acts| - 1])
      case None => None
      case Some(w) => if MayAct(w, acts[|acts| - 1]) then Some(Acting(p, w, acts[|acts| - 1])) else None
  }

  function EventsOf<C, H>(acts: seq<Act<C, H>>): seq<Event<C, H>> {
    if acts == [] then []
    else
      var last := acts[|acts| - 1];
      EventsOf(acts[..|acts| - 1]) + if last.Do? then [last.e] else []
  }

  lemma PushedOneMore<C, H>(p: Protocol<C, H>, s0: Sys<C>, es: seq<Event<C, H>>, s: Sys<C>, e: Event<C, H>)
    requires Shape(s0) && Steps(p, s0, es) == Some(s) && Enabled(s, e)
    ensures Steps(p, s0, es + [e]) == Some(Next(p, s, e))
    ensures Pushed(p, s0, es + [e]) == Pushed(p, s0, es) + PushedBy(s, e)
  {
    assert (es + [e])[..|es|] == es;
  }

  /** Executed, waiting, and still to be pushed. */
  function AllJobs<C>(w: World<C>): seq<Job> {
    w.d.run + w.d.queue + w.backlog
  }

  lemma Regroup<T>(a: seq<T>, b: seq<T>, c: seq<T>, d: seq<T>)
    ensures a + b + (c + d) == a + b + c + d == a + (b + c) + d
  {
  }

  /** Only a step of the protocol adds jobs; pushing and taking move them along. */
  lemma JobsKept<C, H>(p: Protocol<C, H>, w: World<C>, a: Act<C, H>)
    requires MayAct(w, a)
    ensures AllJobs(Acting(p, w, a)) == AllJobs(w) + if a.Do? then PushedBy(w.s, a.e) else []
  {
    match a
    case Do(e) => Regroup(w.d.run, w.d.queue, w.backlog, PushedBy(w.s, e));
    case Push =>
      assert w.backlog == [w.backlog[0]] + w.backlog[1..];
      Regroup(w.d.run, w.d.queue, [w.backlog[0]], w.backlog[1..]);
    case Pop =>
      if w.d.queue != [] {
        assert w.d.queue == [w.d.queue[0]] + w.d.queue[1..];
        Regroup(w.d.run, [w.d.queue[0]], w.d.queue[1..], w.backlog);
      }
  }

  /**
    Delivery. However watcher, packets, reloads and task runner interleave: the jobs executed, the
    jobs waiting in the queue, and the jobs the watcher has still to push are together, in this
    order, the jobs of the run of the protocol.
   */
  lemma {:induction false} AlarmsAreDelivered<C, H>(p: Protocol<C, H>, s0: Sys<C>, acts: seq<Act<C, H>>)
    requires Shape(s0) && Acted(p, s0, acts).Some?
    ensures var w := Acted(p, s0, acts).value;
            Steps(p, s0, EventsOf(acts)) == Some(w.s) && AllJobs(w) == Pushed(p, s0, EventsOf(acts))
  {
    if acts != [] {
      var front, a := acts[..|acts| - 1], acts[|acts| - 1];
      AlarmsAreDelivered(p, s0, front);
      var w := Acted(p, s0, front).value;
      JobsKept(p, w, a);
      if a.Do? {
        PushedOneMore(p, s0, EventsOf(front), w.s, a.e);
      } else {
        assert EventsOf(acts) == EventsOf(front);
      }
    }
  }

  /** So each alarm is acted on at most once, in order, and none is lost on the way. */
  lemma ExecutedJobsAreAPrefix<C, H>(p: Protocol<C, H>, s0: Sys<C>, acts: seq<Act<C, H>>)
    requires Shape(s0) && Acted(p, s0, acts).Some?
    ensures var w := Acted(p, s0, acts).value;
            && Steps(p, s0, EventsOf(acts)) == Some(w.s)
            && w.d.run <= Pushed(p, s0, EventsOf(acts))
            && (w.backlog == [] && w.d.queue == [] ==> w.d.run == Pushed(p, s0, EventsOf(acts)))
  {
    AlarmsAreDelivered(p, s0, acts);
    var w := Acted(p, s0, acts).value;
    assert AllJobs(w)[..|w.d.run|] == w.d.run;
  }

  // ---- what the jobs of a run are ----

  /** The rules that fire at a check, in rule order. */
  function Fired<C>(rules: seq<Rule<C>>, clock: Clock): seq<nat> {
    if rules == [] then []
    else
      var last := |rules| - 1;
      Fired(rules[..last], clock) + if Triggered(rules[last], clock(last)) then [last] else []
  }

  /** The indices of `Fired` are exactly the rules that fire, in ascending order. */
  lemma {:induction false} FiredMeaning<C>(rules: seq<Rule<C>>, clock: Clock)
    ensures forall k: nat :: k in Fired(rules, clock) <==> k < |rules| && Triggered(rules[k], clock(k))
    ensures forall i, j :: 0 <= i < j < |Fired(rules, clock)| ==> Fired(rules, clock)[i] < Fired(rules, clock)[j]
  {
    if rules != [] {
      var last := |rules| - 1;
      var before := Fired(rules[..last], clock);
      FiredMeaning(rules[..last], clock);
      assert forall i :: 0 <= i < |before| ==> before[i] in before;
      forall k: nat
        ensures k in Fired(rules, clock) <==> k < |rules| && Triggered(rules[k], clock(k))
      {
        assert k in Fired(rules, clock) <==> k in before || (k == last && Triggered(rules[last], clock(last)));
      }
    }
  }

  /** A check of one list pushes one job for each rule that fires, in rule order. */
  lemma {:induction false} JobsAreFirings<C>(rules: seq<Rule<C>>, clock: Clock)
    ensures |JobsOf(rules, clock)| == |Fired(rules, clock)|
    ensures forall j {:trigger JobsOf(rules, clock)[j]} {:trigger Fired(rules, clock)[j]} ::
              0 <= j < |Fired(rules, clock)| ==>
                Fired(rules, clock)[j] < |rules| && JobsOf(rules, clock)[j] == JobOf(rules[Fired(rules, clock)[j]])
  {
    if rules != [] {
      JobsAreFirings(rules[..|rules| - 1], clock);
    }
  }

  /** Rule `k` of list `l` fires at event `at` of a run. */
  datatype Firing = Firing(at: nat, l: nat, k: nat)

  predicate Before(f: Firing, g: Firing) {
    f.at < g.at || (f.at == g.at && (f.l < g.l || (f.l == g.l && f.k < g.k)))
  }

  ghost predicate IsFiring<C, H>(p: Protocol<C, H>, s0: Sys<C>, es: seq<Event<C, H>>, f: Firing)
    requires Shape(s0)
  {
    && f.at < |es| && Steps(p, s0, es[..f.at]).Some?
    && var s, e := Steps(p, s0, es[..f.at]).value, es[f.at];
       && e.Work? && s.pc.Decide? && s.seen == s.change && |e.walls.at| == LISTS
       && f.l < LISTS && Has(s.master, f.l, f.k)
       && Triggered(s.master[f.l].rules[f.k], e.walls.at[f.l](f.k))
  }

  function Tagged(at: nat, l: nat, ks: seq<nat>): (fs: seq<Firing>)
    ensures |fs| == |ks| && forall j {:trigger fs[j]} :: 0 <= j < |ks| ==> fs[j] == Firing(at, l, ks[j])
  {
    seq(|ks|, j requires 0 <= j < |ks| => Firing(at, l, ks[j]))
  }

  ghost function FiredAt<C>(at: nat, c: Coll<C>, clocks: seq<Clock>): seq<Firing>
    requires |c| == |clocks| == LISTS
  {
    Tagged(at, 0, Fired(c[0].rules, clocks[0])) + Tagged(at, 1, Fired(c[1].rules, clocks[1]))
    + Tagged(at, 2, Fired(c[2].rules, clocks[2]))
  }

  ghost function FiredBy<C, H>(at: nat, s: Sys<C>, e: Event<C, H>): seq<Firing>
    requires Shape(s) && Enabled(s, e)
  {
    if e.Work? && s.pc.Decide? && s.seen == s.change then FiredAt(at, s.master, e.walls.at) else []
  }

  /** All firings of a run. */
  ghost function Firings<C, H>(p: Protocol<C, H>, s0: Sys<C>, es: seq<Event<C, H>>): seq<Firing>
    requires Shape(s0) && Steps(p, s0, es).Some?
  {
    if es == [] then []
    else
      var front := es[..|es| - 1];
      Firings(p, s0, front) + FiredBy(|front|, Steps(p, s0, front).value, es[|es| - 1])
  }

  lemma TaggedHas(at: nat, l: nat, ks: seq<nat>, f: Firing)
    ensures f in Tagged(at, l, ks) <==> f.at == at && f.l == l && f.k in ks
  {
    if f.k in ks && f.at == at && f.l == l {
      var j :| 0 <= j < |ks| && ks[j] == f.k;
      assert Tagged(at, l, ks)[j] == f;
    }
  }

  /** The firings of one check, list by list. */
  lemma FiredAtMeaning<C>(at: nat, c: Coll<C>, clocks: seq<Clock>, f: Firing)
    requires |c| == |clocks| == LISTS
    ensures f in FiredAt(at, c, clocks) <==>
            f.at == at && f.l < LISTS && Has(c, f.l, f.k) && Triggered(c[f.l].rules[f.k], clocks[f.l](f.k))
  {
    forall l: nat | l < LISTS
      ensures f in Tagged(at, l, Fired(c[l].rules, clocks[l])) <==>
              f.at == at && f.l == l && f.k < |c[l].rules| && Triggered(c[l].rules[f.k], clocks[l](f.k))
    {
      FiredMeaning(c[l].rules, clocks[l]);
      TaggedHas(at, l, Fired(c[l].rules, clocks[l]), f);
    }
  }

  predicate Ascending(fs: seq<Firing>) {
    forall i, j {:trigger fs[i], fs[j]} :: 0 <= i < j < |fs| ==> Before(fs[i], fs[j])
  }

  predicate AllFrom(fs: seq<Firing>, low: Firing, high: Firing) {
    forall i {:trigger fs[i]} :: 0 <= i < |fs| ==> (fs[i] == low || Before(low, fs[i])) && Before(fs[i], high)
  }

  lemma AscendingJoins(a: seq<Firing>, b: seq<Firing>, low: Firing, mid: Firing, high: Firing)
    requires Ascending(a) && Ascending(b) && AllFrom(a, low, mid) && AllFrom(b, mid, high)
    requires (low == mid || Before(low, mid)) && (mid == high || Before(mid, high))
    ensures Ascending(a + b) && AllFrom(a + b, low, high)
  {
    var c := a + b;
    forall i, j {:trigger c[i], c[j]} | 0 <= i < j < |c|
      ensures Before(c[i], c[j])
    {
      if i < |a| && j >= |a| {
        assert c[i] == a[i] && c[j] == b[j - |a|];
      } else if i >= |a| {
        assert c[i] == b[i - |a|] && c[j] == b[j - |a|];
      }
    }
  }

  lemma TaggedAscend<C>(at: nat, l: nat, rules: seq<Rule<C>>, clock: Clock)
    ensures var fs := Tagged(at, l, Fired(rules, clock));
            Ascending(fs) && AllFrom(fs, Firing(at, l, 0), Firing(at, l + 1, 0))
  {
    FiredMeaning(rules, clock);
  }

  lemma FiredAtAscend<C>(at: nat, c: Coll<C>, clocks: seq<Clock>)
    requires |c| == |clocks| == LISTS
    ensures Ascending(FiredAt(at, c, clocks)) && AllFrom(FiredAt(at, c, clocks), Firing(at, 0, 0), Firing(at + 1, 0, 0))
  {
    TaggedAscend(at, 0, c[0].rules, clocks[0]);
    TaggedAscend(at, 1, c[1].rules, clocks[1]);
    TaggedAscend(at, 2, c[2].rules, clocks[2]);
    var x, y, z := Tagged(at, 0, Fired(c[0].rules, clocks[0])), Tagged(at, 1, Fired(c[1].rules, clocks[1])),
                   Tagged(at, 2, Fired(c[2].rules, clocks[2]));
    AscendingJoins(x, y, Firing(at, 0, 0), Firing(at, 1, 0), Firing(at, 2, 0));
    AscendingJoins(x + y, z, Firing(at, 0, 0), Firing(at, 2, 0), Firing(at, 3, 0));
  }

  lemma SameCount<C>(at: nat, c: Coll<C>, clocks: seq<Clock>)
    requires |c| == |clocks| == LISTS
    ensures |JobsOfAll(c, clocks)| == |FiredAt(at, c, clocks)|
  {
    JobsAreFirings(c[0].rules, clocks[0]);
    JobsAreFirings(c[1].rules, clocks[1]);
    JobsAreFirings(c[2].rules, clocks[2]);
  }

  lemma ElementOf<T>(a: seq<T>, b: seq<T>, c: seq<T>, j: nat)
    requires j < |a + b + c|
    ensures (a + b + c)[j] == if j < |a| then a[j] else if j < |a| + |b| then b[j - |a|] else c[j - |a| - |b|]
  {
  }

  /** One job for each firing of a check, its rule's own. */
  lemma JobsOfFired<C>(at: nat, c: Coll<C>, clocks: seq<Clock>, j: nat)
    requires |c| == |clocks| == LISTS && j < |FiredAt(at, c, clocks)|
    ensures |JobsOfAll(c, clocks)| == |FiredAt(at, c, clocks)|
    ensures var f := FiredAt(at, c, clocks)[j];
            f.l < LISTS && Has(c, f.l, f.k) && JobsOfAll(c, clocks)[j] == JobOf(c[f.l].rules[f.k])
  {
    SameCount(at, c, clocks);
    var ks := (l: nat) requires l < LISTS => Fired(c[l].rules, clocks[l]);
    var js := (l: nat) requires l < LISTS => JobsOf(c[l].rules, clocks[l]);
    JobsAreFirings(c[0].rules, clocks[0]);
    JobsAreFirings(c[1].rules, clocks[1]);
    JobsAreFirings(c[2].rules, clocks[2]);
    ElementOf(Tagged(at, 0, ks(0)), Tagged(at, 1, ks(1)), Tagged(at, 2, ks(2)), j);
    ElementOf(js(0), js(1), js(2), j);
  }

  // ---- over a run ----

  /** The firings of a run come in the order of checks, then lists, then rules, none twice. */
  lemma {:induction false} FiringsInOrder<C, H>(p: Protocol<C, H>, s0: Sys<C>, es: seq<Event<C, H>>)
    requires Shape(s0) && Steps(p, s0, es).Some?
    ensures Ascending(Firings(p, s0, es)) && AllFrom(Firings(p, s0, es), Firing(0, 0, 0), Firing(|es|, 0, 0))
  {
    if es != [] {
      var front, e := es[..|es| - 1], es[|es| - 1];
      var s := Steps(p, s0, front).value;
      FiringsInOrder(p, s0, front);
      if e.Work? && s.pc.Decide? && s.seen == s.change {
        FiredAtAscend(|front|, s.master, e.walls.at);
        AscendingJoins(Firings(p, s0, front), FiredAt(|front|, s.master, e.walls.at),
                     Firing(0, 0, 0), Firing(|front|, 0, 0), Firing(|es|, 0, 0));
      }
    }
  }

  /** Exactly the triggered rules of the checks of the run are among them. */
  lemma {:induction false} FiringsAreAll<C, H>(p: Protocol<C, H>, s0: Sys<C>, es: seq<Event<C, H>>, f: Firing)
    requires Shape(s0) && Steps(p, s0, es).Some?
    ensures f in Firings(p, s0, es) <==> IsFiring(p, s0, es, f)
  {
    if es != [] {
      var front, e := es[..|es| - 1], es[|es| - 1];
      var s := Steps(p, s0, front).value;
      FiringsAreAll(p, s0, front, f);
      if f.at < |front| {
        assert es[..f.at] == front[..f.at];
      }
      if e.Work? && s.pc.Decide? && s.seen == s.change {
        FiredAtMeaning(|front|, s.master, e.walls.at, f);
      }
    }
  }

  /** The job of a firing: of the rule as it stood before the check. */
  ghost function JobAt<C, H>(p: Protocol<C, H>, s0: Sys<C>, es: seq<Event<C, H>>, f: Firing): Job
    requires Shape(s0) && IsFiring(p, s0, es, f)
  {
    JobOf(Steps(p, s0, es[..f.at]).value.master[f.l].rules[f.k])
  }

  /** The jobs are those of the firings, one for one and in their order. */
  ghost predicate Matched<C, H>(p: Protocol<C, H>, s0: Sys<C>, es: seq<Event<C, H>>, fs: seq<Firing>, jobs: seq<Job>)
    requires Shape(s0)
  {
    && |fs| == |jobs|
    && forall i {:trigger MatchedAt(p, s0, es, fs[i], jobs[i])} ::
         0 <= i < |fs| ==> MatchedAt(p, s0, es, fs[i], jobs[i])
  }

  ghost predicate MatchedAt<C, H>(p: Protocol<C, H>, s0: Sys<C>, es: seq<Event<C, H>>, f: Firing, job: Job)
    requires Shape(s0)
  {
    IsFiring(p, s0, es, f) && job == JobAt(p, s0, es, f)
  }

  lemma MatchedLater<C, H>(
      p: Protocol<C, H>, s0: Sys<C>, front: seq<Event<C, H>>, e: Event<C, H>, fs: seq<Firing>, jobs: seq<Job>)
    requires Shape(s0) && Matched(p, s0, front, fs, jobs)
    ensures Matched(p, s0, front + [e], fs, jobs)
  {
    forall i | 0 <= i < |fs|
      ensures MatchedAt(p, s0, front + [e], fs[i], jobs[i])
    {
      assert MatchedAt(p, s0, front, fs[i], jobs[i]);
      assert (front + [e])[..fs[i].at] == front[..fs[i].at];
    }
  }

  lemma MatchedNow<C, H>(p: Protocol<C, H>, s0: Sys<C>, front: seq<Event<C, H>>, s: Sys<C>, e: Event<C, H>)
    requires Shape(s0) && Steps(p, s0, front) == Some(s) && Enabled(s, e)
    ensures Matched(p, s0, front + [e], FiredBy(|front|, s, e), PushedBy(s, e))
  {
    var fs, jobs := FiredBy(|front|, s, e), PushedBy(s, e);
    if e.Work? {
      SameCount(|front|, s.master, e.walls.at);
    }
    forall i | 0 <= i < |fs|
      ensures MatchedAt(p, s0, front + [e], fs[i], jobs[i])
    {
      assert (front + [e])[..|front|] == front;
      JobsOfFired(|front|, s.master, e.walls.at, i);
      FiredAtMeaning(|front|, s.master, e.walls.at, fs[i]);
    }
  }

  lemma MatchedJoin<C, H>(
      p: Protocol<C, H>, s0: Sys<C>, es: seq<Event<C, H>>,
      fs: seq<Firing>, jobs: seq<Job>, news: seq<Firing>, more: seq<Job>)
    requires Shape(s0) && Matched(p, s0, es, fs, jobs) && Matched(p, s0, es, news, more)
    ensures Matched(p, s0, es, fs + news, jobs + more)
  {
    var all, work := fs + news, jobs + more;
    forall i | 0 <= i < |all|
      ensures MatchedAt(p, s0, es, all[i], work[i])
    {
      if i < |fs| {
        assert MatchedAt(p, s0, es, fs[i], jobs[i]) && all[i] == fs[i] && work[i] == jobs[i];
      } else {
        var j := i - |fs|;
        assert MatchedAt(p, s0, es, news[j], more[j]) && all[i] == news[j] && work[i] == more[j];
      }
    }
  }

  /** The jobs of a run are those of its firings, one for one and in their order. */
  lemma {:induction false} PushedAreFirings<C, H>(p: Protocol<C, H>, s0: Sys<C>, es: seq<Event<C, H>>)
    requires Shape(s0) && Steps(p, s0, es).Some?
    ensures Matched(p, s0, es, Firings(p, s0, es), Pushed(p, s0, es))
  {
    if es != [] {
      var front, e := es[..|es| - 1], es[|es| - 1];
      var s := Steps(p, s0, front).value;
      assert es == front + [e];
      PushedAreFirings(p, s0, front);
      MatchedLater(p, s0, front, e, Firings(p, s0, front), Pushed(p, s0, front));
      MatchedNow(p, s0, front, s, e);
      MatchedJoin(p, s0, es, Firings(p, s0, front), Pushed(p, s0, front), FiredBy(|front|, s, e), PushedBy(s, e));
    }
  }
}
