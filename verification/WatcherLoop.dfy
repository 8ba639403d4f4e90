/** The watcher's loop as the program runs it, on the objects: each round is a run of the protocol. */
module WatcherLoop {
  import opened Words
  import opened Rules
  import opened RulesLists
  import opened Watchers
  import opened Collections
  import opened Queues
  import opened RoundSteps

  lemma SameSizesNeverMismatch<C>(a: Coll<C>, b: Coll<C>)
    requires |a| == |b| == LISTS
    ensures SameSizes(a, b) <==> Mismatch(a, b) == LISTS
  {
    assert SameSizes(a, b) ==>
        |a[0].rules| == |b[0].rules| && |a[1].rules| == |b[1].rules| && |a[2].rules| == |b[2].rules|;
  }

  class Watcher<C, H> {
    const collect: seq<RulesCollection<C, H>>
    const main: RulesCollection<C, H>
    const prev: RulesCollection<C, H>
    const tasks: TsQueue<Job>
    var lastChange: int

    /** The collections are separate, and of one protocol family. */
    ghost predicate Valid() {
      && main.Valid() && prev.Valid() && main.Parts() !! prev.Parts() && prev.tcp.proto == main.tcp.proto
      && (forall i {:trigger collect[i]} :: 0 <= i < |collect| ==>
            && collect[i].Valid() && collect[i].tcp.proto == main.tcp.proto
            && collect[i].Parts() !! main.Parts() && collect[i].Parts() !! prev.Parts()
            && collect[i].Parts() !! {this, tasks})
      && forall i, j {:trigger collect[i], collect[j]} :: 0 <= i < j < |collect| ==>
           collect[i].Parts() !! collect[j].Parts()
    }

    ghost function ThreadParts(): set<object> {
      set i, o | 0 <= i < |collect| && o in collect[i].Parts() :: o
    }

    ghost function Thread(i: nat): (c: Coll<C>)
      requires i < |collect|
      reads ThreadParts()
      ensures |c| == LISTS
    {
      assert collect[i].tcp in collect[i].Parts() && collect[i].udp in collect[i].Parts()
          && collect[i].icmp in collect[i].Parts();
      collect[i].Lists()
    }

    ghost function Threads(): (ts: seq<Coll<C>>)
      reads ThreadParts()
      ensures |ts| == |collect|
      ensures forall i {:trigger ts[i]} :: 0 <= i < |ts| ==> ts[i] == collect[i].Lists() && |ts[i]| == LISTS
    {
      seq(|collect|, i requires 0 <= i < |collect| reads ThreadParts() => Thread(i))
    }

    /** The objects as a state of the protocol. */
    ghost function System(pc: Pc, clock: real, wall: int): (s: Sys<C>)
      reads this, ThreadParts(), main.Parts(), prev.Parts()
      ensures |s.master| == |s.prev| == LISTS && |s.threads| == |collect|
      ensures forall i {:trigger s.threads[i]} :: 0 <= i < |s.threads| ==> |s.threads[i]| == LISTS
    {
      Sys(main.Lists(), main.lastChange, Threads(), prev.Lists(), lastChange, pc, clock, wall)
    }

    /** Where the watcher is when `i` threads have been visited. */
    function Turn(i: nat): Pc {
      if i < |collect| then Compare(i) else CalcDelta
    }

    /** The snapshot starts as a copy of the master's rules. */
    constructor (collect: seq<RulesCollection<C, H>>, main: RulesCollection<C, H>, tasks: TsQueue<Job>, stamp: int)
      requires main.Valid()
      requires forall i {:trigger collect[i]} :: 0 <= i < |collect| ==>
                 && collect[i].Valid() && collect[i].tcp.proto == main.tcp.proto && collect[i].Parts() !! main.Parts()
      requires forall i, j {:trigger collect[i], collect[j]} :: 0 <= i < j < |collect| ==>
                 collect[i].Parts() !! collect[j].Parts()
      ensures Valid() && this.collect == collect && this.main == main && this.tasks == tasks
      ensures fresh(prev.Parts()) && prev.Lists() == main.Lists() && lastChange == 0
    {
      this.collect, this.main, this.tasks, lastChange := collect, main, tasks, 0;
      var copy := new RulesCollection(main.tcp.proto, 0.0, stamp);
      copy.Assign(main, stamp);
      prev := copy;
    }

    /** Compare, copy if stale, merge. The merge cannot fail here. */
    method VisitThread(i: nat, stamps: seq<real>, stamp: int)
      requires Valid() && i < |collect| && |stamps| == LISTS
      modifies main.tcp, main.udp, main.icmp, collect[i].Parts()
      ensures var c := Synced(main.tcp.proto, old(collect[i].Lists()), old(main.Lists()));
              main.Lists() == MergedColl(old(main.Lists()), c, stamps) && collect[i].Lists() == ZeroedColl(c)
      ensures Threads() == old(Threads())[i := collect[i].Lists()]
    {
      var c := collect[i];
      ghost var ts, synced := Threads(), Synced(main.tcp.proto, c.Lists(), main.Lists());
      SameSizesNeverMismatch(main.Lists(), synced);
      var differs := c.Differs(main);
      if differs {
        c.Assign(main, stamp);
      }
      var r := main.MergeFrom(c, stamps);
      assert r.Ok?;
      forall j | 0 <= j < |collect| && j != i
        ensures collect[j].Lists() == ts[j]
      {
        assert collect[j].Parts() !! collect[i].Parts();
      }
    }

    method Visit(i: nat, stamps: seq<real>, stamp: int, ghost clock: real, ghost wall: int)
      requires Valid() && i < |collect| && |stamps| == LISTS
      modifies main.tcp, main.udp, main.icmp, collect[i].Parts()
      ensures tasks.items == old(tasks.items)
      ensures System(Turn(i + 1), stamps[2], wall) ==
              Visited(main.tcp.proto, old(System(Turn(i), clock, wall)), i, stamps)
    {
      VisitThread(i, stamps, stamp);
    }

    /** The first half of a round: every thread in turn. */
    method VisitAll(stamps: seq<seq<real>>, stamp: int, ghost clock: real, ghost wall: int)
      requires Valid() && |stamps| == |collect| > 0 && forall i :: 0 <= i < |stamps| ==> |stamps[i]| == LISTS
      modifies main.tcp, main.udp, main.icmp, ThreadParts()
      ensures tasks.items == old(tasks.items)
      ensures System(CalcDelta, stamps[|stamps| - 1][2], wall) ==
              VisitedTo(main.tcp.proto, old(System(Compare(0), clock, wall)), stamps, |stamps|)
    {
      ghost var p, s := main.tcp.proto, System(Compare(0), clock, wall);
      ghost var now, t := clock, s;
      for i := 0 to |collect|
        invariant tasks.items == old(tasks.items)
        invariant t == VisitedTo(p, s, stamps, i) && t == System(Turn(i), now, wall)
        invariant i > 0 ==> now == stamps[i - 1][2]
      {
        assert collect[i].Parts() <= ThreadParts();
        Visit(i, stamps[i], stamp, now, wall);
        now, t := stamps[i][2], Visited(p, t, i, stamps[i]);
      }
    }

    /** The rates of the second, and the counters and rules kept for the next. */
    method TakeRates(stamp: int)
      requires Valid() && forall l :: 0 <= l < LISTS ==> DeltaDefined(main.Lists()[l], prev.Lists()[l])
      modifies main.tcp, main.udp, main.icmp, prev.Parts()
      ensures main.Lists() == prev.Lists() == DeltaAll(old(main.Lists()), old(prev.Lists()))
      ensures Threads() == old(Threads())
      ensures lastChange == old(lastChange) && main.lastChange == old(main.lastChange)
      ensures tasks.items == old(tasks.items)
    {
      main.CalcDelta(prev);
      prev.Assign(main, stamp);
    }

    /** The triggers, unless the rules are new since the last round. */
    method Decide(walls: Walls)
      requires Valid() && |walls.at| == LISTS
      modifies this`lastChange, main.tcp, main.udp, main.icmp, tasks
      ensures old(lastChange) == main.lastChange ==>
                && main.Lists() == CheckAll(old(main.Lists()), walls.at)
                && tasks.items == old(tasks.items) + JobsOfAll(old(main.Lists()), walls.at)
      ensures old(lastChange) != main.lastChange ==>
                main.Lists() == old(main.Lists()) && tasks.items == old(tasks.items)
      ensures lastChange == main.lastChange == old(main.lastChange)
      ensures Threads() == old(Threads()) && prev.Lists() == old(prev.Lists())
    {
      if lastChange == main.lastChange {
        main.CheckTriggers(tasks, walls.at);
      } else {
        lastChange := main.lastChange;
      }
    }

    /** The second half of a round. */
    method Examine(stamp: int, walls: Walls, ghost clock: real, ghost wall: int)
      requires Valid() && |walls.at| == LISTS
      requires forall l :: 0 <= l < LISTS ==> DeltaDefined(main.Lists()[l], prev.Lists()[l])
      modifies this`lastChange, main.tcp, main.udp, main.icmp, prev.Parts(), tasks
      ensures System(Idle, clock, walls.upTo) == Examined(old(System(CalcDelta, clock, wall)), walls)
      ensures tasks.items == old(tasks.items)
                             + if old(lastChange) == main.lastChange then JobsOfAll(prev.Lists(), walls.at) else []
    {
      TakeRates(stamp);
      Decide(walls);
    }

    /**
      One round of the loop is a run of the protocol from an idle watcher to an idle watcher: `es`
      are its steps. `begin`, `stamps` and `walls` are the clock readings after the pause, of the
      merges, and of the trigger checks.
     */
    method Round(stamps: seq<seq<real>>, stamp: int, walls: Walls,
                 ghost begin: real, ghost clock: real, ghost wall: int)
      returns (ghost es: seq<Event<C, H>>)
      requires Valid() && |collect| > 0 && Readable(System(Idle, clock, wall), begin, stamps, walls)
      modifies this`lastChange, main.tcp, main.udp, main.icmp, prev.Parts(), ThreadParts(), tasks
      ensures Reaches(main.tcp.proto, old(System(Idle, clock, wall)), es,
                      System(Idle, stamps[|stamps| - 1][2], walls.upTo))
      ensures tasks.items == old(tasks.items)
                             + if old(lastChange) == main.lastChange then JobsOfAll(prev.Lists(), walls.at) else []
    {
      ghost var p, s, end := main.tcp.proto, System(Idle, clock, wall), stamps[|stamps| - 1][2];
      ghost var v := Halfway(p, s, begin, stamps);
      HalfwayDefined(p, s, begin, stamps, walls);
      es := RoundReaches(p, s, begin, stamps, walls);
      assert System(Compare(0), begin, wall) == s.(pc := Compare(0), clock := begin);
      VisitAll(stamps, stamp, begin, wall);
      assert System(CalcDelta, end, wall) == v;
      Examine(stamp, walls, end, wall);
    }

    /** A reload of the rules file, between rounds, is the reload of the protocol. */
    method Reload(
        loader: RulesFileLoader<C, H>, file: seq<seq<string>>, parse: (string, seq<string>) -> Result<Rule<C>>,
        now: real, stamp: int, ghost pc: Pc, ghost clock: real, ghost wall: int)
      requires Valid() && loader.collect == main
      modifies main.Parts()
      ensures System(pc, clock, wall) ==
              Landed(old(System(pc, clock, wall)),
                     [ValidLines(parse, "TCP", file), ValidLines(parse, "UDP", file), ValidLines(parse, "ICMP", file)],
                     stamp)
    {
      loader.ReloadConfig(Some(file), parse, now, stamp);
    }

    /** A command of the console, with its rule parsed, is an edit of the protocol. */
    method Command(l: nat, edit: ListEdit<C>, ghost pc: Pc, ghost clock: real, ghost wall: int)
      requires Valid() && l < LISTS
      modifies main.tcp, main.udp, main.icmp
      ensures System(pc, clock, wall) == Edited(old(System(pc, clock, wall)), l, edit)
    {
      main.Command(l, edit);
    }
  }
}
