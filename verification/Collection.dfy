/** `RulesCollection`, its operators, the dispatch of frames to its lists, and the file loader. */
module Collections {
  import opened Words
  import opened Rules
  import opened RulesLists
  import opened Watchers
  import opened Queues

  /** The lists in the order TCP, UDP, ICMP; a frame belongs to one of them or to none. */
  datatype Frame<H> = Foreign | Ip(l: nat, pkt: Packet<H>)

  predicate Known<H>(f: Frame<H>) {
    f.Ip? ==> f.l < LISTS
  }

  ghost predicate FrameHits<C, H>(p: Protocol<C, H>, c: Coll<C>, f: Frame<H>)
    requires |c| == LISTS && Known(f)
  {
    f.Ip? && Hits(p, c[f.l].rules, f.pkt)
  }

  ghost function FrameCredited<C, H>(p: Protocol<C, H>, c: Coll<C>, f: Frame<H>): (d: Coll<C>)
    requires |c| == LISTS && Known(f)
    ensures |d| == |c|
  {
    if f.Foreign? then c else c[f.l := c[f.l].(rules := Credited(p, c[f.l].rules, f.pkt))]
  }

  /** A frame is counted in the list of its protocol and in no other; foreign frames are passed over. */
  lemma FrameMeaning<C, H>(p: Protocol<C, H>, c: Coll<C>, f: Frame<H>, l: nat)
    requires |c| == LISTS && Known(f) && l < LISTS
    ensures FrameCredited(p, c, f)[l].rules ==
            if f.Ip? && f.l == l then Credited(p, c[l].rules, f.pkt) else c[l].rules
    ensures FrameCredited(p, c, f)[l].updated == c[l].updated
    ensures f.Ip? ==> (FrameHits(p, c, f) <==> Hits(p, c[f.l].rules, f.pkt))
    ensures f.Foreign? ==> !FrameHits(p, c, f)
  {
  }

  /** The first list on which two collections differ in length, or `LISTS`. */
  function Mismatch<C>(a: Coll<C>, b: Coll<C>): nat
    requires |a| == |b| == LISTS
  {
    if |a[0].rules| != |b[0].rules| then 0
    else if |a[1].rules| != |b[1].rules| then 1
    else if |a[2].rules| != |b[2].rules| then 2
    else LISTS
  }

  /** List `l` of the receiver after a merge that stops at the first mismatch. */
  ghost function MergedList<C>(a: Coll<C>, b: Coll<C>, stamps: seq<real>, l: nat): ListState<C>
    requires |a| == |b| == |stamps| == LISTS && l < LISTS
  {
    if l < Mismatch(a, b) then ListState(Merged(a[l].rules, b[l].rules), stamps[l])
    else if l == Mismatch(a, b) then a[l].(updated := stamps[l])
    else a[l]
  }

  ghost function GivenList<C>(a: Coll<C>, b: Coll<C>, l: nat): ListState<C>
    requires |a| == |b| == LISTS && l < LISTS
  {
    if l < Mismatch(a, b) then b[l].(rules := Zeroed(b[l].rules)) else b[l]
  }

  /** Lists merge in order, each only if it and all before it have equal lengths on both sides. */
  lemma MergeStops<C>(a: Coll<C>, b: Coll<C>, stamps: seq<real>, l: nat)
    requires |a| == |b| == |stamps| == LISTS && l < LISTS
    ensures (forall j :: 0 <= j <= l ==> |a[j].rules| == |b[j].rules|) ==>
              && MergedList(a, b, stamps, l) == ListState(Merged(a[l].rules, b[l].rules), stamps[l])
              && GivenList(a, b, l) == ListState(Zeroed(b[l].rules), b[l].updated)
    ensures !(forall j :: 0 <= j <= l ==> |a[j].rules| == |b[j].rules|) ==>
              && MergedList(a, b, stamps, l).rules == a[l].rules && GivenList(a, b, l) == b[l]
              && ((exists j :: 0 <= j < l && |a[j].rules| != |b[j].rules|) ==> MergedList(a, b, stamps, l) == a[l])
    ensures Mismatch(a, b) == LISTS <==> forall j :: 0 <= j < LISTS ==> |a[j].rules| == |b[j].rules|
  {
  }

  ghost function JobsOfAll<C>(c: Coll<C>, clocks: seq<Clock>): seq<Job>
    requires |c| == |clocks| == LISTS
  {
    JobsOf(c[0].rules, clocks[0]) + JobsOf(c[1].rules, clocks[1]) + JobsOf(c[2].rules, clocks[2])
  }

  lemma JobsRegroup<C>(was: seq<Job>, c: Coll<C>, clocks: seq<Clock>)
    requires |c| == |clocks| == LISTS
    ensures was + JobsOf(c[0].rules, clocks[0]) + JobsOf(c[1].rules, clocks[1]) + JobsOf(c[2].rules, clocks[2])
            == was + JobsOfAll(c, clocks)
  {
  }

  const KINDS := ["TCP", "UDP", "ICMP"]

  /** A line adds a rule of `kind`: more than one token, the kind first, and a rule that parses. */
  predicate Adds<C>(parse: (string, seq<string>) -> Result<Rule<C>>, kind: string, line: seq<string>) {
    |line| > 1 && line[0] == kind && parse(kind, line[1..]).Ok?
  }

  function Added<C>(parse: (string, seq<string>) -> Result<Rule<C>>, kind: string, line: seq<string>): seq<Rule<C>> {
    if Adds(parse, kind, line) then [parse(kind, line[1..]).value] else []
  }

  /** The valid lines of `kind`, in file order. */
  function ValidLines<C>(
      parse: (string, seq<string>) -> Result<Rule<C>>, kind: string, lines: seq<seq<string>>): seq<Rule<C>>
  {
    if lines == [] then []
    else
      var before, line := ValidLines(parse, kind, lines[..|lines| - 1]), lines[|lines| - 1];
      before + Added(parse, kind, line)
  }

  ghost predicate Rising(ns: seq<nat>) {
    forall i, j :: 0 <= i < j < |ns| ==> ns[i] < ns[j]
  }

  /** The lines that add a rule, one by one. */
  lemma {:induction false} AddingLines<C>(
      parse: (string, seq<string>) -> Result<Rule<C>>, kind: string, lines: seq<seq<string>>)
    returns (ns: seq<nat>)
    ensures |ns| == |ValidLines(parse, kind, lines)| && Rising(ns)
    ensures forall n: nat {:trigger n in ns} :: n in ns <==> n < |lines| && Adds(parse, kind, lines[n])
    ensures forall i {:trigger ns[i]} :: 0 <= i < |ns| ==>
              ns[i] < |lines| && Added(parse, kind, lines[ns[i]]) == [ValidLines(parse, kind, lines)[i]]
  {
    if lines == [] {
      ns := [];
    } else {
      var last := |lines| - 1;
      var before := AddingLines(parse, kind, lines[..last]);
      assert forall i :: 0 <= i < |before| ==> before[i] < last;
      if Adds(parse, kind, lines[last]) {
        ns := before + [last];
      } else {
        ns := before;
        assert ValidLines(parse, kind, lines) == ValidLines(parse, kind, lines[..last]);
      }
      forall n: nat
        ensures n in ns <==> n < |lines| && Adds(parse, kind, lines[n])
      {
        assert n in before <==> n < last && Adds(parse, kind, lines[..last][n]);
      }
    }
  }

  /**
    Which rule comes from which line: the rules are those of the lines `ns`, in file order, and
    these are all lines of more than one token whose first is the kind and whose others parse.
   */
  lemma ValidLinesMean<C>(
      parse: (string, seq<string>) -> Result<Rule<C>>, kind: string, lines: seq<seq<string>>)
    returns (ns: seq<nat>)
    ensures |ns| == |ValidLines(parse, kind, lines)| && forall i, j :: 0 <= i < j < |ns| ==> ns[i] < ns[j]
    ensures forall n: nat {:trigger n in ns} :: n in ns <==>
              n < |lines| && |lines[n]| > 1 && lines[n][0] == kind && parse(kind, lines[n][1..]).Ok?
    ensures forall i {:trigger ns[i]} :: 0 <= i < |ns| ==>
              ns[i] < |lines| && |lines[ns[i]]| > 1
              && parse(kind, lines[ns[i]][1..]) == Ok(ValidLines(parse, kind, lines)[i])
  {
    ns := AddingLines(parse, kind, lines);
    forall i | 0 <= i < |ns|
      ensures Adds(parse, kind, lines[ns[i]])
      ensures parse(kind, lines[ns[i]][1..]) == Ok(ValidLines(parse, kind, lines)[i])
    {
      assert ns[i] in ns;
      assert Added(parse, kind, lines[ns[i]])[0] == ValidLines(parse, kind, lines)[i];
    }
  }

  class RulesCollection<C, H> {
    const tcp: RulesList<C, H>
    const udp: RulesList<C, H>
    const icmp: RulesList<C, H>
    var lastChange: int

    /** Three separate lists of one protocol family. */
    ghost predicate Valid() {
      tcp != udp && tcp != icmp && udp != icmp && tcp.proto == udp.proto == icmp.proto
    }

    ghost function Parts(): set<object> {
      {this, tcp, udp, icmp}
    }

    function Lists(): Coll<C>
      reads tcp, udp, icmp
    {
      [tcp.State(), udp.State(), icmp.State()]
    }

    constructor (proto: Protocol<C, H>, now: real, stamp: int)
      ensures Valid() && fresh(Parts()) && tcp.proto == proto && lastChange == stamp
      ensures Lists() == [ListState([], now), ListState([], now), ListState([], now)]
    {
      tcp := new RulesList(proto, now);
      udp := new RulesList(proto, now);
      icmp := new RulesList(proto, now);
      lastChange := stamp;
    }

    method Differs(other: RulesCollection<C, H>) returns (differs: bool)
      requires Valid() && other.Valid() && tcp.proto == other.tcp.proto
      ensures differs <==> !SameColl(tcp.proto, Lists(), other.Lists())
    {
      var same := tcp.Equals(other.tcp);
      if same {
        same := udp.Equals(other.udp);
      }
      if same {
        same := icmp.Equals(other.icmp);
      }
      var a, b := Lists(), other.Lists();
      assert a[0] == tcp.State() && a[1] == udp.State() && a[2] == icmp.State();
      assert b[0] == other.tcp.State() && b[1] == other.udp.State() && b[2] == other.icmp.State();
      differs := !same;
    }

    /** A collection assigned to itself stays as it is, change stamp included. */
    method Assign(other: RulesCollection<C, H>, stamp: int)
      requires Valid() && other.Valid() && (this == other || Parts() !! other.Parts())
      modifies Parts()
      ensures Lists() == old(other.Lists()) && lastChange == if this == other then old(lastChange) else stamp
    {
      if this != other {
        tcp.Assign(other.tcp);
        udp.Assign(other.udp);
        icmp.Assign(other.icmp);
        lastChange := stamp;
      }
    }

    method MergeFrom(other: RulesCollection<C, H>, stamps: seq<real>) returns (r: Result<()>)
      requires Valid() && other.Valid() && (this == other || Parts() !! other.Parts()) && |stamps| == LISTS
      modifies tcp, udp, icmp, other.tcp, other.udp, other.icmp
      ensures r.Ok? <==> old(Mismatch(Lists(), other.Lists())) == LISTS
      ensures this == other ==> Lists() == old(Lists())
      ensures this != other ==>
                forall l :: 0 <= l < LISTS ==> Lists()[l] == MergedList(old(Lists()), old(other.Lists()), stamps, l)
      ensures this != other ==>
                forall l :: 0 <= l < LISTS ==> other.Lists()[l] == GivenList(old(Lists()), old(other.Lists()), l)
    {
      if this == other {
        return Ok(());
      }
      r := tcp.MergeFrom(other.tcp, stamps[0]);
      if r.Err? {
        return;
      }
      r := udp.MergeFrom(other.udp, stamps[1]);
      if r.Err? {
        return;
      }
      r := icmp.MergeFrom(other.icmp, stamps[2]);
    }

    method CalcDelta(old_: RulesCollection<C, H>)
      requires Valid() && old_.Valid() && (this == old_ || Parts() !! old_.Parts())
      requires this != old_ ==> forall l :: 0 <= l < LISTS ==> DeltaDefined(Lists()[l], old_.Lists()[l])
      modifies tcp, udp, icmp
      ensures Lists() == if this == old_ then old(Lists()) else DeltaAll(old(Lists()), old(old_.Lists()))
    {
      if this == old_ {
        return;
      }
      assert DeltaDefined(Lists()[0], old_.Lists()[0]) && DeltaDefined(Lists()[1], old_.Lists()[1])
          && DeltaDefined(Lists()[2], old_.Lists()[2]);
      tcp.CalcDelta(old_.tcp);
      udp.CalcDelta(old_.udp);
      icmp.CalcDelta(old_.icmp);
    }

    method CheckTriggers(tasks: TsQueue<Job>, clocks: seq<Clock>)
      requires Valid() && |clocks| == LISTS
      modifies tcp, udp, icmp, tasks
      ensures Lists() == CheckAll(old(Lists()), clocks)
      ensures tasks.items == old(tasks.items) + old(JobsOfAll(Lists(), clocks))
    {
      ghost var c, was := Lists(), tasks.items;
      tcp.CheckTriggers(tasks, clocks[0]);
      ghost var first := JobsOf(c[0].rules, clocks[0]);
      assert tasks.items == was + first;
      udp.CheckTriggers(tasks, clocks[1]);
      ghost var second := JobsOf(c[1].rules, clocks[1]);
      assert tasks.items == was + first + second;
      icmp.CheckTriggers(tasks, clocks[2]);
      assert tasks.items == was + first + second + JobsOf(c[2].rules, clocks[2]);
      JobsRegroup(was, c, clocks);
    }

    /** `NetmapReceiver::check_packet`, on a decoded frame. */
    method CheckFrame(f: Frame<H>) returns (hit: bool)
      requires Valid() && Known(f)
      modifies tcp, udp, icmp
      ensures hit <==> FrameHits(tcp.proto, old(Lists()), f)
      ensures Lists() == FrameCredited(tcp.proto, old(Lists()), f)
    {
      if f.Foreign? {
        return false;
      }
      if f.l == 0 {
        hit := tcp.CheckList(f.pkt);
      } else if f.l == 1 {
        hit := udp.CheckList(f.pkt);
      } else {
        hit := icmp.CheckList(f.pkt);
      }
    }

    /** A command of the console, with its rule parsed, on the list it names. */
    method Command(l: nat, edit: ListEdit<C>)
      requires Valid() && l < LISTS
      modifies tcp, udp, icmp
      ensures Lists() == WithRules(old(Lists()), l, AfterEdit(old(Lists()[l].rules), edit))
    {
      var list := if l == 0 then tcp else if l == 1 then udp else icmp;
      match edit {
        case Add(r) => var done := list.AddRule(Ok(r));
        case Insert(num, r) => var done := list.InsertRule(num, Ok(r));
        case Del(num) => var done := list.DelRule(num);
      }
    }

    /** One line of a rules file: comments, unknown kinds and rules that do not parse are skipped. */
    method AddLine(line: seq<string>, parse: (string, seq<string>) -> Result<Rule<C>>)
      requires Valid()
      modifies tcp, udp, icmp
      ensures forall l :: 0 <= l < LISTS ==>
                Lists()[l] == old(Lists()[l]).(rules := old(Lists()[l].rules) + Added(parse, KINDS[l], line))
    {
      if |line| > 1 && line[0] != "" && line[0][0] != '#' {
        if line[0] == "TCP" {
          var r := tcp.AddRule(parse("TCP", line[1..]));
        } else if line[0] == "UDP" {
          var r := udp.AddRule(parse("UDP", line[1..]));
        } else if line[0] == "ICMP" {
          var r := icmp.AddRule(parse("ICMP", line[1..]));
        }
      }
    }

    /** All lines of a file in turn, into empty lists. */
    method AddLines(lines: seq<seq<string>>, parse: (string, seq<string>) -> Result<Rule<C>>)
      requires Valid() && forall l :: 0 <= l < LISTS ==> Lists()[l].rules == []
      modifies tcp, udp, icmp
      ensures forall l :: 0 <= l < LISTS ==>
                Lists()[l] == old(Lists())[l].(rules := ValidLines(parse, KINDS[l], lines))
    {
      ghost var empty := Lists();
      var n := 0;
      while n < |lines|
        invariant 0 <= n <= |lines|
        invariant forall l :: 0 <= l < LISTS ==>
                    Lists()[l] == empty[l].(rules := ValidLines(parse, KINDS[l], lines[..n]))
      {
        AddLine(lines[n], parse);
        assert lines[..n + 1][..n] == lines[..n];
        n := n + 1;
      }
      assert lines[..n] == lines;
    }

    method Clear()
      requires Valid()
      modifies tcp, udp, icmp
      ensures forall l :: 0 <= l < LISTS ==> Lists()[l] == old(Lists()[l]).(rules := [])
    {
      tcp.Clear();
      udp.Clear();
      icmp.Clear();
    }
  }

  // ---- reloading from a file ----

  class RulesFileLoader<C, H> {
    const collect: RulesCollection<C, H>

    constructor (collect: RulesCollection<C, H>)
      ensures this.collect == collect
    {
      this.collect := collect;
    }

    /**
      `file` holds the lines, split into tokens, or nothing if there is no such file. Lines that
      are comments, of an unknown kind, or fail to parse are skipped. `now` and `stamp` are the
      clock readings of the two collections' `last_change`.
     */
    method ReloadConfig(
        file: Option<seq<seq<string>>>, parse: (string, seq<string>) -> Result<Rule<C>>, now: real, stamp: int)
      requires collect.Valid()
      modifies collect.Parts()
      ensures file.None? ==> collect.Lists() == old(collect.Lists()) && collect.lastChange == old(collect.lastChange)
      ensures file.Some? ==>
                && collect.lastChange == stamp
                && forall l :: 0 <= l < LISTS ==>
                     collect.Lists()[l] == old(collect.Lists())[l].(rules := ValidLines(parse, KINDS[l], file.value))
      ensures file.Some? ==>
                && collect.tcp.rules == ValidLines(parse, "TCP", file.value)
                && collect.udp.rules == ValidLines(parse, "UDP", file.value)
                && collect.icmp.rules == ValidLines(parse, "ICMP", file.value)
    {
      if file.None? {
        return;
      }
      var buff := new RulesCollection(collect.tcp.proto, now, stamp);
      buff.Assign(collect, stamp);
      buff.Clear();
      buff.AddLines(file.value, parse);
      collect.Assign(buff, stamp);
      assert KINDS[0] == "TCP" && KINDS[1] == "UDP" && KINDS[2] == "ICMP";
      assert collect.tcp.State() == collect.Lists()[0] && collect.udp.State() == collect.Lists()[1]
          && collect.icmp.State() == collect.Lists()[2];
    }
  }
}
