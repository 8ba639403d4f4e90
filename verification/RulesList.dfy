/**
  `RulesList`: the rules of one protocol, in order. Each method of the class is one critical
  section of the source; beside it stands the function on values that it computes, so that runs
  of several threads can be studied as sequences of atomic steps.
 */
module RulesLists {
  import opened Words
  import opened Tallies
  import opened Alarms
  import opened Rates
  import opened Rules
  import opened Queues

  /** The contents of a list: its rules, and when its counters last changed (milliseconds). */
  datatype ListState<C> = ListState(rules: seq<Rule<C>>, updated: real)

  // ---- one packet ----

  /** The rule matches and has no `--next`, so the walk ends here. */
  predicate Stops<C, H>(p: Protocol<C, H>, r: Rule<C>, pkt: Packet<H>) {
    Matches(p, r.spec, pkt) && !r.spec.next
  }

  ghost predicate Hits<C, H>(p: Protocol<C, H>, rules: seq<Rule<C>>, pkt: Packet<H>) {
    exists k :: 0 <= k < |rules| && Stops(p, rules[k], pkt)
  }

  /** The rules a packet is credited to: those that match, up to and including the first that stops. */
  ghost predicate Credits<C, H>(p: Protocol<C, H>, rules: seq<Rule<C>>, pkt: Packet<H>, k: nat)
    requires k < |rules|
  {
    Matches(p, rules[k].spec, pkt) && forall j :: 0 <= j < k ==> !Stops(p, rules[j], pkt)
  }

  function CreditRule<C, H>(r: Rule<C>, pkt: Packet<H>): Rule<C> {
    r.(tally := Credit(r.tally, HitOf(pkt)))
  }

  /** Rule `k` after the packet. */
  ghost function RuleAfter<C, H>(p: Protocol<C, H>, rules: seq<Rule<C>>, pkt: Packet<H>, k: nat): Rule<C>
    requires k < |rules|
  {
    if Credits(p, rules, pkt, k) then CreditRule(rules[k], pkt) else rules[k]
  }

  ghost function Credited<C, H>(p: Protocol<C, H>, rules: seq<Rule<C>>, pkt: Packet<H>): (out: seq<Rule<C>>)
    ensures |out| == |rules|
    ensures forall k {:trigger out[k]} :: 0 <= k < |rules| ==> out[k] == RuleAfter(p, rules, pkt, k)
  {
    seq(|rules|, k requires 0 <= k < |rules| => RuleAfter(p, rules, pkt, k))
  }

  /** Two ways the walk can end, and what it has computed by then. */
  lemma StopsHere<C, H>(p: Protocol<C, H>, before: seq<Rule<C>>, pkt: Packet<H>, i: nat, after: seq<Rule<C>>)
    requires i < |before| == |after| && Stops(p, before[i], pkt)
    requires forall j :: 0 <= j < i ==> !Stops(p, before[j], pkt)
    requires forall k :: 0 <= k < |before| ==>
               after[k] == if k <= i && Matches(p, before[k].spec, pkt) then CreditRule(before[k], pkt) else before[k]
    ensures after == Credited(p, before, pkt)
  {
  }

  lemma NeverStops<C, H>(p: Protocol<C, H>, before: seq<Rule<C>>, pkt: Packet<H>, after: seq<Rule<C>>)
    requires |before| == |after|
    requires forall j :: 0 <= j < |before| ==> !Stops(p, before[j], pkt)
    requires forall k :: 0 <= k < |before| ==>
               after[k] == if Matches(p, before[k].spec, pkt) then CreditRule(before[k], pkt) else before[k]
    ensures after == Credited(p, before, pkt)
  {
  }

  /**
    What a packet does to a rule it is credited to: one packet and its length more, on 64 bits, and
    one more for its destination, on 32 bits. Nothing else changes.
   */
  lemma CreditRuleMeaning<C, H>(r: Rule<C>, pkt: Packet<H>, d: u32)
    ensures var after := CreditRule(r, pkt);
            && after.spec == r.spec && after.pps == r.pps && after.bps == r.bps && after.memory == r.memory
            && after.tally.packets == (r.tally.packets + 1) % 0x1_0000_0000_0000_0000
            && after.tally.bytes == (r.tally.bytes + pkt.len) % 0x1_0000_0000_0000_0000
            && (d in after.tally.dst <==> d in r.tally.dst || d == pkt.dst)
            && At(after.tally.dst, d) == if d == pkt.dst then (At(r.tally.dst, d) + 1) % 0x1_0000_0000
                                         else At(r.tally.dst, d)
  {
  }

  /**
    The walk, rule by rule: a rule that does not match, or matches with `--next`, leaves the packet
    to the rules behind it; one that matches without `--next` keeps it to itself.
   */
  lemma WalkMeaning<C, H>(p: Protocol<C, H>, first: Rule<C>, tail: seq<Rule<C>>, pkt: Packet<H>)
    ensures Credited<C, H>(p, [], pkt) == [] && !Hits<C, H>(p, [], pkt)
    ensures !Matches(p, first.spec, pkt) ==>
              && Credited(p, [first] + tail, pkt) == [first] + Credited(p, tail, pkt)
              && (Hits(p, [first] + tail, pkt) <==> Hits(p, tail, pkt))
    ensures Matches(p, first.spec, pkt) && first.spec.next ==>
              && Credited(p, [first] + tail, pkt) == [CreditRule(first, pkt)] + Credited(p, tail, pkt)
              && (Hits(p, [first] + tail, pkt) <==> Hits(p, tail, pkt))
    ensures Matches(p, first.spec, pkt) && !first.spec.next ==>
              Credited(p, [first] + tail, pkt) == [CreditRule(first, pkt)] + tail && Hits(p, [first] + tail, pkt)
  {
    HitsBehind(p, first, tail, pkt);
    CreditedBehind(p, first, tail, pkt);
  }

  lemma HitsBehind<C, H>(p: Protocol<C, H>, first: Rule<C>, tail: seq<Rule<C>>, pkt: Packet<H>)
    ensures Hits(p, [first] + tail, pkt) <==> Stops(p, first, pkt) || Hits(p, tail, pkt)
  {
    var all := [first] + tail;
    if Hits(p, tail, pkt) {
      var k :| 0 <= k < |tail| && Stops(p, tail[k], pkt);
      assert Stops(p, all[k + 1], pkt);
    }
    if Hits(p, all, pkt) && !Stops(p, first, pkt) {
      var k :| 0 <= k < |all| && Stops(p, all[k], pkt);
      assert Stops(p, tail[k - 1], pkt);
    }
    if Stops(p, first, pkt) {
      assert Stops(p, all[0], pkt);
    }
  }

  lemma CreditedBehind<C, H>(p: Protocol<C, H>, first: Rule<C>, tail: seq<Rule<C>>, pkt: Packet<H>)
    ensures var own := if Matches(p, first.spec, pkt) then CreditRule(first, pkt) else first;
            Credited(p, [first] + tail, pkt) == [own] + if Stops(p, first, pkt) then tail else Credited(p, tail, pkt)
  {
    var all := [first] + tail;
    var out := Credited(p, all, pkt);
    var own := if Matches(p, first.spec, pkt) then CreditRule(first, pkt) else first;
    var rest := if Stops(p, first, pkt) then tail else Credited(p, tail, pkt);
    forall k | 0 <= k < |out|
      ensures out[k] == ([own] + rest)[k]
    {
      if k > 0 {
        CreditsBehind(p, first, tail, pkt, k - 1);
        assert all[k] == tail[k - 1];
      }
    }
  }

  lemma CreditsBehind<C, H>(p: Protocol<C, H>, first: Rule<C>, tail: seq<Rule<C>>, pkt: Packet<H>, k: nat)
    requires k < |tail|
    ensures Credits(p, [first] + tail, pkt, k + 1) <==> !Stops(p, first, pkt) && Credits(p, tail, pkt, k)
  {
    var all := [first] + tail;
    assert all[k + 1] == tail[k] && all[0] == first;
    if Credits(p, all, pkt, k + 1) {
      assert !Stops(p, all[0], pkt);
      assert forall j :: 0 <= j < k ==> !Stops(p, tail[j], pkt) by {
        assert forall j :: 0 <= j < k ==> all[j + 1] == tail[j];
      }
    }
    if !Stops(p, first, pkt) && Credits(p, tail, pkt, k) {
      assert forall j :: 0 < j < k + 1 ==> all[j] == tail[j - 1];
    }
  }

  /** Rules behind the one that stops the walk neither change nor influence the outcome. */
  lemma FirstMatchWins<C, H>(p: Protocol<C, H>, front: seq<Rule<C>>, tail: seq<Rule<C>>, pkt: Packet<H>)
    requires Hits(p, front, pkt)
    ensures Credited(p, front + tail, pkt) == Credited(p, front, pkt) + tail
    ensures Hits(p, front + tail, pkt)
  {
    var s :| 0 <= s < |front| && Stops(p, front[s], pkt);
    assert Stops(p, (front + tail)[s], pkt);
    var left, right := Credited(p, front + tail, pkt), Credited(p, front, pkt) + tail;
    forall k | 0 <= k < |left|
      ensures left[k] == right[k]
    {
      CreditedAt(p, front, tail, pkt, s, k);
    }
  }

  lemma CreditedAt<C, H>(
      p: Protocol<C, H>, front: seq<Rule<C>>, tail: seq<Rule<C>>, pkt: Packet<H>, s: nat, k: nat)
    requires s < |front| && Stops(p, front[s], pkt) && k < |front + tail|
    ensures Credited(p, front + tail, pkt)[k] == (Credited(p, front, pkt) + tail)[k]
  {
    if k < |front| {
      CreditsInFront(p, front, tail, pkt, k);
    } else {
      assert Stops(p, (front + tail)[s], pkt);
      assert !Credits(p, front + tail, pkt, k);
    }
  }

  lemma CreditsInFront<C, H>(p: Protocol<C, H>, front: seq<Rule<C>>, tail: seq<Rule<C>>, pkt: Packet<H>, k: nat)
    requires k < |front|
    ensures Credits(p, front + tail, pkt, k) <==> Credits(p, front, pkt, k)
  {
    var all := front + tail;
    forall j | 0 <= j <= k
      ensures Stops(p, all[j], pkt) <==> Stops(p, front[j], pkt)
    {
      assert all[j] == front[j];
    }
  }

  // ---- merging, copying, comparing ----

  function MergedRule<C>(a: Rule<C>, b: Rule<C>): Rule<C> {
    a.(tally := Plus(a.tally, b.tally))
  }

  function ZeroedRule<C>(r: Rule<C>): Rule<C> {
    r.(tally := ZERO)
  }

  ghost function Merged<C>(a: seq<Rule<C>>, b: seq<Rule<C>>): (out: seq<Rule<C>>)
    requires |a| == |b|
    ensures |out| == |a|
    ensures forall k {:trigger out[k]} :: 0 <= k < |a| ==> out[k] == MergedRule(a[k], b[k])
  {
    seq(|a|, k requires 0 <= k < |a| => MergedRule(a[k], b[k]))
  }

  ghost function Zeroed<C>(b: seq<Rule<C>>): (out: seq<Rule<C>>)
    ensures |out| == |b|
    ensures forall k {:trigger out[k]} :: 0 <= k < |b| ==> out[k] == ZeroedRule(b[k])
  {
    seq(|b|, k requires 0 <= k < |b| => ZeroedRule(b[k]))
  }

  predicate SameRules<C, H>(p: Protocol<C, H>, a: seq<Rule<C>>, b: seq<Rule<C>>) {
    |a| == |b| && forall k :: 0 <= k < |a| ==> SameSpec(p, a[k].spec, b[k].spec)
  }

  /** Lists that compare equal agree, rule by rule, in thresholds, periods, `--next` and ranges; and conversely. */
  lemma SameRulesMeaning<C, H>(p: Protocol<C, H>, a: seq<Rule<C>>, b: seq<Rule<C>>)
    ensures SameRules(p, a, b) <==>
            |a| == |b| && forall k {:trigger a[k]} {:trigger b[k]} :: 0 <= k < |a| ==>
              var x, y := a[k].spec, b[k].spec;
              && x.th == y.th && x.next == y.next && p.same(x.l4, y.l4)
              && (x.src.start, x.src.end) == (y.src.start, y.src.end)
              && (x.dst.start, x.dst.end) == (y.dst.start, y.dst.end)
  {
  }

  /** The same rules, whatever their counters. */
  ghost predicate SameSpecs<C>(a: seq<Rule<C>>, b: seq<Rule<C>>) {
    |a| == |b| && forall k {:trigger a[k]} {:trigger b[k]} :: 0 <= k < |a| ==> a[k].spec == b[k].spec
  }

  /** Crediting and comparing depend on the rules alone. */
  lemma CreditsBySpec<C, H>(p: Protocol<C, H>, a: seq<Rule<C>>, b: seq<Rule<C>>, pkt: Packet<H>, k: nat)
    requires SameSpecs(a, b) && k < |a|
    ensures Credits(p, a, pkt, k) <==> Credits(p, b, pkt, k)
  {
  }

  lemma SameBySpec<C, H>(p: Protocol<C, H>, a: seq<Rule<C>>, a': seq<Rule<C>>, b: seq<Rule<C>>, b': seq<Rule<C>>)
    requires SameSpecs(a, a') && SameSpecs(b, b')
    ensures SameRules(p, a, b) <==> SameRules(p, a', b')
  {
  }

  /** Merging adds counters and tables and leaves the rest of both rules alone; what is merged is zeroed. */
  lemma MergedRuleMeaning<C>(a: Rule<C>, b: Rule<C>, d: u32)
    ensures var sum, zero := MergedRule(a, b), ZeroedRule(b);
            && sum.tally.packets == (a.tally.packets + b.tally.packets) % 0x1_0000_0000_0000_0000
            && sum.tally.bytes == (a.tally.bytes + b.tally.bytes) % 0x1_0000_0000_0000_0000
            && (d in sum.tally.dst <==> d in a.tally.dst || d in b.tally.dst)
            && At(sum.tally.dst, d) == (At(a.tally.dst, d) + At(b.tally.dst, d)) % 0x1_0000_0000
            && sum == a.(tally := sum.tally) && zero == b.(tally := Tally(0, 0, map[]))
  {
  }

  // ---- rates and triggers ----

  function DeltaRule<C>(r: Rule<C>, old_: Rule<C>, dt: real): Rule<C>
    requires dt > 0.0
  {
    r.(pps := RateOf(Sub64(r.tally.packets, old_.tally.packets), dt),
       bps := RateOf(Sub64(r.tally.bytes, old_.tally.bytes), dt))
  }

  /** Packets give the packet rate, bytes the byte rate, both from differences modulo 2^64. */
  lemma DeltaRuleMeaning<C>(r: Rule<C>, old_: Rule<C>, dt: real)
    requires dt > 0.0
    ensures var after := DeltaRule(r, old_, dt);
            && after.pps == RateOf((r.tally.packets - old_.tally.packets) % 0x1_0000_0000_0000_0000, dt)
            && after.bps == RateOf((r.tally.bytes - old_.tally.bytes) % 0x1_0000_0000_0000_0000, dt)
            && after == r.(pps := after.pps, bps := after.bps)
  {
    WrapSubs(r.tally.packets, old_.tally.packets);
    WrapSubs(r.tally.bytes, old_.tally.bytes);
  }

  /** Time must have passed, or the quotient is not a number. */
  predicate DeltaDefined<C>(l: ListState<C>, old_: ListState<C>) {
    |l.rules| == |old_.rules| && l.rules != [] ==> l.updated > old_.updated
  }

  /** Lists of different length are left alone. */
  ghost function Delta<C>(l: ListState<C>, old_: ListState<C>): (out: seq<Rule<C>>)
    requires DeltaDefined(l, old_)
    ensures |out| == |l.rules|
    ensures |l.rules| != |old_.rules| ==> out == l.rules
    ensures forall k {:trigger out[k]} :: 0 <= k < |l.rules| == |old_.rules| ==>
              out[k] == DeltaRule(l.rules[k], old_.rules[k], l.updated - old_.updated)
  {
    if |l.rules| != |old_.rules| then
      l.rules
    else
      seq(|l.rules|, k requires 0 <= k < |l.rules| => DeltaRule(l.rules[k], old_.rules[k], l.updated - old_.updated))
  }

  /** What a trigger hands to the task runner. */
  datatype Job = Job(action: string, kind: string, victim: u32, comment: string)

  function CheckOf<C>(r: Rule<C>, now: int): Check {
    Check(now, r.pps, r.bps, |r.tally.dst| > 0)
  }

  lemma CheckSees<C>(r: Rule<C>, now: int)
    ensures CheckOf(r, now) == Check(now, r.pps, r.bps, r.tally.dst != map[])
  {
    assert |r.tally.dst| == 0 <==> r.tally.dst == map[];
  }

  predicate Triggered<C>(r: Rule<C>, now: int) {
    Outcomes(r.spec.th, r.memory, CheckOf(r, now)) != Quiet
  }

  function CheckedRule<C>(r: Rule<C>, now: int): Rule<C> {
    r.(memory := Remember(r.spec.th, r.memory, CheckOf(r, now)), tally := r.tally.(dst := map[]))
  }

  /** When a rule fires at a check, in its own numbers. */
  lemma TriggeredMeaning<C>(r: Rule<C>, now: int)
    ensures Triggered(r, now) <==>
            && r.tally.dst != map[]
            && ((r.pps > r.spec.th.pps > 0 && now - r.memory.ppsLast > r.spec.th.ppsPeriod)
                || (r.bps > r.spec.th.bps > 0 && now - r.memory.bpsLast > r.spec.th.bpsPeriod))
  {
    CheckSees(r, now);
    AlarmMeaning(r.spec.th, r.memory, CheckOf(r, now));
  }

  /** The check clears the table of a rule, sets its memory, and leaves the rest of it alone. */
  lemma CheckedRuleMeaning<C>(r: Rule<C>, now: int)
    ensures var after := CheckedRule(r, now);
            && after.spec == r.spec && after.pps == r.pps && after.bps == r.bps
            && after.tally == Tally(r.tally.packets, r.tally.bytes, map[])
            && (r.pps <= r.spec.th.pps && r.spec.th.pps > 0 ==> after.memory.ppsLast == now)
            && (r.bps <= r.spec.th.bps && r.spec.th.bps > 0 && !(r.pps > r.spec.th.pps > 0) ==>
                  after.memory.bpsLast == now)
  {
    CheckSees(r, now);
    MemoryMeaning(r.spec.th, r.memory, CheckOf(r, now));
  }

  /** The wall clock as each rule of a list reads it at its check. */
  type Clock = nat -> int

  ghost function Checked<C>(rules: seq<Rule<C>>, clock: Clock): (out: seq<Rule<C>>)
    ensures |out| == |rules|
    ensures forall k {:trigger out[k]} :: 0 <= k < |rules| ==> out[k] == CheckedRule(rules[k], clock(k))
  {
    seq(|rules|, k requires 0 <= k < |rules| => CheckedRule(rules[k], clock(k)))
  }

  ghost function JobOf<C>(r: Rule<C>): Job {
    Job(r.spec.action, r.spec.kind, Victim(r.tally.dst), r.spec.comment)
  }

  /** A job carries the action, the kind and the comment of its rule, and the victim of its table. */
  lemma JobMeaning<C>(r: Rule<C>)
    ensures var job := JobOf(r);
            && job.action == r.spec.action && job.kind == r.spec.kind && job.comment == r.spec.comment
            && IsVictim(r.tally.dst, job.victim)
  {
  }

  /** One job for each rule that fires, in rule order. */
  ghost function JobsOf<C>(rules: seq<Rule<C>>, clock: Clock): seq<Job> {
    if rules == [] then []
    else
      var last := |rules| - 1;
      JobsOf(rules[..last], clock) + if Triggered(rules[last], clock(last)) then [JobOf(rules[last])] else []
  }

  lemma JobsOneMore<C>(rules: seq<Rule<C>>, i: nat, clock: Clock)
    requires i < |rules|
    ensures JobsOf(rules[..i + 1], clock) ==
            JobsOf(rules[..i], clock) + if Triggered(rules[i], clock(i)) then [JobOf(rules[i])] else []
  {
    assert rules[..i + 1][..i] == rules[..i];
  }

  // ---- editing ----

  function AfterAdd<C>(rules: seq<Rule<C>>, parsed: Result<Rule<C>>): seq<Rule<C>> {
    if parsed.Ok? then rules + [parsed.value] else rules
  }

  function AfterDel<C>(rules: seq<Rule<C>>, num: u32): seq<Rule<C>> {
    if num < |rules| then rules[..num] + rules[num + 1..] else rules
  }

  /** A rule can be put before any other, but not at the end. */
  function AfterInsert<C>(rules: seq<Rule<C>>, num: u32, parsed: Result<Rule<C>>): seq<Rule<C>> {
    if parsed.Ok? && num < |rules| then rules[..num] + [parsed.value] + rules[num..] else rules
  }

  /** What the console can do to a list, once its rule has been parsed. */
  datatype ListEdit<C> = Add(r: Rule<C>) | Insert(num: u32, r: Rule<C>) | Del(num: u32)

  function AfterEdit<C>(rules: seq<Rule<C>>, edit: ListEdit<C>): seq<Rule<C>> {
    match edit
    case Add(r) => AfterAdd(rules, Ok(r))
    case Insert(num, r) => AfterInsert(rules, num, Ok(r))
    case Del(num) => AfterDel(rules, num)
  }

  /** An added rule is the last one; a failed parse adds none. */
  lemma AddMeans<C>(rules: seq<Rule<C>>, r: Rule<C>, message: string)
    ensures var out := AfterAdd(rules, Ok(r)); |out| == |rules| + 1 && out[|rules|] == r && out[..|rules|] == rules
    ensures AfterAdd(rules, Err(message)) == rules
  {
  }

  /** The console's edits are these three. */
  lemma EditMeans<C>(rules: seq<Rule<C>>, r: Rule<C>, num: u32)
    ensures AfterEdit(rules, Add(r)) == rules + [r]
    ensures AfterEdit(rules, Insert(num, r)) == if num < |rules| then rules[..num] + [r] + rules[num..] else rules
    ensures AfterEdit(rules, Del(num)) == if num < |rules| then rules[..num] + rules[num + 1..] else rules
  {
  }

  /** An inserted rule stands at its number and moves the rest up; deleting that number undoes it. */
  lemma InsertMeans<C>(rules: seq<Rule<C>>, num: u32, r: Rule<C>, k: nat)
    requires num < |rules| && k <= |rules|
    ensures var out := AfterInsert(rules, num, Ok(r));
            && |out| == |rules| + 1
            && out[k] == (if k < num then rules[k] else if k == num then r else rules[k - 1])
            && AfterDel(out, num) == rules
  {
    var out := AfterInsert(rules, num, Ok(r));
    assert out[..num] == rules[..num] && out[num + 1..] == rules[num..];
  }

  /** A deleted rule is gone and the rest moves down; a rule added at the end is undone the same way. */
  lemma DeleteMeans<C>(rules: seq<Rule<C>>, num: u32, r: Rule<C>, k: nat)
    ensures num < |rules| && k < |rules| - 1 ==>
              AfterDel(rules, num)[k] == (if k < num then rules[k] else rules[k + 1])
    ensures num < |rules| ==> |AfterDel(rules, num)| == |rules| - 1
    ensures num >= |rules| ==> AfterDel(rules, num) == rules
    ensures num == |rules| ==> AfterDel(AfterAdd(rules, Ok(r)), num) == rules
  {
  }

  // ---- the class ----

  class RulesList<C, H> {
    const proto: Protocol<C, H>
    var rules: seq<Rule<C>>
    var updated: real

    function State(): ListState<C>
      reads this
    {
      ListState(rules, updated)
    }

    constructor (proto: Protocol<C, H>, now: real)
      ensures this.proto == proto && rules == [] && updated == now
    {
      this.proto := proto;
      rules := [];
      updated := now;
    }

    method Equals(other: RulesList<C, H>) returns (same: bool)
      ensures same <==> SameRules(proto, rules, other.rules)
    {
      if |rules| != |other.rules| {
        return false;
      }
      var i := 0;
      while i < |rules|
        invariant 0 <= i <= |rules|
        invariant forall k :: 0 <= k < i ==> SameSpec(proto, rules[k].spec, other.rules[k].spec)
      {
        if !SameSpec(proto, rules[i].spec, other.rules[i].spec) {
          return false;
        }
        i := i + 1;
      }
      return true;
    }

    method Assign(other: RulesList<C, H>)
      modifies this
      ensures State() == old(other.State())
    {
      if this != other {
        rules := other.rules;
        updated := other.updated;
      }
    }

    /** Adds the counters of `other` and zeroes them; lists of different length are an error. */
    method MergeFrom(other: RulesList<C, H>, now: real) returns (r: Result<()>)
      modifies this, other
      ensures this == other ==> r.Ok? && State() == old(State())
      ensures this != other ==> (r.Ok? <==> old(|rules| == |other.rules|))
      ensures this != other ==> updated == now && other.updated == old(other.updated)
      ensures this != other && r.Ok? ==>
                rules == Merged(old(rules), old(other.rules)) && other.rules == Zeroed(old(other.rules))
      ensures r.Err? ==> rules == old(rules) && other.rules == old(other.rules)
    {
      if this == other {
        return Ok(());
      }
      updated := now;
      if |rules| != |other.rules| {
        return Err("Current rules list size() != new rules list size()");
      }
      ghost var mine, theirs := rules, other.rules;
      var i := 0;
      while i < |rules|
        invariant 0 <= i <= |rules| == |other.rules| == |mine| == |theirs|
        invariant updated == now && other.updated == old(other.updated)
        invariant forall k :: 0 <= k < |mine| ==> rules[k] == if k < i then MergedRule(mine[k], theirs[k]) else mine[k]
        invariant forall k :: 0 <= k < |theirs| ==> other.rules[k] == if k < i then ZeroedRule(theirs[k]) else theirs[k]
      {
        var sum, zero := MergedRule(rules[i], other.rules[i]), ZeroedRule(other.rules[i]);
        rules := rules[i := sum];
        other.rules := other.rules[i := zero];
        i := i + 1;
      }
      return Ok(());
    }

    method CalcDelta(old_: RulesList<C, H>)
      requires this != old_ ==> DeltaDefined(State(), old_.State())
      modifies this
      ensures updated == old(updated)
      ensures this != old_ ==> rules == Delta(old(State()), old(old_.State()))
      ensures this == old_ ==> rules == old(rules)
    {
      if this != old_ && |rules| == |old_.rules| {
        var dt := updated - old_.updated;
        ghost var before := rules;
        var i := 0;
        while i < |rules|
          invariant 0 <= i <= |rules| == |before| == |old_.rules|
          invariant updated == old(updated) && old_.State() == old(old_.State())
          invariant forall k :: 0 <= k < |before| ==>
                      rules[k] == if k < i then DeltaRule(before[k], old_.rules[k], dt) else before[k]
        {
          var packets := Sub64(rules[i].tally.packets, old_.rules[i].tally.packets);
          var bytes := Sub64(rules[i].tally.bytes, old_.rules[i].tally.bytes);
          rules := rules[i := rules[i].(pps := RateOf(packets, dt), bps := RateOf(bytes, dt))];
          i := i + 1;
        }
      }
    }

    static method CheckRule(r: Rule<C>, tasks: TsQueue<Job>, now: int) returns (after: Rule<C>)
      modifies tasks
      ensures after == CheckedRule(r, now)
      ensures tasks.items == old(tasks.items) + if Triggered(r, now) then [JobOf(r)] else []
      ensures Triggered(r, now) ==>
                var job := tasks.items[|old(tasks.items)|];
                && job.action == r.spec.action && job.kind == r.spec.kind && job.comment == r.spec.comment
                && IsVictim(r.tally.dst, job.victim)
    {
      var fired, memory := IsTriggered(r.spec.th, r.memory, r.pps, r.bps, |r.tally.dst|, now);
      if fired {
        var victim := GetMax(r.tally.dst);
        VictimUnique(r.tally.dst, victim, Victim(r.tally.dst));
        tasks.Push(Job(r.spec.action, r.spec.kind, victim, r.spec.comment));
      }
      after := r.(memory := memory, tally := r.tally.(dst := map[]));
    }

    method CheckTriggers(tasks: TsQueue<Job>, clock: Clock)
      modifies this, tasks
      ensures updated == old(updated)
      ensures rules == Checked(old(rules), clock)
      ensures tasks.items == old(tasks.items) + JobsOf(old(rules), clock)
    {
      ghost var before := rules;
      var i := 0;
      while i < |rules|
        invariant 0 <= i <= |rules| == |before|
        invariant updated == old(updated)
        invariant forall k :: 0 <= k < |before| ==>
                    rules[k] == if k < i then CheckedRule(before[k], clock(k)) else before[k]
        invariant tasks.items == old(tasks.items) + JobsOf(before[..i], clock)
      {
        JobsOneMore(before, i, clock);
        var after := CheckRule(rules[i], tasks, clock(i));
        rules := rules[i := after];
        i := i + 1;
      }
      assert before[..i] == before;
    }

    method CheckList(pkt: Packet<H>) returns (hit: bool)
      modifies this
      ensures updated == old(updated)
      ensures hit <==> Hits(proto, old(rules), pkt)
      ensures rules == Credited(proto, old(rules), pkt)
    {
      ghost var before := rules;
      var i := 0;
      while i < |rules|
        invariant 0 <= i <= |rules| == |before|
        invariant updated == old(updated)
        invariant forall j :: 0 <= j < i ==> !Stops(proto, before[j], pkt)
        invariant forall k :: 0 <= k < |before| ==>
                    rules[k] == if k < i && Matches(proto, before[k].spec, pkt) then CreditRule(before[k], pkt)
                                else before[k]
      {
        if Matches(proto, rules[i].spec, pkt) {
          rules := rules[i := CreditRule(rules[i], pkt)];
          if !rules[i].spec.next {
            assert Stops(proto, before[i], pkt);
            StopsHere(proto, before, pkt, i, rules);
            return true;
          }
        }
        i := i + 1;
      }
      NeverStops(proto, before, pkt, rules);
      return false;
    }

    /** `parsed` is what parsing the rule gave; a failed parse changes nothing. */
    method AddRule(parsed: Result<Rule<C>>) returns (r: Result<()>)
      modifies this
      ensures updated == old(updated) && (r.Ok? <==> parsed.Ok?)
      ensures rules == AfterAdd(old(rules), parsed)
    {
      if parsed.Err? {
        return Err(parsed.message);
      }
      rules := rules + [parsed.value];
      return Ok(());
    }

    method Clear()
      modifies this
      ensures updated == old(updated) && rules == []
    {
      rules := [];
    }

    method DelRule(num: u32) returns (r: Result<()>)
      modifies this
      ensures updated == old(updated) && (r.Ok? <==> num < old(|rules|))
      ensures rules == AfterDel(old(rules), num)
    {
      if rules == [] {
        return Err("rules list is empty");
      }
      if num > |rules| - 1 {
        return Err("not found");
      }
      rules := rules[..num] + rules[num + 1..];
      return Ok(());
    }

    method InsertRule(num: u32, parsed: Result<Rule<C>>) returns (r: Result<()>)
      modifies this
      ensures updated == old(updated) && (r.Ok? <==> parsed.Ok? && num < old(|rules|))
      ensures rules == AfterInsert(old(rules), num, parsed)
    {
      if parsed.Err? {
        return Err(parsed.message);
      }
      if rules == [] {
        return Err("rules list is empty");
      }
      if num > |rules| - 1 {
        return Err("incorrect number rule");
      }
      var temp := rules[..num];
      temp := temp + [parsed.value];
      temp := temp + rules[num..];
      rules := temp;
      return Ok(());
    }
  }
}
