/**
  Rules: what `Ipv4Rule` and `BaseRule` hold, generic in the layer-4 options `C` and the header
  `H` they are matched against. `std::vector` copies rules, so they are values.
 */
module Rules {
  import opened Words
  import opened Tallies
  import opened Alarms
  import opened Sizes

  /** `NumRange`: a disabled range admits everything; an enabled one never admits zero. */
  datatype NumRange = NumRange(start: u32, end: u32, enabled: bool) {
    predicate InThis(num: u32) {
      !enabled || (num != 0 && start <= num <= end)
    }

    predicate Same(other: NumRange) {
      start == other.start && end == other.end
    }

    function Assign(p: (u32, u32)): NumRange {
      if p.0 != 0 || p.1 != 0 then NumRange(p.0, p.1, true) else this
    }
  }

  const NO_RANGE := NumRange(0, 0, false)

  /** Everything about a rule that parsing fixes. */
  datatype RuleSpec<C> = RuleSpec(
    kind: string, src: NumRange, dst: NumRange, l4: C,
    next: bool, th: Thresholds, action: string, comment: string)

  /** A rule with its counters, its last computed rates and its trigger memory. */
  datatype Rule<C> = Rule(spec: RuleSpec<C>, tally: Tally, pps: nat, bps: nat, memory: Memory)

  datatype Packet<H> = Packet(header: H, src: u32, dst: u32, len: u32)

  /** What a protocol adds: its `check_packet` tests and its part of `operator==`. */
  datatype Protocol<!C, !H> = Protocol(matches: (C, H) -> bool, same: (C, C) -> bool)

  predicate Matches<C, H>(p: Protocol<C, H>, s: RuleSpec<C>, pkt: Packet<H>) {
    s.src.InThis(pkt.src) && s.dst.InThis(pkt.dst) && p.matches(s.l4, pkt.header)
  }

  /** Sources are matched against the source range, destinations against the destination range. */
  lemma MatchesMeaning<C, H>(p: Protocol<C, H>, s: RuleSpec<C>, pkt: Packet<H>)
    ensures Matches(p, s, pkt) <==>
            && (s.src.enabled ==> pkt.src > 0 && pkt.src >= s.src.start && pkt.src <= s.src.end)
            && (s.dst.enabled ==> pkt.dst > 0 && pkt.dst >= s.dst.start && pkt.dst <= s.dst.end)
            && p.matches(s.l4, pkt.header)
  {
  }

  /** `operator==` of rules: options and thresholds; neither counters nor action nor comment. */
  predicate SameSpec<C, H>(p: Protocol<C, H>, a: RuleSpec<C>, b: RuleSpec<C>) {
    && a.src.Same(b.src) && a.dst.Same(b.dst)
    && a.next == b.next && a.th == b.th
    && p.same(a.l4, b.l4)
  }

  /** Options that compare equal have the same ranges, the same `--next`, thresholds and periods; and conversely. */
  lemma SameSpecMeaning<C, H>(p: Protocol<C, H>, a: RuleSpec<C>, b: RuleSpec<C>)
    ensures SameSpec(p, a, b) <==>
            && a.src.start == b.src.start && a.src.end == b.src.end
            && a.dst.start == b.dst.start && a.dst.end == b.dst.end
            && a.next == b.next && p.same(a.l4, b.l4)
            && a.th.pps == b.th.pps && a.th.bps == b.th.bps
            && a.th.ppsPeriod == b.th.ppsPeriod && a.th.bpsPeriod == b.th.bpsPeriod
  {
  }

  /** Layer-4 options equal themselves; `Tcp.TcpIsReflexive` is an instance. */
  ghost predicate Reflexive<C(!new), H>(p: Protocol<C, H>) {
    forall a :: p.same(a, a)
  }

  function HitOf<H>(pkt: Packet<H>): Hit {
    Hit(pkt.dst, pkt.len)
  }

  /** Options as given on a rule line; the ranges and the layer-4 part are already converted. */
  datatype RuleOptions<C> = RuleOptions(
    kind: string, srcIp: Option<(u32, u32)>, dstIp: Option<(u32, u32)>,
    ppsTh: Option<SizeText>, bpsTh: Option<SizeText>, ppsPeriod: Option<u32>, bpsPeriod: Option<u32>,
    action: Option<Result<string>>, comment: Option<string>, next: bool, l4: Result<C>)

  /** Thresholds are 64-bit when read and 32-bit when stored. */
  function Threshold(text: Option<SizeText>, itsByte: bool): Result<u32> {
    match text
    case None => Ok(0)
    case Some(t) =>
      match FromShortSizeSpec(t, itsByte)
      case Err(m) => Err(m)
      case Ok(v) => Ok(Wrap32(v))
  }

  function RangeOption(given: Option<(u32, u32)>): NumRange {
    match given
    case None => NO_RANGE
    case Some(p) => NO_RANGE.Assign(p)
  }

  function OrElse<T>(o: Option<T>, d: T): T {
    if o.Some? then o.value else d
  }

  /** A usable rule: an address range, a threshold, and a period for each threshold that is set. */
  predicate Valid<C>(s: RuleSpec<C>) {
    && (s.src.enabled || s.dst.enabled)
    && (s.th.pps > 0 || s.th.bps > 0)
    && (s.th.pps > 0 ==> s.th.ppsPeriod >= 1)
    && (s.th.bps > 0 ==> s.th.bpsPeriod >= 1)
  }

  /** `ip_header_parse`, then `BaseRule_parse`, then the layer-4 options. */
  function ParseRule<C>(o: RuleOptions<C>): (r: Result<Rule<C>>)
    ensures r.Ok? ==> Valid(r.value.spec) && r.value.tally == ZERO && r.value.memory == Memory(0, 0)
  {
    var src, dst := RangeOption(o.srcIp), RangeOption(o.dstIp);
    if !src.enabled && !dst.enabled then Err("destination ip or source ip will be set") else
    var pps := Threshold(o.ppsTh, false);
    if pps.Err? then Err(pps.message) else
    var bps := Threshold(o.bpsTh, true);
    if bps.Err? then Err(bps.message) else
    var ppsPeriod, bpsPeriod := OrElse(o.ppsPeriod, 10), OrElse(o.bpsPeriod, 10);
    if o.action.Some? && o.action.value.Err? then Err(o.action.value.message) else
    if pps.value == 0 && bps.value == 0 then Err("pps or bps trigger will be set") else
    if pps.value > 0 && ppsPeriod < 1 then Err("incorrect pps trigger period") else
    if bps.value > 0 && bpsPeriod < 1 then Err("incorrect bps trigger period") else
    if o.l4.Err? then Err(o.l4.message) else
    var th := Thresholds(pps.value, bps.value, ppsPeriod, bpsPeriod);
    var action := if o.action.Some? then o.action.value.value else "syslog";
    var spec := RuleSpec(o.kind, src, dst, o.l4.value, o.next, th, action, OrElse(o.comment, ""));
    Ok(Rule(spec, ZERO, 0, 0, Memory(0, 0)))
  }

  /** What an accepted line leaves in its rule, apart from thresholds. */
  lemma ParseStores<C>(o: RuleOptions<C>)
    ensures ParseRule(o).Ok? ==>
              var s := ParseRule(o).value.spec;
              && s.kind == o.kind && s.next == o.next && Ok(s.l4) == o.l4
              && s.comment == (match o.comment case None => "" case Some(c) => c)
              && Ok(s.action) == (match o.action case None => Ok("syslog") case Some(a) => a)
              && s.th.ppsPeriod == (match o.ppsPeriod case None => 10 case Some(n) => n)
              && s.th.bpsPeriod == (match o.bpsPeriod case None => 10 case Some(n) => n)
              && s.src == RangeOption(o.srcIp) && s.dst == RangeOption(o.dstIp)
  {
  }

  /** A size argument that can be read, or none, which stands for zero. */
  predicate Reads(text: Option<SizeText>, itsByte: bool, v: u64) {
    if text.None? then v == 0 else FromShortSizeSpec(text.value, itsByte) == Ok(v)
  }

  /**
    A line whose layer-4 options and action are accepted, and whose size arguments can be read, is
    accepted exactly when it names a range other than 0-0, a threshold that is not a multiple of
    2^32, and no zero period for such a threshold.
   */
  lemma ParseAccepts<C>(o: RuleOptions<C>, pps: u64, bps: u64)
    requires o.l4.Ok? && (o.action.Some? ==> o.action.value.Ok?)
    requires Reads(o.ppsTh, false, pps) && Reads(o.bpsTh, true, bps)
    ensures ParseRule(o).Ok? <==>
            && ((o.srcIp.Some? && o.srcIp.value != (0, 0)) || (o.dstIp.Some? && o.dstIp.value != (0, 0)))
            && (pps % 0x1_0000_0000 != 0 || bps % 0x1_0000_0000 != 0)
            && (pps % 0x1_0000_0000 != 0 ==> o.ppsPeriod != Some(0))
            && (bps % 0x1_0000_0000 != 0 ==> o.bpsPeriod != Some(0))
  {
    ThresholdRead(o.ppsTh, false, pps);
    ThresholdRead(o.bpsTh, true, bps);
    RangeGiven(o.srcIp);
    RangeGiven(o.dstIp);
    PeriodGiven(o.ppsPeriod);
    PeriodGiven(o.bpsPeriod);
  }

  /** Whatever else fails, an unreadable size argument, action, or layer-4 option does. */
  lemma ParseRejects<C>(o: RuleOptions<C>)
    requires || (o.ppsTh.Some? && FromShortSizeSpec(o.ppsTh.value, false).Err?)
             || (o.bpsTh.Some? && FromShortSizeSpec(o.bpsTh.value, true).Err?)
             || o.l4.Err? || (o.action.Some? && o.action.value.Err?)
    ensures ParseRule(o).Err?
  {
  }

  /** A line with `--pps-th 4294967296p` for its only threshold names, on 32 bits, no threshold. */
  lemma FullThresholdIsNone<C>(l4: C)
    ensures var size := SizeText(Some(4294967296), "p");
            var o := RuleOptions("tcp", Some((1, 1)), None, Some(size), None, None, None, None, None, false, Ok(l4));
            ParseRule(o).Err? && ParseRule(o.(ppsTh := Some(size.(number := Some(4294967297))))).Ok?
  {
    UnitsDistinct(0, false);
    var size := SizeText(Some(4294967296), "p");
    var o := RuleOptions("tcp", Some((1, 1)), None, Some(size), None, None, None, None, None, false, Ok(l4));
    ParseAccepts(o, 4294967296, 0);
    ParseAccepts(o.(ppsTh := Some(size.(number := Some(4294967297)))), 4294967297, 0);
  }

  lemma ThresholdRead(text: Option<SizeText>, itsByte: bool, v: u64)
    requires Reads(text, itsByte, v)
    ensures Threshold(text, itsByte) == Ok(v % 0x1_0000_0000)
  {
  }

  lemma RangeGiven(given: Option<(u32, u32)>)
    ensures RangeOption(given).enabled <==> given.Some? && given.value != (0, 0)
  {
  }

  lemma PeriodGiven(given: Option<u32>)
    ensures OrElse(given, 10) < 1 <==> given == Some(0)
  {
  }
}
