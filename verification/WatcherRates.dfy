/** Further invariants of the watcher protocol: counters against snapshots, rates, checks, clocks. */
module WatcherRates {
  import opened Words
  import opened Tallies
  import opened Rates
  import opened Alarms
  import opened Rules
  import opened RulesLists
  import opened Watchers
  import opened WatcherInvariants

  predicate InRound(pc: Pc) {
    pc.Compare? || pc.Copy? || pc.Merge? || pc.CalcDelta? || pc.Snapshot?
  }

  /** The counters of `r` are those of `old_` plus the hits of this tick. */
  ghost predicate Moved<C>(old_: Rule<C>, r: Rule<C>, tick: seq<Hit>) {
    && r.tally.packets == Add64(old_.tally.packets, TallyOf(tick).packets)
    && r.tally.bytes == Add64(old_.tally.bytes, TallyOf(tick).bytes)
    && (tick != [] ==> r.tally.dst != map[])
  }

  /** The rates of `r` are those of the hits of this tick, and it knows a destination if there were any. */
  ghost predicate RatesRight<C>(r: Rule<C>, h: Probe) {
    && h.dt > 0.0
    && r.pps == RateOf(TallyOf(h.tick).packets, h.dt)
    && r.bps == RateOf(TallyOf(h.tick).bytes, h.dt)
    && (h.tick != [] ==> r.tally.dst != map[])
  }

  ghost predicate CountInv<C>(l: nat, k: nat, s: Sys<C>, h: Probe) {
    Has(s.master, l, k) ==>
      var r := s.master[l].rules[k];
      && (h.sound ==> r.tally.dst == TallyOf(h.recent).dst)
      && (!h.changed ==>
            && l < |s.prev| && |s.prev[l].rules| == |s.master[l].rules|
            && var old_ := s.prev[l].rules[k];
               && (InRound(s.pc) ==> Moved(old_, r, h.tick))
               && (!InRound(s.pc) ==> r.tally.packets == old_.tally.packets && r.tally.bytes == old_.tally.bytes))
      && ((s.pc.Snapshot? || s.pc.Decide?) && h.exact ==> RatesRight(r, h))
  }

  lemma MovedMore<C>(old_: Rule<C>, r: Rule<C>, tick: seq<Hit>, other: Rule<C>, news: seq<Hit>)
    requires Moved(old_, r, tick) && other.tally == TallyOf(news)
    ensures Moved(old_, MergedRule(r, other), tick + news)
  {
    TallyOfConcat(tick, news);
    AddAssociates(old_.tally.packets, TallyOf(tick).packets, TallyOf(news).packets);
    AddAssociates(old_.tally.bytes, TallyOf(tick).bytes, TallyOf(news).bytes);
    if tick + news != [] {
      TallyEmpty(news);
      var sum := MergedRule(r, other).tally.dst;
      assert sum.Keys == r.tally.dst.Keys + other.tally.dst.Keys;
      if tick != [] {
        var d :| d in r.tally.dst;
        assert d in sum;
      } else {
        var d :| d in other.tally.dst;
        assert d in sum;
      }
    }
  }

  lemma AddAssociates(a: u64, b: u64, c: u64)
    ensures Add64(Add64(a, b), c) == Add64(a, Add64(b, c))
  {
  }

  lemma MergeRound<C, H>(p: Protocol<C, H>, l: nat, k: nat, s: Sys<C>, h: Probe, e: Event<C, H>)
    requires AlignInv(p, s, h) && l < LISTS && TallyInv(l, k, s, h) && CountInv(l, k, s, h)
    requires Enabled(s, e) && e.Work? && s.pc.Merge?
    ensures CountInv(l, k, Next(p, s, e), Seen(p, l, k, s, h, e))
  {
    MergeAligns(p, l, k, s, h, e);
    var i := s.pc.i;
    if s.pc.l == l && Has(s.master, l, k) {
      var r, other := s.master[l].rules[k], s.threads[i][l].rules[k];
      if !h.changed {
        assert !Dirty(s, h, l, i);
        MovedMore(s.prev[l].rules[k], r, h.tick, other, h.pending[i]);
        if h.sound {
          TallyOfConcat(h.recent, h.pending[i]);
        }
      }
    }
  }

  lemma DeltaRound<C, H>(p: Protocol<C, H>, l: nat, k: nat, s: Sys<C>, h: Probe, e: Event<C, H>)
    requires AlignInv(p, s, h) && l < LISTS && TallyInv(l, k, s, h) && CountInv(l, k, s, h)
    requires Enabled(s, e) && e.Work? && s.pc.CalcDelta?
    ensures CountInv(l, k, Next(p, s, e), Seen(p, l, k, s, h, e))
  {
  }

  lemma StartRound<C, H>(p: Protocol<C, H>, l: nat, k: nat, s: Sys<C>, h: Probe, e: Event<C, H>)
    requires AlignInv(p, s, h) && l < LISTS && TallyInv(l, k, s, h) && CountInv(l, k, s, h)
    requires Enabled(s, e) && e.Work? && s.pc.Idle?
    ensures CountInv(l, k, Next(p, s, e), Seen(p, l, k, s, h, e))
  {
  }

  lemma OutsideRound<C, H>(p: Protocol<C, H>, l: nat, k: nat, s: Sys<C>, h: Probe, e: Event<C, H>)
    requires AlignInv(p, s, h) && l < LISTS && TallyInv(l, k, s, h) && CountInv(l, k, s, h)
    requires Enabled(s, e) && !e.Work?
    ensures CountInv(l, k, Next(p, s, e), Seen(p, l, k, s, h, e))
  {
  }

  lemma QuietRound<C, H>(p: Protocol<C, H>, l: nat, k: nat, s: Sys<C>, h: Probe, e: Event<C, H>)
    requires AlignInv(p, s, h) && l < LISTS && TallyInv(l, k, s, h) && CountInv(l, k, s, h)
    requires Enabled(s, e) && e.Work? && (s.pc.Compare? || s.pc.Copy? || s.pc.Snapshot? || s.pc.Decide?)
    ensures CountInv(l, k, Next(p, s, e), Seen(p, l, k, s, h, e))
  {
  }

  lemma RoundKept<C, H>(p: Protocol<C, H>, l: nat, k: nat, s: Sys<C>, h: Probe, e: Event<C, H>)
    requires AlignInv(p, s, h) && l < LISTS && TallyInv(l, k, s, h) && CountInv(l, k, s, h) && Enabled(s, e)
    ensures CountInv(l, k, Next(p, s, e), Seen(p, l, k, s, h, e))
  {
    if !e.Work? {
      OutsideRound(p, l, k, s, h, e);
    } else if s.pc.Idle? {
      StartRound(p, l, k, s, h, e);
    } else if s.pc.Merge? {
      MergeRound(p, l, k, s, h, e);
    } else if s.pc.CalcDelta? {
      DeltaRound(p, l, k, s, h, e);
    } else {
      QuietRound(p, l, k, s, h, e);
    }
  }

  // ---- what check_triggers and calc_delta have seen ----

  ghost predicate CheckInv<C>(l: nat, k: nat, s: Sys<C>, h: Probe) {
    && 0 <= s.wall
    && InOrder(h.checks)
    && (forall i {:trigger h.checks[i]} :: 0 <= i < |h.checks| ==> 0 <= h.checks[i].now <= s.wall)
    && h.trusted <= |h.checks|
    && (forall i {:trigger h.checks[i]} :: h.trusted <= i < |h.checks| ==>
          h.checks[i].pps > 0 || h.checks[i].bps > 0 ==> h.checks[i].known)
    && FromBefore(h.base, if h.checks == [] then s.wall else h.checks[0].now)
    && (Has(s.master, l, k) ==>
          var r := s.master[l].rules[k];
          r.memory == MemoryAt(r.spec.th, h.base, h.checks, |h.checks|))
  }

  predicate FromBefore(m: Memory, now: int) {
    m.ppsLast <= now && m.bpsLast <= now
  }

  /** What the rules of the master remember lies in the past. */
  ghost predicate PastInv<C>(s: Sys<C>) {
    && 0 <= s.wall
    && forall l: nat, k: nat {:trigger s.master[l].rules[k]} :: Has(s.master, l, k) ==>
         FromBefore(s.master[l].rules[k].memory, s.wall)
  }

  /** A rate above zero means that something was counted in this tick, so a destination is known. */
  lemma PositiveRateIsKnown<C>(r: Rule<C>, h: Probe)
    requires RatesRight(r, h)
    ensures r.pps > 0 || r.bps > 0 ==> h.tick != [] && r.tally.dst != map[]
  {
    RatePositive(TallyOf(h.tick).packets, h.dt);
    RatePositive(TallyOf(h.tick).bytes, h.dt);
  }

  lemma {:induction false} MemoryPrefix(th: Thresholds, m: Memory, cs: seq<Check>, c: Check, i: nat)
    requires i <= |cs|
    ensures MemoryAt(th, m, cs + [c], i) == MemoryAt(th, m, cs, i)
  {
    if i > 0 {
      MemoryPrefix(th, m, cs, c, i - 1);
    }
  }

  lemma OneMoreInOrder(cs: seq<Check>, c: Check, wall: int, upTo: int)
    requires InOrder(cs) && 0 <= wall <= c.now <= upTo
    requires forall i {:trigger cs[i]} :: 0 <= i < |cs| ==> 0 <= cs[i].now <= wall
    ensures var more := cs + [c];
            InOrder(more) && forall i {:trigger more[i]} :: 0 <= i < |more| ==> 0 <= more[i].now <= upTo
  {
  }

  lemma DecideChecks<C, H>(p: Protocol<C, H>, l: nat, k: nat, s: Sys<C>, h: Probe, e: Event<C, H>)
    requires AlignInv(p, s, h) && l < LISTS && TallyInv(l, k, s, h) && CountInv(l, k, s, h) && CheckInv(l, k, s, h)
    requires Enabled(s, e) && e.Work? && s.pc.Decide? && s.seen == s.change
    ensures CheckInv(l, k, Next(p, s, e), Seen(p, l, k, s, h, e))
  {
    if Has(s.master, l, k) {
      var r := s.master[l].rules[k];
      var c := CheckOf(r, e.walls.at[l](k));
      if h.exact && (r.pps > 0 || r.bps > 0) {
        PositiveRateIsKnown(r, h);
      }
      CheckSees(r, e.walls.at[l](k));
      OneMoreInOrder(h.checks, c, s.wall, e.walls.upTo);
      MemoryPrefix(r.spec.th, h.base, h.checks, c, |h.checks|);
      var cs := h.checks + [c];
      assert MemoryAt(r.spec.th, h.base, cs, |cs|)
          == Remember(r.spec.th, MemoryAt(r.spec.th, h.base, cs, |h.checks|), c);
    }
  }

  predicate Checking<C, H>(s: Sys<C>, e: Event<C, H>) {
    e.Work? && s.pc.Decide? && s.seen == s.change
  }

  /** Only reloads, edits and trigger checks touch the memory of a rule of the master. */
  lemma MemoryKept<C, H>(p: Protocol<C, H>, l: nat, k: nat, s: Sys<C>, h: Probe, e: Event<C, H>)
    requires AlignInv(p, s, h) && l < LISTS && |h.pending| == |s.threads| && Enabled(s, e)
    requires (e.Arrive? || e.Work?) && !Checking(s, e)
    ensures var t := Next(p, s, e);
            && (Has(t.master, l, k) <==> Has(s.master, l, k))
            && (Has(s.master, l, k) ==>
                  && t.master[l].rules[k].memory == s.master[l].rules[k].memory
                  && t.master[l].rules[k].spec == s.master[l].rules[k].spec)
  {
  }

  lemma ChecksKept<C, H>(p: Protocol<C, H>, l: nat, k: nat, s: Sys<C>, h: Probe, e: Event<C, H>)
    requires AlignInv(p, s, h) && l < LISTS && TallyInv(l, k, s, h) && CountInv(l, k, s, h) && CheckInv(l, k, s, h)
    requires PastInv(s) && Enabled(s, e)
    ensures CheckInv(l, k, Next(p, s, e), Seen(p, l, k, s, h, e))
  {
    if e.Load? {
      LoadChecks(p, l, k, s, h, e);
    } else if e.Edit? {
      EditChecks(p, l, k, s, h, e);
    } else if Checking(s, e) {
      DecideChecks(p, l, k, s, h, e);
    } else {
      MemoryKept(p, l, k, s, h, e);
      HistoryKept(p, l, k, s, h, e);
    }
  }

  lemma HistoryKept<C, H>(p: Protocol<C, H>, l: nat, k: nat, s: Sys<C>, h: Probe, e: Event<C, H>)
    requires Shape(s) && l < LISTS && |h.pending| == |s.threads| && Enabled(s, e)
    requires (e.Arrive? || e.Work?) && !Checking(s, e)
    ensures var g := Seen(p, l, k, s, h, e); g.checks == h.checks && g.base == h.base && g.trusted == h.trusted
    ensures Next(p, s, e).wall >= s.wall
  {
    if e.Work? && InRound(s.pc) {
      RoundHistoryKept(p, l, k, s, h, e.walls);
    }
  }

  lemma RoundHistoryKept<C, H>(p: Protocol<C, H>, l: nat, k: nat, s: Sys<C>, h: Probe, walls: Walls)
    requires Shape(s) && l < LISTS && |h.pending| == |s.threads| && |walls.at| == LISTS && InRound(s.pc)
    ensures var g := WorkSeen(p, l, k, s, h, walls);
            g.checks == h.checks && g.base == h.base && g.trusted == h.trusted
  {
    if s.pc.CalcDelta? || s.pc.Snapshot? {
    } else {
      VisitHistoryKept(p, l, k, s, h, walls);
    }
  }

  lemma VisitHistoryKept<C, H>(p: Protocol<C, H>, l: nat, k: nat, s: Sys<C>, h: Probe, walls: Walls)
    requires Shape(s) && l < LISTS && |h.pending| == |s.threads| && |walls.at| == LISTS
    requires s.pc.Compare? || s.pc.Copy? || s.pc.Merge?
    ensures var g := WorkSeen(p, l, k, s, h, walls);
            g.checks == h.checks && g.base == h.base && g.trusted == h.trusted
  {
  }

  lemma LoadChecks<C, H>(p: Protocol<C, H>, l: nat, k: nat, s: Sys<C>, h: Probe, e: Event<C, H>)
    requires Shape(s) && l < LISTS && |h.pending| == |s.threads| && CheckInv(l, k, s, h) && Enabled(s, e) && e.Load?
    ensures CheckInv(l, k, Next(p, s, e), Seen(p, l, k, s, h, e))
  {
  }

  /** After an edit of its own list the history of a rule begins anew; edits elsewhere leave it alone. */
  lemma EditChecks<C, H>(p: Protocol<C, H>, l: nat, k: nat, s: Sys<C>, h: Probe, e: Event<C, H>)
    requires Shape(s) && l < LISTS && |h.pending| == |s.threads| && CheckInv(l, k, s, h) && PastInv(s)
    requires Enabled(s, e) && e.Edit?
    ensures CheckInv(l, k, Next(p, s, e), Seen(p, l, k, s, h, e))
  {
    var t, g := Next(p, s, e), Seen(p, l, k, s, h, e);
    if e.m == l {
      EditFromBefore(s, l, e.edit);
      assert t.master[l].rules == AfterEdit(s.master[l].rules, e.edit);
    } else {
      assert t.master[l] == s.master[l];
      assert g.checks == h.checks && g.base == h.base && g.trusted == h.trusted;
    }
  }

  /** Every rule of an edited list is new, or was there before. */
  lemma EditFromBefore<C>(s: Sys<C>, m: nat, edit: ListEdit<C>)
    requires PastInv(s) && m < |s.master| && (edit.Del? || FreshRule(edit.r))
    ensures var rules := AfterEdit(s.master[m].rules, edit);
            forall k: nat {:trigger rules[k]} :: k < |rules| ==> FromBefore(rules[k].memory, s.wall)
  {
    var old_, rules := s.master[m].rules, AfterEdit(s.master[m].rules, edit);
    forall k: nat | k < |rules|
      ensures FromBefore(rules[k].memory, s.wall)
    {
      assert rules[k] in old_ || (!edit.Del? && rules[k] == edit.r);
      if rules[k] in old_ {
        var j: nat :| j < |old_| && old_[j] == rules[k];
        assert Has(s.master, m, j);
      }
    }
  }

  lemma PastKept<C, H>(p: Protocol<C, H>, s: Sys<C>, e: Event<C, H>)
    requires Shape(s) && PastInv(s) && Enabled(s, e)
    ensures PastInv(Next(p, s, e))
  {
    match e
    case Arrive(_, _, _) =>
    case Load(_, _) => PastLoaded(p, s, e);
    case Edit(m, edit) => EditFromBefore(s, m, edit);
    case Work(_, _) =>
      if s.pc.Merge? {
        PastMerged(p, s, e);
      } else if s.pc.CalcDelta? {
        PastRated(p, s, e);
      } else if Checking(s, e) {
        PastChecked(p, s, e);
      }
  }

  lemma PastLoaded<C, H>(p: Protocol<C, H>, s: Sys<C>, e: Event<C, H>)
    requires Shape(s) && PastInv(s) && Enabled(s, e) && e.Load?
    ensures PastInv(Next(p, s, e))
  {
  }

  lemma PastMerged<C, H>(p: Protocol<C, H>, s: Sys<C>, e: Event<C, H>)
    requires Shape(s) && PastInv(s) && Enabled(s, e) && e.Work? && s.pc.Merge?
    ensures PastInv(Next(p, s, e))
  {
  }

  lemma PastRated<C, H>(p: Protocol<C, H>, s: Sys<C>, e: Event<C, H>)
    requires Shape(s) && PastInv(s) && Enabled(s, e) && e.Work? && s.pc.CalcDelta?
    ensures PastInv(Next(p, s, e))
  {
    assert forall l :: 0 <= l < LISTS ==> DeltaDefined(s.master[l], s.prev[l]);
  }

  lemma PastChecked<C, H>(p: Protocol<C, H>, s: Sys<C>, e: Event<C, H>)
    requires Shape(s) && PastInv(s) && Enabled(s, e) && Checking(s, e)
    ensures PastInv(Next(p, s, e))
  {
  }

  /** Every tick is accounted for; within a round, what is merged so far is not yet a tick. */
  ghost predicate Balanced(h: Probe, inRound: bool) {
    if inRound then
      Counted(h.ticks) + |h.tick| == |h.merged| && Counted(h.byteTicks) + TotalLen(h.tick) == TotalLen(h.merged)
    else
      Counted(h.ticks) == |h.merged| && Counted(h.byteTicks) == TotalLen(h.merged)
  }

  ghost predicate AllFaithful(ts: seq<Tick>) {
    forall i {:trigger ts[i]} :: 0 <= i < |ts| ==> Faithful(ts[i])
  }

  ghost predicate TickInv<C>(l: nat, k: nat, s: Sys<C>, h: Probe) {
    && AllFaithful(h.ticks) && AllFaithful(h.byteTicks)
    && (Has(s.master, l, k) && !h.changed ==> Balanced(h, InRound(s.pc)))
  }

  lemma SnapshotTicks<C, H>(p: Protocol<C, H>, l: nat, k: nat, s: Sys<C>, h: Probe, e: Event<C, H>)
    requires AlignInv(p, s, h) && l < LISTS && TallyInv(l, k, s, h) && CountInv(l, k, s, h) && TickInv(l, k, s, h)
    requires Enabled(s, e) && e.Work? && s.pc.Snapshot?
    ensures TickInv(l, k, Next(p, s, e), Seen(p, l, k, s, h, e))
  {
    if !h.changed && Has(s.master, l, k) {
      var r := s.master[l].rules[k];
      TallyMeaning(h.tick);
      var t, b := Tick(|h.tick|, h.dt, r.pps), Tick(TotalLen(h.tick), h.dt, r.bps);
      assert Faithful(t) && Faithful(b);
      assert (h.ticks + [t])[..|h.ticks|] == h.ticks;
      assert (h.byteTicks + [b])[..|h.byteTicks|] == h.byteTicks;
    }
  }

  lemma MergeTicks<C, H>(p: Protocol<C, H>, l: nat, k: nat, s: Sys<C>, h: Probe, e: Event<C, H>)
    requires AlignInv(p, s, h) && l < LISTS && |h.pending| == |s.threads| && TickInv(l, k, s, h)
    requires Enabled(s, e) && e.Work? && s.pc.Merge?
    ensures TickInv(l, k, Next(p, s, e), Seen(p, l, k, s, h, e))
  {
    MergeAligns(p, l, k, s, h, e);
    var news := h.pending[s.pc.i];
    TotalLenConcat(h.tick, news);
    TotalLenConcat(h.merged, news);
  }

  ghost predicate SameTicks(h: Probe, g: Probe) {
    && g.ticks == h.ticks && g.byteTicks == h.byteTicks && g.merged == h.merged && g.changed == h.changed
  }

  /** Between merges and snapshots the tick history changes only when a round starts. */
  lemma QuietHistory<C, H>(p: Protocol<C, H>, l: nat, k: nat, s: Sys<C>, h: Probe, walls: Walls)
    requires Shape(s) && l < LISTS && |h.pending| == |s.threads| && |walls.at| == LISTS
    requires s.pc.Idle? || s.pc.Compare? || s.pc.Copy? || s.pc.CalcDelta?
    ensures var g := WorkSeen(p, l, k, s, h, walls);
            SameTicks(h, g) && g.tick == if s.pc.Idle? then [] else h.tick
  {
  }

  lemma DecideHistory<C, H>(p: Protocol<C, H>, l: nat, k: nat, s: Sys<C>, h: Probe, walls: Walls)
    requires Shape(s) && l < LISTS && |h.pending| == |s.threads| && |walls.at| == LISTS && s.pc.Decide?
    ensures var g := WorkSeen(p, l, k, s, h, walls); SameTicks(h, g) && g.tick == h.tick
  {
  }

  lemma QuietMaster<C, H>(p: Protocol<C, H>, l: nat, k: nat, s: Sys<C>, e: Event<C, H>)
    requires Shape(s) && l < LISTS && Enabled(s, e) && e.Work? && !s.pc.Merge? && !s.pc.Snapshot? && !s.pc.Crashed?
    ensures InRound(Next(p, s, e).pc) <==> !s.pc.Decide?
    ensures Has(Next(p, s, e).master, l, k) ==> Has(s.master, l, k)
  {
  }

  lemma WorkTicks<C, H>(p: Protocol<C, H>, l: nat, k: nat, s: Sys<C>, h: Probe, e: Event<C, H>)
    requires AlignInv(p, s, h) && l < LISTS && |h.pending| == |s.threads| && TickInv(l, k, s, h)
    requires Enabled(s, e) && e.Work? && !s.pc.Merge? && !s.pc.Snapshot?
    ensures TickInv(l, k, Next(p, s, e), Seen(p, l, k, s, h, e))
  {
    if s.pc.Decide? {
      DecideHistory(p, l, k, s, h, e.walls);
    } else {
      QuietHistory(p, l, k, s, h, e.walls);
    }
    QuietMaster(p, l, k, s, e);
    assert s.pc.Idle? || s.pc.Decide? || InRound(s.pc);
  }

  lemma OtherTicks<C, H>(p: Protocol<C, H>, l: nat, k: nat, s: Sys<C>, h: Probe, e: Event<C, H>)
    requires AlignInv(p, s, h) && l < LISTS && |h.pending| == |s.threads| && TickInv(l, k, s, h)
    requires Enabled(s, e) && !e.Work?
    ensures TickInv(l, k, Next(p, s, e), Seen(p, l, k, s, h, e))
  {
  }

  lemma TicksKept<C, H>(p: Protocol<C, H>, l: nat, k: nat, s: Sys<C>, h: Probe, e: Event<C, H>)
    requires AlignInv(p, s, h) && l < LISTS && TallyInv(l, k, s, h) && CountInv(l, k, s, h) && TickInv(l, k, s, h)
    requires Enabled(s, e)
    ensures TickInv(l, k, Next(p, s, e), Seen(p, l, k, s, h, e))
  {
    if e.Work? && s.pc.Merge? {
      MergeTicks(p, l, k, s, h, e);
    } else if e.Work? && s.pc.Snapshot? {
      SnapshotTicks(p, l, k, s, h, e);
    } else if e.Work? {
      WorkTicks(p, l, k, s, h, e);
    } else {
      OtherTicks(p, l, k, s, h, e);
    }
  }

  // ---- clocks ----

  /** List `m` has been merged into in this round, so its time stamp is newer than the snapshot's. */
  predicate Stamped<C>(s: Sys<C>, m: nat) {
    match s.pc
    case Compare(i) => i > 0
    case Copy(i, _) => i > 0
    case Merge(i, l) => i > 0 || m < l
    case CalcDelta => true
    case _ => false
  }

  ghost predicate ClockInv<C>(s: Sys<C>)
    requires Shape(s)
  {
    forall m {:trigger s.master[m]} {:trigger s.prev[m]} :: 0 <= m < LISTS ==>
      && s.master[m].updated <= s.clock && s.prev[m].updated <= s.clock
      && (Visiting(s.pc) ==> s.prev[m].updated < s.clock)
      && (Stamped(s, m) ==> s.prev[m].updated < s.master[m].updated)
  }

  /** Since the round began, and until a new snapshot is taken, the clock is past the old one. */
  predicate Visiting(pc: Pc) {
    pc.Compare? || pc.Copy? || pc.Merge? || pc.CalcDelta?
  }

  lemma ClocksKept<C, H>(p: Protocol<C, H>, s: Sys<C>, e: Event<C, H>)
    requires Shape(s) && Enabled(s, e) && ClockInv(s) && Shape(Next(p, s, e))
    requires s.pc.Merge? ==> |s.master[s.pc.l].rules| == |s.threads[s.pc.i][s.pc.l].rules|
    ensures ClockInv(Next(p, s, e))
  {
  }

  // ---- all of it, over every run ----

  ghost predicate Inv<C, H>(p: Protocol<C, H>, l: nat, k: nat, s: Sys<C>, h: Probe) {
    && l < LISTS && AlignInv(p, s, h) && TallyInv(l, k, s, h) && CountInv(l, k, s, h)
    && CheckInv(l, k, s, h) && TickInv(l, k, s, h) && ClockInv(s) && PastInv(s)
  }

  lemma StepAligns<C(!new), H>(p: Protocol<C, H>, l: nat, k: nat, s: Sys<C>, h: Probe, e: Event<C, H>)
    requires Reflexive(p) && AlignInv(p, s, h) && Enabled(s, e) && |h.pending| == |s.threads| && l < LISTS
    ensures AlignInv(p, Next(p, s, e), Seen(p, l, k, s, h, e))
    ensures s.pc.Merge? ==> |s.master[s.pc.l].rules| == |s.threads[s.pc.i][s.pc.l].rules|
  {
    if s.pc.Merge? {
      assert SameColl(p, s.threads[s.pc.i], s.master);
      assert SameRules(p, s.threads[s.pc.i][s.pc.l].rules, s.master[s.pc.l].rules);
    }
    match e
    case Arrive(_, _, _) => ArriveAligns(p, l, k, s, h, e);
    case Load(_, _) => LoadAligns(p, l, k, s, h, e);
    case Edit(_, _) => EditAligns(p, l, k, s, h, e);
    case Work(_, _) =>
      if s.pc.Copy? {
        CopyAligns(p, l, k, s, h, e);
      } else if s.pc.Merge? {
        MergeAligns(p, l, k, s, h, e);
      } else if s.pc.Idle? || s.pc.Compare? {
        CompareAligns(p, l, k, s, h, e);
      } else {
        LastAligns(p, l, k, s, h, e);
      }
  }

  lemma StepKeeps<C(!new), H>(p: Protocol<C, H>, l: nat, k: nat, s: Sys<C>, h: Probe, e: Event<C, H>)
    requires Reflexive(p) && Inv(p, l, k, s, h) && Enabled(s, e)
    ensures Inv(p, l, k, Next(p, s, e), Seen(p, l, k, s, h, e))
  {
    StepAligns(p, l, k, s, h, e);
    TallyKept(p, l, k, s, h, e);
    RoundKept(p, l, k, s, h, e);
    ChecksKept(p, l, k, s, h, e);
    TicksKept(p, l, k, s, h, e);
    ClocksKept(p, s, e);
    PastKept(p, s, e);
  }

  lemma StartKeeps<C(!new), H>(p: Protocol<C, H>, l: nat, k: nat, s: Sys<C>)
    requires Reflexive(p) && Start(s) && l < LISTS
    ensures Inv(p, l, k, s, NoHistory(|s.threads|))
  {
  }

  lemma {:induction false} RunKeeps<C(!new), H>(
      p: Protocol<C, H>, l: nat, k: nat, s0: Sys<C>, es: seq<Event<C, H>>)
    requires Reflexive(p) && Start(s0) && l < LISTS
    ensures match Run(p, l, k, s0, es) case None => true case Some(at) => Inv(p, l, k, at.s, at.h)
  {
    if es == [] {
      StartKeeps(p, l, k, s0);
    } else {
      var front, e := es[..|es| - 1], es[|es| - 1];
      RunKeeps(p, l, k, s0, front);
      match Run(p, l, k, s0, front)
      case None =>
      case Some(at) =>
        if Enabled(at.s, e) {
          StepKeeps(p, l, k, at.s, at.h, e);
        }
    }
  }
}
