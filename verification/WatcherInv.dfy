/** What every step of the watcher protocol keeps. */
module WatcherInvariants {
  import opened Words
  import opened Tallies
  import opened Rates
  import opened Alarms
  import opened Rules
  import opened RulesLists
  import opened Watchers

  // ---- rules: who agrees with the master ----

  /** Threads `0 .. InStep - 1` have the master's rules. With no change pending, all have. */
  function InStep<C>(s: Sys<C>, h: Probe): nat {
    if !h.changed then |s.threads|
    else
      match s.pc
      case Idle => 0
      case Compare(i) => i
      case Copy(i, _) => i
      case Merge(i, _) => i + 1
      case _ => |s.threads|
  }

  ghost predicate SameUpTo<C, H>(p: Protocol<C, H>, s: Sys<C>, n: int) {
    forall i {:trigger s.threads[i]} :: 0 <= i < n && i < |s.threads| ==> SameColl(p, s.threads[i], s.master)
  }

  ghost predicate AlignInv<C, H>(p: Protocol<C, H>, s: Sys<C>, h: Probe) {
    && Shape(s) && !s.pc.Crashed?
    && SameUpTo(p, s, InStep(s, h))
    && (s.pc.Copy? ==>
          && h.changed && h.stale
          && forall m {:trigger s.master[m]} :: 0 <= m < s.pc.l ==>
               SameRules(p, s.threads[s.pc.i][m].rules, s.master[m].rules))
    && (s.pc.Merge? && h.stale ==> h.changed)
    && s.seen <= s.change
    && (h.changed ==> (s.seen != s.change || h.edited) && !s.pc.Decide? && !h.sound)
    && (h.edited ==> h.changed && s.seen == s.change)
    && (s.pc.Snapshot? ==> (h.exact <==> !h.changed) && (h.tainted <==> h.edited))
    && (s.pc.Decide? && s.seen == s.change ==> (h.exact <==> !h.tainted))
  }

  lemma ArriveAligns<C, H>(p: Protocol<C, H>, l: nat, k: nat, s: Sys<C>, h: Probe, e: Event<C, H>)
    requires AlignInv(p, s, h) && Enabled(s, e) && e.Arrive? && |h.pending| == |s.threads| && l < LISTS
    ensures AlignInv(p, Next(p, s, e), Seen(p, l, k, s, h, e))
  {
  }

  lemma LoadAligns<C, H>(p: Protocol<C, H>, l: nat, k: nat, s: Sys<C>, h: Probe, e: Event<C, H>)
    requires AlignInv(p, s, h) && Enabled(s, e) && e.Load? && |h.pending| == |s.threads| && l < LISTS
    ensures AlignInv(p, Next(p, s, e), Seen(p, l, k, s, h, e))
  {
  }

  lemma EditAligns<C, H>(p: Protocol<C, H>, l: nat, k: nat, s: Sys<C>, h: Probe, e: Event<C, H>)
    requires AlignInv(p, s, h) && Enabled(s, e) && e.Edit? && |h.pending| == |s.threads| && l < LISTS
    ensures AlignInv(p, Next(p, s, e), Seen(p, l, k, s, h, e))
  {
  }

  lemma CopyAligns<C(!new), H>(p: Protocol<C, H>, l: nat, k: nat, s: Sys<C>, h: Probe, e: Event<C, H>)
    requires AlignInv(p, s, h) && Enabled(s, e) && e.Work? && |h.pending| == |s.threads| && l < LISTS
    requires Reflexive(p) && s.pc.Copy?
    ensures AlignInv(p, Next(p, s, e), Seen(p, l, k, s, h, e))
  {
  }

  lemma MergeAligns<C, H>(p: Protocol<C, H>, l: nat, k: nat, s: Sys<C>, h: Probe, e: Event<C, H>)
    requires AlignInv(p, s, h) && Enabled(s, e) && e.Work? && |h.pending| == |s.threads| && l < LISTS
    requires s.pc.Merge?
    ensures |s.threads[s.pc.i][s.pc.l].rules| == |s.master[s.pc.l].rules|
    ensures AlignInv(p, Next(p, s, e), Seen(p, l, k, s, h, e))
  {
  }

  /** Between visits and after them, the threads stay as they are and the master keeps its rules. */
  lemma OtherSameUpTo<C, H>(p: Protocol<C, H>, s: Sys<C>, e: Event<C, H>, n: int)
    requires Shape(s) && Enabled(s, e) && e.Work? && SameUpTo(p, s, n)
    requires !s.pc.Copy? && !s.pc.Merge? && !s.pc.Crashed?
    ensures SameUpTo(p, Next(p, s, e), n)
  {
  }

  lemma CompareAligns<C, H>(p: Protocol<C, H>, l: nat, k: nat, s: Sys<C>, h: Probe, e: Event<C, H>)
    requires AlignInv(p, s, h) && Enabled(s, e) && e.Work? && |h.pending| == |s.threads| && l < LISTS
    requires s.pc.Idle? || s.pc.Compare?
    ensures AlignInv(p, Next(p, s, e), Seen(p, l, k, s, h, e))
  {
    OtherSameUpTo(p, s, e, InStep(s, h));
  }

  lemma LastAligns<C, H>(p: Protocol<C, H>, l: nat, k: nat, s: Sys<C>, h: Probe, e: Event<C, H>)
    requires AlignInv(p, s, h) && Enabled(s, e) && e.Work? && |h.pending| == |s.threads| && l < LISTS
    requires s.pc.CalcDelta? || s.pc.Snapshot? || s.pc.Decide?
    ensures AlignInv(p, Next(p, s, e), Seen(p, l, k, s, h, e))
  {
    OtherSameUpTo(p, s, e, InStep(s, h));
  }

  // ---- counters of the threads ----

  /** List `l` of thread `i` still holds what was copied from the master. */
  predicate Dirty<C>(s: Sys<C>, h: Probe, l: nat, i: nat) {
    h.stale && match s.pc
               case Copy(j, m) => j == i && m > l
               case Merge(j, m) => j == i && m <= l
               case _ => false
  }

  ghost predicate TallyInv<C>(l: nat, k: nat, s: Sys<C>, h: Probe)
    requires Shape(s) && l < LISTS
  {
    && |h.pending| == |s.threads|
    && forall i {:trigger h.pending[i]} :: 0 <= i < |s.threads| && !Dirty(s, h, l, i) && Has(s.threads[i], l, k) ==>
         s.threads[i][l].rules[k].tally == TallyOf(h.pending[i])
  }

  lemma TallyKept<C, H>(p: Protocol<C, H>, l: nat, k: nat, s: Sys<C>, h: Probe, e: Event<C, H>)
    requires AlignInv(p, s, h) && l < LISTS && TallyInv(l, k, s, h) && Enabled(s, e)
    requires Shape(Next(p, s, e))
    ensures TallyInv(l, k, Next(p, s, e), Seen(p, l, k, s, h, e))
  {
    var t, g := Next(p, s, e), Seen(p, l, k, s, h, e);
    forall i {:trigger g.pending[i]} | 0 <= i < |t.threads| && !Dirty(t, g, l, i) && Has(t.threads[i], l, k)
      ensures t.threads[i][l].rules[k].tally == TallyOf(g.pending[i])
    {
      TallyKeptAt(p, l, k, s, h, e, i);
    }
  }

  lemma TallyKeptAt<C, H>(p: Protocol<C, H>, l: nat, k: nat, s: Sys<C>, h: Probe, e: Event<C, H>, i: nat)
    requires AlignInv(p, s, h) && l < LISTS && TallyInv(l, k, s, h) && Enabled(s, e)
    requires Shape(Next(p, s, e))
    requires i < |s.threads| && !Dirty(Next(p, s, e), Seen(p, l, k, s, h, e), l, i)
    requires Has(Next(p, s, e).threads[i], l, k)
    ensures Next(p, s, e).threads[i][l].rules[k].tally == TallyOf(Seen(p, l, k, s, h, e).pending[i])
  {
    match e
    case Arrive(_, _, _) => ArriveTallyAt(p, l, k, s, h, e, i);
    case Load(_, _) => ChangeTallyAt(p, l, k, s, h, e, i);
    case Edit(_, _) => ChangeTallyAt(p, l, k, s, h, e, i);
    case Work(_, _) =>
      if s.pc.Merge? {
        MergeTallyAt(p, l, k, s, h, e, i);
      } else if s.pc.Copy? {
        CopyTallyAt(p, l, k, s, h, e, i);
      } else {
        OtherTallyAt(p, l, k, s, h, e, i);
      }
  }

  lemma OtherTallyAt<C, H>(p: Protocol<C, H>, l: nat, k: nat, s: Sys<C>, h: Probe, e: Event<C, H>, i: nat)
    requires Shape(s) && l < LISTS && TallyInv(l, k, s, h) && Enabled(s, e) && e.Work? && !s.pc.Copy? && !s.pc.Merge?
    requires i < |s.threads| && Has(s.threads[i], l, k)
    ensures Next(p, s, e).threads == s.threads
    ensures s.threads[i][l].rules[k].tally == TallyOf(Seen(p, l, k, s, h, e).pending[i])
  {
    PendingKept(p, l, k, s, h, e.walls);
  }

  lemma PendingKept<C, H>(p: Protocol<C, H>, l: nat, k: nat, s: Sys<C>, h: Probe, walls: Walls)
    requires Shape(s) && l < LISTS && |h.pending| == |s.threads| && |walls.at| == LISTS && !s.pc.Copy? && !s.pc.Merge?
    ensures WorkSeen(p, l, k, s, h, walls).pending == h.pending
  {
    if s.pc.Decide? {
      DecidePending(p, l, k, s, h, walls);
    } else if s.pc.Snapshot? {
      SnapshotPending(p, l, k, s, h, walls);
    }
  }

  lemma DecidePending<C, H>(p: Protocol<C, H>, l: nat, k: nat, s: Sys<C>, h: Probe, walls: Walls)
    requires Shape(s) && l < LISTS && |h.pending| == |s.threads| && |walls.at| == LISTS && s.pc.Decide?
    ensures WorkSeen(p, l, k, s, h, walls).pending == h.pending
  {
  }

  lemma SnapshotPending<C, H>(p: Protocol<C, H>, l: nat, k: nat, s: Sys<C>, h: Probe, walls: Walls)
    requires Shape(s) && l < LISTS && |h.pending| == |s.threads| && |walls.at| == LISTS && s.pc.Snapshot?
    ensures WorkSeen(p, l, k, s, h, walls).pending == h.pending
  {
  }

  /** Reloads and edits do not touch the threads. */
  lemma ChangeTallyAt<C, H>(p: Protocol<C, H>, l: nat, k: nat, s: Sys<C>, h: Probe, e: Event<C, H>, i: nat)
    requires Shape(s) && l < LISTS && TallyInv(l, k, s, h) && Enabled(s, e) && (e.Load? || e.Edit?)
    requires i < |s.threads| && Has(s.threads[i], l, k)
    ensures Next(p, s, e).threads == s.threads
    ensures s.threads[i][l].rules[k].tally == TallyOf(Seen(p, l, k, s, h, e).pending[i])
  {
  }

  lemma ArriveTallyAt<C, H>(p: Protocol<C, H>, l: nat, k: nat, s: Sys<C>, h: Probe, e: Event<C, H>, i: nat)
    requires AlignInv(p, s, h) && l < LISTS && TallyInv(l, k, s, h) && Enabled(s, e) && e.Arrive?
    requires i < |s.threads| && !Dirty(s, h, l, i) && Has(Next(p, s, e).threads[i], l, k)
    ensures Next(p, s, e).threads[i][l].rules[k].tally == TallyOf(Seen(p, l, k, s, h, e).pending[i])
  {
  }

  lemma MergeTallyAt<C, H>(p: Protocol<C, H>, l: nat, k: nat, s: Sys<C>, h: Probe, e: Event<C, H>, i: nat)
    requires AlignInv(p, s, h) && l < LISTS && TallyInv(l, k, s, h) && Enabled(s, e) && e.Work? && s.pc.Merge?
    requires i < |s.threads| && !Dirty(Next(p, s, e), Seen(p, l, k, s, h, e), l, i)
    requires |Next(p, s, e).threads[i]| == LISTS && Has(Next(p, s, e).threads[i], l, k)
    ensures Next(p, s, e).threads[i][l].rules[k].tally == TallyOf(Seen(p, l, k, s, h, e).pending[i])
  {
  }

  lemma CopyTallyAt<C, H>(p: Protocol<C, H>, l: nat, k: nat, s: Sys<C>, h: Probe, e: Event<C, H>, i: nat)
    requires AlignInv(p, s, h) && l < LISTS && TallyInv(l, k, s, h) && Enabled(s, e) && e.Work? && s.pc.Copy?
    requires i < |s.threads| && !Dirty(Next(p, s, e), Seen(p, l, k, s, h, e), l, i)
    requires |Next(p, s, e).threads[i]| == LISTS && Has(Next(p, s, e).threads[i], l, k)
    ensures Next(p, s, e).threads[i][l].rules[k].tally == TallyOf(Seen(p, l, k, s, h, e).pending[i])
  {
  }
}
