/** Netmap receive rings: the helpers of the library, the poller, and the drain loop of a thread. */
module Rings {
  import opened Words
  import opened Rules
  import opened RulesLists
  import opened Watchers
  import opened Collections
  import opened Sharding
  import opened SlotFlags

  const NR_TIMESTAMP: bv32 := 0x0002
  const NR_FORWARD: bv32 := 0x0004

  // ---- circular arithmetic ----

  function RingNext(n: nat, i: nat): nat {
    if i + 1 == n then 0 else i + 1
  }

  /** The number of slots from `cur` up to `tail`. */
  function RingSpace(n: nat, cur: nat, tail: nat): int {
    if tail - cur < 0 then tail - cur + n else tail - cur
  }

  /** The slots from `cur` up to `tail`, in circular order. */
  function Window(n: nat, cur: nat, tail: nat): seq<nat>
    requires cur < n && tail < n
    decreases RingSpace(n, cur, tail)
  {
    if cur == tail then [] else [cur] + Window(n, RingNext(n, cur), tail)
  }

  /** The window holds each slot of `[cur, tail)` once, and `nm_ring_space` is its size. */
  lemma {:induction false} WindowMeaning(n: nat, cur: nat, tail: nat)
    requires cur < n && tail < n
    ensures |Window(n, cur, tail)| == RingSpace(n, cur, tail)
    ensures forall i {:trigger Window(n, cur, tail)[i]} :: 0 <= i < |Window(n, cur, tail)| ==>
              Window(n, cur, tail)[i] == if cur + i < n then cur + i else cur + i - n
    decreases RingSpace(n, cur, tail)
  {
    if cur != tail {
      WindowMeaning(n, RingNext(n, cur), tail);
    }
  }

  /** Slot `k` lies in `[cur, tail)`, which may wrap around the end of the ring. */
  predicate Between(cur: nat, tail: nat, k: nat) {
    if cur <= tail then cur <= k < tail else cur <= k || k < tail
  }

  lemma WindowHasExactly(n: nat, cur: nat, tail: nat, k: nat)
    requires cur < n && tail < n && k < n
    ensures k in Window(n, cur, tail) <==> Between(cur, tail, k)
  {
    WindowMeaning(n, cur, tail);
    if Between(cur, tail, k) {
      assert Window(n, cur, tail)[if cur <= k then k - cur else k - cur + n] == k;
    }
  }

  lemma WindowHasNoRepeats(n: nat, cur: nat, tail: nat, i: nat, j: nat)
    requires cur < n && tail < n && i < j < |Window(n, cur, tail)|
    ensures Window(n, cur, tail)[i] != Window(n, cur, tail)[j]
  {
    WindowMeaning(n, cur, tail);
  }

  lemma WindowStep(n: nat, cur: nat, tail: nat, visited: seq<nat>)
    requires cur < n && tail < n && cur != tail
    ensures visited + [cur] + Window(n, RingNext(n, cur), tail) == visited + Window(n, cur, tail)
    ensures RingSpace(n, RingNext(n, cur), tail) < RingSpace(n, cur, tail)
  {
  }

  // ---- rings and pollers ----

  /** `tail` belongs to the kernel, which moves it only during a system call. */
  class NetmapRing {
    const slots: array<Slot>
    const tail: nat
    var head: nat
    var cur: nat
    var flags: bv32

    ghost predicate Valid()
      reads this
    {
      cur < slots.Length && tail < slots.Length
    }

    predicate Empty()
      reads this
    {
      cur == tail
    }
  }

  lemma BothFlags(f: bv32)
    ensures f | NR_FORWARD | NR_TIMESTAMP == f | 0x0006
  {
  }

  class NetmapPoller {
    const ring: NetmapRing
    var buffLen: u16
    var curSlot: nat

    constructor (ring: NetmapRing)
      ensures this.ring == ring
    {
      this.ring := ring;
      buffLen, curSlot := 0, 0;
    }

    /** The buffer index of the current slot, or nothing when the ring is empty. */
    method GetBuffFromRing() returns (buf: Option<u32>)
      requires ring.Valid()
      modifies this, ring`flags
      ensures ring.flags == old(ring.flags) | 0x0006
      ensures buf.None? <==> ring.Empty()
      ensures buf.Some? ==> curSlot == ring.cur
                            && buf.value == ring.slots[ring.cur].bufIdx && buffLen == ring.slots[ring.cur].len
    {
      ring.flags := ring.flags | NR_FORWARD;
      ring.flags := ring.flags | NR_TIMESTAMP;
      assert ring.flags == old(ring.flags) | 0x0006 by {
        BothFlags(old(ring.flags));
      }
      if ring.Empty() {
        return None;
      }
      curSlot := ring.cur;
      buffLen := ring.slots[curSlot].len;
      return Some(ring.slots[curSlot].bufIdx);
    }

    method SetForward()
      requires curSlot < ring.slots.Length
      modifies ring.slots
      ensures ring.slots[..] == old(ring.slots[..])[curSlot := Marked(old(ring.slots[curSlot]))]
      ensures var s, t := old(ring.slots[curSlot]), ring.slots[curSlot];
              && t.bufIdx == s.bufIdx && t.len == s.len
              && FlagWord(s.flags, t.flags, true)
    {
      var s := ring.slots[curSlot];
      SetBit(s.flags, s.flags | NS_FORWARD, true);
      ring.slots[curSlot] := s.(flags := s.flags | NS_FORWARD);
    }

    method Next()
      modifies ring`cur, ring`head
      ensures ring.cur == ring.head == RingNext(ring.slots.Length, curSlot)
    {
      ring.cur := RingNext(ring.slots.Length, curSlot);
      ring.head := ring.cur;
    }
  }

  /** A descriptor over the rings `[firstRx, lastRx]`, read by `nm_nextpkt`. */
  class NetmapDesc {
    const rings: seq<NetmapRing>
    const firstRx: nat
    const lastRx: nat
    var curRx: nat

    ghost predicate Valid()
      reads this, rings
    {
      && firstRx <= curRx <= lastRx < |rings|
      && (forall k :: 0 <= k < |rings| ==> rings[k].Valid())
      && forall j, k :: 0 <= j < k < |rings| ==> rings[j] != rings[k]
    }

    /**
      The next packet: the current slot of the first ring, from the current one round, that is not
      empty. Nothing is returned only if every ring is empty, and then nothing has changed.
     */
    method NextPkt() returns (buf: Option<(u32, u16)>)
      requires Valid()
      modifies this, rings
      ensures Valid()
      ensures buf.None? <==> forall k :: firstRx <= k <= lastRx ==> old(rings[k].Empty())
      ensures buf.None? ==> curRx == old(curRx) && forall k :: 0 <= k < |rings| ==> unchanged(rings[k])
      ensures buf.Some? ==>
                forall k :: firstRx <= k <= lastRx && Between(old(curRx), curRx, k) ==> old(rings[k].Empty())
      ensures buf.Some? ==>
                var ring := rings[curRx];
                var at := old(ring.cur);
                && at < ring.slots.Length && at != ring.tail
                && buf.value == (ring.slots[at].bufIdx, ring.slots[at].len)
                && ring.cur == ring.head == RingNext(ring.slots.Length, at) && ring.flags == old(ring.flags)
                && forall k :: 0 <= k < |rings| && k != curRx ==> unchanged(rings[k])
    {
      var ri, more := curRx, true;
      while more
        invariant firstRx <= ri <= lastRx
        invariant more ==> forall k :: firstRx <= k <= lastRx && Between(curRx, ri, k) ==> rings[k].Empty()
        invariant !more ==> forall k :: firstRx <= k <= lastRx ==> rings[k].Empty()
        decreases more, if ri >= curRx then lastRx - ri + curRx + 1 else curRx - ri
      {
        var ring := rings[ri];
        if !ring.Empty() {
          var i := ring.cur;
          buf := Some((ring.slots[i].bufIdx, ring.slots[i].len));
          ring.cur := RingNext(ring.slots.Length, i);
          ring.head := ring.cur;
          curRx := ri;
          return;
        }
        ri := ri + 1;
        if ri > lastRx {
          ri := firstRx;
        }
        more := ri != curRx;
      }
      return None;
    }
  }

  // ---- the drain loop ----

  /** How a buffer reads as a frame; buffers do not change while the thread owns them. */
  type Decoder<!H> = (u32, u16) -> Frame<H>

  ghost predicate Decodes<H>(decode: Decoder<H>) {
    forall b, n :: Known(decode(b, n))
  }

  function FrameAt<H>(decode: Decoder<H>, slots: seq<Slot>, k: nat): Frame<H>
    requires k < |slots|
  {
    decode(slots[k].bufIdx, slots[k].len)
  }

  predicate Slots(ids: seq<nat>, n: nat) {
    forall j :: 0 <= j < |ids| ==> ids[j] < n
  }

  /** The lists after the frames of `ids`, in order. */
  ghost function FedFrames<C, H>(
      p: Protocol<C, H>, c: Coll<C>, decode: Decoder<H>, slots: seq<Slot>, ids: seq<nat>): (d: Coll<C>)
    requires |c| == LISTS && Decodes(decode) && Slots(ids, |slots|)
    ensures |d| == LISTS
    ensures forall l {:trigger d[l]} :: 0 <= l < LISTS ==> SameSpecs(d[l].rules, c[l].rules)
  {
    if ids == [] then c
    else
      var before := FedFrames(p, c, decode, slots, ids[..|ids| - 1]);
      FrameCredited(p, before, FrameAt(decode, slots, ids[|ids| - 1]))
  }

  /** The packets of protocol `l` among the frames of `ids`, in order. */
  function PacketsAt<H>(decode: Decoder<H>, slots: seq<Slot>, ids: seq<nat>, l: nat): seq<Packet<H>>
    requires Slots(ids, |slots|)
  {
    if ids == [] then []
    else
      var f := decode(slots[ids[|ids| - 1]].bufIdx, slots[ids[|ids| - 1]].len);
      PacketsAt(decode, slots, ids[..|ids| - 1], l) + if f.Ip? && f.l == l then [f.pkt] else []
  }

  /** Each list is fed the packets of its protocol, in the order of the slots, and keeps its time stamp. */
  lemma {:induction false} FedFramesFeed<C, H>(
      p: Protocol<C, H>, c: Coll<C>, decode: Decoder<H>, slots: seq<Slot>, ids: seq<nat>, l: nat)
    requires |c| == LISTS && Decodes(decode) && Slots(ids, |slots|) && l < LISTS
    ensures var d := FedFrames(p, c, decode, slots, ids);
            d[l].rules == Feed(p, c[l].rules, PacketsAt(decode, slots, ids, l)) && d[l].updated == c[l].updated
  {
    if ids != [] {
      var front, f := ids[..|ids| - 1], FrameAt(decode, slots, ids[|ids| - 1]);
      FedFramesFeed(p, c, decode, slots, front, l);
      var before := PacketsAt(decode, slots, front, l);
      if f.Ip? && f.l == l {
        FeedOneMore(p, c[l].rules, before, f.pkt);
      } else {
        assert before + [] == before;
      }
    }
  }

  lemma FeedOneMore<C, H>(p: Protocol<C, H>, rules: seq<Rule<C>>, pkts: seq<Packet<H>>, pkt: Packet<H>)
    ensures Feed(p, rules, pkts + [pkt]) == Credited(p, Feed(p, rules, pkts), pkt)
  {
    assert (pkts + [pkt])[..|pkts|] == pkts;
  }

  lemma HitsBySpec<C, H>(p: Protocol<C, H>, a: seq<Rule<C>>, b: seq<Rule<C>>, pkt: Packet<H>)
    requires SameSpecs(a, b) && Hits(p, a, pkt)
    ensures Hits(p, b, pkt)
  {
    var k :| 0 <= k < |a| && Stops(p, a[k], pkt);
    assert Stops(p, b[k], pkt);
  }

  /** Counting a frame does not change which later frames hit. */
  lemma HitsStay<C, H>(p: Protocol<C, H>, c: Coll<C>, d: Coll<C>, f: Frame<H>)
    requires |c| == |d| == LISTS && Known(f)
    requires forall l {:trigger d[l]} :: 0 <= l < LISTS ==> SameSpecs(d[l].rules, c[l].rules)
    ensures FrameHits(p, d, f) <==> FrameHits(p, c, f)
  {
    if f.Ip? {
      assert SameSpecs(d[f.l].rules, c[f.l].rules);
      if FrameHits(p, d, f) {
        HitsBySpec(p, d[f.l].rules, c[f.l].rules, f.pkt);
      }
      if FrameHits(p, c, f) {
        HitsBySpec(p, c[f.l].rules, d[f.l].rules, f.pkt);
      }
    }
  }

  /** A slot after the drain: marked for forwarding on ring 0 if it was visited and its frame hit. */
  ghost function SlotAfter<C, H>(
      p: Protocol<C, H>, c: Coll<C>, decode: Decoder<H>, slots: seq<Slot>, visited: seq<nat>, thread: nat, k: nat): Slot
    requires |c| == LISTS && Decodes(decode) && k < |slots|
  {
    if k in visited && thread == 0 && FrameHits(p, c, FrameAt(decode, slots, k)) then Marked(slots[k]) else slots[k]
  }

  ghost predicate SlotsAre<C, H>(
      p: Protocol<C, H>, c: Coll<C>, decode: Decoder<H>, slots: seq<Slot>, visited: seq<nat>, thread: nat,
      now: seq<Slot>)
    requires |c| == LISTS && Decodes(decode)
  {
    && |now| == |slots|
    && forall k {:trigger now[k]} {:trigger slots[k]} :: 0 <= k < |slots| ==>
         now[k] == SlotAfter(p, c, decode, slots, visited, thread, k)
  }

  /**
    What a drain does to the slots, bit by bit: the forward bit of a slot is set afterwards exactly
    if it was set before, or the slot was visited on ring 0 and its frame hit; all other bits, the
    buffer and its length stay as they were.
   */
  lemma ForwardBits<C, H>(
      p: Protocol<C, H>, c: Coll<C>, decode: Decoder<H>, slots: seq<Slot>, visited: seq<nat>, thread: nat,
      now: seq<Slot>, k: nat)
    requires |c| == LISTS && Decodes(decode) && SlotsAre(p, c, decode, slots, visited, thread, now) && k < |slots|
    ensures |now| == |slots| && now[k].bufIdx == slots[k].bufIdx && now[k].len == slots[k].len
    ensures FlagWord(slots[k].flags, now[k].flags,
                     k in visited && thread == 0 && FrameHits(p, c, decode(slots[k].bufIdx, slots[k].len)))
  {
    var marked := k in visited && thread == 0 && FrameHits(p, c, FrameAt(decode, slots, k));
    assert now[k] == if marked then Marked(slots[k]) else slots[k];
    MarkedMeaning(slots[k], now[k], marked);
  }

  /** One turn of the drain loop, on values. */
  lemma DrainStep<C, H>(
      p: Protocol<C, H>, c: Coll<C>, decode: Decoder<H>, slots: seq<Slot>, visited: seq<nat>, thread: nat,
      now: seq<Slot>, at: nat)
    requires |c| == LISTS && Decodes(decode) && Slots(visited, |slots|)
    requires SlotsAre(p, c, decode, slots, visited, thread, now) && at < |slots|
    ensures
      var before, f := FedFrames(p, c, decode, slots, visited), decode(now[at].bufIdx, now[at].len);
      && Slots(visited + [at], |slots|)
      && FedFrames(p, c, decode, slots, visited + [at]) == FrameCredited(p, before, f)
      && SlotsAre(p, c, decode, slots, visited + [at], thread,
                  if FrameHits(p, before, f) && thread == 0 then now[at := Marked(now[at])] else now)
  {
    var before, f := FedFrames(p, c, decode, slots, visited), FrameAt(decode, slots, at);
    assert decode(now[at].bufIdx, now[at].len) == f;
    assert (visited + [at])[..|visited|] == visited;
    HitsStay(p, c, before, f);
    MarkedTwice(slots[at]);
  }

  /** One turn of the drain loop: count the frame of the current slot, mark it, move on. */
  method Handle<C, H>(poller: NetmapPoller, coll: RulesCollection<C, H>, f: Frame<H>, thread: nat)
    requires poller.curSlot < poller.ring.slots.Length && coll.Valid() && Known(f)
    modifies poller.ring`cur, poller.ring`head, poller.ring.slots, coll.tcp, coll.udp, coll.icmp
    ensures poller.ring.cur == poller.ring.head == RingNext(poller.ring.slots.Length, poller.curSlot)
    ensures coll.Lists() == FrameCredited(coll.tcp.proto, old(coll.Lists()), f)
    ensures poller.ring.slots[..] ==
            if FrameHits(coll.tcp.proto, old(coll.Lists()), f) && thread == 0 then
              old(poller.ring.slots[..])[poller.curSlot := Marked(old(poller.ring.slots[poller.curSlot]))]
            else
              old(poller.ring.slots[..])
  {
    var hit := coll.CheckFrame(f);
    if hit {
      if thread == 0 {
        poller.SetForward();
      }
    }
    poller.Next();
  }

  /**
    The inner loop of `netmap_thread`. It visits exactly the slots of `[cur, tail)`, in circular
    order, counts each frame once, leaves the ring empty, and marks exactly the frames that hit,
    on ring 0 only.
   */
  method Drain<C, H>(poller: NetmapPoller, coll: RulesCollection<C, H>, decode: Decoder<H>, thread: nat)
    returns (ghost visited: seq<nat>)
    requires poller.ring.Valid() && coll.Valid() && Decodes(decode)
    modifies poller, poller.ring, poller.ring.slots, coll.tcp, coll.udp, coll.icmp
    ensures visited == old(Window(poller.ring.slots.Length, poller.ring.cur, poller.ring.tail))
    ensures poller.ring.cur == poller.ring.tail
    ensures poller.ring.head == if visited == [] then old(poller.ring.head) else poller.ring.tail
    ensures Slots(visited, poller.ring.slots.Length)
    ensures coll.Lists() == FedFrames(coll.tcp.proto, old(coll.Lists()), decode, old(poller.ring.slots[..]), visited)
    ensures SlotsAre(coll.tcp.proto, old(coll.Lists()), decode, old(poller.ring.slots[..]), visited, thread,
                     poller.ring.slots[..])
    ensures forall k :: 0 <= k < poller.ring.slots.Length ==>
              FlagWord(old(poller.ring.slots[k].flags), poller.ring.slots[k].flags,
                       k in visited && thread == 0
                       && FrameHits(coll.tcp.proto, old(coll.Lists()),
                                    decode(old(poller.ring.slots[k].bufIdx), old(poller.ring.slots[k].len))))
  {
    var ring := poller.ring;
    ghost var c, slots, n := coll.Lists(), ring.slots[..], ring.slots.Length;
    visited := [];
    var buf := poller.GetBuffFromRing();
    while buf.Some?
      invariant ring.Valid() && (buf.None? <==> ring.Empty())
      invariant buf.Some? ==> poller.curSlot == ring.cur
                              && buf.value == ring.slots[ring.cur].bufIdx && poller.buffLen == ring.slots[ring.cur].len
      invariant visited + Window(n, ring.cur, ring.tail) == old(Window(n, ring.cur, ring.tail))
      invariant ring.head == if visited == [] then old(ring.head) else ring.cur
      invariant Slots(visited, n)
      invariant coll.Lists() == FedFrames(coll.tcp.proto, c, decode, slots, visited)
      invariant SlotsAre(coll.tcp.proto, c, decode, slots, visited, thread, ring.slots[..])
      decreases RingSpace(n, ring.cur, ring.tail)
    {
      DrainStep(coll.tcp.proto, c, decode, slots, visited, thread, ring.slots[..], ring.cur);
      WindowStep(n, ring.cur, ring.tail, visited);
      visited := visited + [ring.cur];
      Handle(poller, coll, decode(buf.value, poller.buffLen), thread);
      assert coll.Lists() == FedFrames(coll.tcp.proto, c, decode, slots, visited);
      buf := poller.GetBuffFromRing();
    }
    forall k | 0 <= k < n
      ensures FlagWord(slots[k].flags, ring.slots[k].flags,
                       k in visited && thread == 0
                       && FrameHits(coll.tcp.proto, c, decode(slots[k].bufIdx, slots[k].len)))
    {
      ForwardBits(coll.tcp.proto, c, decode, slots, visited, thread, ring.slots[..], k);
    }
  }
}
