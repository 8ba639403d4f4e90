/** Slots of a netmap ring, and the bit that passes one on to the host. */
module SlotFlags {
  import opened Words

  const NS_FORWARD: bv16 := 0x0004

  datatype Slot = Slot(bufIdx: u32, len: u16, flags: bv16)

  function Marked(s: Slot): (r: Slot)
    ensures r.bufIdx == s.bufIdx && r.len == s.len
  {
    s.(flags := s.flags | NS_FORWARD)
  }

  /** `now` has the forward bit exactly if `was` has it or it was set, and agrees with `was` in all others. */
  predicate FlagWord(was: bv16, now: bv16, set_: bool) {
    (now & 0x0004 == 0x0004 <==> was & 0x0004 == 0x0004 || set_) && now & 0xFFFB == was & 0xFFFB
  }

  lemma SetBit(was: bv16, now: bv16, set_: bool)
    requires now == if set_ then was | NS_FORWARD else was
    ensures FlagWord(was, now, set_)
  {
  }

  /** Marking a slot sets the forward bit, and leaves every other bit, the buffer and its length alone. */
  lemma MarkedMeaning(s: Slot, t: Slot, marked: bool)
    requires t == if marked then Marked(s) else s
    ensures FlagWord(s.flags, t.flags, marked) && t.bufIdx == s.bufIdx && t.len == s.len
  {
    SetBit(s.flags, t.flags, marked);
  }

  /** For example, a slot without flags gets the flag 0x0004, and one with 0x0021 gets 0x0025. */
  lemma MarkedExamples(b: u32, n: u16)
    ensures Marked(Slot(b, n, 0x0000)) == Slot(b, n, 0x0004) && Marked(Slot(b, n, 0x0021)) == Slot(b, n, 0x0025)
  {
    assert 0x0000 as bv16 | NS_FORWARD == 0x0004;
    assert 0x0021 as bv16 | NS_FORWARD == 0x0025;
  }

  lemma MarkedTwice(s: Slot)
    ensures Marked(Marked(s)) == Marked(s)
  {
    assert s.flags | NS_FORWARD | NS_FORWARD == s.flags | NS_FORWARD;
  }
}
