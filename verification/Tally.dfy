/**
  What a rule counts: packets and bytes modulo 2^64, and packets per destination address
  modulo 2^32 (`CountersList<uint32_t, unsigned int>`).
 */
module Tallies {
  import opened Words

  /** One credited packet, as far as counters see it. */
  datatype Hit = Hit(dst: u32, len: u32)

  type Table = map<u32, u32>

  datatype Tally = Tally(packets: u64, bytes: u64, dst: Table)

  const ZERO := Tally(0, 0, map[])

  function At(t: Table, k: u32): u32 {
    if k in t then t[k] else 0
  }

  function Increase(t: Table, k: u32): Table {
    t[k := Add32(At(t, k), 1)]
  }

  function Join(a: Table, b: Table): Table {
    map k | k in a.Keys + b.Keys :: Add32(At(a, k), At(b, k))
  }

  function Credit(t: Tally, h: Hit): Tally {
    Tally(Add64(t.packets, 1), Add64(t.bytes, h.len), Increase(t.dst, h.dst))
  }

  function Plus(a: Tally, b: Tally): Tally {
    Tally(Add64(a.packets, b.packets), Add64(a.bytes, b.bytes), Join(a.dst, b.dst))
  }

  /** The counters left by crediting `hits` to a rule that starts at zero. */
  function TallyOf(hits: seq<Hit>): Tally {
    if hits == [] then ZERO else Credit(TallyOf(hits[..|hits| - 1]), hits[|hits| - 1])
  }

  lemma PlusZero(a: Tally)
    ensures Plus(a, ZERO) == a && Plus(ZERO, a) == a
  {
  }

  lemma PlusCommutes(a: Tally, b: Tally)
    ensures Plus(a, b) == Plus(b, a)
  {
  }

  lemma JoinAt(a: Table, b: Table, k: u32)
    ensures At(Join(a, b), k) == Add32(At(a, k), At(b, k))
  {
  }

  lemma Add32Associates(a: u32, b: u32, c: u32)
    ensures Add32(Add32(a, b), c) == Add32(a, Add32(b, c))
  {
  }

  lemma JoinAssociates(a: Table, b: Table, c: Table)
    ensures Join(Join(a, b), c) == Join(a, Join(b, c))
  {
    var left, right := Join(Join(a, b), c), Join(a, Join(b, c));
    assert left.Keys == right.Keys;
    forall k | k in right.Keys
      ensures left[k] == right[k]
    {
      JoinAt(a, b, k);
      JoinAt(b, c, k);
      Add32Associates(At(a, k), At(b, k), At(c, k));
    }
  }

  lemma PlusAssociates(a: Tally, b: Tally, c: Tally)
    ensures Plus(Plus(a, b), c) == Plus(a, Plus(b, c))
  {
    JoinAssociates(a.dst, b.dst, c.dst);
  }

  lemma IncreaseJoin(a: Table, b: Table, d: u32)
    ensures Increase(Join(a, b), d) == Join(Increase(a, d), b)
  {
  }

  /** Crediting one summand credits the sum. */
  lemma CreditPlus(a: Tally, b: Tally, h: Hit)
    ensures Credit(Plus(a, b), h) == Plus(Credit(a, h), b)
    ensures Credit(Plus(a, b), h) == Plus(a, Credit(b, h))
  {
    IncreaseJoin(a.dst, b.dst, h.dst);
    IncreaseJoin(b.dst, a.dst, h.dst);
    PlusCommutes(a, b);
    PlusCommutes(a, Credit(b, h));
  }

  lemma CreditCommutes(t: Tally, g: Hit, h: Hit)
    ensures Credit(Credit(t, g), h) == Credit(Credit(t, h), g)
  {
  }

  /** Merging two counters is the same as having counted both streams in one place. */
  lemma {:induction false} TallyOfConcat(a: seq<Hit>, b: seq<Hit>)
    ensures TallyOf(a + b) == Plus(TallyOf(a), TallyOf(b))
  {
    if b == [] {
      assert a + b == a;
      PlusZero(TallyOf(a));
    } else {
      var b' := b[..|b| - 1];
      assert (a + b)[..|a + b| - 1] == a + b';
      TallyOfConcat(a, b');
      CreditPlus(TallyOf(a), TallyOf(b'), b[|b| - 1]);
    }
  }

  function Occurrences(d: u32, hits: seq<Hit>): nat {
    if hits == [] then 0
    else Occurrences(d, hits[..|hits| - 1]) + if hits[|hits| - 1].dst == d then 1 else 0
  }

  function TotalLen(hits: seq<Hit>): nat {
    if hits == [] then 0 else TotalLen(hits[..|hits| - 1]) + hits[|hits| - 1].len
  }

  /** What the counters say about the packets behind them. */
  lemma {:induction false} TallyMeaning(hits: seq<Hit>)
    ensures TallyOf(hits).packets == Wrap64(|hits|)
    ensures TallyOf(hits).bytes == Wrap64(TotalLen(hits))
  {
    if hits != [] {
      var before := hits[..|hits| - 1];
      TallyMeaning(before);
      WrapAdds(|before|, 1);
      WrapAdds(TotalLen(before), hits[|hits| - 1].len);
    }
  }

  lemma {:induction false} TableMeaning(hits: seq<Hit>, d: u32)
    ensures d in TallyOf(hits).dst <==> Occurrences(d, hits) > 0
    ensures At(TallyOf(hits).dst, d) == Wrap32(Occurrences(d, hits))
  {
    if hits != [] {
      var before := hits[..|hits| - 1];
      TableMeaning(before, d);
      WrapAdds32(Occurrences(d, before), 1);
    }
  }

  lemma {:induction false} TallyEmpty(hits: seq<Hit>)
    ensures TallyOf(hits).dst == map[] <==> hits == []
  {
    if hits != [] {
      assert hits[|hits| - 1].dst in TallyOf(hits).dst;
    }
  }

  lemma {:induction false} TotalLenConcat(a: seq<Hit>, b: seq<Hit>)
    ensures TotalLen(a + b) == TotalLen(a) + TotalLen(b)
  {
    if b == [] {
      assert a + b == a;
    } else {
      assert (a + b)[..|a + b| - 1] == a + b[..|b| - 1];
      TotalLenConcat(a, b[..|b| - 1]);
    }
  }

  /** `v` has the greatest count among `keys`, and is the lowest such key. */
  ghost predicate Leads(t: Table, keys: set<u32>, v: u32)
    requires keys <= t.Keys
  {
    v in keys && forall k :: k in keys ==> t[k] < t[v] || (t[k] == t[v] && v <= k)
  }

  /** What `get_max` promises: the leading key, or address 0 when no count is positive. */
  ghost predicate IsVictim(t: Table, v: u32) {
    if exists k :: k in t && t[k] > 0 then Leads(t, t.Keys, v) else v == 0
  }

  lemma VictimUnique(t: Table, v: u32, w: u32)
    requires IsVictim(t, v) && IsVictim(t, w)
    ensures v == w
  {
  }

  predicate Least(keys: set<u32>, k: u32) {
    k in keys && forall j :: j in keys ==> k <= j
  }

  lemma LeastKey(keys: set<u32>)
    requires keys != {}
    ensures exists k: u32 :: Least(keys, k)
  {
    var k: u32 :| k in keys;
    var rest := keys - {k};
    assert keys == rest + {k};
    if rest == {} {
      assert Least(keys, k);
    } else {
      LeastKey(rest);
      var m: u32 :| Least(rest, m);
      assert Least(keys, if k <= m then k else m);
    }
  }

  /** `CountersList::get_max`: `std::map` is walked in ascending key order. */
  method GetMax(t: Table) returns (victim: u32)
    ensures IsVictim(t, victim)
  {
    var done: set<u32>, rest := {}, t.Keys;
    victim := 0;
    var best: u32 := 0;
    while rest != {}
      invariant done + rest == t.Keys && done !! rest
      invariant forall j, k :: j in done && k in rest ==> j < k
      invariant best == 0 ==> victim == 0 && forall k :: k in done ==> t[k] == 0
      invariant best > 0 ==> Leads(t, done, victim) && t[victim] == best
      decreases rest
    {
      LeastKey(rest);
      var k: u32 :| k in rest && Least(rest, k);
      if t[k] > best {
        victim, best := k, t[k];
      }
      done, rest := done + {k}, rest - {k};
    }
    assert done == t.Keys;
  }

  lemma LeaderExists(t: Table, keys: set<u32>)
    requires keys <= t.Keys && keys != {}
    ensures exists v: u32 :: Leads(t, keys, v)
    decreases keys
  {
    var k: u32 :| k in keys;
    var rest := keys - {k};
    assert forall j :: j in keys ==> j == k || j in rest;
    if rest == {} {
      assert Leads(t, keys, k);
    } else {
      LeaderExists(t, rest);
      var m: u32 :| Leads(t, rest, m);
      assert Leads(t, keys, if t[k] > t[m] || (t[k] == t[m] && k <= m) then k else m);
    }
  }

  ghost function Victim(t: Table): (v: u32)
    ensures IsVictim(t, v)
  {
    if exists k :: k in t && t[k] > 0 then
      LeaderExists(t, t.Keys);
      var v: u32 :| Leads(t, t.Keys, v);
      v
    else 0
  }

  /**
    When no destination was hit 2^32 times or more, the reported address is the most frequent
    destination among `hits`, the lowest one on a tie.
   */
  lemma VictimIsMostFrequent(hits: seq<Hit>, d: u32)
    requires hits != []
    requires forall e: u32 :: Occurrences(e, hits) < 0x1_0000_0000
    ensures var v := Victim(TallyOf(hits).dst);
            && Occurrences(v, hits) > 0
            && (Occurrences(d, hits) < Occurrences(v, hits)
                || (Occurrences(d, hits) == Occurrences(v, hits) && (v <= d)))
  {
    var t := TallyOf(hits).dst;
    var v := Victim(t);
    var last := hits[|hits| - 1].dst;
    TableMeaning(hits, last);
    assert Occurrences(last, hits) > 0;
    assert At(t, last) > 0 && last in t;
    assert Leads(t, t.Keys, v);
    TableMeaning(hits, v);
    TableMeaning(hits, d);
  }
}
