/** The arithmetic of doubling: what one counter becomes as stale and fresh threads are visited. */
module Doubling {
  import opened Words

  /** A visit to a thread: whether it was stale, and what was counted there and not overwritten. */
  datatype Brought = Brought(stale: bool, own: u64)

  /** A stale thread brings the counter it was given back, on top of what is its own. */
  function OneVisit(before: u64, b: Brought): u64 {
    Add64(before, if b.stale then Add64(before, b.own) else b.own)
  }

  /** The counter after all visits, on 64 bits. */
  function AllVisits(start: u64, bs: seq<Brought>): u64 {
    if bs == [] then start else OneVisit(AllVisits(start, bs[..|bs| - 1]), bs[|bs| - 1])
  }

  function StaleIn(bs: seq<Brought>): nat {
    if bs == [] then 0 else StaleIn(bs[..|bs| - 1]) + if bs[|bs| - 1].stale then 1 else 0
  }

  /** What is brought, each times `2^(stale visits after it)`. */
  function OwnSum(bs: seq<Brought>): int {
    if bs == [] then 0 else Pow2(StaleIn(bs[1..])) * bs[0].own + OwnSum(bs[1..])
  }

  /** `2^s * start` for `s` stale visits, and everything brought, doubled as it should be. */
  function ClosedForm(start: u64, bs: seq<Brought>): int {
    Pow2(StaleIn(bs)) * start + OwnSum(bs)
  }

  lemma DoubleProduct(e: nat, c: int)
    ensures Pow2(e + 1) * c == 2 * (Pow2(e) * c)
  {
  }

  lemma StaleInSnoc(bs: seq<Brought>, b: Brought)
    ensures StaleIn(bs + [b]) == StaleIn(bs) + if b.stale then 1 else 0
  {
    assert (bs + [b])[..|bs|] == bs;
  }

  lemma {:induction false} OwnSumSnoc(bs: seq<Brought>, b: Brought)
    ensures OwnSum(bs + [b]) == (if b.stale then 2 * OwnSum(bs) else OwnSum(bs)) + b.own
  {
    if bs == [] {
      assert [b][1..] == [];
      assert Pow2(0) * b.own == b.own;
    } else {
      assert (bs + [b])[1..] == bs[1..] + [b];
      OwnSumSnoc(bs[1..], b);
      StaleInSnoc(bs[1..], b);
      DoubleProduct(StaleIn(bs[1..]), bs[0].own);
    }
  }

  lemma {:induction false} VisitsAreClosedForm(start: u64, bs: seq<Brought>)
    ensures AllVisits(start, bs) == Wrap64(ClosedForm(start, bs))
  {
    if bs == [] {
      assert Pow2(0) * start == start;
      Wrap64Is(start, 0, start);
    } else {
      var front, last := bs[..|bs| - 1], bs[|bs| - 1];
      var before := ClosedForm(start, front);
      VisitsAreClosedForm(start, front);
      assert bs == front + [last];
      OwnSumSnoc(front, last);
      Wrap64Is(last.own, 0, last.own);
      WrapAdds(before, last.own);
      if last.stale {
        DoubleProduct(StaleIn(front), start);
        WrapAdds(before, before + last.own);
      }
    }
  }

  function PlainSum(bs: seq<Brought>): int {
    if bs == [] then 0 else bs[0].own + PlainSum(bs[1..])
  }

  /** On 64 bits, the count that the rate of a round should be computed from. */
  function TrueCount(bs: seq<Brought>): u64 {
    Wrap64(PlainSum(bs))
  }

  /** Everything counted: at the master and by the threads. */
  function Everything(start: u64, bs: seq<Brought>): int {
    start + PlainSum(bs)
  }

  /** With no stale visit nothing is doubled; with nothing brought, only the start is. */
  lemma {:induction false} FreshSum(bs: seq<Brought>)
    requires forall i {:trigger bs[i]} :: 0 <= i < |bs| ==> !bs[i].stale
    ensures StaleIn(bs) == 0 && OwnSum(bs) == PlainSum(bs)
  {
    if bs != [] {
      FreshSum(bs[..|bs| - 1]);
      FreshSum(bs[1..]);
      assert Pow2(0) * bs[0].own == bs[0].own;
    }
  }

  lemma {:induction false} IdleSum(bs: seq<Brought>)
    requires forall i {:trigger bs[i]} :: 0 <= i < |bs| ==> bs[i].stale && bs[i].own == 0
    ensures StaleIn(bs) == |bs| && OwnSum(bs) == PlainSum(bs) == 0
  {
    if bs != [] {
      IdleSum(bs[..|bs| - 1]);
      IdleSum(bs[1..]);
    }
  }

  lemma FreshForm(start: u64, bs: seq<Brought>)
    requires forall i {:trigger bs[i]} :: 0 <= i < |bs| ==> !bs[i].stale
    ensures ClosedForm(start, bs) == Everything(start, bs)
  {
    FreshSum(bs);
    assert Pow2(0) * start == start;
  }

  // ---- how far a counter seems to move ----

  /** What a round adds to a counter that stood at `start`; the truth would be `PlainSum(bs)`. */
  function Moves(start: u64, bs: seq<Brought>): int {
    ClosedForm(start, bs) - start
  }

  lemma MovesOnWords(start: u64, bs: seq<Brought>, end: u64)
    requires end == Wrap64(ClosedForm(start, bs))
    ensures Sub64(end, start) == Wrap64(Moves(start, bs))
  {
    WrapSubs(ClosedForm(start, bs), start);
  }

  /** No stale thread follows one that brings something, and none is stale if there was something before. */
  ghost predicate Clean(start: u64, bs: seq<Brought>) {
    && (start == 0 || StaleIn(bs) == 0)
    && forall i {:trigger bs[i]} :: 0 <= i < |bs| && bs[i].own > 0 ==> StaleIn(bs[i + 1..]) == 0
  }

  lemma {:induction false} StaleInNone(bs: seq<Brought>)
    ensures StaleIn(bs) == 0 <==> forall i {:trigger bs[i]} :: 0 <= i < |bs| ==> !bs[i].stale
  {
    if bs != [] {
      var front := bs[..|bs| - 1];
      StaleInNone(front);
      assert forall i :: 0 <= i < |front| ==> front[i] == bs[i];
    }
  }

  lemma Excess(e: nat, c: nat)
    ensures Pow2(e) * c >= c
    ensures Pow2(e) * c == c <==> e == 0 || c == 0
  {
    if e > 0 {
      DoubleProduct(e - 1, c);
      Monotone(c, 1, Pow2(e - 1));
    }
  }

  lemma {:induction false} OwnSumExceeds(bs: seq<Brought>)
    ensures OwnSum(bs) >= PlainSum(bs)
    ensures OwnSum(bs) == PlainSum(bs) <==>
            forall i {:trigger bs[i]} :: 0 <= i < |bs| && bs[i].own > 0 ==> StaleIn(bs[i + 1..]) == 0
  {
    if bs != [] {
      var rest := bs[1..];
      OwnSumExceeds(rest);
      Excess(StaleIn(rest), bs[0].own);
      assert forall i :: 0 <= i < |rest| ==> rest[i] == bs[i + 1] && rest[i + 1..] == bs[i + 2..];
      assert bs[1..] == rest;
      if OwnSum(rest) == PlainSum(rest) && (bs[0].own > 0 ==> StaleIn(rest) == 0) {
        forall i | 0 <= i < |bs| && bs[i].own > 0
          ensures StaleIn(bs[i + 1..]) == 0
        {
          if i > 0 {
            assert rest[i - 1].own > 0;
          }
        }
      }
      if forall i {:trigger bs[i]} :: 0 <= i < |bs| && bs[i].own > 0 ==> StaleIn(bs[i + 1..]) == 0 {
        forall i | 0 <= i < |rest| && rest[i].own > 0
          ensures StaleIn(rest[i + 1..]) == 0
        {
          assert bs[i + 1].own > 0;
        }
      }
    }
  }

  /** A counter never seems to move by less than it should, and by as much exactly if the round is clean. */
  lemma MovesExceed(start: u64, bs: seq<Brought>)
    ensures Moves(start, bs) >= PlainSum(bs) >= 0
    ensures Moves(start, bs) == PlainSum(bs) <==> Clean(start, bs)
  {
    Excess(StaleIn(bs), start);
    OwnSumExceeds(bs);
    PlainSumPositive(bs);
  }

  lemma {:induction false} PlainSumPositive(bs: seq<Brought>)
    ensures PlainSum(bs) >= 0
  {
    if bs != [] {
      PlainSumPositive(bs[1..]);
    }
  }

  /** The same on 64 bits, as long as the move itself fits. */
  lemma WrappedMovesAreTrueIff(start: u64, bs: seq<Brought>)
    requires Moves(start, bs) < 0x1_0000_0000_0000_0000
    ensures Wrap64(Moves(start, bs)) == TrueCount(bs) <==> Clean(start, bs)
    ensures Wrap64(Moves(start, bs)) >= TrueCount(bs)
  {
    MovesExceed(start, bs);
    Wrap64Is(Moves(start, bs), 0, Moves(start, bs));
    Wrap64Is(PlainSum(bs), 0, PlainSum(bs));
  }

  /** How far a counter that begins at zero seems to move from a snapshot of something else. */
  function MovesFrom(before: u64, bs: seq<Brought>): int {
    OwnSum(bs) - before
  }

  lemma AgainstOldSnapshot(bs: seq<Brought>, end: u64, before: u64)
    requires end == Wrap64(ClosedForm(0, bs))
    ensures Sub64(end, before) == Wrap64(MovesFrom(before, bs))
  {
    assert Pow2(StaleIn(bs)) * 0 == 0;
    WrapSubs(OwnSum(bs), before);
  }

  /** Even if nothing is doubled, that difference is true exactly if the snapshot is of a counter at zero. */
  lemma OldSnapshotIsTrueIff(bs: seq<Brought>, before: u64)
    requires OwnSum(bs) == PlainSum(bs)
    ensures Wrap64(MovesFrom(before, bs)) == TrueCount(bs) <==> before == 0
  {
    WrapSubs(OwnSum(bs), before);
  }

  // ---- a round that brings nothing: no bound is needed ----

  lemma OddTimesOdd(a: nat, m: nat)
    requires a % 2 == 1 && m % 2 == 1
    ensures (a * m) % 2 == 1
  {
    var x, y := a / 2, m / 2;
    assert a * m == 2 * (2 * x * y + x + y) + 1;
  }

  lemma Halve(a: nat, m: nat, p: int, q: int)
    requires a % 2 == 1 && a * m == (2 * p) * q
    ensures m % 2 == 0 && a * (m / 2) == p * q
  {
    assert (2 * p) * q == 2 * (p * q);
    if m % 2 == 1 {
      OddTimesOdd(a, m);
      assert false;
    }
    var h := m / 2;
    assert a * (2 * h) == 2 * (a * h);
  }

  /** An odd factor does not make a multiple of a power of two. */
  lemma {:induction false} OddCancels(a: nat, m: nat, e: nat, q: int)
    requires a % 2 == 1 && m < Pow2(e)
    ensures a * m == Pow2(e) * q ==> m == 0
  {
    if e > 0 && a * m == Pow2(e) * q {
      Halve(a, m, Pow2(e - 1), q);
      OddCancels(a, m / 2, e - 1, q);
    }
  }

  lemma Pow2Of64()
    ensures Pow2(64) == 0x1_0000_0000_0000_0000
  {
    assert Pow2(8) == 256;
    assert Pow2(16) == 256 * Pow2(8);
    assert Pow2(24) == 256 * Pow2(16);
    assert Pow2(32) == 256 * Pow2(24);
    assert Pow2(40) == 256 * Pow2(32);
    assert Pow2(48) == 256 * Pow2(40);
    assert Pow2(56) == 256 * Pow2(48);
    assert Pow2(64) == 256 * Pow2(56);
  }

  lemma WrapsToZero(x: int) returns (q: int)
    requires Wrap64(x) == 0
    ensures x == 0x1_0000_0000_0000_0000 * q
  {
    q := x / 0x1_0000_0000_0000_0000;
  }

  /** What doubling adds vanishes on 64 bits only for a counter at zero. */
  lemma DoublingShows(n: nat, start: u64, added: int)
    requires n > 0 && added == (Pow2(n) - 1) * start
    ensures Wrap64(added) == 0 <==> start == 0
  {
    if Wrap64(added) == 0 {
      var q := WrapsToZero(added);
      Pow2Of64();
      OddCancels(Pow2(n) - 1, start, 64, q);
    } else {
      Wrap64Is(0, 0, 0);
      assert start == 0 ==> added == 0;
    }
  }

  lemma LessOnce(a: int, b: int)
    ensures a * b - b == (a - 1) * b
  {
  }

  /** If nothing is brought the counter seems to stand still exactly if it is zero or no thread is stale. */
  lemma NothingMovesIff(start: u64, bs: seq<Brought>)
    requires forall i {:trigger bs[i]} :: 0 <= i < |bs| ==> bs[i].own == 0
    ensures PlainSum(bs) == 0
    ensures Wrap64(Moves(start, bs)) == 0 <==> start == 0 || StaleIn(bs) == 0
  {
    NothingSums(bs);
    var n := StaleIn(bs);
    LessOnce(Pow2(n), start);
    if n > 0 {
      DoublingShows(n, start, Moves(start, bs));
    } else {
      Excess(n, start);
      Wrap64Is(0, 0, 0);
    }
  }

  lemma {:induction false} NothingSums(bs: seq<Brought>)
    requires forall i {:trigger bs[i]} :: 0 <= i < |bs| ==> bs[i].own == 0
    ensures OwnSum(bs) == PlainSum(bs) == 0
  {
    if bs != [] {
      NothingSums(bs[1..]);
    }
  }

  lemma IdleForm(start: u64, bs: seq<Brought>)
    requires forall i {:trigger bs[i]} :: 0 <= i < |bs| ==> bs[i].stale && bs[i].own == 0
    ensures ClosedForm(start, bs) == Pow2(|bs|) * start
    ensures start == 0 ==> Wrap64(ClosedForm(start, bs)) == 0
  {
    IdleSum(bs);
    Wrap64Is(0, 0, 0);
  }
}
