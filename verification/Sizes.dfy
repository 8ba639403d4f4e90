/** Sizes with an SI prefix, as thresholds are written and as rates are shown. */
module Sizes {
  import opened Words

  const SIZE_B := ["b", "Kb", "Mb", "Gb", "Tb", "Pb"]
  const SIZE_P := ["p", "Kp", "Mp", "Gp", "Tp", "Pp"]
  const PREF_B := ["b/s", "Kb/s", "Mb/s", "Gb/s", "Tb/s", "Pb/s"]
  const PREF_P := ["p/s", "Kp/s", "Mp/s", "Gp/s", "Tp/s", "Pp/s"]

  /** A size argument: the leading number, if there is one, and the text after it. */
  datatype SizeText = SizeText(number: Option<u64>, prefix: string)

  /** What is printed: `size` and three decimals `rem`, with the unit at index `cur`. */
  datatype Short = Short(size: nat, rem: nat, cur: nat)

  function Pow1000(n: nat): (r: nat)
    ensures r > 0
  {
    if n == 0 then 1 else 1000 * Pow1000(n - 1)
  }

  function GetIndex<T(==)>(items: seq<T>, value: T): (r: Option<nat>)
    ensures r.Some? ==> r.value < |items| && items[r.value] == value
    ensures r.None? <==> value !in items
  {
    if items == [] then None
    else if items[0] == value then Some(0)
    else
      match GetIndex(items[1..], value)
      case None => None
      case Some(i) => Some(i + 1)
  }

  /** Multiplication by 1000, `n` times, on 64 bits. */
  function Scale(num: u64, n: nat): u64 {
    if n == 0 then num else Wrap64(1000 * Scale(num, n - 1))
  }

  function FromShortSizeSpec(text: SizeText, itsByte: bool): Result<u64> {
    if text.number.None? then Err("bad number")
    else if text.prefix == "" then Err("unparsed symbols")
    else
      match GetIndex(if itsByte then SIZE_B else SIZE_P, text.prefix)
      case None => Err("unsupported value")
      case Some(pos) => Ok(Scale(text.number.value, pos) / if itsByte then 8 else 1)
  }

  /** Exactly these sizes are accepted: a number that could be read, and one of the six units of its kind. */
  lemma SizeAccepted(text: SizeText, itsByte: bool)
    ensures FromShortSizeSpec(text, itsByte).Ok? <==>
            && text.number.Some?
            && if itsByte then text.prefix in ["b", "Kb", "Mb", "Gb", "Tb", "Pb"]
               else text.prefix in ["p", "Kp", "Mp", "Gp", "Tp", "Pp"]
  {
    assert "" !in SIZE_B && "" !in SIZE_P;
  }

  /** The units, smallest first; each is a thousand of the one before it. */
  lemma UnitsAre()
    ensures SIZE_B == ["b", "Kb", "Mb", "Gb", "Tb", "Pb"] && SIZE_P == ["p", "Kp", "Mp", "Gp", "Tp", "Pp"]
    ensures forall n: nat {:trigger Pow1000(n + 1)} :: Pow1000(n + 1) == 1000 * Pow1000(n)
    ensures Pow1000(0) == 1
  {
  }

  method FromShortSize(text: SizeText, itsByte: bool) returns (r: Result<u64>)
    ensures r == FromShortSizeSpec(text, itsByte)
  {
    if text.number.None? {
      return Err("bad number");
    }
    if text.prefix == "" {
      return Err("unparsed symbols");
    }
    var pos := GetIndex(if itsByte then SIZE_B else SIZE_P, text.prefix);
    if pos.None? {
      return Err("unsupported value");
    }
    var num: int := text.number.value;
    for i := 0 to pos.value
      invariant num == Scale(text.number.value, i)
    {
      num := Wrap64(1000 * num);
    }
    return Ok(num / if itsByte then 8 else 1);
  }

  function Step(s: Short): Short {
    Short(s.size / 1000, s.size % 1000, s.cur + 1)
  }

  function Shrink(s: Short): Short
    decreases s.size
  {
    if s.size >= 1000 && s.cur < 6 then Shrink(Step(s)) else s
  }

  /** The value shown: bits when `itsByte`, computed on 64 bits. */
  function Displayed(size: u64, itsByte: bool): u64 {
    Wrap64(size * if itsByte then 8 else 1)
  }

  /** The number and its unit; past the end of the table there is no unit. */
  method ToShortSize(size: u64, itsByte: bool) returns (r: Short, unit: Option<string>)
    ensures r == Shrink(Short(Displayed(size, itsByte), 0, 0))
    ensures unit == if r.cur < 6 then Some(if itsByte then PREF_B[r.cur] else PREF_P[r.cur]) else None
  {
    var left, rem, cur: nat := Displayed(size, itsByte), 0, 0;
    while left >= 1000 && cur < 6
      invariant left >= 0
      invariant Shrink(Short(left, rem, cur)) == Shrink(Short(Displayed(size, itsByte), 0, 0))
      decreases left
    {
      left, rem, cur := left / 1000, left % 1000, cur + 1;
    }
    r := Short(left, rem, cur);
    unit := if cur >= 6 then None else Some(if itsByte then PREF_B[cur] else PREF_P[cur]);
  }

  /** `v` lies in the thousand shown, and within it in the thousandth shown. */
  predicate Brackets(s: Short, v: nat) {
    && Within(Pow1000(s.cur), s.size, v)
    && if s.cur == 0 then s.rem == 0
       else s.rem < 1000 && Within(Pow1000(s.cur - 1), 1000 * s.size + s.rem, v)
  }

  /** `v` is `n` whole units and a part of one. */
  predicate Within(unit: nat, n: nat, v: nat) {
    unit * n <= v < unit * (n + 1)
  }

  /** What every turn of the printing loop keeps, the loop keeps. */
  lemma {:induction false} ShrinkKeeps(s: Short, holds: Short -> bool)
    requires holds(s)
    requires forall t: Short {:trigger Step(t)} :: t.size >= 1000 && t.cur < 6 && holds(t) ==> holds(Step(t))
    ensures holds(Shrink(s))
    decreases s.size
  {
    if s.size >= 1000 && s.cur < 6 {
      ShrinkKeeps(Step(s), holds);
    }
  }

  lemma {:induction false} ShrinkEnds(s: Short)
    requires s.cur <= 6
    ensures var r := Shrink(s);
            s.cur <= r.cur <= 6 && (r.size < 1000 || r.cur == 6) && (s.size >= 1 || r.cur > s.cur ==> r.size >= 1)
    decreases s.size
  {
    if s.size >= 1000 && s.cur < 6 {
      ShrinkEnds(Step(s));
    }
  }

  lemma ShrinkBrackets(s: Short, v: nat)
    requires Brackets(s, v)
    ensures Brackets(Shrink(s), v)
  {
    forall t: Short | Brackets(t, v)
      ensures Brackets(Step(t), v)
    {
      StepBrackets(t, v);
    }
    ShrinkKeeps(s, t => Brackets(t, v));
  }

  lemma StepBrackets(s: Short, v: nat)
    requires Brackets(s, v)
    ensures Brackets(Step(s), v)
  {
    BracketStep(Pow1000(s.cur), s.size, v);
    assert Pow1000(s.cur + 1) == 1000 * Pow1000(s.cur);
    assert 1000 * (s.size / 1000) + s.size % 1000 == s.size;
  }

  lemma BracketStep(p: nat, size: nat, v: nat)
    requires Within(p, size, v)
    ensures Within(1000 * p, size / 1000, v)
  {
    var q := size / 1000;
    Monotone(p, 1000 * q, size);
    Monotone(p, size + 1, 1000 * (q + 1));
    Thousands(p, q);
    Thousands(p, q + 1);
  }

  lemma Thousands(p: nat, q: nat)
    ensures (1000 * p) * q == p * (1000 * q) == 1000 * (p * q)
  {
  }

  /**
    The printing loop shows the right unit, the right leading digits and the right decimals, and
    the unit exists exactly when the displayed value is below 10^18; from there on the index is
    past the table.
   */
  lemma ShortSizeIsExact(v: nat)
    ensures var r := Shrink(Short(v, 0, 0));
            && Within(Pow1000(r.cur), r.size, v)
            && (r.cur == 0 ==> r.rem == 0)
            && (r.cur > 0 ==> r.rem < 1000 && Within(Pow1000(r.cur - 1), 1000 * r.size + r.rem, v))
            && (r.cur < |PREF_B| == |PREF_P| <==> v < 1_000_000_000_000_000_000)
            && (r.cur < |PREF_B| ==> r.size < 1000)
            && (r.cur > 0 ==> r.size >= 1)
  {
    assert Pow1000(0) == 1;
    ShrinkEnds(Short(v, 0, 0));
    ShrinkBrackets(Short(v, 0, 0), v);
    var r := Shrink(Short(v, 0, 0));
    TenTo18();
    if r.cur < 6 {
      Monotone(Pow1000(r.cur), r.size + 1, 1000);
      assert Pow1000(r.cur + 1) == Pow1000(r.cur) * 1000;
      Pow1000Monotone(r.cur + 1, 6);
    } else {
      Monotone(Pow1000(6), 1, r.size);
    }
  }

  lemma TenTo18()
    ensures Pow1000(5) == 1_000_000_000_000_000 && Pow1000(6) == 1_000_000_000_000_000_000
  {
    assert Pow1000(1) == 1000 && Pow1000(2) == 1_000_000 && Pow1000(3) == 1_000_000_000;
    assert Pow1000(4) == 1_000_000_000_000;
  }

  lemma {:induction false} ShrinkScaled(m: nat, j: nat, rem: nat, cur: nat)
    requires 1 <= m < 1000 && cur + j <= 6
    ensures Shrink(Short(m * Pow1000(j), rem, cur)) == Short(m, if j == 0 then rem else 0, cur + j)
    decreases j
  {
    if j > 0 {
      var t := m * Pow1000(j - 1);
      assert m * Pow1000(j) == 1000 * t by { Thousands(m, Pow1000(j - 1)); }
      assert t >= 1;
      ShrinkScaled(m, j - 1, 0, cur + 1);
    }
  }

  lemma {:induction false} ScaleExact(m: u64, j: nat)
    requires m < 1000 && j <= 5
    ensures Scale(m, j) == m * Pow1000(j) < 1_000_000_000_000_000_000
  {
    ScaledFits(m, j);
    if j > 0 {
      ScaleExact(m, j - 1);
      var before := m * Pow1000(j - 1);
      Thousands(m, Pow1000(j - 1));
      Wrap64Is(1000 * before, 0, 1000 * before);
    }
  }

  lemma WrapThousand(x: int)
    ensures Wrap64(1000 * Wrap64(x)) == Wrap64(1000 * x)
  {
    var q, r := x / 0x1_0000_0000_0000_0000, 1000 * Wrap64(x);
    Wrap64Is(1000 * x, 1000 * q + r / 0x1_0000_0000_0000_0000, Wrap64(r));
  }

  /** Scaling in steps is scaling at once: any number, any unit, modulo 2^64. */
  lemma {:induction false} ScaleWraps(num: u64, n: nat)
    ensures Scale(num, n) == Wrap64(num * Pow1000(n))
  {
    if n == 0 {
      Wrap64Is(num, 0, num);
    } else {
      var before := num * Pow1000(n - 1);
      ScaleWraps(num, n - 1);
      WrapThousand(before);
      Thousands(num, Pow1000(n - 1));
    }
  }

  /** What a size argument with a known unit is read as. */
  lemma SizeMeans(num: u64, j: nat, itsByte: bool)
    requires j < 6
    ensures FromShortSizeSpec(SizeText(Some(num), if itsByte then SIZE_B[j] else SIZE_P[j]), itsByte) ==
            Ok(Wrap64(num * Pow1000(j)) / if itsByte then 8 else 1)
  {
    UnitsDistinct(j, itsByte);
    ScaleWraps(num, j);
  }

  lemma ScaledFits(m: nat, j: nat)
    requires m < 1000 && j <= 5
    ensures m * Pow1000(j) < 1_000_000_000_000_000_000
  {
    TenTo18();
    Pow1000Monotone(j, 5);
    Monotone(m, Pow1000(j), Pow1000(5));
  }

  lemma {:induction false} Pow1000Monotone(i: nat, j: nat)
    requires i <= j
    ensures Pow1000(i) <= Pow1000(j)
    decreases j
  {
    if i < j {
      Pow1000Monotone(i, j - 1);
    }
  }

  lemma ThousandsAreBytes(m: nat, j: nat)
    requires j > 0
    ensures exists q: nat :: m * Pow1000(j) == 8 * q
  {
    var q := 125 * (m * Pow1000(j - 1));
    assert m * Pow1000(j) == 8 * q;
  }

  /**
    Reading `m` with unit `j` and printing the result gives `m` and unit `j` back. For packets
    always; for bits, which are stored as bytes, exactly when eight divides the value.
   */
  lemma SizesRoundTrip(m: u64, j: nat, itsByte: bool)
    requires 1 <= m <= 999 && j < 6
    ensures var read := FromShortSizeSpec(SizeText(Some(m), if itsByte then SIZE_B[j] else SIZE_P[j]), itsByte);
            && read.Ok?
            && (Shrink(Short(Displayed(read.value, itsByte), 0, 0)) == Short(m, 0, j)
                <==> !itsByte || j > 0 || m % 8 == 0)
  {
    UnitsDistinct(j, itsByte);
    ScaleExact(m, j);
    if itsByte {
      BitsRoundTrip(m, j);
    } else {
      PacketsRoundTrip(m, j);
    }
  }

  lemma PacketsRoundTrip(m: nat, j: nat)
    requires 1 <= m <= 999 && j < 6
    requires m * Pow1000(j) < 1_000_000_000_000_000_000
    ensures Shrink(Short(Displayed(m * Pow1000(j), false), 0, 0)) == Short(m, 0, j)
  {
    Wrap64Is(m * Pow1000(j) * 1, 0, m * Pow1000(j));
    ShrinkScaled(m, j, 0, 0);
  }

  lemma BitsRoundTrip(m: nat, j: nat)
    requires 1 <= m <= 999 && j < 6
    requires m * Pow1000(j) < 1_000_000_000_000_000_000
    ensures Shrink(Short(Displayed(m * Pow1000(j) / 8, true), 0, 0)) == Short(m, 0, j) <==> j > 0 || m % 8 == 0
  {
    var v := m * Pow1000(j);
    if j > 0 {
      ThousandsAreBytes(m, j);
      var q: nat :| v == 8 * q;
      BytesBack(v, q);
      ShrinkScaled(m, j, 0, 0);
    } else {
      assert v == m;
      Wrap64Is(m / 8 * 8, 0, m / 8 * 8);
      assert Shrink(Short(m / 8 * 8, 0, 0)) == Short(m / 8 * 8, 0, 0);
    }
  }

  lemma BytesBack(v: nat, q: nat)
    requires v == 8 * q && v < 0x1_0000_0000_0000_0000
    ensures Displayed(v / 8, true) == v
  {
  }

  /** The units printed are those read, per second. */
  lemma UnitsPerSecond(j: nat)
    requires j < 6
    ensures PREF_B[j] == SIZE_B[j] + "/s" && PREF_P[j] == SIZE_P[j] + "/s"
  {
  }

  lemma UnitsDistinct(j: nat, itsByte: bool)
    requires j < 6
    ensures GetIndex(if itsByte then SIZE_B else SIZE_P, if itsByte then SIZE_B[j] else SIZE_P[j]) == Some(j)
  {
    var units := if itsByte then SIZE_B else SIZE_P;
    assert forall a, b :: 0 <= a < b < 6 ==> units[a] != units[b] by {
      assert |units[0]| == 1 && forall a :: 1 <= a < 6 ==> |units[a]| == 2;
      assert units[1][0] == 'K' && units[2][0] == 'M' && units[3][0] == 'G' && units[4][0] == 'T' && units[5][0] == 'P';
    }
    IndexOfDistinct(units, j);
  }

  lemma {:induction false} IndexOfDistinct<T>(items: seq<T>, j: nat)
    requires j < |items|
    requires forall a, b :: 0 <= a < b < |items| ==> items[a] != items[b]
    ensures GetIndex(items, items[j]) == Some(j)
  {
    if j > 0 {
      IndexOfDistinct(items[1..], j - 1);
    }
  }
}
