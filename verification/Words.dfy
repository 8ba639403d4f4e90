/** The machine words of the program, and the two result types its exceptions become. */
module Words {
  type u4 = x: int | 0 <= x < 0x10
  type u16 = x: int | 0 <= x < 0x1_0000
  type u32 = x: int | 0 <= x < 0x1_0000_0000
  type u64 = x: int | 0 <= x < 0x1_0000_0000_0000_0000

  datatype Option<+T> = None | Some(value: T)

  /** `Err` stands for any exception the source throws; only its presence matters here. */
  datatype Result<+T> = Ok(value: T) | Err(message: string)

  function Wrap32(n: int): u32 { n % 0x1_0000_0000 }

  function Wrap64(n: int): u64 { n % 0x1_0000_0000_0000_0000 }

  /** Unsigned addition and subtraction; `WrapAdds` and `WrapSubs` say that they are modular. */
  function Add32(a: u32, b: u32): (r: u32)
  {
    if a + b < 0x1_0000_0000 then a + b else a + b - 0x1_0000_0000
  }

  function Add64(a: u64, b: u64): (r: u64)
  {
    if a + b < 0x1_0000_0000_0000_0000 then a + b else a + b - 0x1_0000_0000_0000_0000
  }

  function Sub64(a: u64, b: u64): (r: u64)
  {
    if a >= b then a - b else a - b + 0x1_0000_0000_0000_0000
  }

  lemma Wrap64Is(n: int, q: int, r: u64)
    requires n == 0x1_0000_0000_0000_0000 * q + r
    ensures Wrap64(n) == r
  {
  }

  lemma Wrap32Is(n: int, q: int, r: u32)
    requires n == 0x1_0000_0000 * q + r
    ensures Wrap32(n) == r
  {
  }

  /** Wrapping once at the end is the same as wrapping at every addition. */
  lemma WrapAdds(a: int, b: int)
    ensures Wrap64(a + b) == Add64(Wrap64(a), Wrap64(b))
  {
  }

  lemma WrapSubs(a: int, b: u64)
    ensures Sub64(Wrap64(a), b) == Wrap64(a - b)
  {
    var q := a / 0x1_0000_0000_0000_0000;
    Wrap64Is(a - b, if Wrap64(a) >= b then q else q - 1, Sub64(Wrap64(a), b));
  }

  lemma WrapAdds32(a: int, b: int)
    ensures Wrap32(a + b) == Add32(Wrap32(a), Wrap32(b))
  {
  }

  function Pow2(n: nat): (r: int)
    ensures r > 0
  {
    if n == 0 then 1 else 2 * Pow2(n - 1)
  }

  lemma Monotone(p: nat, a: nat, b: nat)
    requires a <= b
    ensures p * a <= p * b
  {
  }
}
