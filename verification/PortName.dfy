/** Port names: what `nm_open` reads out of the name of an interface before it opens it. */
module PortNames {
  import opened Words

  const NR_REG_ALL_NIC: nat := 1
  const NR_REG_SW: nat := 2
  const NR_REG_NIC_SW: nat := 3
  const NR_REG_ONE_NIC: nat := 4
  const NR_REG_PIPE_MASTER: nat := 5
  const NR_REG_PIPE_SLAVE: nat := 6
  const NR_REG_MASK: nat := 0xf

  const NR_MONITOR_TX: nat := 0x100
  const NR_MONITOR_RX: nat := 0x200
  const NR_ZCOPY_MON: nat := 0x400
  const NR_EXCLUSIVE: nat := 0x800

  const NETMAP_RING_MASK: nat := 0xfff
  const IFNAMSIZ: nat := 16

  /** `nr_flags`, apart: the register mode, and a bit each for exclusive, zero-copy and monitor modes. */
  datatype NrFlags = NrFlags(mode: nat, exclusive: bool, zcopy: bool, monitorTx: bool, monitorRx: bool)

  function Word(f: NrFlags): nat {
    f.mode + (if f.exclusive then NR_EXCLUSIVE else 0) + (if f.zcopy then NR_ZCOPY_MON else 0)
    + (if f.monitorTx then NR_MONITOR_TX else 0) + if f.monitorRx then NR_MONITOR_RX else 0
  }

  /** The parts share no bit, so the word says them all. */
  lemma WordSaysAll(f: NrFlags, g: NrFlags)
    requires f.mode <= NR_REG_MASK && g.mode <= NR_REG_MASK && Word(f) == Word(g)
    ensures f == g
  {
  }

  /** Where in the word each part lies. */
  lemma WordIs(mode: nat)
    ensures Word(NrFlags(mode, false, false, false, false)) == mode
    ensures Word(NrFlags(mode, false, false, true, false)) == mode + 0x100
    ensures Word(NrFlags(mode, false, false, false, true)) == mode + 0x200
    ensures Word(NrFlags(mode, false, true, false, false)) == mode + 0x400
    ensures Word(NrFlags(mode, true, false, false, false)) == mode + 0x800
  {
  }

  /** The name of the interface, the ring number, and the flags. */
  datatype Port = Port(name: string, ringId: nat, flags: NrFlags)

  // ---- strtol, base 10 ----

  predicate IsBlank(c: char) {
    c == ' ' || '\t' <= c <= '\r'
  }

  predicate IsDigit(c: char) {
    '0' <= c <= '9'
  }

  predicate IsSeparator(c: char) {
    c == '-' || c == '*' || c == '^' || c == '{' || c == '}' || c == '/'
  }

  predicate IsLetter(c: char) {
    c == 'x' || c == 'z' || c == 't' || c == 'r'
  }

  predicate IsSign(c: char) {
    c == '+' || c == '-'
  }

  function DigitOf(c: char): nat {
    if IsDigit(c) then c as int - '0' as int else 0
  }

  function Digits(s: string): (n: nat)
    ensures n <= |s|
  {
    if s != "" && IsDigit(s[0]) then 1 + Digits(s[1..]) else 0
  }

  function Decimal(s: string): nat {
    if s == "" then 0 else 10 * Decimal(s[..|s| - 1]) + DigitOf(s[|s| - 1])
  }

  function Unsigned(s: string): (r: (int, nat))
    ensures r.1 <= |s|
  {
    (Decimal(s[..Digits(s)]), Digits(s))
  }

  function Signed(s: string): (r: (int, nat))
    ensures r.1 <= |s|
  {
    if s == "" || !IsSign(s[0]) then Unsigned(s)
    else
      var (v, n) := Unsigned(s[1..]);
      if n == 0 then (0, 0) else (if s[0] == '-' then -v else v, n + 1)
  }

  /**
    The number at the front of `s` and how much of `s` it takes up; without a digit, zero and
    nothing. A number too large for a `long` is cut off there, which is out of range just the same.
   */
  function Strtol(s: string): (r: (int, nat))
    ensures r.1 <= |s|
  {
    if s == "" || !IsBlank(s[0]) then Signed(s)
    else
      var (v, n) := Strtol(s[1..]);
      if n == 0 then (0, 0) else (v, n + 1)
  }

  // ---- the automaton ----

  datatype PortState = Start | RngSfxOk | GetNum | Flags | FlagsOk

  function WithLetter(f: NrFlags, c: char): NrFlags {
    match c
    case 'x' => f.(exclusive := true)
    case 'z' => f.(zcopy := true)
    case 't' => f.(monitorTx := true)
    case 'r' => f.(monitorRx := true)
    case _ => f
  }

  // ---- what is accepted ----

  ghost predicate AllLetters(s: string) {
    forall i :: 0 <= i < |s| ==> IsLetter(s[i])
  }

  /** Flags and a set of letters. */
  function WithLetters(f: NrFlags, s: string): NrFlags {
    NrFlags(f.mode, f.exclusive || 'x' in s, f.zcopy || 'z' in s, f.monitorTx || 't' in s, f.monitorRx || 'r' in s)
  }

  function InMode(mode: nat): NrFlags {
    NrFlags(mode, false, false, false, false)
  }

  ghost predicate AllDigits(t: string) {
    t != "" && forall i :: 0 <= i < |t| ==> IsDigit(t[i])
  }

  ghost predicate IsSigned(t: string, v: int) {
    if t == "" || !IsSign(t[0]) then AllDigits(t) && v == Decimal(t)
    else AllDigits(t[1..]) && v == if t[0] == '-' then -(Decimal(t[1..]) as int) else Decimal(t[1..])
  }

  /** A number as it may be written: blanks, at most one sign, and digits. */
  ghost predicate IsNumber(t: string, v: int) {
    if t == "" || !IsBlank(t[0]) then IsSigned(t, v) else IsNumber(t[1..], v)
  }

  /** The number of a ring: less than 4095, and zero if it is left out, which takes flags behind it. */
  ghost predicate RingNumber(t: string, ringId: nat, flagsFollow: bool) {
    (IsNumber(t, ringId) && ringId < NETMAP_RING_MASK) || (t == "" && ringId == 0 && flagsFollow)
  }

  ghost predicate RingSuffix(ring: string, mode: nat, ringId: nat, flagsFollow: bool) {
    if ring == "" then mode == NR_REG_ALL_NIC && ringId == 0
    else
      match ring[0]
      case '^' => ring[1..] == "" && mode == NR_REG_SW && ringId == 0
      case '*' => ring[1..] == "" && mode == NR_REG_NIC_SW && ringId == 0
      case '-' => mode == NR_REG_ONE_NIC && RingNumber(ring[1..], ringId, flagsFollow)
      case '{' => mode == NR_REG_PIPE_MASTER && RingNumber(ring[1..], ringId, flagsFollow)
      case '}' => mode == NR_REG_PIPE_SLAVE && RingNumber(ring[1..], ringId, flagsFollow)
      case _ => false
  }

  ghost predicate FlagSuffix(tail: string) {
    tail == "" || (|tail| > 1 && tail[0] == '/' && AllLetters(tail[1..]))
  }

  /** `text` is a ring suffix followed by a flag suffix, and says `ringId` and `flags`. */
  ghost predicate SuffixSays(text: string, ringId: nat, flags: NrFlags, ring: string, tail: string, mode: nat) {
    text == ring + tail && RingSuffix(ring, mode, ringId, tail != "") && FlagSuffix(tail)
    && flags == WithLetters(InMode(mode), tail)
  }

  ghost predicate Suffix(text: string, ringId: nat, flags: NrFlags) {
    exists ring, tail, mode :: SuffixSays(text, ringId, flags, ring, tail, mode)
  }

  predicate Plain(name: string) {
    forall i :: 0 <= i < |name| ==> !IsSeparator(name[i])
  }

  function Stripped(ifname: string): string {
    if "netmap:" <= ifname then ifname[7..] else ifname
  }

  /** A whole name: `netmap:` and an interface, or the interface of a VALE switch, and a suffix. */
  ghost predicate Names(ifname: string, port: Port, suffix: string) {
    && ("netmap:" <= ifname || "vale" <= ifname)
    && Stripped(ifname) == port.name + suffix && Plain(port.name) && |port.name| < IFNAMSIZ
    && Suffix(suffix, port.ringId, port.flags)
  }

  ghost predicate IsPortName(ifname: string, port: Port) {
    exists suffix :: Names(ifname, port, suffix)
  }

  // ---- the characters that matter, and some names as they are written ----

  lemma Characters(c: char)
    ensures IsSeparator(c) <==> c in ['-', '*', '^', '{', '}', '/']
    ensures IsLetter(c) <==> c in ['x', 'z', 't', 'r']
    ensures IsSign(c) <==> c in ['+', '-']
    ensures IsDigit(c) <==> c in ['0', '1', '2', '3', '4', '5', '6', '7', '8', '9']
    ensures IsBlank(c) <==> c == ' ' || 9 <= c as int <= 13
  {
  }

  /** The suffix of a ring, in the numbers the kernel knows: which ring, and in what mode. */
  lemma RingSuffixes()
    ensures Suffix("", 0, NrFlags(1, false, false, false, false))
    ensures Suffix("^", 0, NrFlags(2, false, false, false, false))
    ensures Suffix("*", 0, NrFlags(3, false, false, false, false))
    ensures Suffix("-5", 5, NrFlags(4, false, false, false, false))
    ensures Suffix("{6", 6, NrFlags(5, false, false, false, false))
    ensures Suffix("}7", 7, NrFlags(6, false, false, false, false))
  {
    assert SuffixSays("", 0, NrFlags(1, false, false, false, false), "", "", 1);
    assert SuffixSays("^", 0, NrFlags(2, false, false, false, false), "^", "", 2);
    assert SuffixSays("*", 0, NrFlags(3, false, false, false, false), "*", "", 3);
    OneDigit('-', '5', 5, 4);
    OneDigit('{', '6', 6, 5);
    OneDigit('}', '7', 7, 6);
  }

  lemma OneDigit(c: char, d: char, ringId: nat, mode: nat)
    requires IsDigit(d) && ringId == d as int - '0' as int
    requires match c case '-' => mode == 4 case '{' => mode == 5 case '}' => mode == 6 case _ => false
    ensures Suffix([c, d], ringId, NrFlags(mode, false, false, false, false))
  {
    assert [c, d][1..] == [d];
    assert Decimal([d]) == ringId by { assert [d][..0] == []; }
    assert IsNumber([d], ringId);
    assert SuffixSays([c, d], ringId, NrFlags(mode, false, false, false, false), [c, d], "", mode);
  }

  /** The suffix of flags: which letter sets which flag. */
  lemma FlagSuffixes()
    ensures Suffix("/x", 0, NrFlags(1, true, false, false, false))
    ensures Suffix("/z", 0, NrFlags(1, false, true, false, false))
    ensures Suffix("/t", 0, NrFlags(1, false, false, true, false))
    ensures Suffix("/r", 0, NrFlags(1, false, false, false, true))
  {
    assert SuffixSays("/x", 0, NrFlags(1, true, false, false, false), "", "/x", 1);
    assert SuffixSays("/z", 0, NrFlags(1, false, true, false, false), "", "/z", 1);
    assert SuffixSays("/t", 0, NrFlags(1, false, false, true, false), "", "/t", 1);
    assert SuffixSays("/r", 0, NrFlags(1, false, false, false, true), "", "/r", 1);
  }

  /** A ring number may be 4094 but not 4095. */
  lemma LastRing(t: string)
    ensures IsNumber(t, 4094) ==> RingNumber(t, 4094, false)
    ensures IsNumber(t, 4095) ==> !RingNumber(t, 4095, false)
  {
  }

  /** Names of at most fifteen characters, none of them a separator, behind `netmap:`, or beginning with `vale`. */
  lemma NamesAreRead(name: string, suffix: string, port: Port)
    requires Suffix(suffix, port.ringId, port.flags) && port.name == name
    requires |name| <= 15 && forall i :: 0 <= i < |name| ==> name[i] !in ['-', '*', '^', '{', '}', '/']
    ensures IsPortName("netmap:" + name + suffix, port)
    ensures "vale" <= name ==> IsPortName(name + suffix, port)
  {
    var whole := "netmap:" + name + suffix;
    assert whole == "netmap:" + (name + suffix);
    assert whole[7..] == name + suffix && "netmap:" <= whole;
    assert Plain(name);
    assert Names(whole, port, suffix);
    if "vale" <= name {
      assert (name + suffix)[0] == 'v';
      assert Names(name + suffix, port, suffix);
    }
  }

  /** And a name that is read has at most fifteen characters. */
  lemma NamesAreShort(ifname: string, port: Port)
    requires IsPortName(ifname, port)
    ensures |port.name| <= 15
  {
  }

  // ---- the automaton, state by state ----

  function Letters(flags: NrFlags, s: string): Option<NrFlags>
    decreases |s|
  {
    if s == "" then Some(flags)
    else if IsLetter(s[0]) then Letters(WithLetter(flags, s[0]), s[1..])
    else None
  }

  // What the automaton makes of `rest` from each state on: a ring number and flags, or failure.

  function FromFlagsOk(flags: NrFlags, ringId: nat, rest: string): Option<(nat, NrFlags)> {
    match Letters(flags, rest)
    case None => None
    case Some(f) => Some((ringId, f))
  }

  function FromFlags(flags: NrFlags, ringId: nat, rest: string): Option<(nat, NrFlags)> {
    if rest == "" then None else FromFlagsOk(flags, ringId, rest)
  }

  function FromRngSfxOk(flags: NrFlags, ringId: nat, rest: string): Option<(nat, NrFlags)> {
    if rest == "" then Some((ringId, flags))
    else if rest[0] == '/' then FromFlags(flags, ringId, rest[1..])
    else None
  }

  function FromGetNum(flags: NrFlags, rest: string): Option<(nat, NrFlags)> {
    var (num, n) := Strtol(rest);
    if rest == "" || num < 0 || num >= NETMAP_RING_MASK then None else FromRngSfxOk(flags, num, rest[n..])
  }

  function FromStart(flags: NrFlags, ringId: nat, rest: string): Option<(nat, NrFlags)> {
    if rest == "" then Some((ringId, flags))
    else
      match rest[0]
      case '^' => FromRngSfxOk(InMode(NR_REG_SW), ringId, rest[1..])
      case '*' => FromRngSfxOk(InMode(NR_REG_NIC_SW), ringId, rest[1..])
      case '-' => FromGetNum(InMode(NR_REG_ONE_NIC), rest[1..])
      case '{' => FromGetNum(InMode(NR_REG_PIPE_MASTER), rest[1..])
      case '}' => FromGetNum(InMode(NR_REG_PIPE_SLAVE), rest[1..])
      case '/' => FromFlags(flags, ringId, rest[1..])
      case _ => None
  }

  function Finish(st: PortState, flags: NrFlags, ringId: nat, rest: string): Option<(nat, NrFlags)> {
    match st
    case Start => FromStart(flags, ringId, rest)
    case RngSfxOk => FromRngSfxOk(flags, ringId, rest)
    case GetNum => FromGetNum(flags, rest)
    case Flags => FromFlags(flags, ringId, rest)
    case FlagsOk => FromFlagsOk(flags, ringId, rest)
  }

  // ---- the automaton accepts exactly the grammar ----

  lemma InFront(s: string, c: char)
    requires s != ""
    ensures c in s <==> c == s[0] || c in s[1..]
  {
  }

  lemma AllLettersInFront(s: string)
    requires s != ""
    ensures AllLetters(s) <==> IsLetter(s[0]) && AllLetters(s[1..])
  {
  }

  /** The flags depend on the set of letters alone, not on their order or how often they occur. */
  lemma {:induction false} LettersMeaning(flags: NrFlags, s: string)
    ensures Letters(flags, s) == if AllLetters(s) then Some(WithLetters(flags, s)) else None
    decreases |s|
  {
    if s != "" {
      AllLettersInFront(s);
      LettersMeaning(WithLetter(flags, s[0]), s[1..]);
      InFront(s, 'x');
      InFront(s, 'z');
      InFront(s, 't');
      InFront(s, 'r');
    }
  }

  lemma UnsignedReads(t: string, tail: string)
    requires AllDigits(t) && (tail == "" || tail[0] == '/')
    ensures Unsigned(t + tail) == (Decimal(t), |t|)
  {
    DigitsAre(t, tail);
    assert (t + tail)[..|t|] == t;
  }

  lemma {:induction false} DigitsAre(t: string, tail: string)
    requires (forall i :: 0 <= i < |t| ==> IsDigit(t[i])) && (tail == "" || tail[0] == '/')
    ensures Digits(t + tail) == |t|
  {
    if t == "" {
      assert t + tail == tail;
    } else {
      assert (t + tail)[1..] == t[1..] + tail;
      DigitsAre(t[1..], tail);
    }
  }

  lemma SignedReads(t: string, v: int, tail: string)
    requires IsSigned(t, v) && (tail == "" || tail[0] == '/')
    ensures Signed(t + tail) == (v, |t|)
  {
    if !IsSign(t[0]) {
      UnsignedReads(t, tail);
    } else {
      assert (t + tail)[1..] == t[1..] + tail;
      UnsignedReads(t[1..], tail);
    }
  }

  /** `strtol` reads a number up to whatever follows it, if that is not a digit. */
  lemma {:induction false} StrtolReads(t: string, v: int, tail: string)
    requires IsNumber(t, v) && (tail == "" || tail[0] == '/')
    ensures Strtol(t + tail) == (v, |t|)
  {
    if !IsBlank(t[0]) {
      SignedReads(t, v, tail);
    } else {
      assert (t + tail)[1..] == t[1..] + tail;
      StrtolReads(t[1..], v, tail);
    }
  }

  lemma {:induction false} DigitsFind(s: string)
    ensures Digits(s) > 0 ==> AllDigits(s[..Digits(s)])
  {
    if Digits(s) > 0 {
      DigitsFind(s[1..]);
      var t := s[..Digits(s)];
      forall i | 0 <= i < |t|
        ensures IsDigit(t[i])
      {
        if i > 0 {
          assert t[i] == s[1..][..Digits(s[1..])][i - 1];
        }
      }
    }
  }

  lemma SignedFinds(s: string)
    ensures Signed(s).1 > 0 ==> IsSigned(s[..Signed(s).1], Signed(s).0)
    ensures Signed(s).1 == 0 ==> Signed(s).0 == 0
  {
    if s == "" || !IsSign(s[0]) {
      DigitsFind(s);
    } else {
      DigitsFind(s[1..]);
      var n := Signed(s).1;
      assert n > 0 ==> s[..n][1..] == s[1..][..n - 1];
    }
  }

  /** What `strtol` takes up is a number, or nothing at all, which stands for zero. */
  lemma {:induction false} StrtolFinds(s: string)
    ensures Strtol(s).1 > 0 ==> IsNumber(s[..Strtol(s).1], Strtol(s).0)
    ensures Strtol(s).1 == 0 ==> Strtol(s).0 == 0
  {
    if s == "" || !IsBlank(s[0]) {
      SignedFinds(s);
    } else {
      StrtolFinds(s[1..]);
      var n := Strtol(s).1;
      assert n > 0 ==> s[..n][1..] == s[1..][..n - 1];
    }
  }

  /** The flag suffix: what it is, and what it says. */
  lemma TailMeaning(mode: nat, ringId: nat, tail: string)
    ensures FromRngSfxOk(InMode(mode), ringId, tail) ==
            if FlagSuffix(tail) then Some((ringId, WithLetters(InMode(mode), tail))) else None
  {
    if tail != "" && tail[0] == '/' {
      assert tail == [tail[0]] + tail[1..];
      LettersMeaning(InMode(mode), tail[1..]);
    }
  }

  lemma NumberReads(mode: nat, t: string, ringId: nat, tail: string)
    requires RingNumber(t, ringId, tail != "") && FlagSuffix(tail)
    ensures FromGetNum(InMode(mode), t + tail) == Some((ringId, WithLetters(InMode(mode), tail)))
  {
    TailMeaning(mode, ringId, tail);
    if IsNumber(t, ringId) && ringId < NETMAP_RING_MASK {
      StrtolReads(t, ringId, tail);
      assert (t + tail)[|t|..] == tail;
    } else {
      assert t + tail == tail;
      assert Strtol(tail) == (0, 0);
      assert tail[0..] == tail;
    }
  }

  lemma NumberFinds(mode: nat, rest: string) returns (t: string, tail: string)
    requires FromGetNum(InMode(mode), rest).Some?
    ensures rest == t + tail && FlagSuffix(tail)
    ensures var (ringId, flags) := FromGetNum(InMode(mode), rest).value;
            RingNumber(t, ringId, tail != "") && flags == WithLetters(InMode(mode), tail)
  {
    var (num, n) := Strtol(rest);
    t, tail := rest[..n], rest[n..];
    StrtolFinds(rest);
    TailMeaning(mode, num, tail);
  }

  lemma SuffixReads(text: string, ringId: nat, flags: NrFlags, ring: string, tail: string, mode: nat)
    requires SuffixSays(text, ringId, flags, ring, tail, mode)
    ensures FromStart(InMode(NR_REG_ALL_NIC), 0, text) == Some((ringId, flags))
  {
    TailMeaning(mode, ringId, tail);
    if ring == "" {
      assert text == tail;
    } else {
      assert text[0] == ring[0] && text[1..] == ring[1..] + tail;
      if ring[0] == '^' || ring[0] == '*' {
        assert ring[1..] + tail == tail;
      } else {
        NumberReads(mode, ring[1..], ringId, tail);
      }
    }
  }

  lemma SplitBehindFirst(text: string, t: string, tail: string)
    requires text != "" && text[1..] == t + tail
    ensures text == ([text[0]] + t) + tail && ([text[0]] + t)[1..] == t
  {
  }

  lemma NumberedFinds(text: string, mode: nat)
    requires text != "" && FromGetNum(InMode(mode), text[1..]).Some?
    requires match text[0] case '-' => mode == NR_REG_ONE_NIC case '{' => mode == NR_REG_PIPE_MASTER
                           case '}' => mode == NR_REG_PIPE_SLAVE case _ => false
    ensures var (ringId, flags) := FromGetNum(InMode(mode), text[1..]).value; Suffix(text, ringId, flags)
  {
    var (ringId, flags) := FromGetNum(InMode(mode), text[1..]).value;
    var t, tail := NumberFinds(mode, text[1..]);
    var ring := [text[0]] + t;
    SplitBehindFirst(text, t, tail);
    assert SuffixSays(text, ringId, flags, ring, tail, mode);
  }

  lemma UnnumberedFinds(text: string, mode: nat)
    requires text != "" && FromRngSfxOk(InMode(mode), 0, text[1..]).Some?
    requires match text[0] case '^' => mode == NR_REG_SW case '*' => mode == NR_REG_NIC_SW case _ => false
    ensures var (ringId, flags) := FromRngSfxOk(InMode(mode), 0, text[1..]).value; Suffix(text, ringId, flags)
  {
    var (ringId, flags) := FromRngSfxOk(InMode(mode), 0, text[1..]).value;
    TailMeaning(mode, 0, text[1..]);
    assert text == text[..1] + text[1..];
    assert SuffixSays(text, ringId, flags, text[..1], text[1..], mode);
  }

  lemma SuffixFinds(text: string)
    requires FromStart(InMode(NR_REG_ALL_NIC), 0, text).Some?
    ensures var (ringId, flags) := FromStart(InMode(NR_REG_ALL_NIC), 0, text).value; Suffix(text, ringId, flags)
  {
    if text == "" || text[0] == '/' {
      TailMeaning(NR_REG_ALL_NIC, 0, text);
      assert text == "" + text;
      assert SuffixSays(text, 0, WithLetters(InMode(NR_REG_ALL_NIC), text), "", text, NR_REG_ALL_NIC);
    } else if text[0] == '^' || text[0] == '*' {
      UnnumberedFinds(text, if text[0] == '^' then NR_REG_SW else NR_REG_NIC_SW);
    } else {
      NumberedFinds(text, if text[0] == '-' then NR_REG_ONE_NIC
                          else if text[0] == '{' then NR_REG_PIPE_MASTER else NR_REG_PIPE_SLAVE);
    }
  }

  /** The automaton reads exactly the suffixes of the grammar, and says what they say. */
  lemma SuffixGrammar(text: string, ringId: nat, flags: NrFlags)
    ensures FromStart(InMode(NR_REG_ALL_NIC), 0, text) == Some((ringId, flags)) <==> Suffix(text, ringId, flags)
  {
    if Suffix(text, ringId, flags) {
      var ring, tail, mode :| SuffixSays(text, ringId, flags, ring, tail, mode);
      SuffixReads(text, ringId, flags, ring, tail, mode);
    }
    if FromStart(InMode(NR_REG_ALL_NIC), 0, text) == Some((ringId, flags)) {
      SuffixFinds(text);
    }
  }

  // ---- whole names ----

  /** How far a name goes: up to its first separator. */
  function NameLength(s: string): (n: nat)
    ensures n <= |s| && (n < |s| ==> IsSeparator(s[n]))
  {
    if s == "" || IsSeparator(s[0]) then 0 else 1 + NameLength(s[1..])
  }

  lemma {:induction false} NameEnds(name: string, suffix: string)
    requires Plain(name) && (suffix == "" || IsSeparator(suffix[0]))
    ensures NameLength(name + suffix) == |name|
  {
    if name == "" {
      assert name + suffix == suffix;
    } else {
      assert (name + suffix)[1..] == name[1..] + suffix;
      NameEnds(name[1..], suffix);
    }
  }

  lemma {:induction false} NameIsPlain(s: string)
    ensures Plain(s[..NameLength(s)])
  {
    if NameLength(s) > 0 {
      NameIsPlain(s[1..]);
      assert s[..NameLength(s)] == [s[0]] + s[1..][..NameLength(s[1..])];
    }
  }

  /** Cutting a name at its first separator is the only way to read it. */
  lemma NameMeaning(ifname: string, port: Port)
    requires "netmap:" <= ifname || "vale" <= ifname
    ensures var rest := Stripped(ifname);
            var n := NameLength(rest);
            IsPortName(ifname, port) <==>
            && n < IFNAMSIZ && port.name == rest[..n]
            && FromStart(InMode(NR_REG_ALL_NIC), 0, rest[n..]) == Some((port.ringId, port.flags))
  {
    var rest := Stripped(ifname);
    var n := NameLength(rest);
    SuffixGrammar(rest[n..], port.ringId, port.flags);
    if IsPortName(ifname, port) {
      var suffix :| Names(ifname, port, suffix);
      SuffixGrammar(suffix, port.ringId, port.flags);
      NameEnds(port.name, suffix);
      assert rest[..n] == port.name && rest[n..] == suffix;
    }
    if n < IFNAMSIZ && port.name == rest[..n] && Suffix(rest[n..], port.ringId, port.flags) {
      NameIsPlain(rest);
      assert rest == port.name + rest[n..];
      assert Names(ifname, port, rest[n..]);
    }
  }

  /** The parsing half of `nm_open`. */
  method ReadPortName(ifname: string) returns (r: Result<Port>)
    ensures forall port :: r == Ok(port) <==> IsPortName(ifname, port)
  {
    if !("netmap:" <= ifname) && !("vale" <= ifname) {
      return Err("name not recognised");
    }
    forall port
      ensures var rest := Stripped(ifname);
              var n := NameLength(rest);
              IsPortName(ifname, port) <==>
              && n < IFNAMSIZ && port.name == rest[..n]
              && FromStart(InMode(NR_REG_ALL_NIC), 0, rest[n..]) == Some((port.ringId, port.flags))
    {
      NameMeaning(ifname, port);
    }
    var rest := ifname;
    if ifname[0] == 'n' {
      rest := ifname[7..];
    }
    var n := 0;
    while n < |rest| && !IsSeparator(rest[n])
      invariant n <= |rest| && NameLength(rest) == n + NameLength(rest[n..])
    {
      assert rest[n..][1..] == rest[n + 1..];
      n := n + 1;
    }
    if n >= IFNAMSIZ {
      return Err("name too long");
    }
    var suffix := ReadSuffix(rest[n..]);
    if suffix.None? {
      return Err("bad suffix");
    }
    return Ok(Port(rest[..n], suffix.value.0, suffix.value.1));
  }

  /** The suffix automaton. It ends although `strtol` may take up nothing. */
  method ReadSuffix(text: string) returns (r: Option<(nat, NrFlags)>)
    ensures r == FromStart(InMode(NR_REG_ALL_NIC), 0, text)
  {
    var port, st, flags, ringId: nat := text, Start, InMode(NR_REG_ALL_NIC), 0;
    while port != ""
      invariant Finish(st, flags, ringId, port) == FromStart(InMode(NR_REG_ALL_NIC), 0, text)
      decreases |port|, if st == GetNum then 1 else 0
    {
      match st {
        case Start =>
          match port[0] {
            case '^' => flags, st := InMode(NR_REG_SW), RngSfxOk;
            case '*' => flags, st := InMode(NR_REG_NIC_SW), RngSfxOk;
            case '-' => flags, st := InMode(NR_REG_ONE_NIC), GetNum;
            case '{' => flags, st := InMode(NR_REG_PIPE_MASTER), GetNum;
            case '}' => flags, st := InMode(NR_REG_PIPE_SLAVE), GetNum;
            case '/' => st := Flags;
            case _ => return None;
          }
          port := port[1..];
        case RngSfxOk =>
          if port[0] != '/' {
            return None;
          }
          st := Flags;
          port := port[1..];
        case GetNum =>
          var (num, n) := Strtol(port);
          port := port[n..];
          if num < 0 || num >= NETMAP_RING_MASK {
            return None;
          }
          ringId, st := num, RngSfxOk;
        case _ =>
          match port[0] {
            case 'x' => flags := flags.(exclusive := true);
            case 'z' => flags := flags.(zcopy := true);
            case 't' => flags := flags.(monitorTx := true);
            case 'r' => flags := flags.(monitorRx := true);
            case _ => return None;
          }
          port := port[1..];
          st := FlagsOk;
      }
    }
    if st != Start && st != RngSfxOk && st != FlagsOk {
      return None;
    }
    return Some((ringId, flags));
  }
}
