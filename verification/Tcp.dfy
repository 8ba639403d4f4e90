/** The TCP instance: layer-4 options, flag lists, and what equality of parsed rules means. */
module Tcp {
  import opened Words
  import opened Rules
  import opened RulesLists
  import opened Sizes

  // ---- comparisons (`NumComparable`) ----

  datatype Comparison = Eq | Gt | Lt

  /** `Absent` is a default-constructed `NumComparable`: number 0, type `=`, disabled. */
  datatype NumComparable = NumComparable(num: u32, kind: Comparison, enabled: bool) {
    predicate InThis(n: u32) {
      !enabled || match kind case Eq => n == num case Gt => n > num case Lt => n < num
    }

    /** `operator==` looks at the number and the type only. */
    predicate Same(other: NumComparable) {
      num == other.num && kind == other.kind
    }
  }

  const ABSENT := NumComparable(0, Eq, false)

  /** A comparison argument: its first character, and what reading a number from the rest gave. */
  datatype NumText = NumText(length: nat, op: char, number: Option<u64>, wholeRead: bool)

  /** The number is narrowed to `width` values: 2^16 or 2^32. */
  function NumCompFromString(t: NumText, width: int): Result<NumComparable>
    requires width == 0x1_0000 || width == 0x1_0000_0000
  {
    if t.length < 2 then Err("too short")
    else if t.number.None? then Err("bad number")
    else if !t.wholeRead then Err("unparsed symbols")
    else
      match GetIndex(['=', '>', '<'], t.op)
      case None => Err("unsupported value")
      case Some(i) => Ok(NumComparable(t.number.value % width, if i == 0 then Eq else if i == 1 then Gt else Lt, true))
  }

  /**
    Exactly these comparisons are accepted: at least two characters, of which the first is one of
    three signs and the rest is read as a number to its end.
   */
  predicate Acceptable(t: NumText) {
    t.length >= 2 && t.number.Some? && t.wholeRead && (t.op == '=' || t.op == '>' || t.op == '<')
  }

  lemma NumCompAccepts(t: NumText, width: int)
    requires width == 0x1_0000 || width == 0x1_0000_0000
    ensures NumCompFromString(t, width).Ok? <==>
            t.length >= 2 && t.number.Some? && t.wholeRead && (t.op == '=' || t.op == '>' || t.op == '<')
    ensures NumCompFromString(t, width).Ok? ==>
              var c := NumCompFromString(t, width).value;
              && c.enabled && c.num == t.number.value % width
              && c.kind == if t.op == '=' then Eq else if t.op == '>' then Gt else Lt
  {
  }

  // ---- flags (`tcp_flags`, `bitset_from_string`) ----

  /** Six bits, in the order of `accept_tcp_flags`: URG, ACK, PSH, RST, SYN, FIN. */
  type Bits = s: seq<bool> | |s| == 6 witness [false, false, false, false, false, false]

  const ACCEPT := ['U', 'A', 'P', 'R', 'S', 'F']
  const NO_BITS: Bits := [false, false, false, false, false, false]

  datatype TcpFlags = TcpFlags(enabled: bool, bits: Bits, mask: Bits) {
    /** `(flags & mask) == bits` */
    predicate InThis(flags: Bits) {
      forall i :: 0 <= i < 6 ==> (flags[i] && mask[i]) == bits[i]
    }
  }

  const NO_FLAGS := TcpFlags(false, NO_BITS, NO_BITS)

  predicate FlagToken(f: string) {
    |f| == 3 && f[1] == ':' && (f[2] == '0' || f[2] == '1') && f[0] in ACCEPT
  }

  /** The value given to flag `c` by the last token that names it. */
  function LastMention(tokens: seq<string>, c: char): Option<bool> {
    if tokens == [] then None
    else
      var f := tokens[|tokens| - 1];
      if |f| == 3 && f[0] == c then Some(f[2] == '1') else LastMention(tokens[..|tokens| - 1], c)
  }

  /** The twelve tokens that are accepted. */
  lemma FlagTokens(f: string)
    ensures FlagToken(f) <==> f in ["U:0", "A:0", "P:0", "R:0", "S:0", "F:0", "U:1", "A:1", "P:1", "R:1", "S:1", "F:1"]
  {
    if |f| == 3 {
      assert f == [f[0], f[1], f[2]];
    }
  }

  /** A token for `c` decides, with 1 for true; one for another flag leaves the decision to those before it. */
  lemma LastMentionMeans(tokens: seq<string>, f: string, c: char)
    requires FlagToken(f)
    ensures LastMention([], c) == None
    ensures LastMention(tokens + [f], c) ==
            if f == [c, ':', '1'] then Some(true) else if f == [c, ':', '0'] then Some(false)
            else LastMention(tokens, c)
  {
    assert (tokens + [f])[..|tokens|] == tokens;
    assert f == [f[0], f[1], f[2]];
  }

  /** Bits and mask are exactly what the last mentions say. */
  ghost predicate SaysLastMentions(tokens: seq<string>, bits: Bits, mask: Bits) {
    forall i {:trigger ACCEPT[i]} {:trigger mask[i]} {:trigger bits[i]} :: 0 <= i < 6 ==>
      && (mask[i] <==> LastMention(tokens, ACCEPT[i]).Some?)
      && (bits[i] <==> LastMention(tokens, ACCEPT[i]) == Some(true))
  }

  lemma MentionOneMore(tokens: seq<string>, f: string, bits: Bits, mask: Bits, x: nat)
    requires SaysLastMentions(tokens, bits, mask)
    requires FlagToken(f) && x < 6 && ACCEPT[x] == f[0]
    ensures SaysLastMentions(tokens + [f], bits[x := f[2] == '1'], mask[x := true])
  {
  }

  /** A token list is accepted when it is not empty and every token is a flag of the list with 0 or 1. */
  method BitsetFromString(tokens: seq<string>) returns (r: Result<(Bits, Bits)>)
    ensures r.Ok? <==> tokens != [] && forall f :: f in tokens ==> FlagToken(f)
    ensures r.Ok? ==> SaysLastMentions(tokens, r.value.0, r.value.1)
  {
    var bits: Bits, mask: Bits := NO_BITS, NO_BITS;
    if tokens == [] {
      return Err("empty option");
    }
    var n := 0;
    while n < |tokens|
      invariant 0 <= n <= |tokens|
      invariant forall f :: f in tokens[..n] ==> FlagToken(f)
      invariant SaysLastMentions(tokens[..n], bits, mask)
    {
      var f := tokens[n];
      if |f| != 3 || f[1] != ':' || (f[2] != '0' && f[2] != '1') {
        assert !FlagToken(f) && f in tokens;
        return Err("unparsed flag");
      }
      var x := GetIndex(ACCEPT, f[0]);
      if x.None? {
        assert !FlagToken(f) && f in tokens;
        return Err("unsupported value");
      }
      MentionOneMore(tokens[..n], f, bits, mask, x.value);
      assert tokens[..n + 1] == tokens[..n] + [f];
      mask := mask[x.value := true];
      bits := bits[x.value := f[2] == '1'];
      n := n + 1;
    }
    assert tokens[..n] == tokens;
    return Ok((bits, mask));
  }

  /**
    For any accepted list, in any order and with repeats: the bits are a subset of the mask, the
    test can be met, and a header meets it exactly when each named flag has the value of its last
    mention.
   */
  lemma FlagsMeanLastMentions(tokens: seq<string>, bits: Bits, mask: Bits, flags: Bits)
    requires SaysLastMentions(tokens, bits, mask)
    ensures forall i :: 0 <= i < 6 && bits[i] ==> mask[i]
    ensures TcpFlags(true, bits, mask).InThis(bits)
    ensures TcpFlags(true, bits, mask).InThis(flags) <==>
            forall i {:trigger flags[i]} :: 0 <= i < 6 ==>
              match LastMention(tokens, ACCEPT[i]) case None => true case Some(v) => flags[i] == v
  {
  }

  // ---- the rule ----

  datatype TcpMatch = TcpMatch(
    sport: NumRange, dport: NumRange,
    seqNum: NumComparable, ackNum: NumComparable, win: NumComparable, hlen: NumComparable, flags: TcpFlags)

  /** `doff` counts 32-bit words; `flags` is in the order of `ACCEPT`, as the Linux branch fills it. */
  datatype TcpHeader = TcpHeader(
    sport: u16, dport: u16, seqNum: u32, ackNum: u32, win: u16, doff: u4,
    urg: bool, ack: bool, psh: bool, rst: bool, syn: bool, fin: bool)
  {
    function Flags(): Bits {
      [urg, ack, psh, rst, syn, fin]
    }

    function HeaderLen(): u32 {
      doff * 4
    }
  }

  predicate CheckHeader(m: TcpMatch, t: TcpHeader) {
    && m.sport.InThis(t.sport) && m.dport.InThis(t.dport)
    && m.seqNum.InThis(t.seqNum) && m.ackNum.InThis(t.ackNum)
    && m.win.InThis(t.win) && m.hlen.InThis(t.HeaderLen())
    && (m.flags.enabled ==> m.flags.InThis(t.Flags()))
  }

  predicate SameMatch(a: TcpMatch, b: TcpMatch) {
    && a.sport.Same(b.sport) && a.dport.Same(b.dport)
    && a.seqNum.Same(b.seqNum) && a.ackNum.Same(b.ackNum) && a.win.Same(b.win) && a.hlen.Same(b.hlen)
    && a.flags == b.flags
  }

  const TCP: Protocol<TcpMatch, TcpHeader> := Protocol(CheckHeader, SameMatch)

  lemma TcpIsReflexive()
    ensures Reflexive(TCP)
  {
  }

  /** TCP options as given; comparisons and port ranges come from their own conversions. */
  datatype TcpOptions = TcpOptions(
    sport: Option<(u16, u16)>, dport: Option<(u16, u16)>,
    seqNum: Option<NumText>, ackNum: Option<NumText>, win: Option<NumText>, hlen: Option<NumText>,
    flags: Option<Result<(Bits, Bits)>>)

  function Compared(o: Option<NumText>, width: int): Result<NumComparable>
    requires width == 0x1_0000 || width == 0x1_0000_0000
  {
    if o.None? then Ok(ABSENT) else NumCompFromString(o.value, width)
  }

  function Ports(o: Option<(u16, u16)>): NumRange {
    if o.None? then NO_RANGE else NO_RANGE.Assign((o.value.0, o.value.1))
  }

  function ParseTcp(o: TcpOptions): Result<TcpMatch> {
    var seqNum, ackNum := Compared(o.seqNum, 0x1_0000_0000), Compared(o.ackNum, 0x1_0000_0000);
    var win, hlen := Compared(o.win, 0x1_0000), Compared(o.hlen, 0x1_0000);
    if seqNum.Err? then Err(seqNum.message) else
    if ackNum.Err? then Err(ackNum.message) else
    if win.Err? then Err(win.message) else
    if hlen.Err? then Err(hlen.message) else
    if o.flags.Some? && o.flags.value.Err? then Err(o.flags.value.message) else
    var flags := if o.flags.None? then NO_FLAGS else TcpFlags(true, o.flags.value.value.0, o.flags.value.value.1);
    Ok(TcpMatch(Ports(o.sport), Ports(o.dport), seqNum.value, ackNum.value, win.value, hlen.value, flags))
  }

  /** Exactly which TCP options are accepted: their comparisons and their flag list are. */
  lemma ParseTcpAccepts(o: TcpOptions)
    ensures ParseTcp(o).Ok? <==>
            && (o.seqNum.Some? ==> Acceptable(o.seqNum.value)) && (o.ackNum.Some? ==> Acceptable(o.ackNum.value))
            && (o.win.Some? ==> Acceptable(o.win.value)) && (o.hlen.Some? ==> Acceptable(o.hlen.value))
            && (o.flags.Some? ==> o.flags.value.Ok?)
  {
  }

  /** What parsing makes: a range is enabled unless it is 0-0, a disabled comparison is the default. */
  predicate Parsed(m: TcpMatch) {
    && ParsedRange(m.sport) && ParsedRange(m.dport)
    && ParsedNum(m.seqNum) && ParsedNum(m.ackNum) && ParsedNum(m.win) && ParsedNum(m.hlen)
  }

  predicate ParsedRange(r: NumRange) {
    r.enabled <==> r.start != 0 || r.end != 0
  }

  predicate ParsedNum(c: NumComparable) {
    c.enabled || c == ABSENT
  }

  lemma ParseTcpGivesParsed(o: TcpOptions)
    ensures ParseTcp(o).Ok? ==> Parsed(ParseTcp(o).value)
  {
  }

  /** One side says `=0` and the other leaves the option out. */
  predicate ZeroAgainstAbsent(a: NumComparable, b: NumComparable) {
    (a == NumComparable(0, Eq, true) && b == ABSENT) || (a == ABSENT && b == NumComparable(0, Eq, true))
  }

  predicate SameEnabled(a: TcpMatch, b: TcpMatch) {
    && a.seqNum.enabled == b.seqNum.enabled && a.ackNum.enabled == b.ackNum.enabled
    && a.win.enabled == b.win.enabled && a.hlen.enabled == b.hlen.enabled
  }

  /**
    Equality of parsed options. If no comparison is enabled on one side only, equal options are
    identical. The only way to be equal and differ is `=0` on one side and nothing on the other.
   */
  lemma EqualOptions(a: TcpMatch, b: TcpMatch)
    requires Parsed(a) && Parsed(b) && SameMatch(a, b)
    ensures SameEnabled(a, b) <==> a == b
    ensures a.seqNum.enabled != b.seqNum.enabled ==> ZeroAgainstAbsent(a.seqNum, b.seqNum)
    ensures a.ackNum.enabled != b.ackNum.enabled ==> ZeroAgainstAbsent(a.ackNum, b.ackNum)
    ensures a.win.enabled != b.win.enabled ==> ZeroAgainstAbsent(a.win, b.win)
    ensures a.hlen.enabled != b.hlen.enabled ==> ZeroAgainstAbsent(a.hlen, b.hlen)
  {
  }

  /** Or the two are identical. */
  predicate Interchangeable(a: NumComparable, b: NumComparable) {
    a == b || ZeroAgainstAbsent(a, b)
  }

  /** Parsed options are equal exactly if ranges and flags are, and comparisons are up to `=0` for an absent one. */
  lemma EqualOptionsAre(a: TcpMatch, b: TcpMatch)
    requires Parsed(a) && Parsed(b)
    ensures SameMatch(a, b) <==>
            && a.sport == b.sport && a.dport == b.dport && a.flags == b.flags
            && Interchangeable(a.seqNum, b.seqNum) && Interchangeable(a.ackNum, b.ackNum)
            && Interchangeable(a.win, b.win) && Interchangeable(a.hlen, b.hlen)
  {
  }

  ghost predicate MatchAlike(a: TcpMatch, b: TcpMatch) {
    forall t: TcpHeader :: CheckHeader(a, t) <==> CheckHeader(b, t)
  }

  /** A header that tells apart two options, of which the second compares an extra field with 0. */
  lemma TellsApart(a: TcpMatch, b: TcpMatch, t: TcpHeader)
    requires Parsed(a) && Parsed(b) && SameMatch(a, b) && CheckHeader(a, t)
    requires (b.seqNum.enabled && !a.seqNum.enabled) || (b.ackNum.enabled && !a.ackNum.enabled)
             || (b.win.enabled && !a.win.enabled) || (b.hlen.enabled && !a.hlen.enabled)
    ensures !MatchAlike(a, b)
  {
    EqualOptions(a, b);
    var u := Nudged(a, t);
    NudgedStillMatches(a, t);
    if b.seqNum.enabled && !a.seqNum.enabled {
      assert !b.seqNum.InThis(u.seqNum);
    } else if b.ackNum.enabled && !a.ackNum.enabled {
      assert !b.ackNum.InThis(u.ackNum);
    } else if b.win.enabled && !a.win.enabled {
      assert !b.win.InThis(u.win);
    } else {
      assert u.HeaderLen() == 4 && !b.hlen.InThis(u.HeaderLen());
    }
    assert CheckHeader(a, u) && !CheckHeader(b, u);
  }

  /** The header with 1 in every field that `a` does not compare. */
  function Nudged(a: TcpMatch, t: TcpHeader): TcpHeader {
    TcpHeader(
      t.sport, t.dport,
      if a.seqNum.enabled then t.seqNum else 1, if a.ackNum.enabled then t.ackNum else 1,
      if a.win.enabled then t.win else 1, if a.hlen.enabled then t.doff else 1,
      t.urg, t.ack, t.psh, t.rst, t.syn, t.fin)
  }

  lemma NudgedStillMatches(a: TcpMatch, t: TcpHeader)
    requires CheckHeader(a, t)
    ensures CheckHeader(a, Nudged(a, t))
  {
  }

  /**
    Equal parsed options that some header meets match the same headers exactly when they enable
    the same comparisons.
   */
  lemma EqualOptionsMatchAlike(a: TcpMatch, b: TcpMatch, t: TcpHeader)
    requires Parsed(a) && Parsed(b) && SameMatch(a, b)
    requires CheckHeader(a, t) || CheckHeader(b, t)
    ensures MatchAlike(a, b) <==> SameEnabled(a, b)
  {
    EqualOptions(a, b);
    if !SameEnabled(a, b) && MatchAlike(a, b) {
      assert CheckHeader(a, t) && CheckHeader(b, t);
      if (b.seqNum.enabled && !a.seqNum.enabled) || (b.ackNum.enabled && !a.ackNum.enabled)
         || (b.win.enabled && !a.win.enabled) || (b.hlen.enabled && !a.hlen.enabled) {
        TellsApart(a, b, t);
      } else {
        TellsApart(b, a, t);
      }
    }
  }

  predicate ParsedRule(s: RuleSpec<TcpMatch>) {
    ParsedRange(s.src) && ParsedRange(s.dst) && Parsed(s.l4)
  }

  lemma ParseGivesParsed(o: RuleOptions<TcpMatch>, t: TcpOptions)
    requires o.l4 == ParseTcp(t) && ParseRule(o).Ok?
    ensures ParsedRule(ParseRule(o).value.spec)
  {
  }

  /**
    Lists of parsed rules that compare equal, and enable the same comparisons, credit every packet
    to the same rules.
   */
  lemma EqualListsCreditAlike(
      a: seq<Rule<TcpMatch>>, b: seq<Rule<TcpMatch>>, pkt: Packet<TcpHeader>, k: nat)
    requires SameRules(TCP, a, b) && k < |a|
    requires forall j {:trigger a[j]} {:trigger b[j]} :: 0 <= j < |a| ==>
               ParsedRule(a[j].spec) && ParsedRule(b[j].spec) && SameEnabled(a[j].spec.l4, b[j].spec.l4)
    ensures Credits(TCP, a, pkt, k) <==> Credits(TCP, b, pkt, k)
    ensures Hits(TCP, a, pkt) <==> Hits(TCP, b, pkt)
  {
    forall j | 0 <= j < |a|
      ensures Matches(TCP, a[j].spec, pkt) <==> Matches(TCP, b[j].spec, pkt)
      ensures Stops(TCP, a[j], pkt) <==> Stops(TCP, b[j], pkt)
    {
      assert SameSpec(TCP, a[j].spec, b[j].spec);
      EqualOptions(a[j].spec.l4, b[j].spec.l4);
    }
  }

  /** The condition is needed: `--seq =0` equals no `--seq` at all, and matches fewer packets. */
  lemma ZeroEqualsAbsent()
    ensures var a := TcpMatch(NO_RANGE, NO_RANGE, NumComparable(0, Eq, true), ABSENT, ABSENT, ABSENT, NO_FLAGS);
            var b := TcpMatch(NO_RANGE, NO_RANGE, ABSENT, ABSENT, ABSENT, ABSENT, NO_FLAGS);
            var t := TcpHeader(1, 1, 7, 0, 0, 5, false, false, false, false, true, false);
            Parsed(a) && Parsed(b) && SameMatch(a, b) && !CheckHeader(a, t) && CheckHeader(b, t)
  {
  }
}
