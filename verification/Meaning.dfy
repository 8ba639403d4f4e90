/** From a rule line to the packets it matches: parsing and matching taken together. */
module Meaning {
  import opened Words
  import opened Rules
  import opened Cidr
  import opened Sizes
  import opened Tcp

  function Ranges(a: Option<Address>): Option<(u32, u32)>
    requires a.Some? ==> Shiftable(a.value)
  {
    if a.None? then None else Some(RangeFromIp(a.value))
  }

  // ---- what each option says ----

  predicate AddressSays(a: Option<Address>, x: u32)
    requires a.Some? ==> Shiftable(a.value)
  {
    a.Some? ==> Admits(a.value, x)
  }

  /** Port 0 is in no range, and the range 0-0 is no range. */
  predicate PortsSay(o: Option<(u16, u16)>, port: u16) {
    o.Some? && o.value != (0, 0) ==> port != 0 && o.value.0 <= port <= o.value.1
  }

  predicate NumberSays(o: Option<NumText>, width: int, n: u32)
    requires width > 0
  {
    o.Some? && o.value.number.Some? ==>
      var num := o.value.number.value % width;
      && (o.value.op == '=' ==> n == num)
      && (o.value.op == '>' ==> n > num)
      && (o.value.op == '<' ==> n < num)
  }

  /** A flag that is named must have the value of its last mention. */
  predicate FlagSays(tokens: Option<seq<string>>, c: char, v: bool) {
    tokens.Some? ==> LastMention(tokens.value, c).None? || LastMention(tokens.value, c) == Some(v)
  }

  /** Lengths are written in bytes, and counted by the header in words of four. */
  predicate OptionsSay(t: TcpOptions, tokens: Option<seq<string>>, h: TcpHeader) {
    && PortsSay(t.sport, h.sport) && PortsSay(t.dport, h.dport)
    && NumberSays(t.seqNum, 0x1_0000_0000, h.seqNum) && NumberSays(t.ackNum, 0x1_0000_0000, h.ackNum)
    && NumberSays(t.win, 0x1_0000, h.win) && NumberSays(t.hlen, 0x1_0000, 4 * h.doff)
    && LettersSay(tokens, h)
  }

  predicate LettersSay(tokens: Option<seq<string>>, h: TcpHeader) {
    && FlagSays(tokens, 'U', h.urg) && FlagSays(tokens, 'A', h.ack) && FlagSays(tokens, 'P', h.psh)
    && FlagSays(tokens, 'R', h.rst) && FlagSays(tokens, 'S', h.syn) && FlagSays(tokens, 'F', h.fin)
  }

  /** What reading a token list gives, by the contract of `Tcp.BitsetFromString`. */
  ghost predicate ReadAs(tokens: Option<seq<string>>, flags: Option<Result<(Bits, Bits)>>) {
    if tokens.None? then flags.None?
    else flags.Some? && flags.value.Ok? && SaysLastMentions(tokens.value, flags.value.value.0, flags.value.value.1)
  }

  // ---- what the line says ----

  lemma AddressMatches(a: Option<Address>, x: u32)
    requires a.Some? ==> Shiftable(a.value)
    ensures RangeOption(Ranges(a)).InThis(x) <==> AddressSays(a, x)
    ensures RangeOption(Ranges(a)).enabled <==> a.Some? && a != Some(Unreadable) && a != Some(Plain(0))
  {
    if a.Some? {
      AddressMeaning(a.value, x);
    }
  }

  lemma NumberMatches(o: Option<NumText>, width: int, n: u32)
    requires width == 0x1_0000 || width == 0x1_0000_0000
    requires Compared(o, width).Ok?
    ensures Compared(o, width).value.InThis(n) <==> NumberSays(o, width, n)
    ensures o.None? ==> Compared(o, width).value.InThis(n)
    ensures o.Some? ==>
              && o.value.number.Some?
              && var num := o.value.number.value % width;
                 match o.value.op
                 case '=' => Compared(o, width).value.InThis(n) <==> n == num
                 case '>' => Compared(o, width).value.InThis(n) <==> n > num
                 case '<' => Compared(o, width).value.InThis(n) <==> n < num
                 case _ => false
  {
  }

  lemma PortsMatch(o: Option<(u16, u16)>, port: u16)
    ensures Ports(o).InThis(port) <==> PortsSay(o, port)
    ensures Ports(o).InThis(port) <==>
            o.None? || o == Some((0, 0)) || (port > 0 && port >= o.value.0 && port <= o.value.1)
  {
  }

  /** Each letter of a flag list stands for its field of the header. */
  lemma LettersAreFields(tokens: seq<string>, h: TcpHeader)
    ensures LettersSay(Some(tokens), h) <==>
            forall i {:trigger ACCEPT[i]} :: 0 <= i < 6 ==> FlagSays(Some(tokens), ACCEPT[i], h.Flags()[i])
  {
    var f := h.Flags();
    assert ACCEPT[0] == 'U' && ACCEPT[1] == 'A' && ACCEPT[2] == 'P';
    assert ACCEPT[3] == 'R' && ACCEPT[4] == 'S' && ACCEPT[5] == 'F';
    assert f[0] == h.urg && f[1] == h.ack && f[2] == h.psh && f[3] == h.rst && f[4] == h.syn && f[5] == h.fin;
  }

  lemma FlagsMatch(tokens: Option<seq<string>>, flags: Option<Result<(Bits, Bits)>>, h: TcpHeader)
    requires ReadAs(tokens, flags)
    ensures flags.Some? ==>
              (TcpFlags(true, flags.value.value.0, flags.value.value.1).InThis(h.Flags()) <==> LettersSay(tokens, h))
    ensures flags.None? ==> LettersSay(tokens, h)
  {
    if flags.Some? {
      FlagsMeanLastMentions(tokens.value, flags.value.value.0, flags.value.value.1, h.Flags());
      LettersAreFields(tokens.value, h);
    }
  }

  /** The parts of the test, one for one. */
  lemma HeaderParts(t: TcpOptions, h: TcpHeader)
    ensures ParseTcp(t).Ok? ==>
              && Compared(t.seqNum, 0x1_0000_0000).Ok? && Compared(t.ackNum, 0x1_0000_0000).Ok?
              && Compared(t.win, 0x1_0000).Ok? && Compared(t.hlen, 0x1_0000).Ok?
              && (t.flags.Some? ==> t.flags.value.Ok?)
              && (CheckHeader(ParseTcp(t).value, h) <==>
                  && Ports(t.sport).InThis(h.sport) && Ports(t.dport).InThis(h.dport)
                  && Compared(t.seqNum, 0x1_0000_0000).value.InThis(h.seqNum)
                  && Compared(t.ackNum, 0x1_0000_0000).value.InThis(h.ackNum)
                  && Compared(t.win, 0x1_0000).value.InThis(h.win)
                  && Compared(t.hlen, 0x1_0000).value.InThis(4 * h.doff)
                  && (t.flags.Some? ==> TcpFlags(true, t.flags.value.value.0, t.flags.value.value.1).InThis(h.Flags())))
  {
  }

  lemma OptionsMeanWhatTheySay(t: TcpOptions, tokens: Option<seq<string>>, h: TcpHeader)
    requires ReadAs(tokens, t.flags)
    ensures ParseTcp(t).Ok? ==> (CheckHeader(ParseTcp(t).value, h) <==> OptionsSay(t, tokens, h))
  {
    HeaderParts(t, h);
    if ParseTcp(t).Ok? {
      PortsMatch(t.sport, h.sport);
      PortsMatch(t.dport, h.dport);
      NumberMatches(t.seqNum, 0x1_0000_0000, h.seqNum);
      NumberMatches(t.ackNum, 0x1_0000_0000, h.ackNum);
      NumberMatches(t.win, 0x1_0000, h.win);
      NumberMatches(t.hlen, 0x1_0000, 4 * h.doff);
      FlagsMatch(tokens, t.flags, h);
    }
  }

  /** The options of a line with these addresses and these TCP options. */
  function Line(
      o: RuleOptions<TcpMatch>, src: Option<Address>, dst: Option<Address>, t: TcpOptions): RuleOptions<TcpMatch>
    requires (src.Some? ==> Shiftable(src.value)) && (dst.Some? ==> Shiftable(dst.value))
  {
    o.(kind := "tcp", srcIp := Ranges(src), dstIp := Ranges(dst), l4 := ParseTcp(t))
  }

  /**
    A rule line that is accepted matches exactly the packets whose addresses it admits, whose ports
    lie in its ranges, whose numbers compare as written, and whose flag fields have the values last
    written for their letters; and it is not accepted unless one of its addresses is a range.
   */
  lemma RuleMeansItsLine(
      o: RuleOptions<TcpMatch>, src: Option<Address>, dst: Option<Address>, t: TcpOptions,
      tokens: Option<seq<string>>, pkt: Packet<TcpHeader>)
    requires (src.Some? ==> Shiftable(src.value)) && (dst.Some? ==> Shiftable(dst.value))
    requires ReadAs(tokens, t.flags)
    ensures var line := Line(o, src, dst, t);
            ParseRule(line).Ok? ==>
              && (Matches(TCP, ParseRule(line).value.spec, pkt) <==>
                  && AddressSays(src, pkt.src) && AddressSays(dst, pkt.dst)
                  && PortsSay(t.sport, pkt.header.sport) && PortsSay(t.dport, pkt.header.dport)
                  && NumberSays(t.seqNum, 0x1_0000_0000, pkt.header.seqNum)
                  && NumberSays(t.ackNum, 0x1_0000_0000, pkt.header.ackNum)
                  && NumberSays(t.win, 0x1_0000, pkt.header.win)
                  && NumberSays(t.hlen, 0x1_0000, 4 * pkt.header.doff)
                  && FlagSays(tokens, 'U', pkt.header.urg) && FlagSays(tokens, 'A', pkt.header.ack)
                  && FlagSays(tokens, 'P', pkt.header.psh) && FlagSays(tokens, 'R', pkt.header.rst)
                  && FlagSays(tokens, 'S', pkt.header.syn) && FlagSays(tokens, 'F', pkt.header.fin))
              && ParseRule(line).value.spec.kind == "tcp"
              && ((src.Some? && src != Some(Unreadable) && src != Some(Plain(0)))
                  || (dst.Some? && dst != Some(Unreadable) && dst != Some(Plain(0))))
  {
    AddressMatches(src, pkt.src);
    AddressMatches(dst, pkt.dst);
    OptionsMeanWhatTheySay(t, tokens, pkt.header);
  }

  /** A threshold as it is written: a number and the index of its unit. */
  predicate Written(text: Option<SizeText>, size: Option<(u64, nat)>, itsByte: bool) {
    if size.None? then text.None?
    else
      && size.value.1 < 6
      && text == Some(SizeText(Some(size.value.0), if itsByte then SIZE_B[size.value.1] else SIZE_P[size.value.1]))
  }

  /** A literal line: `--tcp-flag S:1` is matched by packets with the SYN flag, and by no others. */
  lemma SynMatches(m: TcpMatch, h: TcpHeader, bits: Bits, mask: Bits)
    requires SaysLastMentions(["S:1"], bits, mask)
    requires m == TcpMatch(NO_RANGE, NO_RANGE, ABSENT, ABSENT, ABSENT, ABSENT, TcpFlags(true, bits, mask))
    ensures CheckHeader(m, h) <==> h.syn
  {
    var tokens := Some(["S:1"]);
    FlagsMatch(tokens, Some(Ok((bits, mask))), h);
    FlagTokens("S:1");
    assert [] + ["S:1"] == ["S:1"];
    LastMentionMeans([], "S:1", 'U');
    LastMentionMeans([], "S:1", 'A');
    LastMentionMeans([], "S:1", 'P');
    LastMentionMeans([], "S:1", 'R');
    LastMentionMeans([], "S:1", 'S');
    LastMentionMeans([], "S:1", 'F');
  }

  /** What is stored: thousands on 64 bits, bits as bytes, the result on 32 bits; zero if it is not given. */
  function Stored(size: Option<(u64, nat)>, itsByte: bool): u32 {
    if size.None? then 0 else Wrap32(Wrap64(size.value.0 * Pow1000(size.value.1)) / if itsByte then 8 else 1)
  }

  lemma ThresholdStored(text: Option<SizeText>, size: Option<(u64, nat)>, itsByte: bool)
    requires Written(text, size, itsByte)
    ensures Threshold(text, itsByte) == Ok(Stored(size, itsByte))
  {
    if size.Some? {
      SizeMeans(size.value.0, size.value.1, itsByte);
    }
  }

  /** The thresholds, periods and action of an accepted line, and what is taken if they are missing. */
  lemma TriggersMeanWhatTheySay<C>(o: RuleOptions<C>, pps: Option<(u64, nat)>, bps: Option<(u64, nat)>)
    requires Written(o.ppsTh, pps, false) && Written(o.bpsTh, bps, true) && ParseRule(o).Ok?
    ensures var s := ParseRule(o).value.spec;
            && s.th.pps == Stored(pps, false) && s.th.bps == Stored(bps, true)
            && (if o.ppsPeriod.Some? then o.ppsPeriod == Some(s.th.ppsPeriod) else s.th.ppsPeriod == 10)
            && (if o.bpsPeriod.Some? then o.bpsPeriod == Some(s.th.bpsPeriod) else s.th.bpsPeriod == 10)
            && (if o.action.Some? then o.action == Some(Ok(s.action)) else s.action == "syslog")
            && s.kind == o.kind && s.next == o.next && s.comment == (if o.comment.Some? then o.comment.value else "")
  {
    ThresholdStored(o.ppsTh, pps, false);
    ThresholdStored(o.bpsTh, bps, true);
  }
}
