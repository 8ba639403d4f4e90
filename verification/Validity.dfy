/** Every rule in every list is usable, whatever is done to the lists. */
module Validity {
  import opened Words
  import opened Rules
  import opened RulesLists
  import opened Watchers
  import opened Collections

  /** All the critical sections that touch a rule, on collections `c` and lists `l` of them. */
  datatype Op<C, H> =
    | Add(c: nat, l: nat, o: RuleOptions<C>)
    | Insert(c: nat, l: nat, num: u32, o: RuleOptions<C>)
    | Delete(c: nat, l: nat, num: u32)
    | Reload(c: nat, lines: seq<seq<string>>)
    | Copy(c: nat, from: nat)
    | MergeFrom(c: nat, from: nat, stamps: seq<real>)
    | Count(c: nat, f: Frame<H>)
    | Rates(c: nat, from: nat)
    | Check(c: nat, clocks: seq<Clock>)

  type Parser<!C> = (string, seq<string>) -> Result<Rule<C>>

  /** A parser of lines reads some options and then does what `ParseRule` does. */
  ghost predicate Parses<C(!new)>(parse: Parser<C>) {
    forall kind, tokens :: parse(kind, tokens).Ok? ==> exists o :: parse(kind, tokens) == ParseRule(o)
  }

  ghost predicate Shaped<C>(s: seq<Coll<C>>) {
    forall c {:trigger s[c]} :: 0 <= c < |s| ==> |s[c]| == LISTS
  }

  ghost predicate Possible<C, H>(s: seq<Coll<C>>, op: Op<C, H>)
    requires Shaped(s)
  {
    && op.c < |s|
    && match op
       case Add(_, l, _) => l < LISTS
       case Insert(_, l, _, _) => l < LISTS
       case Delete(_, l, _) => l < LISTS
       case Copy(_, from) => from < |s|
       case MergeFrom(_, from, stamps) => from < |s| && |stamps| == LISTS
       case Count(_, f) => Known(f)
       case Rates(_, from) => from < |s| && forall l :: 0 <= l < LISTS ==> DeltaDefined(s[op.c][l], s[from][l])
       case Check(_, clocks) => |clocks| == LISTS
       case _ => true
  }

  ghost function Loaded<C>(parse: Parser<C>, c: Coll<C>, lines: seq<seq<string>>): Coll<C>
    requires |c| == LISTS
  {
    seq(LISTS, l requires 0 <= l < LISTS => c[l].(rules := ValidLines(parse, KINDS[l], lines)))
  }

  ghost function Received<C>(a: Coll<C>, b: Coll<C>, stamps: seq<real>): Coll<C>
    requires |a| == |b| == |stamps| == LISTS
  {
    seq(LISTS, l requires 0 <= l < LISTS => MergedList(a, b, stamps, l))
  }

  ghost function Given<C>(a: Coll<C>, b: Coll<C>): Coll<C>
    requires |a| == |b| == LISTS
  {
    seq(LISTS, l requires 0 <= l < LISTS => GivenList(a, b, l))
  }

  ghost function Apply<C, H>(p: Protocol<C, H>, parse: Parser<C>, s: seq<Coll<C>>, op: Op<C, H>): (t: seq<Coll<C>>)
    requires Shaped(s) && Possible(s, op)
    ensures Shaped(t) && |t| == |s|
  {
    var mine := s[op.c];
    match op
    case Add(c, l, o) => s[c := WithRules(mine, l, AfterAdd(mine[l].rules, ParseRule(o)))]
    case Insert(c, l, num, o) => s[c := WithRules(mine, l, AfterInsert(mine[l].rules, num, ParseRule(o)))]
    case Delete(c, l, num) => s[c := WithRules(mine, l, AfterDel(mine[l].rules, num))]
    case Reload(c, lines) => s[c := Loaded(parse, mine, lines)]
    case Copy(c, from) => s[c := s[from]]
    case MergeFrom(c, from, stamps) =>
      if c == from then s else s[c := Received(mine, s[from], stamps)][from := Given(mine, s[from])]
    case Count(c, f) => s[c := FrameCredited(p, mine, f)]
    case Rates(c, from) => s[c := DeltaAll(mine, s[from])]
    case Check(c, clocks) => s[c := CheckAll(mine, clocks)]
  }

  // ---- the invariant ----

  ghost predicate RulesValid<C>(rules: seq<Rule<C>>) {
    forall k {:trigger rules[k]} :: 0 <= k < |rules| ==> Valid(rules[k].spec)
  }

  ghost predicate CollValid<C>(c: Coll<C>) {
    forall l {:trigger c[l]} :: 0 <= l < |c| ==> RulesValid(c[l].rules)
  }

  ghost predicate StoreValid<C>(s: seq<Coll<C>>) {
    forall c {:trigger s[c]} :: 0 <= c < |s| ==> CollValid(s[c])
  }

  lemma {:induction false} ValidLinesAreValid<C(!new)>(parse: Parser<C>, kind: string, lines: seq<seq<string>>)
    requires Parses(parse)
    ensures RulesValid(ValidLines(parse, kind, lines))
  {
    if lines != [] {
      ValidLinesAreValid(parse, kind, lines[..|lines| - 1]);
    }
  }

  lemma WithRulesValid<C>(c: Coll<C>, l: nat, rules: seq<Rule<C>>)
    requires CollValid(c) && l < |c| && RulesValid(rules)
    ensures CollValid(WithRules(c, l, rules))
  {
  }

  lemma EditsValid<C>(rules: seq<Rule<C>>, num: u32, o: RuleOptions<C>)
    requires RulesValid(rules)
    ensures RulesValid(AfterAdd(rules, ParseRule(o))) && RulesValid(AfterDel(rules, num))
    ensures RulesValid(AfterInsert(rules, num, ParseRule(o)))
  {
  }

  lemma LoadedValid<C(!new)>(parse: Parser<C>, c: Coll<C>, lines: seq<seq<string>>)
    requires Parses(parse) && |c| == LISTS
    ensures CollValid(Loaded(parse, c, lines))
  {
    forall l | 0 <= l < LISTS
      ensures RulesValid(Loaded(parse, c, lines)[l].rules)
    {
      ValidLinesAreValid(parse, KINDS[l], lines);
    }
  }

  lemma ReceivedValid<C>(a: Coll<C>, b: Coll<C>, stamps: seq<real>)
    requires |a| == |b| == |stamps| == LISTS && CollValid(a) && CollValid(b)
    ensures CollValid(Received(a, b, stamps)) && CollValid(Given(a, b))
  {
  }

  lemma CountValid<C, H>(p: Protocol<C, H>, c: Coll<C>, f: Frame<H>)
    requires |c| == LISTS && Known(f) && CollValid(c)
    ensures CollValid(FrameCredited(p, c, f))
  {
  }

  lemma RatesValid<C>(a: Coll<C>, b: Coll<C>)
    requires |a| == |b| && CollValid(a) && forall l :: 0 <= l < |a| ==> DeltaDefined(a[l], b[l])
    ensures CollValid(DeltaAll(a, b))
  {
  }

  lemma CheckValid<C>(a: Coll<C>, clocks: seq<Clock>)
    requires CollValid(a) && |a| == |clocks|
    ensures CollValid(CheckAll(a, clocks))
  {
  }

  lemma ApplyKeeps<C(!new), H>(p: Protocol<C, H>, parse: Parser<C>, s: seq<Coll<C>>, op: Op<C, H>)
    requires Parses(parse) && Shaped(s) && StoreValid(s) && Possible(s, op)
    ensures StoreValid(Apply(p, parse, s, op))
  {
    var mine := s[op.c];
    match op
    case Add(_, l, o) =>
      EditsValid(mine[l].rules, 0, o);
      WithRulesValid(mine, l, AfterAdd(mine[l].rules, ParseRule(o)));
    case Insert(_, l, num, o) =>
      EditsValid(mine[l].rules, num, o);
      WithRulesValid(mine, l, AfterInsert(mine[l].rules, num, ParseRule(o)));
    case Delete(_, l, num) =>
      assert RulesValid(AfterDel(mine[l].rules, num));
      WithRulesValid(mine, l, AfterDel(mine[l].rules, num));
    case Reload(_, lines) => LoadedValid(parse, mine, lines);
    case Copy(_, from) =>
    case MergeFrom(_, from, stamps) => ReceivedValid(mine, s[from], stamps);
    case Count(_, f) => CountValid(p, mine, f);
    case Rates(_, from) => RatesValid(mine, s[from]);
    case Check(_, clocks) => CheckValid(mine, clocks);
  }

  ghost function Run<C, H>(p: Protocol<C, H>, parse: Parser<C>, s: seq<Coll<C>>, ops: seq<Op<C, H>>): (t: seq<Coll<C>>)
    requires Shaped(s)
    ensures Shaped(t) && |t| == |s|
  {
    if ops == [] then s
    else
      var before, op := Run(p, parse, s, ops[..|ops| - 1]), ops[|ops| - 1];
      if Possible(before, op) then Apply(p, parse, before, op) else before
  }

  /** If every rule is usable to begin with, as in empty lists, no run of operations stores one that is not. */
  lemma {:induction false} StoredRulesAreValid<C(!new), H>(
      p: Protocol<C, H>, parse: Parser<C>, s: seq<Coll<C>>, ops: seq<Op<C, H>>)
    requires Parses(parse) && Shaped(s) && StoreValid(s)
    ensures StoreValid(Run(p, parse, s, ops))
  {
    if ops != [] {
      StoredRulesAreValid(p, parse, s, ops[..|ops| - 1]);
      var before := Run(p, parse, s, ops[..|ops| - 1]);
      if Possible(before, ops[|ops| - 1]) {
        ApplyKeeps(p, parse, before, ops[|ops| - 1]);
      }
    }
  }

  /** What that says of one stored rule. */
  lemma StoredRuleIsUsable<C(!new), H>(
      p: Protocol<C, H>, parse: Parser<C>, s: seq<Coll<C>>, ops: seq<Op<C, H>>, c: nat, l: nat, k: nat)
    requires Parses(parse) && Shaped(s) && StoreValid(s)
    requires c < |s| && Has(Run(p, parse, s, ops)[c], l, k)
    ensures var spec := Run(p, parse, s, ops)[c][l].rules[k].spec;
            && (spec.src.enabled || spec.dst.enabled)
            && (spec.th.pps > 0 || spec.th.bps > 0)
            && (spec.th.pps == 0 || spec.th.ppsPeriod > 0) && (spec.th.bps == 0 || spec.th.bpsPeriod > 0)
  {
    StoredRulesAreValid(p, parse, s, ops);
    var t := Run(p, parse, s, ops);
    assert CollValid(t[c]) && RulesValid(t[c][l].rules) && Valid(t[c][l].rules[k].spec);
  }
}
