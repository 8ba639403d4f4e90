/** From the line of a rule to the job of its alarm: what is written on the line is what is handed over. */
module JobLines {
  import opened Words
  import opened Tallies
  import opened Rules
  import opened RulesLists
  import opened Watchers
  import opened Deliveries
  import RoundLaw
  import LateLoads

  /** The rule of this line. */
  ghost predicate IsRuleOf<C>(o: RuleOptions<C>, spec: RuleSpec<C>) {
    ParseRule(o).Ok? && ParseRule(o).value.spec == spec
  }

  ghost predicate IsWritten<C(!new)>(spec: RuleSpec<C>) {
    exists o: RuleOptions<C> :: IsRuleOf(o, spec)
  }

  ghost predicate AllWritten<C(!new)>(rules: seq<Rule<C>>) {
    forall k {:trigger rules[k]} :: 0 <= k < |rules| ==> IsWritten(rules[k].spec)
  }

  ghost predicate CollWritten<C(!new)>(c: Coll<C>) {
    forall l {:trigger c[l]} :: 0 <= l < |c| ==> AllWritten(c[l].rules)
  }

  /** Rules come from lines: those of a reload, and those of the console. */
  ghost predicate Writes<C(!new), H>(e: Event<C, H>) {
    match e
    case Load(rules, _) => forall l {:trigger rules[l]} :: 0 <= l < |rules| ==> AllWritten(rules[l])
    case Edit(_, edit) => edit.Del? || IsWritten(edit.r.spec)
    case _ => true
  }

  lemma EditWritten<C(!new)>(rules: seq<Rule<C>>, edit: ListEdit<C>)
    requires AllWritten(rules) && (edit.Del? || IsWritten(edit.r.spec))
    ensures AllWritten(AfterEdit(rules, edit))
  {
    var out := AfterEdit(rules, edit);
    forall k | 0 <= k < |out|
      ensures IsWritten(out[k].spec)
    {
      assert out[k] in rules || (!edit.Del? && out[k] == edit.r);
    }
  }

  lemma KeptWritten<C(!new)>(a: Coll<C>, b: Coll<C>)
    requires CollWritten(a) && RoundLaw.SpecsKept(a, b)
    ensures CollWritten(b)
  {
    forall l | 0 <= l < |b|
      ensures AllWritten(b[l].rules)
    {
      assert SameSpecs(a[l].rules, b[l].rules);
    }
  }

  lemma StepWritten<C(!new), H>(p: Protocol<C, H>, s: Sys<C>, e: Event<C, H>)
    requires Shape(s) && Enabled(s, e) && CollWritten(s.master) && Writes(e)
    ensures CollWritten(Next(p, s, e).master)
  {
    if e.Edit? {
      EditWritten(s.master[e.m].rules, e.edit);
    } else if e.Arrive? || (e.Work? && !s.pc.Copy?) {
      LateLoads.StepSpecs(p, s, e);
      KeptWritten(s.master, Next(p, s, e).master);
    }
  }

  /** Every rule the master ever holds is the rule of a line. */
  lemma {:induction false} RunWritten<C(!new), H>(p: Protocol<C, H>, s0: Sys<C>, es: seq<Event<C, H>>, s: Sys<C>)
    requires Shape(s0) && Steps(p, s0, es) == Some(s) && CollWritten(s0.master)
    requires forall n {:trigger es[n]} :: 0 <= n < |es| ==> Writes(es[n])
    ensures CollWritten(s.master)
  {
    if es != [] {
      var front, e := es[..|es| - 1], es[|es| - 1];
      assert forall n {:trigger front[n]} :: 0 <= n < |front| ==> front[n] == es[n];
      var u := Steps(p, s0, front).value;
      RunWritten(p, s0, front, u);
      assert es[|es| - 1] == e;
      StepWritten(p, u, e);
    }
  }

  /**
    The job of a firing carries what the line of its rule says: the action, or `syslog` if the line
    gives none, the comment, or nothing, and the kind; and the victim of its destination table.
   */
  lemma JobSaysItsLine<C(!new), H>(p: Protocol<C, H>, s0: Sys<C>, es: seq<Event<C, H>>, f: Firing)
    returns (o: RuleOptions<C>)
    requires Shape(s0) && CollWritten(s0.master) && IsFiring(p, s0, es, f)
    requires forall n {:trigger es[n]} :: 0 <= n < |es| ==> Writes(es[n])
    ensures var job, r := JobAt(p, s0, es, f), Steps(p, s0, es[..f.at]).value.master[f.l].rules[f.k];
            && ParseRule(o).Ok? && ParseRule(o).value.spec == r.spec
            && (if o.action.Some? then o.action == Some(Ok(job.action)) else job.action == "syslog")
            && (if o.comment.Some? then o.comment == Some(job.comment) else job.comment == "")
            && job.kind == o.kind && IsVictim(r.tally.dst, job.victim)
  {
    var before := es[..f.at];
    assert forall n {:trigger before[n]} :: 0 <= n < |before| ==> before[n] == es[n];
    var s := Steps(p, s0, before).value;
    RunWritten(p, s0, before, s);
    var r := s.master[f.l].rules[f.k];
    assert AllWritten(s.master[f.l].rules) && IsWritten(r.spec);
    o :| IsRuleOf(o, r.spec);
    JobMeaning(r);
  }
}
