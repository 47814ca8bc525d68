/**
 * What no operation ever does, failures included: reuse an identifier, rewrite what a record states, bring a retired
 * record back, or link a record to a later one.
 */
module Evolution {
  import opened Domain
  import opened Machine
  import Conflict

  /** Rows sit under their own identifiers, all drawn already, and each names an earlier predecessor. */
  ghost predicate Ordered(s: State) {
    && WellKeyed(s.rows)
    && (forall id :: id in s.rows ==> id < s.nextId)
    && (forall id :: id in s.rows && s.rows[id].supersedes.Some? ==> s.rows[id].supersedes.value < id)
  }

  ghost predicate Evolves(s: State, t: State) {
    && s.nextId <= t.nextId
    && (forall id :: id in t.rows && id !in s.rows ==> s.nextId <= id)
    && (forall id :: id in s.rows && id in t.rows ==>
          && SameFact(s.rows[id], t.rows[id])
          && (s.rows[id].status != Active ==> t.rows[id].status != Active))
  }

  /** Calls an operation started in `s` may issue. */
  ghost predicate Lawful(s: State, c: Call) {
    match c
    case Put(r) => s.nextId <= r.id && (r.supersedes.Some? ==> r.supersedes.value < r.id)
    case Update(r) => r.id in s.rows && SameFact(s.rows[r.id], r) && r.status != Active
    case _ => true
  }

  ghost predicate AllLawful(s: State, calls: seq<Call>) { forall c :: c in calls ==> Lawful(s, c) }

  lemma {:induction false} LawfulCallsEvolve(s: State, calls: seq<Call>)
    requires Ordered(s) && AllLawful(s, calls)
    ensures Ordered(After(calls, s)) && Evolves(s, After(calls, s))
    decreases |calls|
  {
    if calls != [] {
      LawfulCallsEvolve(s, calls[..|calls| - 1]);
      var t, c := After(calls[..|calls| - 1], s), calls[|calls| - 1];
      assert c in calls && Lawful(s, c);
    }
  }

  lemma EdgeCallsShape(id: Id, triples: seq<Triple>)
    ensures forall c :: c in EdgeCalls(id, triples) ==> c.AddEdge? && c.edge.evidence == id
  {
  }

  lemma {:induction false} SweepCallsLawful(cfg: Config, s: State, rs: seq<Record>, scope: Scope, now: Time)
    requires forall i :: 0 <= i < |rs| ==> rs[i].id in s.rows && s.rows[rs[i].id] == rs[i]
    ensures AllLawful(s, SweepCalls(cfg, rs, scope, now))
  {
    if rs != [] {
      SweepCallsLawful(cfg, s, rs[..|rs| - 1], scope, now);
    }
  }

  lemma AddIsLawful(cfg: Config, s: State, r: Record)
    requires s.nextId <= r.id && r.supersedes == None
    ensures AllLawful(s, AddCalls(cfg, r)) && AllLawful(s, QuarantineCalls(r))
  {
    if r.subject.Some? {
      EdgeCallsShape(r.id, cfg.relations(r.subject.value, r.text));
    }
    assert forall c :: c in AddCalls(cfg, r) ==> c in [Put(r)] || c in IndexCalls(cfg, r) || c in GraphCalls(cfg, r);
  }

  lemma ReplaceIsLawful(cfg: Config, s: State, r: Record, closing: Id, now: Time)
    requires Ordered(s) && s.nextId <= r.id && r.supersedes == None
    ensures AllLawful(s, ReplaceCalls(cfg, s, r, closing, now))
  {
  }

  lemma WriteIsLawful(cfg: Config, s: State, r: Record, now: Time, facts: seq<Record>)
    requires Ordered(s) && s.nextId <= r.id && r.supersedes == None
    ensures AllLawful(s, WriteCalls(cfg, s, r, now, facts))
  {
    AddIsLawful(cfg, s, r);
    if cfg.conflict && r.subject.Some? {
      match Conflict.Verdict(cfg.negates(r.text), r, facts)
      case ReplaceExisting(closing) => ReplaceIsLawful(cfg, s, r, closing, now);
      case _ =>
    }
  }

  lemma RememberIsLawful(cfg: Config, s: State, step: Step)
    requires Ordered(s) && Enabled(cfg, s, step) && step.Remember?
    ensures AllLawful(s, Calls(cfg, s, step))
  {
    MergeTargetIsStored(cfg, s, step);
    var r := Incoming(s, step.draft, step.now);
    AddIsLawful(cfg, s, r);
    WriteIsLawful(cfg, s, r, step.now, step.facts);
  }

  lemma ReviseIsLawful(cfg: Config, s: State, step: Step)
    requires Ordered(s) && step.Revise? && step.id in s.rows
    ensures AllLawful(s, ReviseCalls(cfg, s, step))
  {
  }

  lemma ForgetIsLawful(cfg: Config, s: State, id: Id, now: Time)
    requires Ordered(s) && id in s.rows
    ensures AllLawful(s, ForgetCalls(cfg, s.rows[id], now))
  {
  }

  /** Every operation keeps to lawful calls. */
  lemma OperationsAreLawful(cfg: Config, s: State, step: Step)
    requires Ordered(s) && Enabled(cfg, s, step)
    ensures AllLawful(s, Calls(cfg, s, step))
  {
    match step
    case Remember(_, _, _, _, _, _) => RememberIsLawful(cfg, s, step);
    case Revise(id, scope, _, _, _, _) => if Visible(s, id, scope) { ReviseIsLawful(cfg, s, step); }
    case Forget(id, scope, now) => if Visible(s, id, scope) { ForgetIsLawful(cfg, s, id, now); }
    case Purge(_, _) =>
    case Erase(_, _) =>
    case Sweep(scope, now, clock, candidates) => SweepCallsLawful(cfg, s, candidates, scope, now);
    case Repair(_, active, ghosts) =>
    case RecallSemantic(_, _) =>
    case WriteUnindexed(_, _) =>
    case Idle =>
  }

  lemma MoveEvolves(cfg: Config, s: State, m: Move)
    requires Ordered(s) && Moves(cfg, s, m)
    ensures Ordered(m.next) && Evolves(s, m.next)
  {
    OperationsAreLawful(cfg, s, m.step);
    LawfulCallsEvolve(s, Calls(cfg, s, m.step)[..m.performed]);
  }

  /**
   * Over every run, whatever fails: identifiers stay fresh, supersession stays acyclic, no stored statement is
   * rewritten, and no record that has left Active returns to it.
   */
  lemma {:induction false} RunEvolves(cfg: Config, s0: State, run: seq<Move>)
    requires Ordered(s0) && IsRun(cfg, s0, run)
    ensures Ordered(Last(s0, run)) && Evolves(s0, Last(s0, run))
    ensures var rows := Last(s0, run).rows;
            forall id :: id in s0.rows && id in rows ==>
              && rows[id].(status := s0.rows[id].status, updatedAt := s0.rows[id].updatedAt, validTo := s0.rows[id].validTo)
              == s0.rows[id]
              && (rows[id].status == Active ==> s0.rows[id].status == Active)
    decreases |run|
  {
    if run != [] {
      var prefix := run[..|run| - 1];
      RunEvolves(cfg, s0, prefix);
      MoveEvolves(cfg, Last(s0, prefix), run[|run| - 1]);
      EvolvesTransitive(s0, Last(s0, prefix), Last(s0, run));
    }
  }

  lemma EvolvesTransitive(s: State, t: State, u: State)
    requires Ordered(s) && Evolves(s, t) && Evolves(t, u)
    ensures Evolves(s, u)
  {
  }
}
