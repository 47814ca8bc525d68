/** Completeness of the vector index: exactly which operations leave an active record outside it. */
module Completeness {
  import opened Domain
  import opened Machine
  import opened Evolution
  import opened Outcomes
  import opened Safety
  import opened Agreement

  /** Every active record is indexed. */
  ghost predicate IndexComplete(s: State) { forall id :: IsActive(s, id) ==> id in s.index }

  /** Semantic recall drops exactly the entries of a foreign organization; without that pin it drops nothing. */
  lemma GhostsAreForeign(cfg: Config, s: State, scope: Scope, id: Id)
    requires Agrees(cfg, s) && id in s.index && FilterMatches(ScopeFilter(scope), s.index[id].metadata)
    ensures !Visible(s, id, scope) <==>
              scope.organization.Some? && s.rows[id].scope.organization != scope.organization
  {
    FilterIsScope(scope, s.rows[id].scope);
  }

  // ------------------------------------------------------------- completeness

  ghost function ActiveNow(cfg: Config, s: State, clock: Time): set<Id> { Matching(cfg.kw, s.rows, REPAIR_QUERY, clock) }

  lemma ActiveNowMeans(cfg: Config, s: State, clock: Time)
    ensures ActiveNow(cfg, s, clock) == set id | id in s.rows && s.rows[id].status == Active
              && (s.rows[id].validFrom.Some? ==> s.rows[id].validFrom.value <= clock)
              && (s.rows[id].validTo.Some? ==> clock < s.rows[id].validTo.value)
  {
  }

  /** Exactly the operations that leave no active record outside the index. */
  ghost predicate KeepsIndexComplete(cfg: Config, s: State, step: Step) {
    match step
    case Remember(draft, _, _, _, decision, _) => Accepts(cfg, draft.text) ==> !decision.Merge?
    case Purge(id, scope) => IsActive(s, id) ==> Visible(s, id, scope)
    case Erase(id, scope) => IsActive(s, id) ==> Visible(s, id, scope)
    case Repair(clock, _, _) => |ActiveNow(cfg, s, clock)| <= 1_000
    case RecallSemantic(_, ghosts) => forall i :: 0 <= i < |ghosts| ==> !IsActive(s, ghosts[i])
    case WriteUnindexed(draft, _) => !Accepts(cfg, draft.text)
    case _ => true
  }

  lemma ActiveNowIsActive(cfg: Config, s: State, clock: Time)
    requires ActiveIsOpen(s)
    ensures forall id :: id in ActiveNow(cfg, s, clock) <==> IsActive(s, id)
  {
  }

  lemma RepairIsCompleteIff(cfg: Config, s: State, step: Step)
    requires Agrees(cfg, s) && step.Repair? && Enabled(cfg, s, step)
    ensures IndexComplete(After(Calls(cfg, s, step), s)) <==> KeepsIndexComplete(cfg, s, step)
  {
    RepairFacts(cfg, s, step);
    AnswerIsComplete(cfg.kw, s.rows, REPAIR_QUERY, step.clock, step.active);
    RepairedIsCompleteIff(cfg, s, Ids(step.active), step.clock);
  }

  lemma RepairedIsCompleteIff(cfg: Config, s: State, active: set<Id>, clock: Time)
    requires ActiveIsOpen(s) && active <= s.rows.Keys && active <= ActiveNow(cfg, s, clock)
    ensures IndexComplete(s.(index := Repaired(cfg, s, active))) <==> active == ActiveNow(cfg, s, clock)
  {
    ActiveNowIsActive(cfg, s, clock);
    SameRowsComplete(s, s.(index := Repaired(cfg, s, active)));
  }

  /** Completeness speaks of the active identifiers and the index keys only. */
  lemma SameRowsComplete(s: State, t: State)
    requires t.rows == s.rows
    ensures IndexComplete(t) <==> forall id :: IsActive(s, id) ==> id in t.index
  {
    assert forall id :: IsActive(t, id) <==> IsActive(s, id);
  }
}
