/** What cut-short operations cost: what recall can then see, and how repair heals the index. */
module Faults {
  import opened Domain
  import opened Machine
  import opened Evolution
  import opened Outcomes
  import opened Safety
  import opened Agreement
  import opened Completeness
  import opened Reconcile
  import Conflict

  // ---------------------------------------------------------- what recall sees

  /** Rows that an index entry still leads to although recall must not show them. */
  ghost function Exposed(s: State): set<Id> {
    set id | id in s.index && id in s.rows && !s.rows[id].status.Retrievable()
  }

  /** The one row that an unsafe stop exposes: the buried tombstone or the closed fact, where its vector was not removed. */
  ghost function ExposedBy(cfg: Config, s: State, m: Move): set<Id> {
    if !Risky(cfg, s, m.step) || m.performed != 1 then {} else
    match m.step
    case Forget(id, _, _) => if id in s.index then {id} else {}
    case Remember(draft, now, _, _, _, facts) =>
      var r := Incoming(s, draft, now);
      {Conflict.Verdict(cfg.negates(r.text), r, facts).closing}
    case _ => {}
  }

  /**
   * Of a store and index that agreed, a move exposes a row exactly when it is a forget or a replacement that stopped
   * after its first call with the row indexed, and then it exposes that row only. A purge exposes nothing: what it
   * strands has no row to read back.
   */
  lemma MoveExposesExactly(cfg: Config, s: State, m: Move)
    requires Agrees(cfg, s) && Moves(cfg, s, m)
    ensures Exposed(m.next) == ExposedBy(cfg, s, m)
  {
    MoveAgreesIff(cfg, s, m);
    if StopsSafely(cfg, s, m) {
      assert Exposed(m.next) == {};
    } else {
      UnsafeExposes(cfg, s, m);
    }
  }

  lemma UnsafeExposes(cfg: Config, s: State, m: Move)
    requires Agrees(cfg, s) && Moves(cfg, s, m) && !StopsSafely(cfg, s, m)
    ensures Exposed(m.next) == ExposedBy(cfg, s, m)
  {
    match m.step
    case Forget(id, _, now) => BurialExposes(cfg, s, id, now, m.performed);
    case Purge(id, scope) => DeletionExposes(cfg, s, id, scope, m.performed);
    case Remember(draft, now, _, _, _, facts) =>
      var r := Incoming(s, draft, now);
      CutReplaceExposes(cfg, s, r, Conflict.Verdict(cfg.negates(r.text), r, facts).closing, now);
  }

  lemma BurialExposes(cfg: Config, s: State, id: Id, now: Time, k: nat)
    requires Agrees(cfg, s) && id in s.rows && 0 < k <= |ForgetCalls(cfg, s.rows[id], now)|
    requires !Cleared(s, id, k, |ForgetCalls(cfg, s.rows[id], now)|)
    ensures Exposed(After(ForgetCalls(cfg, s.rows[id], now)[..k], s)) == if k == 1 && id in s.index then {id} else {}
  {
    RowFirstPrefix(cfg, s, Update(s.rows[id].(status := Deleted, updatedAt := now)), id, k);
    WiredReach(cfg, s, id);
  }

  lemma DeletionExposes(cfg: Config, s: State, id: Id, scope: Scope, k: nat)
    requires Agrees(cfg, s) && k <= |PurgeCalls(cfg, id, scope)|
    ensures Exposed(After(PurgeCalls(cfg, id, scope)[..k], s)) == {}
  {
    RowFirstPrefix(cfg, s, Delete(id, scope), id, k);
  }

  lemma CutReplaceExposes(cfg: Config, s: State, r: Record, closing: Id, now: Time)
    requires Agrees(cfg, s) && Visible(s, closing, r.scope) && closing in s.index
    ensures Exposed(After(ReplaceCalls(cfg, s, r, closing, now)[..1], s)) == {closing}
  {
    var u := Update(Conflict.CloseWindow(s.rows[closing], now));
    assert ReplaceCalls(cfg, s, r, closing, now)[..1] == [u];
    AfterOne(u, s);
  }

  // -------------------------------------------------------------- self-healing

  /**
   * Repair heals whatever failing runs left: afterwards every entry is the vector of a stored active record, and every
   * active record has one if and only if they are at most 1,000.
   */
  lemma RepairHealsIff(cfg: Config, run: seq<Move>, m: Move)
    requires IsRun(cfg, EMPTY, run) && Completes(cfg, Last(EMPTY, run), m) && m.step.Repair?
    ensures forall id :: id in m.next.index ==>
              && id in m.next.rows && m.next.rows[id].status == Active
              && m.next.index[id].embedding == cfg.embed(m.next.rows[id].text)
              && IsOwn(cfg, m.next.index[id], m.next.rows[id])
    ensures (forall id :: id in m.next.rows && m.next.rows[id].status == Active ==> id in m.next.index)
            <==> |set id | id in m.next.rows && m.next.rows[id].status == Active| <= 1_000
  {
    RunStaysHonest(cfg, run);
    RepairHeals(cfg, Last(EMPTY, run), m);
    EntriesAreOwn(cfg, m.next);
  }

  lemma RepairHeals(cfg: Config, s: State, m: Move)
    requires Honest(cfg, s) && Completes(cfg, s, m) && m.step.Repair?
    ensures forall id :: id in m.next.index ==>
              IsActive(m.next, id) && m.next.index[id] == VectorOf(cfg, m.next.rows[id])
    ensures (forall id :: id in m.next.rows && m.next.rows[id].status == Active ==> id in m.next.index)
            <==> |set id | id in m.next.rows && m.next.rows[id].status == Active| <= 1_000
  {
    ActiveNowIsActive(cfg, s, m.step.clock);
    RepairReconciles(cfg, s, m);
    RepairConvergesIff(cfg, s, m);
    HealedIndex(cfg, s, m.next, ActiveNow(cfg, s, m.step.clock));
  }

  lemma HealedIndex(cfg: Config, s: State, t: State, active: set<Id>)
    requires Honest(cfg, s) && t.rows == s.rows && forall id :: id in active <==> IsActive(s, id)
    requires t.index.Keys <= active
    requires forall id :: id in s.index && id in t.index ==> t.index[id] == s.index[id]
    requires forall id :: id in t.index && id !in s.index ==> t.index[id] == VectorOf(cfg, s.rows[id])
    ensures forall id :: id in t.index ==> IsActive(t, id) && t.index[id] == VectorOf(cfg, t.rows[id])
    ensures (forall id :: id in t.rows && t.rows[id].status == Active ==> id in t.index) <==> t.index.Keys == active
    ensures active == set id | id in t.rows && t.rows[id].status == Active
  {
    assert forall id :: id in active <==> id in t.rows && t.rows[id].status == Active;
  }
}
