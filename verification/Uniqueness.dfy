/** With conflict resolution on, a subject has at most one live fact of each type. */
module Uniqueness {
  import opened Domain
  import opened Machine
  import opened Evolution
  import opened Outcomes
  import opened Safety
  import opened Agreement

  predicate SameKey(a: Record, b: Record) { SameSubject(a, b) && a.memoryType == b.memoryType }

  ghost predicate OneFact(s: State) {
    forall a, b :: IsActive(s, a) && IsActive(s, b) && SameKey(s.rows[a], s.rows[b]) ==> a == b
  }

  /** No record of the state is live under the key of `r`. */
  ghost predicate KeyIsFree(s: State, r: Record) { forall id :: IsActive(s, id) ==> !SameKey(r, s.rows[id]) }

  lemma StoredIsUnique(s: State, r: Record)
    requires OneFact(s) && r.id !in s.rows && (r.status == Active ==> KeyIsFree(s, r))
    ensures OneFact(Stored(s, r))
  {
    var t := Stored(s, r);
    assert forall id :: id != r.id ==>
             (IsActive(t, id) <==> IsActive(s, id)) && (id in s.rows ==> t.rows[id] == s.rows[id]);
  }

  /** With its only live fact retired, a key is free. */
  lemma RetiringFreesKey(s: State, old_: Id, r: Record)
    requires OneFact(s) && IsActive(s, old_) && r.id == old_ && SameFact(s.rows[old_], r) && r.status != Active
    ensures OneFact(s.(rows := s.rows[old_ := r])) && KeyIsFree(s.(rows := s.rows[old_ := r]), s.rows[old_])
  {
    var t := s.(rows := s.rows[old_ := r]);
    assert forall id :: IsActive(t, id) <==> id != old_ && IsActive(s, id);
  }

  lemma FewerIsUnique(s: State, t: State)
    requires OneFact(s) && forall id :: IsActive(t, id) ==> IsActive(s, id) && SameFact(s.rows[id], t.rows[id])
    ensures OneFact(t)
  {
  }

  lemma KeyFreeAlike(s: State, a: Record, b: Record)
    requires KeyIsFree(s, a) && SameKey(a, b)
    ensures KeyIsFree(s, b)
  {
  }

  lemma QuarantineIsUnique(s: State, r: Record)
    requires OneFact(s) && WellKeyed(s.rows) && r.id !in s.rows
    ensures OneFact(After(QuarantineCalls(r), s))
  {
    AfterOne(Put(r.(status := Quarantined)), s);
    StoredIsUnique(s, r.(status := Quarantined));
  }

  /** Retiring `id` and storing a live record under its key. */
  lemma HandoverIsUnique(s: State, id: Id, retired: Record, next: Record)
    requires WellKeyed(s.rows) && OneFact(s) && IsActive(s, id) && retired.id == id && SameFact(s.rows[id], retired)
    requires retired.status != Active && next.id !in s.rows
    requires next.subject == s.rows[id].subject && next.memoryType == s.rows[id].memoryType
    ensures OneFact(s.(rows := s.rows[id := retired][next.id := next]))
  {
    var t := s.(rows := s.rows[id := retired]);
    RetiringFreesKey(s, id, retired);
    assert KeyIsFree(t, next);
    StoredIsUnique(t, next);
    SameRowsUnique(Stored(t, next), s.(rows := s.rows[id := retired][next.id := next]));
  }

  lemma SameRowsUnique(s: State, t: State)
    requires s.rows == t.rows
    ensures OneFact(s) <==> OneFact(t)
  {
    assert forall id :: IsActive(t, id) <==> IsActive(s, id);
  }

  lemma MergeIsUnique(cfg: Config, s: State, r: Record, target: Id, now: Time)
    requires Ordered(s) && OneFact(s) && r.id == s.nextId
    requires IsActive(s, target) && SameKey(s.rows[target], r)
    ensures OneFact(After(MergeCalls(cfg, s, r, target, now), s))
  {
    MergeRows(cfg, s, r, target, now);
    MergedIsUnique(s, r, target, now, After(MergeCalls(cfg, s, r, target, now), s));
  }

  lemma MergedIsUnique(s: State, r: Record, target: Id, now: Time, u: State)
    requires Ordered(s) && OneFact(s) && r.id == s.nextId
    requires IsActive(s, target) && SameKey(s.rows[target], r)
    requires u.rows == s.rows[target := Retire(s.rows[target], now)][r.id + 1 := DeriveSuccessor(r, r.id + 1, r.text, now)]
    ensures OneFact(u)
  {
    var next, retired := DeriveSuccessor(r, r.id + 1, r.text, now), Retire(s.rows[target], now);
    HandoverIsUnique(s, target, retired, next);
    SameRowsUnique(s.(rows := s.rows[target := retired][next.id := next]), u);
  }

  lemma ReviseRows(cfg: Config, s: State, step: Step)
    requires Ordered(s) && step.Revise? && step.id in s.rows
    ensures After(ReviseCalls(cfg, s, step), s).rows
         == s.rows[step.id := Retire(s.rows[step.id], step.now)][s.nextId := Successor(s, step)]
  {
    ReviseResult(cfg, s, step);
  }

  /** Re-retiring a record that is not live and storing a live one under its key. */
  lemma RevivalIsUniqueIff(s: State, id: Id, retired: Record, next: Record)
    requires WellKeyed(s.rows) && OneFact(s) && id in s.rows && !IsActive(s, id) && retired.id == id
    requires SameFact(s.rows[id], retired) && retired.status != Active && next.id !in s.rows && next.status == Active
    requires next.subject == s.rows[id].subject && next.memoryType == s.rows[id].memoryType
    ensures OneFact(s.(rows := s.rows[id := retired][next.id := next])) <==> KeyIsFree(s, s.rows[id])
  {
    var u := s.(rows := s.rows[id := retired][next.id := next]);
    assert forall x :: IsActive(u, x) <==> x == next.id || IsActive(s, x);
    if KeyIsFree(s, s.rows[id]) {
      assert KeyIsFree(s, next);
    } else {
      var x :| IsActive(s, x) && SameKey(s.rows[id], s.rows[x]);
      assert IsActive(u, x) && IsActive(u, next.id) && SameKey(u.rows[x], u.rows[next.id]);
    }
  }

  /** An update adds a live successor; that is right exactly when the record it names is the live one, or none is. */
  lemma ReviseIsUniqueIff(cfg: Config, s: State, step: Step)
    requires Ordered(s) && OneFact(s) && step.Revise? && step.id in s.rows
    ensures OneFact(After(ReviseCalls(cfg, s, step), s)) <==> IsActive(s, step.id) || KeyIsFree(s, s.rows[step.id])
  {
    var next, retired := Successor(s, step), Retire(s.rows[step.id], step.now);
    ReviseRows(cfg, s, step);
    if IsActive(s, step.id) {
      HandoverIsUnique(s, step.id, retired, next);
    } else {
      RevivalIsUniqueIff(s, step.id, retired, next);
    }
    SameRowsUnique(s.(rows := s.rows[step.id := retired][next.id := next]), After(ReviseCalls(cfg, s, step), s));
  }

  lemma {:induction false} NoPutNoRows(s: State, calls: seq<Call>)
    requires forall i :: 0 <= i < |calls| ==> !calls[i].Put?
    ensures forall id :: id in After(calls, s).rows ==> id in s.rows
    decreases |calls|
  {
    if calls != [] {
      var n := |calls| - 1;
      assert forall i :: 0 <= i < n ==> calls[..n][i] == calls[i];
      NoPutNoRows(s, calls[..n]);
    }
  }

  lemma {:induction false} SweepPutsNothing(cfg: Config, rs: seq<Record>, scope: Scope, now: Time)
    ensures forall c :: c in SweepCalls(cfg, rs, scope, now) ==> !c.Put?
  {
    if rs != [] {
      SweepPutsNothing(cfg, rs[..|rs| - 1], scope, now);
    }
  }
}
