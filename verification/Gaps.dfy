/** Stops that leave an active record outside the vector index, over runs with failures. */
module Gaps {
  import opened Domain
  import opened Machine
  import opened Evolution
  import opened Outcomes
  import opened Safety
  import opened Agreement
  import opened Completeness
  import Conflict

  /** Active records without an index entry. */
  ghost function Bare(s: State): set<Id> { set id | id in s.rows && s.rows[id].status == Active && id !in s.index }

  lemma CompleteIffNoneBare(s: State)
    ensures IndexComplete(s) <==> Bare(s) == {}
  {
    forall id ensures id in Bare(s) <==> IsActive(s, id) && id !in s.index {
    }
    if IndexComplete(s) {
      assert forall id :: id in Bare(s) ==> IsActive(s, id);
    }
    if Bare(s) == {} {
      assert forall id :: IsActive(s, id) && id !in s.index ==> id in Bare(s);
    }
  }

  /** What one call does to the records that are bare. */
  lemma BareStep(s: State, c: Call)
    ensures Bare(Effect(c, s)) ==
              match c
              case Put(r) => Bare(s) - {r.id} + (if r.status == Active && r.id !in s.index then {r.id} else {})
              case Update(r) =>
                if r.id !in s.rows then Bare(s)
                else Bare(s) - {r.id} + (if r.status == Active && r.id !in s.index then {r.id} else {})
              case Delete(id, scope) => if Visible(s, id, scope) then Bare(s) - {id} else Bare(s)
              case Upsert(id, _) => Bare(s) - {id}
              case RemoveVector(id) => Bare(s) + (if IsActive(s, id) then {id} else {})
              case _ => Bare(s)
  {
  }

  /** Calls that only concern edges leave bare what was bare. */
  lemma {:induction false} EdgesKeepBare(s: State, calls: seq<Call>)
    requires forall c :: c in calls ==> c.AddEdge? || c.RemoveEvidence?
    ensures Bare(After(calls, s)) == Bare(s)
    ensures After(calls, s).rows == s.rows && After(calls, s).index == s.index
    decreases |calls|
  {
    if calls != [] {
      var n := |calls| - 1;
      assert calls[n] in calls;
      EdgesKeepBare(s, calls[..n]);
      BareStep(After(calls[..n], s), calls[n]);
    }
  }

  // ------------------------------------------------------------------ the stops

  /** The write replaces a fact that it sees. */
  ghost predicate Replaces(cfg: Config, s: State, r: Record, facts: seq<Record>) {
    && cfg.conflict && r.subject.Some?
    && var verdict := Conflict.Verdict(cfg.negates(r.text), r, facts);
       verdict.ReplaceExisting? && Visible(s, verdict.closing, r.scope)
  }

  ghost predicate Quarantines(cfg: Config, r: Record, facts: seq<Record>) {
    cfg.conflict && r.subject.Some? && Conflict.Verdict(cfg.negates(r.text), r, facts).QuarantineIncoming?
  }

  /** A sweep stopped inside the erasure of an active record: past the removal of its vector and before that of its row. */
  ghost predicate InsideErasure(cfg: Config, rs: seq<Record>, scope: Scope, now: Time, k: nat)
    decreases |rs|
  {
    rs != [] &&
    var n := |rs| - 1;
    if k <= |SweepCalls(cfg, rs[..n], scope, now)| then InsideErasure(cfg, rs[..n], scope, now, k)
    else Lapsed(rs[n], now) && rs[n].status == Active && k < |SweepCalls(cfg, rs, scope, now)|
  }

  /** The first `k` calls of the step leave every active record indexed. */
  ghost predicate LeavesNoGap(cfg: Config, s: State, step: Step, k: nat) {
    match step
    case Remember(draft, now, _, _, decision, facts) =>
      var r := Incoming(s, draft, now);
      !Accepts(cfg, draft.text) || k == 0 ||
      (match decision
       case Merge(_) => false
       case Ignore(_) => true
       case Review(_) => true
       case _ => Quarantines(cfg, r, facts) || k != if Replaces(cfg, s, r, facts) then 3 else 1)
    case Revise(id, scope, _, _, _, _) => k != 1 && (k == 3 ==> !IsActive(s, id))
    case Purge(id, scope) => k >= 2 && IsActive(s, id) ==> Visible(s, id, scope)
    case Erase(id, scope) =>
      k > 0 && IsActive(s, id) ==> k == |EraseCalls(cfg, id, scope)| && Visible(s, id, scope)
    case Sweep(scope, now, _, candidates) => !InsideErasure(cfg, candidates, scope, now, k)
    case Repair(_, _, ghosts) => forall i :: 0 <= i < k && i < |ghosts| ==> !IsActive(s, ghosts[i])
    case RecallSemantic(_, ghosts) => forall i :: 0 <= i < k && i < |ghosts| ==> !IsActive(s, ghosts[i])
    case WriteUnindexed(draft, _) => !Accepts(cfg, draft.text) || k == 0
    case _ => true
  }

  /** The engine has an index to keep complete, and it is complete. */
  ghost predicate Covered(cfg: Config, s: State) {
    Honest(cfg, s) && cfg.vector && cfg.embedder && Bare(s) == {}
  }

  // --------------------------------------------------------------------- writes

  /** Between its put and its upsert a new record is bare. */
  lemma PutUpsertStop(cfg: Config, s: State, r: Record, k: nat)
    requires cfg.vector && cfg.embedder && Bare(s) == {} && r.id !in s.index && r.status == Active && k <= 2
    ensures |[Put(r)] + IndexCalls(cfg, r)| == 2
    ensures Bare(After(([Put(r)] + IndexCalls(cfg, r))[..k], s)) == if k == 1 then {r.id} else {}
  {
    var u := Upsert(r.id, VectorOf(cfg, r));
    var calls := [Put(r)] + IndexCalls(cfg, r);
    assert calls == [Put(r)] + [u];
    AfterOne(Put(r), s);
    BareStep(s, Put(r));
    AfterSnoc([Put(r)], u, s);
    BareStep(After([Put(r)], s), u);
    assert calls[..k] == if k == 0 then [] else if k == 1 then [Put(r)] else [Put(r)] + [u];
  }

  lemma AddStop(cfg: Config, s: State, r: Record, k: nat)
    requires cfg.vector && cfg.embedder && Bare(s) == {} && r.id !in s.index && r.status == Active
    requires k <= |AddCalls(cfg, r)|
    ensures Bare(After(AddCalls(cfg, r)[..k], s)) == if k == 1 then {r.id} else {}
  {
    var head := [Put(r)] + IndexCalls(cfg, r);
    PutUpsertStop(cfg, s, r, if k < 2 then k else 2);
    if k <= 2 {
      assert AddCalls(cfg, r)[..k] == head[..k];
    } else {
      var rest := GraphCalls(cfg, r)[..k - 2];
      assert AddCalls(cfg, r)[..k] == head + rest && head[..2] == head;
      AfterConcat(head, rest, s);
      EdgesKeepBare(After(head, s), rest);
    }
  }

  lemma QuarantineStop(s: State, r: Record, k: nat)
    requires Bare(s) == {} && k <= 1
    ensures Bare(After(QuarantineCalls(r)[..k], s)) == {}
  {
    if k == 1 {
      assert QuarantineCalls(r)[..1] == QuarantineCalls(r);
      AfterOne(Put(r.(status := Quarantined)), s);
      BareStep(s, Put(r.(status := Quarantined)));
    }
  }

  /** Retiring a record and dropping its vector bares nothing. */
  lemma RetireDropStop(cfg: Config, s: State, r: Record, k: nat)
    requires cfg.vector && Bare(s) == {} && r.id in s.rows && r.status != Active && k <= 2
    ensures |[Update(r)] + DropCalls(cfg, r.id)| == 2
    ensures var t := After(([Update(r)] + DropCalls(cfg, r.id))[..k], s);
            Bare(t) == {} && t.index.Keys <= s.index.Keys
  {
    var v := RemoveVector(r.id);
    var calls := [Update(r)] + DropCalls(cfg, r.id);
    assert calls == [Update(r)] + [v];
    AfterOne(Update(r), s);
    BareStep(s, Update(r));
    AfterSnoc([Update(r)], v, s);
    BareStep(After([Update(r)], s), v);
    assert calls[..k] == if k == 0 then [] else if k == 1 then [Update(r)] else [Update(r)] + [v];
  }

  lemma ReplaceStop(cfg: Config, s: State, r: Record, closing: Id, now: Time, k: nat)
    requires cfg.vector && cfg.embedder && WellKeyed(s.rows) && Bare(s) == {} && r.id !in s.index && r.status == Active
    requires k <= |ReplaceCalls(cfg, s, r, closing, now)|
    ensures Bare(After(ReplaceCalls(cfg, s, r, closing, now)[..k], s))
         == if k == (if Visible(s, closing, r.scope) then 3 else 1) then {r.id} else {}
  {
    var calls, tail := ReplaceCalls(cfg, s, r, closing, now), [Put(r)] + IndexCalls(cfg, r);
    if Visible(s, closing, r.scope) {
      var closed := Conflict.CloseWindow(s.rows[closing], now);
      var head := [Update(closed)] + DropCalls(cfg, closing);
      assert calls == head + tail;
      RetireDropStop(cfg, s, closed, if k < 2 then k else 2);
      if k <= 2 {
        assert calls[..k] == head[..k];
      } else {
        assert calls[..k] == head + tail[..k - 2] && head[..2] == head;
        AfterConcat(head, tail[..k - 2], s);
        PutUpsertStop(cfg, After(head, s), r, k - 2);
      }
    } else {
      assert calls == tail;
      PutUpsertStop(cfg, s, r, k);
    }
  }

  lemma MergeStop(cfg: Config, s: State, r: Record, target: Id, now: Time, k: nat)
    requires cfg.vector && Bare(s) == {} && r.id + 1 !in s.index && target in s.rows && s.rows[target].id == target
    requires target != r.id + 1 && k <= |MergeCalls(cfg, s, r, target, now)|
    ensures Bare(After(MergeCalls(cfg, s, r, target, now)[..k], s)) == {} <==> k == 0
  {
    var next, retired := DeriveSuccessor(r, r.id + 1, r.text, now), Retire(s.rows[target], now);
    assert MergeCalls(cfg, s, r, target, now) == [Put(next)] + [RemoveVector(target)] + [Update(retired)];
    UnindexedHandover(s, next, retired, k);
  }

  /** A successor that is stored and never indexed is bare from the first call on. */
  lemma UnindexedHandover(s: State, next: Record, retired: Record, k: nat)
    requires Bare(s) == {} && next.id !in s.index && next.status == Active && retired.id != next.id && k <= 3
    ensures Bare(After(([Put(next)] + [RemoveVector(retired.id)] + [Update(retired)])[..k], s)) == {} <==> k == 0
  {
    var p, v, u := Put(next), RemoveVector(retired.id), Update(retired);
    AfterOne(p, s);
    BareStep(s, p);
    AfterSnoc([p], v, s);
    BareStep(After([p], s), v);
    AfterSnoc([p] + [v], u, s);
    BareStep(After([p] + [v], s), u);
    var calls := [p] + [v] + [u];
    assert calls[..k] == if k == 0 then [] else if k == 1 then [p] else if k == 2 then [p] + [v] else calls;
    if k > 0 {
      assert next.id in Bare(After(calls[..k], s));
    }
  }

  lemma WriteStop(cfg: Config, s: State, r: Record, now: Time, facts: seq<Record>, k: nat)
    requires Covered(cfg, s) && r.id == s.nextId && r.status == Active && k <= |WriteCalls(cfg, s, r, now, facts)|
    ensures Bare(After(WriteCalls(cfg, s, r, now, facts)[..k], s)) == {} <==>
              k == 0 || Quarantines(cfg, r, facts) || k != if Replaces(cfg, s, r, facts) then 3 else 1
  {
    if Quarantines(cfg, r, facts) {
      QuarantineStop(s, r, k);
    } else if cfg.conflict && r.subject.Some? && Conflict.Verdict(cfg.negates(r.text), r, facts).ReplaceExisting? {
      ReplaceStop(cfg, s, r, Conflict.Verdict(cfg.negates(r.text), r, facts).closing, now, k);
    } else {
      AddStop(cfg, s, r, k);
    }
  }

  lemma RememberStop(cfg: Config, s: State, step: Step, k: nat)
    requires Covered(cfg, s) && step.Remember? && Enabled(cfg, s, step) && k <= |Calls(cfg, s, step)|
    ensures Bare(After(Calls(cfg, s, step)[..k], s)) == {} <==> LeavesNoGap(cfg, s, step, k)
  {
    if Accepts(cfg, step.draft.text) {
      MergeTargetIsStored(cfg, s, step);
      var r := Incoming(s, step.draft, step.now);
      match step.decision
      case Ignore(_) =>
      case Merge(target) => MergeStop(cfg, s, r, target, step.now, k);
      case Review(_) => QuarantineStop(s, r, k);
      case _ => WriteStop(cfg, s, r, step.now, step.facts, k);
    }
  }

  // --------------------------------------------------------------------- updates

  lemma ReviseStop(cfg: Config, s: State, step: Step, k: nat)
    requires Covered(cfg, s) && step.Revise? && step.id in s.rows && k <= |ReviseCalls(cfg, s, step)|
    ensures Bare(After(ReviseCalls(cfg, s, step)[..k], s)) == {} <==> k != 1 && (k == 3 ==> !IsActive(s, step.id))
  {
    var next, id := Successor(s, step), step.id;
    var head := [Put(next)] + IndexCalls(cfg, next);
    var v, u := RemoveVector(id), Update(Retire(s.rows[id], step.now));
    var calls := ReviseCalls(cfg, s, step);
    PutUpsertStop(cfg, s, next, if k < 2 then k else 2);
    assert calls == head + [v] + [u] && head[..2] == head;
    if k <= 2 {
      assert calls[..k] == head[..k];
    } else {
      HandedOver(cfg, s, next, id, Retire(s.rows[id], step.now));
      assert calls[..k] == if k == 3 then head + [v] else head + [v] + [u];
    }
  }

  /** Once the successor is indexed, the predecessor is bare until it is retired. */
  lemma HandedOver(cfg: Config, s: State, next: Record, id: Id, retired: Record)
    requires Covered(cfg, s) && next.id == s.nextId && next.status == Active && id in s.rows
    requires retired.id == id && retired.status != Active
    ensures var head := [Put(next)] + IndexCalls(cfg, next);
            && Bare(After(head + [RemoveVector(id)], s)) == (if IsActive(s, id) then {id} else {})
            && Bare(After(head + [RemoveVector(id)] + [Update(retired)], s)) == {}
  {
    var head := [Put(next)] + IndexCalls(cfg, next);
    PutUpsertStop(cfg, s, next, 2);
    assert head[..2] == head;
    HeadRows(cfg, s, next);
    AfterSnoc(head, RemoveVector(id), s);
    BareStep(After(head, s), RemoveVector(id));
    AfterSnoc(head + [RemoveVector(id)], Update(retired), s);
    BareStep(After(head + [RemoveVector(id)], s), Update(retired));
  }

  lemma HeadRows(cfg: Config, s: State, r: Record)
    ensures After([Put(r)] + IndexCalls(cfg, r), s).rows == s.rows[r.id := r]
  {
    AfterConcat([Put(r)], IndexCalls(cfg, r), s);
    AfterOne(Put(r), s);
    AfterIndex(cfg, Stored(s, r), r);
  }

  // -------------------------------------------------------------------- removals

  lemma ForgetStop(cfg: Config, s: State, id: Id, now: Time, k: nat)
    requires Covered(cfg, s) && id in s.rows && k <= |ForgetCalls(cfg, s.rows[id], now)|
    ensures Bare(After(ForgetCalls(cfg, s.rows[id], now)[..k], s)) == {}
  {
    var r := s.rows[id].(status := Deleted, updatedAt := now);
    var head := [Update(r)] + DropCalls(cfg, id);
    RetireDropStop(cfg, s, r, if k < 2 then k else 2);
    HeadThenEdges(cfg, s, head, EvidenceCalls(cfg, id), k);
  }

  /** A list of two calls and then calls on edges only: all that matters is how many of the two were made. */
  lemma HeadThenEdges(cfg: Config, s: State, head: seq<Call>, rest: seq<Call>, k: nat)
    requires |head| == 2 && k <= |head + rest| && forall c :: c in rest ==> c.AddEdge? || c.RemoveEvidence?
    ensures Bare(After((head + rest)[..k], s)) == Bare(After(head[..if k < 2 then k else 2], s))
  {
    if k <= 2 {
      assert (head + rest)[..k] == head[..k];
    } else {
      assert (head + rest)[..k] == head + rest[..k - 2] && head[..2] == head;
      AfterConcat(head, rest[..k - 2], s);
      EdgesKeepBare(After(head, s), rest[..k - 2]);
    }
  }

  lemma PurgeStop(cfg: Config, s: State, id: Id, scope: Scope, k: nat)
    requires Covered(cfg, s) && k <= |PurgeCalls(cfg, id, scope)|
    ensures Bare(After(PurgeCalls(cfg, id, scope)[..k], s)) == {} <==> (k >= 2 && IsActive(s, id) ==> Visible(s, id, scope))
  {
    var d, v := Delete(id, scope), RemoveVector(id);
    assert [d] + DropCalls(cfg, id) == [d] + [v];
    HeadThenEdges(cfg, s, [d] + DropCalls(cfg, id), EvidenceCalls(cfg, id), k);
    AfterOne(d, s);
    BareStep(s, d);
    AfterSnoc([d], v, s);
    BareStep(After([d], s), v);
    assert ([d] + [v])[..0] == [] && ([d] + [v])[..1] == [d] && ([d] + [v])[..2] == [d] + [v];
  }

  lemma EraseStop(cfg: Config, s: State, id: Id, scope: Scope, k: nat)
    requires cfg.vector && Bare(s) == {} && k <= |EraseCalls(cfg, id, scope)|
    ensures Bare(After(EraseCalls(cfg, id, scope)[..k], s))
         == if k > 0 && IsActive(s, id) && !(k == |EraseCalls(cfg, id, scope)| && Visible(s, id, scope)) then {id} else {}
  {
    var v, d, e := RemoveVector(id), Delete(id, scope), EvidenceCalls(cfg, id);
    var calls := EraseCalls(cfg, id, scope);
    assert calls == [v] + e + [d];
    AfterOne(v, s);
    BareStep(s, v);
    var j := if k == 0 then 0 else if k <= |e| then k - 1 else |e|;
    AfterConcat([v], e[..j], s);
    EdgesKeepBare(After([v], s), e[..j]);
    AfterSnoc([v] + e, d, s);
    BareStep(After([v] + e, s), d);
    if k == |calls| {
      assert calls[..k] == [v] + e + [d] && e[..j] == e;
    } else if k > 0 {
      assert calls[..k] == [v] + e[..j];
    }
  }

  // ---------------------------------------------------------------------- sweeps

  lemma {:induction false} SweepStop(cfg: Config, s: State, rs: seq<Record>, scope: Scope, now: Time, k: nat)
    requires cfg.vector && Bare(s) == {} && Candidates(s, rs, scope) && k <= |SweepCalls(cfg, rs, scope, now)|
    ensures Bare(After(SweepCalls(cfg, rs, scope, now)[..k], s)) == {} <==> !InsideErasure(cfg, rs, scope, now, k)
    ensures k == |SweepCalls(cfg, rs, scope, now)| ==> !InsideErasure(cfg, rs, scope, now, k)
    decreases |rs|
  {
    if rs != [] {
      var n := |rs| - 1;
      var head, one := SweepCalls(cfg, rs[..n], scope, now), SweepOne(cfg, rs[n], scope, now);
      if k <= |head| {
        SweepStop(cfg, s, rs[..n], scope, now, k);
        assert (head + one)[..k] == head[..k];
      } else {
        SweepStop(cfg, s, rs[..n], scope, now, |head|);
        assert head[..|head|] == head;
        SweepOneStop(cfg, s, rs, scope, now, k - |head|);
        StopInTail(s, head, one, k);
      }
    }
  }

  lemma StopInTail(s: State, head: seq<Call>, tail: seq<Call>, k: nat)
    requires |head| <= k <= |head + tail|
    ensures After((head + tail)[..k], s) == After(tail[..k - |head|], After(head, s))
  {
    assert (head + tail)[..k] == head + tail[..k - |head|];
    AfterConcat(head, tail[..k - |head|], s);
  }

  lemma SweepOneStop(cfg: Config, s: State, rs: seq<Record>, scope: Scope, now: Time, k: nat)
    requires cfg.vector && Candidates(s, rs, scope) && rs != []
    requires Bare(After(SweepCalls(cfg, rs[..|rs| - 1], scope, now), s)) == {}
    requires k <= |SweepOne(cfg, rs[|rs| - 1], scope, now)|
    ensures var n := |rs| - 1; var t := After(SweepCalls(cfg, rs[..n], scope, now), s);
            Bare(After(SweepOne(cfg, rs[n], scope, now)[..k], t)) == {} <==>
              !(k > 0 && Lapsed(rs[n], now) && rs[n].status == Active && k < |SweepOne(cfg, rs[n], scope, now)|)
  {
    var n := |rs| - 1;
    var r, t := rs[n], After(SweepCalls(cfg, rs[..n], scope, now), s);
    SweepResult(cfg, s, rs[..n], scope, now);
    FreshCandidate(s, rs, scope, now);
    assert r.id in t.rows && t.rows[r.id] == r;
    if Lapsed(r, now) {
      EraseStop(cfg, t, r.id, scope, k);
    } else if Archivable(r, now) {
      var u := Update(ArchivedAt(r, now));
      assert SweepOne(cfg, r, scope, now)[..k] == if k == 0 then [] else [u];
      AfterOne(u, t);
      BareStep(t, u);
    }
  }

  // ------------------------------------------------------------ repair and recall

  lemma {:induction false} RemovalsStop(s: State, ids: seq<Id>)
    requires Bare(s) == {}
    ensures Bare(After(RemoveAll(ids), s)) == {} <==> forall i :: 0 <= i < |ids| ==> !IsActive(s, ids[i])
  {
    RemoveAllResult(ids, s);
    var t := After(RemoveAll(ids), s);
    if i :| 0 <= i < |ids| && IsActive(s, ids[i]) {
      assert ids[i] in IdSet(ids);
      assert ids[i] in Bare(t);
    }
    forall id | id in Bare(t) ensures id in ids && IsActive(s, id) {
      assert id !in Bare(s);
    }
  }

  lemma GhostStop(s: State, ids: seq<Id>, k: nat)
    requires Bare(s) == {} && k <= |ids|
    ensures Bare(After(RemoveAll(ids)[..k], s)) == {} <==> forall i :: 0 <= i < k && i < |ids| ==> !IsActive(s, ids[i])
  {
    assert RemoveAll(ids)[..k] == RemoveAll(ids[..k]);
    RemovalsStop(s, ids[..k]);
  }

  /** Where everything active is indexed repair has nothing to add. */
  lemma {:induction false} NothingMissing(s: State, active: seq<Record>)
    requires Bare(s) == {} && forall r :: r in active ==> IsActive(s, r.id)
    ensures Missing(s.index, active) == []
  {
    if active != [] {
      NothingMissing(s, active[..|active| - 1]);
      assert IsActive(s, active[|active| - 1].id);
      assert active[|active| - 1].id !in Bare(s);
    }
  }

  lemma RepairStop(cfg: Config, s: State, step: Step, k: nat)
    requires Covered(cfg, s) && step.Repair? && Enabled(cfg, s, step) && k <= |Calls(cfg, s, step)|
    ensures Bare(After(Calls(cfg, s, step)[..k], s)) == {} <==> LeavesNoGap(cfg, s, step, k)
  {
    RepairReads(cfg, s, step);
    forall r | r in step.active ensures IsActive(s, r.id) {
      assert r.id in Ids(step.active);
    }
    NothingMissing(s, step.active);
    assert Calls(cfg, s, step) == RemoveAll(step.ghosts);
    GhostStop(s, step.ghosts, k);
  }

  // ------------------------------------------------------------------ all of them

  lemma StopLeavesNoGapIff(cfg: Config, s: State, step: Step, k: nat)
    requires Covered(cfg, s) && Enabled(cfg, s, step) && k <= |Calls(cfg, s, step)|
    ensures Bare(After(Calls(cfg, s, step)[..k], s)) == {} <==> LeavesNoGap(cfg, s, step, k)
  {
    match step
    case Remember(_, _, _, _, _, _) => RememberStop(cfg, s, step, k);
    case Revise(id, scope, text, _, _, _) =>
      if Visible(s, id, scope) && !cfg.kw.blank(text) {
        ReviseStop(cfg, s, step, k);
      }
    case Forget(id, scope, now) =>
      if Visible(s, id, scope) && !s.rows[id].status.Deleted? {
        ForgetStop(cfg, s, id, now, k);
      }
    case Purge(id, scope) => PurgeStop(cfg, s, id, scope, k);
    case Erase(id, scope) => EraseStop(cfg, s, id, scope, k);
    case Sweep(scope, now, _, candidates) => SweepStop(cfg, s, candidates, scope, now, k);
    case Repair(_, _, _) => RepairStop(cfg, s, step, k);
    case RecallSemantic(_, ghosts) => GhostStop(s, ghosts, k);
    case WriteUnindexed(draft, now) => UnindexedStop(cfg, s, step, k);
    case Idle =>
  }

  lemma UnindexedStop(cfg: Config, s: State, step: Step, k: nat)
    requires Covered(cfg, s) && step.WriteUnindexed? && k <= |Calls(cfg, s, step)|
    ensures Bare(After(Calls(cfg, s, step)[..k], s)) == {} <==> LeavesNoGap(cfg, s, step, k)
  {
    if k > 0 {
      var r := Incoming(s, step.draft, step.now);
      assert Calls(cfg, s, step)[..k] == [Put(r)];
      AfterOne(Put(r), s);
      BareStep(s, Put(r));
    }
  }

  /**
   * From a complete index a move, cut short or not and after whatever failures, leaves the index complete if and only if
   * it stops at none of the gaps.
   */
  lemma MoveLeavesNoGapIff(cfg: Config, s: State, m: Move)
    requires Honest(cfg, s) && cfg.vector && cfg.embedder && IndexComplete(s) && Moves(cfg, s, m)
    ensures IndexComplete(m.next) <==> LeavesNoGap(cfg, s, m.step, m.performed)
  {
    var t := After(Calls(cfg, s, m.step)[..m.performed], s);
    CompleteIffNoneBare(s);
    StopLeavesNoGapIff(cfg, s, m.step, m.performed);
    CompleteIffNoneBare(m.next);
    assert Bare(m.next) == Bare(t);
  }

  /**
   * Over every run from the empty engine, failures included: the index is complete all along if and only if no move stops
   * at a gap.
   */
  lemma {:induction false} RunLeavesNoGapIff(cfg: Config, run: seq<Move>)
    requires cfg.vector && cfg.embedder && IsRun(cfg, EMPTY, run)
    ensures AlwaysComplete(run) <==> NeverLeavesGap(cfg, run)
    decreases |run|
  {
    if run != [] {
      var n := |run| - 1;
      RunLeavesNoGapIff(cfg, run[..n]);
      CompleteOneLonger(cfg, run);
      if AlwaysComplete(run[..n]) {
        RunStaysHonest(cfg, run[..n]);
        CompleteAtLast(run[..n]);
        MoveLeavesNoGapIff(cfg, Last(EMPTY, run[..n]), run[n]);
      }
    }
  }

  lemma CompleteOneLonger(cfg: Config, run: seq<Move>)
    requires run != []
    ensures var (n, before) := (|run| - 1, run[..|run| - 1]);
            && (AlwaysComplete(run) <==> AlwaysComplete(before) && IndexComplete(run[n].next))
            && (NeverLeavesGap(cfg, run) <==>
                  NeverLeavesGap(cfg, before) && LeavesNoGap(cfg, Last(EMPTY, before), run[n].step, run[n].performed))
  {
    PrefixesOfPrefix(run);
  }

  lemma PrefixesOfPrefix(run: seq<Move>)
    requires run != []
    ensures var n := |run| - 1;
            && (forall k :: 0 <= k <= n ==> run[..n][..k] == run[..k])
            && (forall k :: 0 <= k < n ==> run[..n][k] == run[k])
            && run[..|run|] == run
  {
  }

  lemma CompleteAtLast(run: seq<Move>)
    requires AlwaysComplete(run)
    ensures IndexComplete(Last(EMPTY, run))
  {
    assert run[..|run|] == run;
  }

  ghost predicate AlwaysComplete(run: seq<Move>) { forall n :: 0 <= n <= |run| ==> IndexComplete(Last(EMPTY, run[..n])) }

  ghost predicate NeverLeavesGap(cfg: Config, run: seq<Move>) {
    forall n :: 0 <= n < |run| ==> LeavesNoGap(cfg, Last(EMPTY, run[..n]), run[n].step, run[n].performed)
  }

  // ------------------------------------------------------------ whole operations

  /** A completed operation keeps every active record indexed exactly under the stated condition. */
  lemma StaysCompleteIff(cfg: Config, s: State, m: Move)
    requires Agrees(cfg, s) && cfg.vector && cfg.embedder && IndexComplete(s) && Completes(cfg, s, m)
    ensures IndexComplete(m.next) <==> KeepsIndexComplete(cfg, s, m.step)
  {
    if m.step.Repair? {
      CompletedState(cfg, s, m);
      RepairIsCompleteIff(cfg, s, m.step);
      SameRowsComplete(After(Calls(cfg, s, m.step), s), m.next);
    } else {
      MoveLeavesNoGapIff(cfg, s, m);
      WholeLeavesNoGapIff(cfg, s, m.step);
    }
  }

  lemma WholeLeavesNoGapIff(cfg: Config, s: State, step: Step)
    requires Covered(cfg, s) && Enabled(cfg, s, step) && !step.Repair?
    ensures LeavesNoGap(cfg, s, step, |Calls(cfg, s, step)|) <==> KeepsIndexComplete(cfg, s, step)
  {
    match step
    case Sweep(scope, now, _, candidates) =>
      SweepFacts(cfg, s, step);
      SweepStop(cfg, s, candidates, scope, now, |SweepCalls(cfg, candidates, scope, now)|);
    case Remember(_, _, _, _, _, _) => MergeTargetIsStored(cfg, s, step);
    case _ =>
  }

  /** Operations a caller can see in advance to be harmless to the index. */
  ghost predicate Careful(cfg: Config, s: State, step: Step) {
    match step
    case Purge(id, scope) => id in s.rows ==> Visible(s, id, scope)
    case Erase(id, scope) => id in s.rows ==> Visible(s, id, scope)
    case Repair(clock, _, _) => |ActiveNow(cfg, s, clock)| <= 1_000
    case RecallSemantic(scope, _) => scope.organization.None?
    case WriteUnindexed(_, _) => false
    case _ => true
  }

  lemma CarefulIsEnough(cfg: Config, s: State, step: Step)
    requires Agrees(cfg, s) && !cfg.dedup && Enabled(cfg, s, step) && Careful(cfg, s, step)
    ensures KeepsIndexComplete(cfg, s, step)
  {
    if step.RecallSemantic? {
      if step.ghosts != [] {
        GhostsAreForeign(cfg, s, step.scope, step.ghosts[0]);
        assert false;
      }
    }
  }

  ghost predicate IsCarefulRun(cfg: Config, s0: State, run: seq<Move>) {
    IsCompleteRun(cfg, s0, run) && forall n :: 0 <= n < |run| ==> Careful(cfg, Last(s0, run[..n]), run[n].step)
  }

  /**
   * With dedup off, in every failure-free run of careful operations: every active record is indexed under the
   * embedding of its own text, nothing else but archived records is indexed, and edges rest on live evidence.
   */
  lemma {:induction false} RunStaysComplete(cfg: Config, run: seq<Move>)
    requires cfg.vector && cfg.embedder && !cfg.dedup && IsCarefulRun(cfg, EMPTY, run)
    ensures Agrees(cfg, Last(EMPTY, run)) && IndexComplete(Last(EMPTY, run))
    ensures forall id :: IsActive(Last(EMPTY, run), id) ==>
              && id in Last(EMPTY, run).index
              && Last(EMPTY, run).index[id].embedding == cfg.embed(Last(EMPTY, run).rows[id].text)
              && IsOwn(cfg, Last(EMPTY, run).index[id], Last(EMPTY, run).rows[id])
    decreases |run|
  {
    RunAgrees(cfg, run);
    if run != [] {
      var n := |run| - 1;
      assert forall k :: 0 <= k < n ==> run[..n][..k] == run[..k] && run[..n][k] == run[k];
      RunStaysComplete(cfg, run[..n]);
      var s := Last(EMPTY, run[..n]);
      CarefulIsEnough(cfg, s, run[n].step);
      StaysCompleteIff(cfg, s, run[n]);
    }
  }
}
