/** What survives failures: no index entry or edge outlives its row, and no update loses the live version. */
module Safety {
  import opened Domain
  import opened Machine
  import opened Evolution
  import Conflict

  /** Every vector and every edge still has a canonical row. */
  ghost predicate RowsBehind(s: State) {
    && s.index.Keys <= s.rows.Keys
    && (forall e :: e in s.edges ==> e.evidence in s.rows)
  }

  /** What is not attached holds nothing. */
  ghost predicate Wired(cfg: Config, s: State) {
    (!cfg.vector ==> s.index == map[]) && (!cfg.graph ==> s.edges == {})
  }

  ghost function PutIds(calls: seq<Call>): set<Id> { set c | c in calls && c.Put? :: c.record.id }

  /** Calls that delete no row and point only at rows that are there when they are made. */
  ghost predicate Building(cfg: Config, s: State, calls: seq<Call>) {
    forall i :: 0 <= i < |calls| ==> match calls[i]
      case Delete(_, _) => false
      case Upsert(id, _) => cfg.vector && id in s.rows.Keys + PutIds(calls[..i])
      case AddEdge(e) => cfg.graph && e.evidence in s.rows.Keys + PutIds(calls[..i])
      case _ => true
  }

  /** Calls that add nothing and delete a row only after what points at it. */
  ghost predicate Erasing(cfg: Config, calls: seq<Call>) {
    forall i :: 0 <= i < |calls| ==> match calls[i]
      case Delete(id, _) =>
        (cfg.vector ==> RemoveVector(id) in calls[..i]) && (cfg.graph ==> RemoveEvidence(id) in calls[..i])
      case Upsert(_, _) => false
      case AddEdge(_) => false
      case _ => true
  }

  lemma {:induction false} BuildingKeepsRows(cfg: Config, s: State, calls: seq<Call>)
    requires RowsBehind(s) && Wired(cfg, s) && Building(cfg, s, calls)
    ensures After(calls, s).rows.Keys == s.rows.Keys + PutIds(calls)
    ensures RowsBehind(After(calls, s)) && Wired(cfg, After(calls, s))
    decreases |calls|
  {
    if calls != [] {
      var n := |calls| - 1;
      assert forall i :: 0 <= i < n ==> calls[..n][i] == calls[i] && calls[..n][..i] == calls[..i];
      BuildingKeepsRows(cfg, s, calls[..n]);
      assert calls == calls[..n] + [calls[n]];
      PutIdsSnoc(calls[..n], calls[n]);
      var t, c := After(calls[..n], s), calls[n];
      assert !c.Delete? && (c.Upsert? ==> cfg.vector && c.id in t.rows);
      assert c.AddEdge? ==> cfg.graph && c.edge.evidence in t.rows;
      BuildingStep(cfg, t, c);
    }
  }

  lemma PutIdsSnoc(calls: seq<Call>, c: Call)
    ensures PutIds(calls + [c]) == PutIds(calls) + if c.Put? then {c.record.id} else {}
  {
    assert forall d :: d in calls + [c] <==> d in calls || d == c;
    if c.Put? {
      assert c in calls + [c];
    }
  }

  lemma BuildingStep(cfg: Config, s: State, c: Call)
    requires RowsBehind(s) && Wired(cfg, s) && !c.Delete?
    requires c.Upsert? ==> cfg.vector && c.id in s.rows
    requires c.AddEdge? ==> cfg.graph && c.edge.evidence in s.rows
    ensures Effect(c, s).rows.Keys == s.rows.Keys + if c.Put? then {c.record.id} else {}
    ensures RowsBehind(Effect(c, s)) && Wired(cfg, Effect(c, s))
  {
  }

  lemma {:induction false} ErasingKeepsRows(cfg: Config, s: State, calls: seq<Call>)
    requires RowsBehind(s) && Wired(cfg, s) && Erasing(cfg, calls)
    ensures RowsBehind(After(calls, s)) && Wired(cfg, After(calls, s))
    ensures forall id :: RemoveVector(id) in calls ==> id !in After(calls, s).index
    ensures forall id, e :: RemoveEvidence(id) in calls && e in After(calls, s).edges ==> e.evidence != id
    decreases |calls|
  {
    if calls != [] {
      var n := |calls| - 1;
      assert forall i :: 0 <= i < n ==> calls[..n][i] == calls[i] && calls[..n][..i] == calls[..i];
      ErasingKeepsRows(cfg, s, calls[..n]);
      assert calls == calls[..n] + [calls[n]];
      ErasingStep(cfg, After(calls[..n], s), calls[..n], calls[n]);
    }
  }

  lemma ErasingStep(cfg: Config, s: State, before: seq<Call>, c: Call)
    requires RowsBehind(s) && Wired(cfg, s) && !c.Upsert? && !c.AddEdge?
    requires forall id :: RemoveVector(id) in before ==> id !in s.index
    requires forall id, e :: RemoveEvidence(id) in before && e in s.edges ==> e.evidence != id
    requires c.Delete? ==> (cfg.vector ==> RemoveVector(c.id) in before) && (cfg.graph ==> RemoveEvidence(c.id) in before)
    ensures RowsBehind(Effect(c, s)) && Wired(cfg, Effect(c, s))
    ensures forall id :: RemoveVector(id) in before + [c] ==> id !in Effect(c, s).index
    ensures forall id, e :: RemoveEvidence(id) in before + [c] && e in Effect(c, s).edges ==> e.evidence != id
  {
  }

  lemma ErasingConcat(cfg: Config, a: seq<Call>, b: seq<Call>)
    requires Erasing(cfg, a) && Erasing(cfg, b)
    ensures Erasing(cfg, a + b)
  {
    forall i | |a| <= i < |a + b|
      ensures (a + b)[i] == b[i - |a|] && forall c :: c in b[..i - |a|] ==> c in (a + b)[..i]
    {
      assert (a + b)[..i] == a + b[..i - |a|];
    }
    forall i | 0 <= i < |a|
      ensures (a + b)[i] == a[i] && (a + b)[..i] == a[..i]
    {
    }
  }

  lemma {:induction false} SweepIsErasing(cfg: Config, rs: seq<Record>, scope: Scope, now: Time)
    ensures Erasing(cfg, SweepCalls(cfg, rs, scope, now))
  {
    if rs != [] {
      var n := |rs| - 1;
      SweepIsErasing(cfg, rs[..n], scope, now);
      EraseIsErasing(cfg, rs[n].id, scope);
      ErasingConcat(cfg, SweepCalls(cfg, rs[..n], scope, now), SweepOne(cfg, rs[n], scope, now));
    }
  }

  lemma EraseIsErasing(cfg: Config, id: Id, scope: Scope)
    ensures Erasing(cfg, EraseCalls(cfg, id, scope))
  {
    var calls := EraseCalls(cfg, id, scope);
    var n := |calls| - 1;
    assert calls[..n] == DropCalls(cfg, id) + EvidenceCalls(cfg, id);
  }

  /** A prefix of a disciplined list is disciplined. */
  lemma DisciplinedPrefix(cfg: Config, s: State, calls: seq<Call>, k: nat)
    requires k <= |calls|
    ensures Building(cfg, s, calls) ==> Building(cfg, s, calls[..k])
    ensures Erasing(cfg, calls) ==> Erasing(cfg, calls[..k])
  {
    assert forall i :: 0 <= i < k ==> calls[..k][i] == calls[i] && calls[..k][..i] == calls[..i];
  }

  lemma PutFirst(a: seq<Call>, i: nat, r: Record)
    requires i <= |a| && Put(r) in a[..i]
    ensures r.id in PutIds(a[..i])
  {
  }

  /** Storing a record, then calls that point at that record only. */
  lemma PutThenPoint(cfg: Config, s: State, pre: seq<Call>, r: Record, post: seq<Call>)
    requires forall c :: c in pre ==> c.Update? || c.RemoveVector? || c.RemoveEvidence?
    requires forall c :: c in post ==> match c
               case Upsert(id, _) => cfg.vector && id == r.id
               case AddEdge(e) => cfg.graph && e.evidence == r.id
               case Delete(_, _) => false
               case _ => true
    ensures Building(cfg, s, pre + [Put(r)] + post)
  {
    var calls := pre + [Put(r)] + post;
    forall i | |pre| < i < |calls| ensures calls[i] in post && r.id in PutIds(calls[..i]) {
      assert calls[i] == post[i - |pre| - 1];
      assert calls[..i][|pre|] == Put(r);
      PutFirst(calls, i, r);
    }
    forall i | 0 <= i < |pre| ensures calls[i] in pre {
      assert calls[i] == pre[i];
    }
  }

  lemma WriteIsBuilding(cfg: Config, s: State, r: Record, now: Time, facts: seq<Record>)
    ensures Building(cfg, s, WriteCalls(cfg, s, r, now, facts))
    ensures Building(cfg, s, AddCalls(cfg, r))
  {
    if r.subject.Some? {
      EdgeCallsShape(r.id, cfg.relations(r.subject.value, r.text));
    }
    var post := IndexCalls(cfg, r) + GraphCalls(cfg, r);
    PutThenPoint(cfg, s, [], r, post);
    assert AddCalls(cfg, r) == [] + [Put(r)] + post;
    if cfg.conflict && r.subject.Some? {
      match Conflict.Verdict(cfg.negates(r.text), r, facts)
      case ReplaceExisting(closing) =>
        var pre := if Visible(s, closing, r.scope) then
          [Update(Conflict.CloseWindow(s.rows[closing], now))] + DropCalls(cfg, closing) else [];
        PutThenPoint(cfg, s, pre, r, IndexCalls(cfg, r));
        assert ReplaceCalls(cfg, s, r, closing, now) == pre + [Put(r)] + IndexCalls(cfg, r);
      case _ =>
    }
  }

  lemma MergeIsBuilding(cfg: Config, s: State, r: Record, target: Id, now: Time)
    requires target in s.rows
    ensures Building(cfg, s, MergeCalls(cfg, s, r, target, now))
  {
    var next := DeriveSuccessor(r, r.id + 1, r.text, now);
    var post := DropCalls(cfg, target) + [Update(Retire(s.rows[target], now))];
    PutThenPoint(cfg, s, [], next, post);
    assert MergeCalls(cfg, s, r, target, now) == [] + [Put(next)] + post;
  }

  lemma RememberIsBuilding(cfg: Config, s: State, step: Step)
    requires WellKeyed(s.rows) && step.Remember? && Enabled(cfg, s, step)
    ensures Building(cfg, s, Calls(cfg, s, step))
  {
    if Accepts(cfg, step.draft.text) {
      MergeTargetIsStored(cfg, s, step);
      var r := Incoming(s, step.draft, step.now);
      match step.decision
      case Ignore(_) =>
      case Merge(target) => MergeIsBuilding(cfg, s, r, target, step.now);
      case Review(_) =>
      case Link(_) => WriteIsBuilding(cfg, s, r, step.now, step.facts);
      case Add => WriteIsBuilding(cfg, s, r, step.now, step.facts);
    }
  }

  lemma ReviseIsBuilding(cfg: Config, s: State, step: Step)
    requires step.Revise? && step.id in s.rows
    ensures Building(cfg, s, ReviseCalls(cfg, s, step))
  {
    var next := Successor(s, step);
    var post := IndexCalls(cfg, next) + DropCalls(cfg, step.id) + [Update(Retire(s.rows[step.id], step.now))];
    PutThenPoint(cfg, s, [], next, post);
    assert ReviseCalls(cfg, s, step) == [] + [Put(next)] + post;
  }

  /** Apart from purging, every operation either only builds or only erases, in the right order. */
  lemma OperationsAreDisciplined(cfg: Config, s: State, step: Step)
    requires WellKeyed(s.rows) && Enabled(cfg, s, step) && !step.Purge?
    ensures Building(cfg, s, Calls(cfg, s, step)) || Erasing(cfg, Calls(cfg, s, step))
  {
    match step
    case Remember(_, _, _, _, _, _) => RememberIsBuilding(cfg, s, step);
    case Revise(id, scope, _, _, _, _) =>
      if Visible(s, id, scope) {
        ReviseIsBuilding(cfg, s, step);
      }
    case Erase(id, scope) => EraseIsErasing(cfg, id, scope);
    case Sweep(scope, now, _, candidates) => SweepIsErasing(cfg, candidates, scope, now);
    case Repair(_, active, ghosts) =>
      RepairIsBuilding(cfg, s, active, ghosts);
    case _ =>
  }

  lemma RepairIsBuilding(cfg: Config, s: State, active: seq<Record>, ghosts: seq<Id>)
    requires cfg.vector && forall r :: r in active ==> r.id in s.rows
    ensures Building(cfg, s, RepairCalls(cfg, s, active, ghosts))
  {
    var calls := RepairCalls(cfg, s, active, ghosts);
    forall i | |ghosts| <= i < |calls| ensures calls[i].Upsert? && calls[i].id in s.rows {
      assert Missing(s.index, active)[i - |ghosts|] in active;
    }
  }

  /** Any operation but a purge, cut short anywhere, keeps a row behind every vector and edge. */
  lemma MoveKeepsRows(cfg: Config, s: State, m: Move)
    requires RowsBehind(s) && Wired(cfg, s) && Moves(cfg, s, m) && !m.step.Purge?
    ensures RowsBehind(m.next) && Wired(cfg, m.next)
  {
    var calls := Calls(cfg, s, m.step);
    OperationsAreDisciplined(cfg, s, m.step);
    DisciplinedPrefix(cfg, s, calls, m.performed);
    if Building(cfg, s, calls) {
      BuildingKeepsRows(cfg, s, calls[..m.performed]);
    } else {
      ErasingKeepsRows(cfg, s, calls[..m.performed]);
    }
  }

  lemma {:induction false} RunKeepsRows(cfg: Config, run: seq<Move>)
    requires IsRun(cfg, EMPTY, run) && forall i :: 0 <= i < |run| ==> !run[i].step.Purge?
    ensures RowsBehind(Last(EMPTY, run)) && Wired(cfg, Last(EMPTY, run))
    decreases |run|
  {
    if run != [] {
      var n := |run| - 1;
      assert forall i :: 0 <= i < n ==> run[..n][i] == run[i];
      RunKeepsRows(cfg, run[..n]);
      MoveKeepsRows(cfg, Last(EMPTY, run[..n]), run[n]);
    }
  }

  /**
   * A purge deletes the row first, so cut short it strands what still points at it: exactly when it did delete the
   * row and had not reached the call that removes an existing vector or edge.
   */
  lemma PurgeStrandsIff(cfg: Config, s: State, id: Id, scope: Scope, k: nat)
    requires RowsBehind(s) && Wired(cfg, s) && k <= |PurgeCalls(cfg, id, scope)|
    ensures var calls := PurgeCalls(cfg, id, scope);
            RowsBehind(After(calls[..k], s)) <==>
              || k == 0
              || !Visible(s, id, scope)
              || ((id in s.index ==> k >= 2) && ((exists e :: e in s.edges && e.evidence == id) ==> k == |calls|))
  {
    PurgePrefix(cfg, s, id, scope, k);
    if k > 0 && Visible(s, id, scope) {
      assert id !in Effect(Delete(id, scope), s).rows;
    }
  }

  /** The states a purge passes through. */
  lemma PurgePrefix(cfg: Config, s: State, id: Id, scope: Scope, k: nat)
    requires Wired(cfg, s) && k <= |PurgeCalls(cfg, id, scope)|
    ensures var calls := PurgeCalls(cfg, id, scope); var t := After(calls[..k], s);
            && t.rows == (if k == 0 then s.rows else Effect(Delete(id, scope), s).rows)
            && t.index == (if k < 2 then s.index else s.index - {id})
            && t.edges == (if k < |calls| then s.edges else set e | e in s.edges && e.evidence != id)
    ensures !cfg.vector ==> id !in s.index
    ensures id in s.index ==> |PurgeCalls(cfg, id, scope)| >= 2
  {
    var d, v, g := Delete(id, scope), DropCalls(cfg, id), EvidenceCalls(cfg, id);
    var calls := PurgeCalls(cfg, id, scope);
    AfterOne(d, s);
    AfterConcat([d], v, s);
    AfterConcat([d] + v, g, s);
    AfterOne(RemoveVector(id), Effect(d, s));
    AfterOne(RemoveEvidence(id), After([d] + v, s));
    assert calls[..k] == if k == 0 then [] else if k == 1 then [d] else if k == |calls| then calls else [d] + v;
    assert |calls| == 1 ==> calls == [d];
    assert !cfg.vector ==> s.index - {id} == s.index;
  }

  // ------------------------------------------------------- the live version

  lemma {:induction false} StoredStays(s: State, calls: seq<Call>, at: nat, r: Record)
    requires at < |calls| && calls[at] == Put(r)
    requires forall i :: at < i < |calls| ==>
               !calls[i].Put? && !calls[i].Delete? && (calls[i].Update? ==> calls[i].record.id != r.id)
    ensures r.id in After(calls, s).rows && After(calls, s).rows[r.id] == r
    decreases |calls|
  {
    if at < |calls| - 1 {
      var n := |calls| - 1;
      assert forall i :: 0 <= i < n ==> calls[..n][i] == calls[i];
      StoredStays(s, calls[..n], at, r);
    }
  }

  ghost predicate IsActive(s: State, id: Id) { id in s.rows && s.rows[id].status == Active }

  /** Wherever an update stops, the record or its successor is live if the record was. */
  lemma UpdateKeepsALiveVersion(cfg: Config, s: State, m: Move)
    requires Ordered(s) && Moves(cfg, s, m) && m.step.Revise? && IsActive(s, m.step.id)
    ensures IsActive(m.next, m.step.id)
            || (IsActive(m.next, s.nextId) && m.next.rows[s.nextId].supersedes == Some(m.step.id))
  {
    var calls := Calls(cfg, s, m.step);
    if m.performed > 0 {
      var did := calls[..m.performed];
      assert did[0] == Put(Successor(s, m.step));
      assert forall i :: 0 < i < |did| ==> did[i] == calls[i] && !calls[i].Put? && !calls[i].Delete?;
      StoredStays(s, did, 0, Successor(s, m.step));
    }
  }

  /** Wherever a merge stops, the target or the merged record is live. */
  lemma MergeKeepsALiveVersion(cfg: Config, s: State, m: Move)
    requires Ordered(s) && Moves(cfg, s, m) && m.step.Remember? && m.step.decision.Merge?
    ensures IsActive(m.next, m.step.decision.target)
            || (IsActive(m.next, s.nextId + 1) && SameSubject(m.next.rows[s.nextId + 1], s.rows[m.step.decision.target]))
  {
    MergeTargetIsStored(cfg, s, m.step);
    var r, target := Incoming(s, m.step.draft, m.step.now), m.step.decision.target;
    if m.performed > 0 {
      MergedIsLive(cfg, s, r, target, m.step.now, m.performed, m.next);
    }
  }

  /** Past its first call a merge has stored the merged record, and no later call touches it. */
  lemma MergedIsLive(cfg: Config, s: State, r: Record, target: Id, now: Time, k: nat, next: State)
    requires Ordered(s) && target in s.rows && r.id == s.nextId && 0 < k <= |MergeCalls(cfg, s, r, target, now)|
    requires SameSubject(s.rows[target], r) && UpToDraws(After(MergeCalls(cfg, s, r, target, now)[..k], s), next)
    ensures IsActive(next, s.nextId + 1) && SameSubject(next.rows[s.nextId + 1], s.rows[target])
  {
    var calls := MergeCalls(cfg, s, r, target, now);
    MergePutsFirst(cfg, s, r, target, now);
    assert forall i :: 0 <= i < k ==> calls[..k][i] == calls[i];
    StoredStays(s, calls[..k], 0, DeriveSuccessor(r, r.id + 1, r.text, now));
  }

  lemma MergePutsFirst(cfg: Config, s: State, r: Record, target: Id, now: Time)
    requires Ordered(s) && target in s.rows && r.id == s.nextId
    ensures var calls := MergeCalls(cfg, s, r, target, now);
            && calls[0] == Put(DeriveSuccessor(r, r.id + 1, r.text, now))
            && forall i :: 0 < i < |calls| ==>
                 !calls[i].Put? && !calls[i].Delete? && (calls[i].Update? ==> calls[i].record.id != r.id + 1)
  {
  }

  /**
   * A conflict replacement closes the old fact before it stores the new one. Cut short in between, neither is live:
   * exactly after the first call and before the row of the incoming record is put.
   */
  lemma ReplaceKeepsALiveFactIff(cfg: Config, s: State, r: Record, closing: Id, now: Time, k: nat)
    requires Ordered(s) && r.id == s.nextId && r.status == Active
    requires IsActive(s, closing) && Visible(s, closing, r.scope)
    requires k <= |ReplaceCalls(cfg, s, r, closing, now)|
    ensures var t := After(ReplaceCalls(cfg, s, r, closing, now)[..k], s);
            IsActive(t, closing) || IsActive(t, r.id) <==> k == 0 || k >= 2 + |DropCalls(cfg, closing)|
  {
    var calls := ReplaceCalls(cfg, s, r, closing, now);
    var did := calls[..k];
    var p := 1 + |DropCalls(cfg, closing)|;
    assert calls[p] == Put(r);
    if k > p {
      assert forall i :: p < i < |did| ==> did[i] == calls[i] && calls[i].Upsert?;
      StoredStays(s, did, p, r);
    } else if k > 0 {
      var closed := Conflict.CloseWindow(s.rows[closing], now);
      assert calls[0] == Update(closed);
      if k == 1 {
        assert did == [Update(closed)];
      } else {
        assert did == [Update(closed)] + [RemoveVector(closing)];
      }
      NothingStoredYet(s, closed, did);
    }
  }

  lemma NothingStoredYet(s: State, closed: Record, did: seq<Call>)
    requires closed.id in s.rows
    requires did == [Update(closed)] || did == [Update(closed)] + [RemoveVector(closed.id)]
    ensures After(did, s).rows == s.rows[closed.id := closed]
  {
    AfterOne(Update(closed), s);
    AfterSnoc([Update(closed)], RemoveVector(closed.id), s);
  }
}
