/** The state each completed operation ends in, in closed form. */
module Outcomes {
  import opened Domain
  import opened Machine
  import Conflict
  import Dedup
  import Evolution

  function Dropped(cfg: Config, s: State, id: Id): State { if cfg.vector then s.(index := s.index - {id}) else s }

  function Indexed(cfg: Config, s: State, r: Record): State {
    if cfg.vector && cfg.embedder then s.(index := s.index[r.id := VectorOf(cfg, r)]) else s
  }

  function Unlinked(cfg: Config, s: State, id: Id): State {
    if cfg.graph then s.(edges := set e | e in s.edges && e.evidence != id) else s
  }

  /** The edges the graph gains from a record. */
  ghost function EdgesOf(cfg: Config, r: Record): set<Relation> {
    if cfg.graph && r.subject.Some? then
      set t | t in cfg.relations(r.subject.value, r.text) :: Relation(r.id, t)
    else {}
  }

  function Stored(s: State, r: Record): State { Effect(Put(r), s) }

  lemma AfterDrop(cfg: Config, s: State, id: Id)
    ensures After(DropCalls(cfg, id), s) == Dropped(cfg, s, id)
  {
    AfterOne(RemoveVector(id), s);
  }

  lemma AfterIndex(cfg: Config, s: State, r: Record)
    ensures After(IndexCalls(cfg, r), s) == Indexed(cfg, s, r)
  {
    AfterOne(Upsert(r.id, VectorOf(cfg, r)), s);
  }

  lemma AfterEvidence(cfg: Config, s: State, id: Id)
    ensures After(EvidenceCalls(cfg, id), s) == Unlinked(cfg, s, id)
  {
    AfterOne(RemoveEvidence(id), s);
  }

  lemma {:induction false} AfterEdges(id: Id, triples: seq<Triple>, s: State)
    ensures After(EdgeCalls(id, triples), s) == s.(edges := s.edges + set t | t in triples :: Relation(id, t))
  {
    if triples == [] {
      assert s.edges + (set t | t in triples :: Relation(id, t)) == s.edges;
    } else {
      var n := |triples| - 1;
      var e := Relation(id, triples[n]);
      AfterEdges(id, triples[..n], s);
      assert EdgeCalls(id, triples) == EdgeCalls(id, triples[..n]) + [AddEdge(e)];
      AfterSnoc(EdgeCalls(id, triples[..n]), AddEdge(e), s);
      assert triples == triples[..n] + [triples[n]];
      assert (set t | t in triples :: Relation(id, t)) == (set t | t in triples[..n] :: Relation(id, t)) + {e};
    }
  }

  lemma AfterGraph(cfg: Config, s: State, r: Record)
    ensures After(GraphCalls(cfg, r), s) == s.(edges := s.edges + EdgesOf(cfg, r))
  {
    if cfg.graph && r.subject.Some? {
      AfterEdges(r.id, cfg.relations(r.subject.value, r.text), s);
    } else {
      assert s.edges + EdgesOf(cfg, r) == s.edges;
    }
  }

  function Added(cfg: Config, s: State, r: Record): State { Indexed(cfg, Stored(s, r), r) }

  lemma AddResult(cfg: Config, s: State, r: Record)
    ensures After(AddCalls(cfg, r), s) == Added(cfg, s, r).(edges := s.edges + EdgesOf(cfg, r))
  {
    AfterConcat([Put(r)] + IndexCalls(cfg, r), GraphCalls(cfg, r), s);
    AfterConcat([Put(r)], IndexCalls(cfg, r), s);
    AfterOne(Put(r), s);
    AfterIndex(cfg, Stored(s, r), r);
    AfterGraph(cfg, Added(cfg, s, r), r);
  }

  /** The closed fact leaves the index and stays as history. */
  function Closed(cfg: Config, s: State, id: Id, now: Time): State
    requires id in s.rows
  {
    Dropped(cfg, s.(rows := s.rows[id := Conflict.CloseWindow(s.rows[id], now)]), id)
  }

  lemma ReplaceResult(cfg: Config, s: State, r: Record, closing: Id, now: Time)
    requires WellKeyed(s.rows)
    ensures After(ReplaceCalls(cfg, s, r, closing, now), s)
         == Added(cfg, if Visible(s, closing, r.scope) then Closed(cfg, s, closing, now) else s, r)
  {
    var head := if Visible(s, closing, r.scope) then
      [Update(Conflict.CloseWindow(s.rows[closing], now))] + DropCalls(cfg, closing) else [];
    var mid := After(head, s);
    if Visible(s, closing, r.scope) {
      var u := Update(Conflict.CloseWindow(s.rows[closing], now));
      AfterConcat([u], DropCalls(cfg, closing), s);
      AfterOne(u, s);
      AfterDrop(cfg, Effect(u, s), closing);
      assert mid == Closed(cfg, s, closing, now);
    }
    assert ReplaceCalls(cfg, s, r, closing, now) == head + [Put(r)] + IndexCalls(cfg, r);
    AfterConcat(head + [Put(r)], IndexCalls(cfg, r), s);
    AfterSnoc(head, Put(r), s);
    AfterIndex(cfg, Stored(mid, r), r);
  }

  lemma MergeResult(cfg: Config, s: State, r: Record, target: Id, now: Time)
    requires WellKeyed(s.rows) && target in s.rows && target < r.id
    ensures var next := DeriveSuccessor(r, r.id + 1, r.text, now);
            var t := Dropped(cfg, Stored(s, next), target);
            After(MergeCalls(cfg, s, r, target, now), s) == t.(rows := t.rows[target := Retire(s.rows[target], now)])
  {
    var next := DeriveSuccessor(r, r.id + 1, r.text, now);
    AfterConcat([Put(next)] + DropCalls(cfg, target), [Update(Retire(s.rows[target], now))], s);
    AfterConcat([Put(next)], DropCalls(cfg, target), s);
    AfterOne(Put(next), s);
    AfterDrop(cfg, Stored(s, next), target);
    AfterOne(Update(Retire(s.rows[target], now)), Dropped(cfg, Stored(s, next), target));
  }

  lemma MergeRows(cfg: Config, s: State, r: Record, target: Id, now: Time)
    requires Evolution.Ordered(s) && target in s.rows && r.id == s.nextId
    ensures var t := After(MergeCalls(cfg, s, r, target, now), s);
            && t.rows == s.rows[target := Retire(s.rows[target], now)]
                               [r.id + 1 := DeriveSuccessor(r, r.id + 1, r.text, now)]
            && t.nextId > r.id + 1
  {
    MergeResult(cfg, s, r, target, now);
    UpdatesCommute(s.rows, target, Retire(s.rows[target], now), r.id + 1, DeriveSuccessor(r, r.id + 1, r.text, now));
  }

  lemma UpdatesCommute(rows: Rows, a: Id, x: Record, b: Id, y: Record)
    requires a != b
    ensures rows[a := x][b := y] == rows[b := y][a := x]
  {
  }

  lemma ReviseResult(cfg: Config, s: State, step: Step)
    requires Evolution.Ordered(s) && step.Revise? && step.id in s.rows
    ensures var next := Successor(s, step);
            var t := Dropped(cfg, Added(cfg, s, next), step.id);
            After(ReviseCalls(cfg, s, step), s) == t.(rows := t.rows[step.id := Retire(s.rows[step.id], step.now)])
  {
    var next := Successor(s, step);
    var u := Update(Retire(s.rows[step.id], step.now));
    AfterConcat([Put(next)] + IndexCalls(cfg, next) + DropCalls(cfg, step.id), [u], s);
    AfterConcat([Put(next)] + IndexCalls(cfg, next), DropCalls(cfg, step.id), s);
    AfterConcat([Put(next)], IndexCalls(cfg, next), s);
    AfterOne(Put(next), s);
    AfterIndex(cfg, Stored(s, next), next);
    AfterDrop(cfg, Added(cfg, s, next), step.id);
    AfterOne(u, Dropped(cfg, Added(cfg, s, next), step.id));
  }

  lemma ForgetResult(cfg: Config, s: State, id: Id, now: Time)
    requires WellKeyed(s.rows) && id in s.rows
    ensures After(ForgetCalls(cfg, s.rows[id], now), s)
         == Unlinked(cfg, Dropped(cfg, s.(rows := s.rows[id := s.rows[id].(status := Deleted, updatedAt := now)]), id), id)
  {
    var u := Update(s.rows[id].(status := Deleted, updatedAt := now));
    AfterConcat([u] + DropCalls(cfg, id), EvidenceCalls(cfg, id), s);
    AfterConcat([u], DropCalls(cfg, id), s);
    AfterOne(u, s);
    AfterDrop(cfg, Effect(u, s), id);
    AfterEvidence(cfg, Dropped(cfg, Effect(u, s), id), id);
  }

  /** Removes a record from every representation, if the scope sees its row. */
  function Removed(cfg: Config, s: State, id: Id, scope: Scope): State {
    Unlinked(cfg, Dropped(cfg, Effect(Delete(id, scope), s), id), id)
  }

  /** Purging and erasing differ in the order of their calls only. */
  lemma RemovalResult(cfg: Config, s: State, id: Id, scope: Scope)
    ensures After(PurgeCalls(cfg, id, scope), s) == Removed(cfg, s, id, scope)
    ensures After(EraseCalls(cfg, id, scope), s) == Removed(cfg, s, id, scope)
  {
    var d := Delete(id, scope);
    AfterConcat([d] + DropCalls(cfg, id), EvidenceCalls(cfg, id), s);
    AfterConcat([d], DropCalls(cfg, id), s);
    AfterOne(d, s);
    AfterDrop(cfg, Effect(d, s), id);
    AfterEvidence(cfg, Dropped(cfg, Effect(d, s), id), id);
    AfterConcat(DropCalls(cfg, id) + EvidenceCalls(cfg, id), [d], s);
    AfterConcat(DropCalls(cfg, id), EvidenceCalls(cfg, id), s);
    AfterDrop(cfg, s, id);
    AfterEvidence(cfg, Dropped(cfg, s, id), id);
    AfterOne(d, Unlinked(cfg, Dropped(cfg, s, id), id));
  }

  // -------------------------------------------------------------------- sweep

  ghost function LapsedIds(rs: seq<Record>, now: Time): set<Id> { set r | r in rs && Lapsed(r, now) :: r.id }

  ghost function ArchivableIds(rs: seq<Record>, now: Time): set<Id> { set r | r in rs && Archivable(r, now) :: r.id }

  /** The records `gone` vanish everywhere, the records `aged` change status, nothing else changes. */
  ghost function Swept(cfg: Config, s: State, gone: set<Id>, aged: set<Id>, now: Time): State {
    State(map id | id in s.rows.Keys - gone :: if id in aged then ArchivedAt(s.rows[id], now) else s.rows[id],
          if cfg.vector then s.index - gone else s.index,
          if cfg.graph then set e | e in s.edges && e.evidence !in gone else s.edges,
          s.nextId)
  }

  lemma SweptNothing(cfg: Config, s: State, now: Time)
    ensures Swept(cfg, s, {}, {}, now) == s
  {
    var t := Swept(cfg, s, {}, {}, now);
    assert t.rows == s.rows && t.index == s.index && t.edges == s.edges;
  }

  lemma SweptErases(cfg: Config, s: State, gone: set<Id>, aged: set<Id>, now: Time, id: Id, scope: Scope)
    requires id in s.rows && id !in gone + aged && scope.Contains(s.rows[id].scope)
    ensures Removed(cfg, Swept(cfg, s, gone, aged, now), id, scope) == Swept(cfg, s, gone + {id}, aged, now)
  {
    var t, u := Removed(cfg, Swept(cfg, s, gone, aged, now), id, scope), Swept(cfg, s, gone + {id}, aged, now);
    assert t.rows == u.rows;
    assert t.index == u.index;
    assert t.edges == u.edges;
  }

  lemma SweptArchives(cfg: Config, s: State, gone: set<Id>, aged: set<Id>, now: Time, id: Id)
    requires id in s.rows && id !in gone && s.rows[id].id == id
    ensures Effect(Machine.Update(ArchivedAt(s.rows[id], now)), Swept(cfg, s, gone, aged, now))
         == Swept(cfg, s, gone, aged + {id}, now)
  {
    assert Effect(Machine.Update(ArchivedAt(s.rows[id], now)), Swept(cfg, s, gone, aged, now)).rows
        == Swept(cfg, s, gone, aged + {id}, now).rows;
  }

  ghost predicate Candidates(s: State, rs: seq<Record>, scope: Scope) {
    && DistinctIds(rs)
    && forall i :: 0 <= i < |rs| ==> rs[i].id in s.rows && s.rows[rs[i].id] == rs[i] && scope.Contains(rs[i].scope)
  }

  lemma IdsSnoc(rs: seq<Record>, r: Record, now: Time)
    ensures LapsedIds(rs + [r], now) == LapsedIds(rs, now) + if Lapsed(r, now) then {r.id} else {}
    ensures ArchivableIds(rs + [r], now) == ArchivableIds(rs, now) + if Archivable(r, now) then {r.id} else {}
  {
    assert forall x :: x in rs + [r] <==> x in rs || x == r;
    if Lapsed(r, now) {
      assert r in rs + [r];
    }
    if Archivable(r, now) {
      assert r in rs + [r];
    }
  }

  lemma {:induction false} SweepResult(cfg: Config, s: State, rs: seq<Record>, scope: Scope, now: Time)
    requires Candidates(s, rs, scope)
    ensures After(SweepCalls(cfg, rs, scope, now), s) == Swept(cfg, s, LapsedIds(rs, now), ArchivableIds(rs, now), now)
  {
    if rs == [] {
      SweptNothing(cfg, s, now);
    } else {
      var n := |rs| - 1;
      var r, init := rs[n], rs[..n];
      var gone, aged := LapsedIds(init, now), ArchivableIds(init, now);
      SweepResult(cfg, s, init, scope, now);
      AfterConcat(SweepCalls(cfg, init, scope, now), SweepOne(cfg, r, scope, now), s);
      assert rs == init + [r];
      IdsSnoc(init, r, now);
      FreshCandidate(s, rs, scope, now);
      SweptOne(cfg, s, gone, aged, r, scope, now);
    }
  }

  /** No candidate is met twice. */
  lemma FreshCandidate(s: State, rs: seq<Record>, scope: Scope, now: Time)
    requires Candidates(s, rs, scope) && rs != []
    ensures var n := |rs| - 1; rs[n].id !in LapsedIds(rs[..n], now) + ArchivableIds(rs[..n], now)
  {
    var n := |rs| - 1;
    forall x | x in rs[..n] ensures x.id != rs[n].id {
      var i :| 0 <= i < n && rs[i] == x;
    }
  }

  /** One more candidate: erased when it lapsed, archived when it can be, left alone otherwise. */
  lemma SweptOne(cfg: Config, s: State, gone: set<Id>, aged: set<Id>, r: Record, scope: Scope, now: Time)
    requires r.id in s.rows && s.rows[r.id] == r && scope.Contains(r.scope) && r.id !in gone + aged
    ensures After(SweepOne(cfg, r, scope, now), Swept(cfg, s, gone, aged, now))
         == Swept(cfg, s, gone + (if Lapsed(r, now) then {r.id} else {}),
                  aged + (if Archivable(r, now) then {r.id} else {}), now)
  {
    assert gone + {} == gone && aged + {} == aged;
    if Lapsed(r, now) {
      RemovalResult(cfg, Swept(cfg, s, gone, aged, now), r.id, scope);
      SweptErases(cfg, s, gone, aged, now, r.id, scope);
    } else if Archivable(r, now) {
      AfterOne(Machine.Update(ArchivedAt(r, now)), Swept(cfg, s, gone, aged, now));
      SweptArchives(cfg, s, gone, aged, now, r.id);
    }
  }

  // ------------------------------------------------------- repair and recall

  ghost function IdSet(ids: seq<Id>): set<Id> { set id | id in ids }

  lemma {:induction false} RemoveAllResult(ids: seq<Id>, s: State)
    ensures After(RemoveAll(ids), s) == s.(index := s.index - IdSet(ids))
  {
    if ids == [] {
      assert s.index - IdSet(ids) == s.index;
    } else {
      var n := |ids| - 1;
      RemoveAllResult(ids[..n], s);
      assert RemoveAll(ids) == RemoveAll(ids[..n]) + [RemoveVector(ids[n])];
      AfterSnoc(RemoveAll(ids[..n]), RemoveVector(ids[n]), s);
      assert ids == ids[..n] + [ids[n]];
      assert IdSet(ids) == IdSet(ids[..n]) + {ids[n]};
      assert s.index - IdSet(ids) == (s.index - IdSet(ids[..n])) - {ids[n]};
    }
  }

  ghost predicate AreRows(s: State, rs: seq<Record>) {
    forall i :: 0 <= i < |rs| ==> rs[i].id in s.rows && s.rows[rs[i].id] == rs[i]
  }

  ghost function Reindexed(cfg: Config, s: State, ids: set<Id>): map<Id, VectorRecord>
    requires ids <= s.rows.Keys
  {
    map id | id in s.index.Keys + ids :: if id in ids then VectorOf(cfg, s.rows[id]) else s.index[id]
  }

  lemma {:induction false} UpsertAllResult(cfg: Config, s: State, rs: seq<Record>)
    requires AreRows(s, rs)
    ensures After(UpsertAll(cfg, rs), s) == s.(index := Reindexed(cfg, s, Ids(rs)))
  {
    if rs == [] {
      assert Reindexed(cfg, s, Ids(rs)) == s.index;
    } else {
      var n := |rs| - 1;
      var u := Upsert(rs[n].id, VectorOf(cfg, rs[n]));
      UpsertAllResult(cfg, s, rs[..n]);
      assert UpsertAll(cfg, rs) == UpsertAll(cfg, rs[..n]) + [u];
      AfterSnoc(UpsertAll(cfg, rs[..n]), u, s);
      assert Ids(rs) == Ids(rs[..n]) + {rs[n].id};
      ReindexedSnoc(cfg, s, Ids(rs[..n]), rs[n].id);
    }
  }

  lemma ReindexedSnoc(cfg: Config, s: State, ids: set<Id>, id: Id)
    requires ids <= s.rows.Keys && id in s.rows
    ensures Reindexed(cfg, s, ids + {id}) == Reindexed(cfg, s, ids)[id := VectorOf(cfg, s.rows[id])]
  {
  }

  /** The index a completed repair leaves: the active records it saw, surviving vectors untouched. */
  ghost function Repaired(cfg: Config, s: State, active: set<Id>): map<Id, VectorRecord>
    requires active <= s.rows.Keys
  {
    map id | id in active :: if id in s.index then s.index[id] else VectorOf(cfg, s.rows[id])
  }

  lemma RepairResult(cfg: Config, s: State, active: seq<Record>, ghosts: seq<Id>)
    requires AreRows(s, active) && IdSet(ghosts) == s.index.Keys - Ids(active)
    ensures After(RepairCalls(cfg, s, active, ghosts), s) == s.(index := Repaired(cfg, s, Ids(active)))
  {
    var missing := Missing(s.index, active);
    AfterConcat(RemoveAll(ghosts), UpsertAll(cfg, missing), s);
    RemoveAllResult(ghosts, s);
    var t := s.(index := s.index - IdSet(ghosts));
    forall i | 0 <= i < |missing| ensures missing[i].id in s.rows && s.rows[missing[i].id] == missing[i] {
      assert missing[i] in active;
    }
    UpsertAllResult(cfg, t, missing);
    MissingIds(s.index, active);
    RepairedIndex(cfg, s, Ids(active));
  }

  lemma RepairedIndex(cfg: Config, s: State, active: set<Id>)
    requires active <= s.rows.Keys
    ensures Reindexed(cfg, s.(index := s.index - (s.index.Keys - active)), active - s.index.Keys) == Repaired(cfg, s, active)
  {
  }

  lemma MissingIds(index: map<Id, VectorRecord>, active: seq<Record>)
    ensures Ids(Missing(index, active)) == Ids(active) - index.Keys
  {
    forall id | id in Ids(active) - index.Keys ensures id in Ids(Missing(index, active)) {
      var i :| 0 <= i < |active| && active[i].id == id;
      assert active[i] in Missing(index, active);
    }
    forall id | id in Ids(Missing(index, active)) ensures id in Ids(active) - index.Keys {
      var i :| 0 <= i < |Missing(index, active)| && Missing(index, active)[i].id == id;
      assert Missing(index, active)[i] in active;
    }
  }

  // ------------------------------------------------------------------ answers

  lemma WriteStores(cfg: Config, s: State, r: Record, now: Time, facts: seq<Record>)
    requires WellKeyed(s.rows)
    ensures var kept := if && cfg.conflict && r.subject.Some?
                           && Conflict.Verdict(cfg.negates(r.text), r, facts).QuarantineIncoming?
                        then r.(status := Quarantined) else r;
            Holds(After(WriteCalls(cfg, s, r, now, facts), s), kept)
  {
    AddResult(cfg, s, r);
    AfterOne(Put(r.(status := Quarantined)), s);
    if cfg.conflict && r.subject.Some? {
      match Conflict.Verdict(cfg.negates(r.text), r, facts)
      case ReplaceExisting(closing) => ReplaceResult(cfg, s, r, closing, now);
      case _ =>
    }
  }

  ghost predicate Holds(s: State, r: Record) { r.id in s.rows && s.rows[r.id] == r }

  lemma MergeStores(cfg: Config, s: State, r: Record, target: Id, now: Time)
    requires Evolution.Ordered(s) && target in s.rows && r.id == s.nextId
    ensures Holds(After(MergeCalls(cfg, s, r, target, now), s), DeriveSuccessor(r, r.id + 1, r.text, now))
  {
    MergeRows(cfg, s, r, target, now);
  }

  lemma QuarantineStores(s: State, r: Record)
    ensures Holds(After(QuarantineCalls(r), s), r.(status := Quarantined))
  {
    AfterOne(Put(r.(status := Quarantined)), s);
  }

  lemma IgnoreFindsTarget(cfg: Config, s: State, step: Step)
    requires Evolution.Ordered(s) && step.Remember? && Enabled(cfg, s, step) && step.decision.Ignore?
    ensures Holds(s, Reply(cfg, s, step))
  {
    var r := Incoming(s, step.draft, step.now);
    Dedup.IgnoreNamesDuplicate(cfg.ct, r, step.cands, step.sims, step.now, step.decision.target);
  }

  /** What a completed remember answers is what the store then holds: the duplicate it met, or the record as it was kept. */
  lemma RememberStoresItsReply(cfg: Config, s: State, step: Step)
    requires Evolution.Ordered(s) && step.Remember? && Enabled(cfg, s, step) && Accepts(cfg, step.draft.text)
    ensures Holds(After(Calls(cfg, s, step), s), Reply(cfg, s, step))
  {
    var r, calls := Incoming(s, step.draft, step.now), Calls(cfg, s, step);
    match step.decision
    case Ignore(target) =>
      IgnoreFindsTarget(cfg, s, step);
      assert calls == [];
    case Merge(target) =>
      MergeTargetIsStored(cfg, s, step);
      assert calls == MergeCalls(cfg, s, r, target, step.now);
      MergeStores(cfg, s, r, target, step.now);
    case Review(_) =>
      assert calls == QuarantineCalls(r);
      QuarantineStores(s, r);
    case _ =>
      assert calls == WriteCalls(cfg, s, r, step.now, step.facts);
      WriteStores(cfg, s, r, step.now, step.facts);
  }
}
