/**
 * Agreement of the vector index and the entity graph with the canonical store: exactly which moves keep it, cut short or
 * not, and what holds whatever fails.
 */
module Agreement {
  import opened Domain
  import opened Machine
  import opened Evolution
  import opened Outcomes
  import opened Safety
  import Conflict
  import Dedup

  // ------------------------------------------------------------ scope filter

  /** The mirrored filter decides containment, except for the organization. */
  lemma FilterIsScope(q: Scope, r: Scope)
    ensures FilterMatches(ScopeFilter(q), ScopeFilter(r)) <==> q.(organization := None).Contains(r)
  {
    var f, m := ScopeFilter(q), ScopeFilter(r);
    assert forall d: Dim :: DimMatches(Pinned(q, d), Pinned(r, d)) <==> (d in f ==> d in m && m[d] == f[d]);
    assert Pinned(q, TenantId) == q.tenant && Pinned(q, WorkspaceId) == q.workspace && Pinned(q, UserId) == q.user;
    assert Pinned(q, AgentId) == q.agent && Pinned(q, SessionId) == q.session && Pinned(q, TaskId) == q.task;
  }

  /** The vector embeds the record's own text, and its metadata decides what scopes find it, the organization aside. */
  ghost predicate IsOwn(cfg: Config, v: VectorRecord, r: Record) {
    && v.embedding == cfg.embed(r.text)
    && forall q: Scope :: FilterMatches(ScopeFilter(q), v.metadata) <==> q.(organization := None).Contains(r.scope)
  }

  lemma VectorIsOwn(cfg: Config, r: Record)
    ensures IsOwn(cfg, VectorOf(cfg, r), r)
  {
    forall q: Scope
      ensures FilterMatches(ScopeFilter(q), VectorOf(cfg, r).metadata) <==> q.(organization := None).Contains(r.scope)
    {
      FilterIsScope(q, r.scope);
    }
  }

  lemma EntriesAreOwn(cfg: Config, s: State)
    ensures forall id :: id in s.index && id in s.rows && s.index[id] == VectorOf(cfg, s.rows[id]) ==>
              IsOwn(cfg, s.index[id], s.rows[id])
  {
    forall id | id in s.index && id in s.rows && s.index[id] == VectorOf(cfg, s.rows[id])
      ensures IsOwn(cfg, s.index[id], s.rows[id])
    {
      VectorIsOwn(cfg, s.rows[id]);
    }
  }

  /** An index entry is the embedding of its own stored record, which recall may show. */
  ghost predicate IndexSound(cfg: Config, s: State) {
    forall id :: id in s.index ==>
      id in s.rows && s.rows[id].status.Retrievable() && s.index[id] == VectorOf(cfg, s.rows[id])
  }

  /** An edge is justified by a stored record that is not a tombstone. */
  ghost predicate GraphSound(s: State) {
    forall e :: e in s.edges ==> e.evidence in s.rows && s.rows[e.evidence].status != Deleted
  }

  /** Engine writes set no validity window, and a window is closed only together with the status. */
  ghost predicate ActiveIsOpen(s: State) {
    forall id :: IsActive(s, id) ==> s.rows[id].AlwaysValid()
  }

  ghost predicate Agrees(cfg: Config, s: State) {
    Ordered(s) && Wired(cfg, s) && IndexSound(cfg, s) && GraphSound(s) && ActiveIsOpen(s)
  }

  /**
   * What holds whatever fails: an entry that still has a row is the embedding of that row's own text, and the row is
   * not quarantined.
   */
  ghost predicate Honest(cfg: Config, s: State) {
    && Ordered(s) && Wired(cfg, s) && ActiveIsOpen(s)
    && (forall id :: id in s.index ==> id < s.nextId)
    && (forall id :: id in s.index && id in s.rows ==>
          s.index[id] == VectorOf(cfg, s.rows[id]) && s.rows[id].status != Quarantined)
  }

  /** The invariant of runs with failures or, when strict, of runs without. */
  ghost predicate Kept(cfg: Config, s: State, strict: bool) { Honest(cfg, s) && (strict ==> Agrees(cfg, s)) }

  /** No edge rests on `id`. */
  ghost predicate Unlinks(s: State, id: Id) { forall e :: e in s.edges ==> e.evidence != id }

  /** A call that cannot break what holds whatever fails. */
  ghost predicate Fits(cfg: Config, s: State, c: Call) {
    match c
    case Put(r) => s.nextId <= r.id && (r.supersedes.Some? ==> r.supersedes.value < r.id) && r.AlwaysValid()
    case Update(r) =>
      r.id in s.rows && SameFact(s.rows[r.id], r) && r.status != Active && r.status != Quarantined
    case Upsert(id, v) => cfg.vector && id in s.rows && s.rows[id].status.Retrievable() && v == VectorOf(cfg, s.rows[id])
    case AddEdge(e) => cfg.graph && e.evidence in s.rows && s.rows[e.evidence].status != Deleted
    case _ => true
  }

  /** A call that leaves nothing pointing at a row that is gone, retired or buried. */
  ghost predicate Spares(s: State, c: Call) {
    match c
    case Update(r) => (r.id in s.index ==> r.status.Retrievable()) && (r.status == Deleted ==> Unlinks(s, r.id))
    case Delete(id, scope) => Visible(s, id, scope) ==> id !in s.index && Unlinks(s, id)
    case _ => true
  }

  ghost predicate Gentle(cfg: Config, s: State, c: Call, strict: bool) { Fits(cfg, s, c) && (strict ==> Spares(s, c)) }

  /** Every call of the list is gentle in the state it is made in. */
  ghost predicate AllGentle(cfg: Config, s: State, calls: seq<Call>, strict: bool)
    decreases |calls|
  {
    calls == []
    || (AllGentle(cfg, s, calls[..|calls| - 1], strict)
        && Gentle(cfg, After(calls[..|calls| - 1], s), calls[|calls| - 1], strict))
  }

  lemma GentleKeeps(cfg: Config, s: State, c: Call, strict: bool)
    requires Kept(cfg, s, strict) && Gentle(cfg, s, c, strict)
    ensures Kept(cfg, Effect(c, s), strict)
  {
    FitKeepsOpen(cfg, s, c);
    FitKeepsHonest(cfg, s, c);
    if strict {
      SparingKeepsIndex(cfg, s, c);
      SparingKeepsGraph(cfg, s, c);
    }
  }

  lemma FitKeepsOpen(cfg: Config, s: State, c: Call)
    requires Ordered(s) && Wired(cfg, s) && ActiveIsOpen(s) && Fits(cfg, s, c)
    ensures Ordered(Effect(c, s)) && Wired(cfg, Effect(c, s)) && ActiveIsOpen(Effect(c, s))
  {
    var t := Effect(c, s);
    assert forall id :: IsActive(t, id) ==> IsActive(s, id) || (c.Put? && id == c.record.id);
  }

  lemma FitKeepsHonest(cfg: Config, s: State, c: Call)
    requires Honest(cfg, s) && Fits(cfg, s, c)
    ensures var t := Effect(c, s);
            && (forall id :: id in t.index ==> id < t.nextId)
            && (forall id :: id in t.index && id in t.rows ==>
                  t.index[id] == VectorOf(cfg, t.rows[id]) && t.rows[id].status != Quarantined)
  {
  }

  lemma SparingKeepsIndex(cfg: Config, s: State, c: Call)
    requires Agrees(cfg, s) && Fits(cfg, s, c) && Spares(s, c)
    ensures IndexSound(cfg, Effect(c, s))
  {
  }

  lemma SparingKeepsGraph(cfg: Config, s: State, c: Call)
    requires Agrees(cfg, s) && Fits(cfg, s, c) && Spares(s, c)
    ensures GraphSound(Effect(c, s))
  {
  }

  lemma {:induction false} AllGentleKeeps(cfg: Config, s: State, calls: seq<Call>, strict: bool, k: nat)
    requires Kept(cfg, s, strict) && AllGentle(cfg, s, calls, strict) && k <= |calls|
    ensures Kept(cfg, After(calls[..k], s), strict)
    decreases |calls|
  {
    var n := |calls| - 1;
    if k == 0 {
    } else if k <= n {
      assert calls[..n][..k] == calls[..k];
      AllGentleKeeps(cfg, s, calls[..n], strict, k);
    } else {
      assert calls[..k] == calls && calls[..n][..n] == calls[..n];
      AllGentleKeeps(cfg, s, calls[..n], strict, n);
      GentleKeeps(cfg, After(calls[..n], s), calls[n], strict);
    }
  }

  lemma OneGentle(cfg: Config, s: State, c: Call, strict: bool)
    requires Gentle(cfg, s, c, strict)
    ensures AllGentle(cfg, s, [c], strict)
  {
    assert [c][..0] == [];
  }

  lemma {:induction false} GentleConcat(cfg: Config, s: State, a: seq<Call>, b: seq<Call>, strict: bool)
    requires AllGentle(cfg, s, a, strict) && AllGentle(cfg, After(a, s), b, strict)
    ensures AllGentle(cfg, s, a + b, strict)
    decreases |b|
  {
    if b == [] {
      assert a + b == a;
    } else {
      var n := |b| - 1;
      GentleConcat(cfg, s, a, b[..n], strict);
      AfterConcat(a, b[..n], s);
      assert (a + b)[..|a + b| - 1] == a + b[..n];
    }
  }

  // ------------------------------------------------------------ lists of calls

  lemma IndexIsGentle(cfg: Config, s: State, r: Record, strict: bool)
    requires r.id in s.rows && s.rows[r.id] == r && r.status.Retrievable()
    ensures AllGentle(cfg, s, IndexCalls(cfg, r), strict)
  {
    if cfg.vector && cfg.embedder {
      OneGentle(cfg, s, Upsert(r.id, VectorOf(cfg, r)), strict);
    }
  }

  lemma DropIsGentle(cfg: Config, s: State, id: Id, strict: bool)
    ensures AllGentle(cfg, s, DropCalls(cfg, id), strict)
    ensures AllGentle(cfg, s, EvidenceCalls(cfg, id), strict)
  {
    OneGentle(cfg, s, RemoveVector(id), strict);
    OneGentle(cfg, s, RemoveEvidence(id), strict);
  }

  lemma {:induction false} EdgesAreGentle(cfg: Config, s: State, id: Id, triples: seq<Triple>, strict: bool)
    requires cfg.graph && id in s.rows && s.rows[id].status != Deleted
    ensures AllGentle(cfg, s, EdgeCalls(id, triples), strict)
  {
    if triples != [] {
      var n := |triples| - 1;
      EdgesAreGentle(cfg, s, id, triples[..n], strict);
      AfterEdges(id, triples[..n], s);
      assert EdgeCalls(id, triples)[..n] == EdgeCalls(id, triples[..n]);
    }
  }

  lemma GraphIsGentle(cfg: Config, s: State, r: Record, strict: bool)
    requires r.id in s.rows && s.rows[r.id].status != Deleted
    ensures AllGentle(cfg, s, GraphCalls(cfg, r), strict)
  {
    if cfg.graph && r.subject.Some? {
      EdgesAreGentle(cfg, s, r.id, cfg.relations(r.subject.value, r.text), strict);
    }
  }

  /** A record that may be stored next. */
  ghost predicate Storable(s: State, r: Record) {
    s.nextId <= r.id && (r.supersedes.Some? ==> r.supersedes.value < r.id) && r.AlwaysValid()
  }

  lemma PutIndexIsGentle(cfg: Config, s: State, r: Record, strict: bool)
    requires Storable(s, r) && r.status == Active
    ensures AllGentle(cfg, s, [Put(r)] + IndexCalls(cfg, r), strict)
    ensures After([Put(r)] + IndexCalls(cfg, r), s) == Added(cfg, s, r)
  {
    OneGentle(cfg, s, Put(r), strict);
    AfterOne(Put(r), s);
    IndexIsGentle(cfg, Stored(s, r), r, strict);
    GentleConcat(cfg, s, [Put(r)], IndexCalls(cfg, r), strict);
    AfterConcat([Put(r)], IndexCalls(cfg, r), s);
    AfterIndex(cfg, Stored(s, r), r);
  }

  lemma AddIsGentle(cfg: Config, s: State, r: Record, strict: bool)
    requires Storable(s, r) && r.status == Active
    ensures AllGentle(cfg, s, AddCalls(cfg, r), strict)
  {
    PutIndexIsGentle(cfg, s, r, strict);
    GraphIsGentle(cfg, Added(cfg, s, r), r, strict);
    GentleConcat(cfg, s, [Put(r)] + IndexCalls(cfg, r), GraphCalls(cfg, r), strict);
  }

  lemma QuarantineIsGentle(cfg: Config, s: State, r: Record, strict: bool)
    requires Storable(s, r)
    ensures AllGentle(cfg, s, QuarantineCalls(r), strict)
  {
    OneGentle(cfg, s, Put(r.(status := Quarantined)), strict);
  }

  /** Dropping the vector of a stored record, then retiring it. */
  lemma DropRetireIsGentle(cfg: Config, s: State, r: Record, now: Time, strict: bool)
    requires Wired(cfg, s) && r.id in s.rows && SameFact(s.rows[r.id], r)
    ensures AllGentle(cfg, s, DropCalls(cfg, r.id) + [Update(Retire(r, now))], strict)
  {
    DropIsGentle(cfg, s, r.id, strict);
    AfterDrop(cfg, s, r.id);
    OneGentle(cfg, Dropped(cfg, s, r.id), Update(Retire(r, now)), strict);
    GentleConcat(cfg, s, DropCalls(cfg, r.id), [Update(Retire(r, now))], strict);
  }

  lemma MergeIsGentle(cfg: Config, s: State, r: Record, target: Id, now: Time, strict: bool)
    requires Kept(cfg, s, strict) && r.id == s.nextId && r.AlwaysValid() && target in s.rows
    ensures AllGentle(cfg, s, MergeCalls(cfg, s, r, target, now), strict)
  {
    var next := DeriveSuccessor(r, r.id + 1, r.text, now);
    OneGentle(cfg, s, Put(next), strict);
    AfterOne(Put(next), s);
    DropRetireIsGentle(cfg, Stored(s, next), s.rows[target], now, strict);
    GentleConcat(cfg, s, [Put(next)], DropCalls(cfg, target) + [Update(Retire(s.rows[target], now))], strict);
    assert MergeCalls(cfg, s, r, target, now)
        == [Put(next)] + (DropCalls(cfg, target) + [Update(Retire(s.rows[target], now))]);
  }

  lemma ReviseIsGentle(cfg: Config, s: State, step: Step, strict: bool)
    requires Kept(cfg, s, strict) && step.Revise? && step.id in s.rows
    ensures AllGentle(cfg, s, ReviseCalls(cfg, s, step), strict)
  {
    var next := Successor(s, step);
    var head := [Put(next)] + IndexCalls(cfg, next);
    var tail := DropCalls(cfg, step.id) + [Update(Retire(s.rows[step.id], step.now))];
    PutIndexIsGentle(cfg, s, next, strict);
    AddedIsWired(cfg, s, next);
    DropRetireIsGentle(cfg, Added(cfg, s, next), s.rows[step.id], step.now, strict);
    GentleConcat(cfg, s, head, tail, strict);
    assert ReviseCalls(cfg, s, step) == head + tail;
  }

  lemma AddedIsWired(cfg: Config, s: State, r: Record)
    requires Wired(cfg, s)
    ensures Wired(cfg, Added(cfg, s, r))
  {
  }

  /** A replacement closes its fact first, which is gentle only where that fact is not indexed. */
  lemma ReplaceIsGentle(cfg: Config, s: State, r: Record, closing: Id, now: Time, strict: bool)
    requires Kept(cfg, s, strict) && Storable(s, r) && r.status == Active
    requires strict && Visible(s, closing, r.scope) ==> closing !in s.index
    ensures AllGentle(cfg, s, ReplaceCalls(cfg, s, r, closing, now), strict)
  {
    if Visible(s, closing, r.scope) {
      var u := Update(Conflict.CloseWindow(s.rows[closing], now));
      ClosingIsGentle(cfg, s, closing, now, strict);
      PutIndexIsGentle(cfg, Closed(cfg, s, closing, now), r, strict);
      GentleConcat(cfg, s, [u] + DropCalls(cfg, closing), [Put(r)] + IndexCalls(cfg, r), strict);
      assert ReplaceCalls(cfg, s, r, closing, now) == ([u] + DropCalls(cfg, closing)) + ([Put(r)] + IndexCalls(cfg, r));
    } else {
      PutIndexIsGentle(cfg, s, r, strict);
      assert ReplaceCalls(cfg, s, r, closing, now) == [Put(r)] + IndexCalls(cfg, r);
    }
  }

  lemma ClosingIsGentle(cfg: Config, s: State, closing: Id, now: Time, strict: bool)
    requires WellKeyed(s.rows) && closing in s.rows && (strict ==> closing !in s.index)
    ensures var head := [Update(Conflict.CloseWindow(s.rows[closing], now))] + DropCalls(cfg, closing);
            AllGentle(cfg, s, head, strict) && After(head, s) == Closed(cfg, s, closing, now)
  {
    var u := Update(Conflict.CloseWindow(s.rows[closing], now));
    OneGentle(cfg, s, u, strict);
    AfterOne(u, s);
    DropIsGentle(cfg, Effect(u, s), closing, strict);
    GentleConcat(cfg, s, [u], DropCalls(cfg, closing), strict);
    AfterConcat([u], DropCalls(cfg, closing), s);
    AfterDrop(cfg, Effect(u, s), closing);
  }

  lemma WriteIsGentle(cfg: Config, s: State, r: Record, now: Time, facts: seq<Record>, strict: bool)
    requires Kept(cfg, s, strict) && Storable(s, r) && r.status == Active
    requires strict ==> !ClosesIndexed(cfg, s, r, facts)
    ensures AllGentle(cfg, s, WriteCalls(cfg, s, r, now, facts), strict)
  {
    AddIsGentle(cfg, s, r, strict);
    QuarantineIsGentle(cfg, s, r, strict);
    if cfg.conflict && r.subject.Some? {
      match Conflict.Verdict(cfg.negates(r.text), r, facts)
      case ReplaceExisting(closing) => ReplaceIsGentle(cfg, s, r, closing, now, strict);
      case _ =>
    }
  }

  /** The write replaces a fact that it sees and that is indexed. */
  ghost predicate ClosesIndexed(cfg: Config, s: State, r: Record, facts: seq<Record>) {
    && cfg.conflict && r.subject.Some?
    && var verdict := Conflict.Verdict(cfg.negates(r.text), r, facts);
       verdict.ReplaceExisting? && Visible(s, verdict.closing, r.scope) && verdict.closing in s.index
  }

  lemma RememberIsGentle(cfg: Config, s: State, step: Step, strict: bool)
    requires Kept(cfg, s, strict) && step.Remember? && Enabled(cfg, s, step) && (strict ==> !Risky(cfg, s, step))
    ensures AllGentle(cfg, s, Calls(cfg, s, step), strict)
  {
    if Accepts(cfg, step.draft.text) {
      MergeTargetIsStored(cfg, s, step);
      RememberCallsAreGentle(cfg, s, Incoming(s, step.draft, step.now), step.now, step.decision, step.facts, strict);
    }
  }

  lemma RememberCallsAreGentle(cfg: Config, s: State, r: Record, now: Time, decision: Dedup.Decision, facts: seq<Record>,
                               strict: bool)
    requires Kept(cfg, s, strict) && r.id == s.nextId && Storable(s, r) && r.status == Active
    requires decision.Merge? ==> decision.target in s.rows
    requires strict && PassesDedup(decision) ==> !ClosesIndexed(cfg, s, r, facts)
    ensures AllGentle(cfg, s, RememberCalls(cfg, s, r, now, decision, facts), strict)
  {
    match decision
    case Ignore(_) =>
    case Merge(target) => MergeIsGentle(cfg, s, r, target, now, strict);
    case Review(_) => QuarantineIsGentle(cfg, s, r, strict);
    case _ => WriteIsGentle(cfg, s, r, now, facts, strict);
  }

  /** Erasing drops the vector and the edges before the row. */
  lemma EraseIsGentle(cfg: Config, s: State, id: Id, scope: Scope, strict: bool)
    requires Wired(cfg, s)
    ensures AllGentle(cfg, s, EraseCalls(cfg, id, scope), strict)
  {
    DropIsGentle(cfg, s, id, strict);
    AfterDrop(cfg, s, id);
    DropIsGentle(cfg, Dropped(cfg, s, id), id, strict);
    GentleConcat(cfg, s, DropCalls(cfg, id), EvidenceCalls(cfg, id), strict);
    AfterConcat(DropCalls(cfg, id), EvidenceCalls(cfg, id), s);
    AfterEvidence(cfg, Dropped(cfg, s, id), id);
    OneGentle(cfg, Unlinked(cfg, Dropped(cfg, s, id), id), Delete(id, scope), strict);
    GentleConcat(cfg, s, DropCalls(cfg, id) + EvidenceCalls(cfg, id), [Delete(id, scope)], strict);
  }

  lemma {:induction false} SweepIsGentle(cfg: Config, s: State, rs: seq<Record>, scope: Scope, now: Time, strict: bool)
    requires Wired(cfg, s) && Candidates(s, rs, scope)
    ensures AllGentle(cfg, s, SweepCalls(cfg, rs, scope, now), strict)
  {
    if rs != [] {
      var n := |rs| - 1;
      SweepIsGentle(cfg, s, rs[..n], scope, now, strict);
      SweepResult(cfg, s, rs[..n], scope, now);
      var t := Swept(cfg, s, LapsedIds(rs[..n], now), ArchivableIds(rs[..n], now), now);
      FreshCandidate(s, rs, scope, now);
      SweepOneIsGentle(cfg, t, rs[n], scope, now, strict);
      GentleConcat(cfg, s, SweepCalls(cfg, rs[..n], scope, now), SweepOne(cfg, rs[n], scope, now), strict);
    }
  }

  lemma SweepOneIsGentle(cfg: Config, s: State, r: Record, scope: Scope, now: Time, strict: bool)
    requires Wired(cfg, s) && r.id in s.rows && s.rows[r.id] == r
    ensures AllGentle(cfg, s, SweepOne(cfg, r, scope, now), strict)
  {
    if Lapsed(r, now) {
      EraseIsGentle(cfg, s, r.id, scope, strict);
    } else if Archivable(r, now) {
      OneGentle(cfg, s, Update(ArchivedAt(r, now)), strict);
    }
  }

  lemma {:induction false} RemovalsAreGentle(cfg: Config, s: State, ids: seq<Id>, strict: bool)
    ensures AllGentle(cfg, s, RemoveAll(ids), strict)
  {
    if ids != [] {
      var n := |ids| - 1;
      RemovalsAreGentle(cfg, s, ids[..n], strict);
      assert RemoveAll(ids)[..n] == RemoveAll(ids[..n]);
    }
  }

  lemma {:induction false} UpsertsAreGentle(cfg: Config, s: State, rs: seq<Record>, strict: bool)
    requires cfg.vector && AreRows(s, rs) && forall r :: r in rs ==> r.status == Active
    ensures AllGentle(cfg, s, UpsertAll(cfg, rs), strict)
  {
    if rs != [] {
      var n := |rs| - 1;
      UpsertsAreGentle(cfg, s, rs[..n], strict);
      UpsertAllResult(cfg, s, rs[..n]);
      assert UpsertAll(cfg, rs)[..n] == UpsertAll(cfg, rs[..n]);
    }
  }

  lemma RepairIsGentle(cfg: Config, s: State, active: seq<Record>, ghosts: seq<Id>, strict: bool)
    requires cfg.vector && AreRows(s, active) && forall r :: r in active ==> r.status == Active
    ensures AllGentle(cfg, s, RepairCalls(cfg, s, active, ghosts), strict)
  {
    var missing := Missing(s.index, active);
    RemovalsAreGentle(cfg, s, ghosts, strict);
    RemoveAllResult(ghosts, s);
    forall i | 0 <= i < |missing| ensures missing[i].id in s.rows && s.rows[missing[i].id] == missing[i] {
      assert missing[i] in active;
    }
    UpsertsAreGentle(cfg, After(RemoveAll(ghosts), s), missing, strict);
    GentleConcat(cfg, s, RemoveAll(ghosts), UpsertAll(cfg, missing), strict);
  }

  lemma ForgetIsGentle(cfg: Config, s: State, id: Id, now: Time)
    requires WellKeyed(s.rows) && id in s.rows
    ensures AllGentle(cfg, s, ForgetCalls(cfg, s.rows[id], now), false)
  {
    var u := Update(s.rows[id].(status := Deleted, updatedAt := now));
    OneGentle(cfg, s, u, false);
    DropIsGentle(cfg, After([u], s), id, false);
    GentleConcat(cfg, s, [u], DropCalls(cfg, id), false);
    DropIsGentle(cfg, After([u] + DropCalls(cfg, id), s), id, false);
    GentleConcat(cfg, s, [u] + DropCalls(cfg, id), EvidenceCalls(cfg, id), false);
  }

  /** A purge is gentle where it deletes no row. */
  lemma PurgeIsGentle(cfg: Config, s: State, id: Id, scope: Scope, strict: bool)
    requires strict ==> !Visible(s, id, scope)
    ensures AllGentle(cfg, s, PurgeCalls(cfg, id, scope), strict)
  {
    var d := Delete(id, scope);
    OneGentle(cfg, s, d, strict);
    DropIsGentle(cfg, After([d], s), id, strict);
    GentleConcat(cfg, s, [d], DropCalls(cfg, id), strict);
    DropIsGentle(cfg, After([d] + DropCalls(cfg, id), s), id, strict);
    GentleConcat(cfg, s, [d] + DropCalls(cfg, id), EvidenceCalls(cfg, id), strict);
  }

  /** Operations that retire, bury or delete a row before what points at it. */
  ghost predicate Risky(cfg: Config, s: State, step: Step) {
    match step
    case Forget(id, scope, _) => Visible(s, id, scope) && !s.rows[id].status.Deleted?
    case Purge(id, scope) => Visible(s, id, scope)
    case Remember(draft, now, _, _, decision, facts) =>
      Accepts(cfg, draft.text) && PassesDedup(decision) && ClosesIndexed(cfg, s, Incoming(s, draft, now), facts)
    case _ => false
  }

  lemma OperationIsGentle(cfg: Config, s: State, step: Step, strict: bool)
    requires Kept(cfg, s, strict) && Enabled(cfg, s, step) && (strict ==> !Risky(cfg, s, step))
    ensures AllGentle(cfg, s, Calls(cfg, s, step), strict)
  {
    match step
    case Remember(_, _, _, _, _, _) => RememberIsGentle(cfg, s, step, strict);
    case Revise(id, scope, _, _, _, _) => if Visible(s, id, scope) { ReviseIsGentle(cfg, s, step, strict); }
    case Forget(id, scope, now) => if Risky(cfg, s, step) { ForgetIsGentle(cfg, s, id, now); }
    case Purge(id, scope) => PurgeIsGentle(cfg, s, id, scope, strict);
    case Erase(id, scope) => EraseIsGentle(cfg, s, id, scope, strict);
    case Sweep(scope, now, _, candidates) => SweepIsGentle(cfg, s, candidates, scope, now, strict);
    case Repair(_, active, ghosts) => RepairIsGentle(cfg, s, active, ghosts, strict);
    case RecallSemantic(_, ghosts) => RemovalsAreGentle(cfg, s, ghosts, strict);
    case WriteUnindexed(draft, now) => OneGentle(cfg, s, Put(Incoming(s, draft, now)), strict);
    case Idle =>
  }

  // ------------------------------------------------------------ runs and moves

  /** Whatever fails, no entry is ever stale, and no quarantined record is ever indexed. */
  lemma MoveStaysHonest(cfg: Config, s: State, m: Move)
    requires Honest(cfg, s) && Moves(cfg, s, m)
    ensures Honest(cfg, m.next)
  {
    OperationIsGentle(cfg, s, m.step, false);
    AllGentleKeeps(cfg, s, Calls(cfg, s, m.step), false, m.performed);
    DrawsStayHonest(cfg, After(Calls(cfg, s, m.step)[..m.performed], s), m.next);
  }

  lemma DrawsStayHonest(cfg: Config, s: State, t: State)
    requires UpToDraws(s, t)
    ensures Honest(cfg, s) ==> Honest(cfg, t)
    ensures Ordered(s) ==> (Agrees(cfg, s) <==> Agrees(cfg, t))
  {
    assert forall id :: IsActive(s, id) <==> IsActive(t, id);
  }

  lemma RunStaysHonest(cfg: Config, run: seq<Move>)
    requires IsRun(cfg, EMPTY, run)
    ensures Honest(cfg, Last(EMPTY, run))
    ensures var s := Last(EMPTY, run);
            forall id :: id in s.index && id in s.rows ==>
              && s.index[id].embedding == cfg.embed(s.rows[id].text) && IsOwn(cfg, s.index[id], s.rows[id])
              && s.rows[id].status != Quarantined
    decreases |run|
  {
    HonestRunIsKept(cfg, run);
    EntriesAreOwn(cfg, Last(EMPTY, run));
  }

  lemma {:induction false} HonestRunIsKept(cfg: Config, run: seq<Move>)
    requires IsRun(cfg, EMPTY, run)
    ensures Honest(cfg, Last(EMPTY, run))
    decreases |run|
  {
    if run != [] {
      HonestRunIsKept(cfg, run[..|run| - 1]);
      MoveStaysHonest(cfg, Last(EMPTY, run[..|run| - 1]), run[|run| - 1]);
    }
  }

  /** Stopped after `k` of `n` calls, nothing is left pointing at row `id`, which went with the first call. */
  ghost predicate Cleared(s: State, id: Id, k: nat, n: nat) {
    k == 0 || ((id in s.index ==> k >= 2) && ((exists e :: e in s.edges && e.evidence == id) ==> k == n))
  }

  /** The stop points that leave index and graph agreeing with the store. */
  ghost predicate StopsSafely(cfg: Config, s: State, m: Move) {
    Risky(cfg, s, m.step) ==>
      var n := 1 + |DropCalls(cfg, 0)| + |EvidenceCalls(cfg, 0)|;
      match m.step
      case Forget(id, _, _) => Cleared(s, id, m.performed, n)
      case Purge(id, _) => Cleared(s, id, m.performed, n)
      case _ => m.performed != 1
  }

  /** After `k` calls of a list that changes the row first: vector and edges go second and last, where there are any. */
  lemma RowFirstPrefix(cfg: Config, s: State, c: Call, id: Id, k: nat)
    requires Wired(cfg, s) && (c.Update? || c.Delete?)
    requires k <= 1 + |DropCalls(cfg, id)| + |EvidenceCalls(cfg, id)|
    ensures var calls := [c] + DropCalls(cfg, id) + EvidenceCalls(cfg, id);
            After(calls[..k], s) == RowFirst(s, c, id, k, |calls|)
  {
    var calls := [c] + DropCalls(cfg, id) + EvidenceCalls(cfg, id);
    var d, v := [c], [c] + DropCalls(cfg, id);
    AfterOne(c, s);
    AfterConcat(d, DropCalls(cfg, id), s);
    AfterDrop(cfg, Effect(c, s), id);
    AfterConcat(v, EvidenceCalls(cfg, id), s);
    AfterEvidence(cfg, Dropped(cfg, Effect(c, s), id), id);
    assert calls[..k] == if k == 0 then [] else if k == |calls| then calls else if k == 1 then d else v;
    WiredDrops(cfg, s, id);
  }

  lemma WiredDrops(cfg: Config, s: State, id: Id)
    requires Wired(cfg, s)
    ensures !cfg.vector ==> s.index - {id} == s.index
    ensures !cfg.graph ==> s.edges == WithoutEvidence(s.edges, id)
  {
  }

  ghost function WithoutEvidence(edges: set<Relation>, id: Id): set<Relation> {
    set e | e in edges && e.evidence != id
  }

  ghost function RowFirst(s: State, c: Call, id: Id, k: nat, n: nat): State {
    if k == 0 then s else
    Effect(c, s).(index := if k == n || k >= 2 then s.index - {id} else s.index,
                  edges := if k == n then WithoutEvidence(s.edges, id) else s.edges)
  }

  lemma BuriedAgreesIff(cfg: Config, s: State, id: Id, now: Time, k: nat)
    requires Agrees(cfg, s) && id in s.rows && k <= |ForgetCalls(cfg, s.rows[id], now)|
    ensures var calls := ForgetCalls(cfg, s.rows[id], now);
            Agrees(cfg, After(calls[..k], s)) <==> Cleared(s, id, k, |calls|)
  {
    var c := Update(s.rows[id].(status := Deleted, updatedAt := now));
    var n := |ForgetCalls(cfg, s.rows[id], now)|;
    RowFirstPrefix(cfg, s, c, id, k);
    if k > 0 {
      BuriedParts(cfg, s, id, now, RowFirst(s, c, id, k, n));
      WiredReach(cfg, s, id);
    }
  }

  /** An entry or an edge comes with a call that removes it. */
  lemma WiredReach(cfg: Config, s: State, id: Id)
    requires Wired(cfg, s)
    ensures id in s.index ==> |DropCalls(cfg, id)| == 1
    ensures (exists e :: e in s.edges && e.evidence == id) ==> |EvidenceCalls(cfg, id)| == 1
  {
  }

  /** Retiring a record while dropping its vector (and, for a tombstone, its edges). */
  lemma RetiredAgrees(cfg: Config, s: State, r: Record)
    requires Agrees(cfg, s) && r.id in s.rows && SameFact(s.rows[r.id], r) && r.status != Active
    ensures r.status != Deleted ==> Agrees(cfg, Dropped(cfg, s.(rows := s.rows[r.id := r]), r.id))
    ensures Agrees(cfg, Unlinked(cfg, Dropped(cfg, s.(rows := s.rows[r.id := r]), r.id), r.id))
  {
  }

  /** Of a state in which row `id` was buried, and entries and edges only removed under it. */
  lemma BuriedParts(cfg: Config, s: State, id: Id, now: Time, t: State)
    requires Agrees(cfg, s) && id in s.rows
    requires t.rows == s.rows[id := s.rows[id].(status := Deleted, updatedAt := now)] && t.nextId == s.nextId
    requires t.index == s.index || t.index == s.index - {id}
    requires t.edges == s.edges || t.edges == WithoutEvidence(s.edges, id)
    ensures Agrees(cfg, t) <==> id !in t.index && Unlinks(t, id)
  {
    assert forall x :: IsActive(t, x) ==> x != id && IsActive(s, x);
    if id !in t.index && Unlinks(t, id) {
      assert IndexSound(cfg, t) && GraphSound(t);
    }
  }

  lemma DeletedAgreesIff(cfg: Config, s: State, id: Id, scope: Scope, k: nat)
    requires Agrees(cfg, s) && Visible(s, id, scope) && k <= |PurgeCalls(cfg, id, scope)|
    ensures var calls := PurgeCalls(cfg, id, scope);
            Agrees(cfg, After(calls[..k], s)) <==> Cleared(s, id, k, |calls|)
  {
    var c := Delete(id, scope);
    var n := |PurgeCalls(cfg, id, scope)|;
    RowFirstPrefix(cfg, s, c, id, k);
    if k > 0 {
      DeletedParts(cfg, s, id, RowFirst(s, c, id, k, n));
      WiredReach(cfg, s, id);
    }
  }

  /** Of a state in which row `id` was deleted, and entries and edges only removed under it. */
  lemma DeletedParts(cfg: Config, s: State, id: Id, t: State)
    requires Agrees(cfg, s) && id in s.rows && t.rows == s.rows - {id} && t.nextId == s.nextId
    requires t.index == s.index || t.index == s.index - {id}
    requires t.edges == s.edges || t.edges == WithoutEvidence(s.edges, id)
    ensures Agrees(cfg, t) <==> id !in t.index && Unlinks(t, id)
  {
    assert forall x :: IsActive(t, x) ==> x != id && IsActive(s, x);
    if id !in t.index && Unlinks(t, id) {
      assert IndexSound(cfg, t) && GraphSound(t);
    }
  }

  /** A replacement whose old fact is indexed breaks agreement between its first two calls and nowhere else. */
  lemma ReplacedAgreesIff(cfg: Config, s: State, r: Record, closing: Id, now: Time, k: nat)
    requires Agrees(cfg, s) && r.id == s.nextId && Storable(s, r) && r.status == Active
    requires Visible(s, closing, r.scope) && closing in s.index && k <= |ReplaceCalls(cfg, s, r, closing, now)|
    ensures Agrees(cfg, After(ReplaceCalls(cfg, s, r, closing, now)[..k], s)) <==> k != 1
  {
    var closed := Conflict.CloseWindow(s.rows[closing], now);
    var head, tail := [Update(closed)] + DropCalls(cfg, closing), [Put(r)] + IndexCalls(cfg, r);
    var calls := ReplaceCalls(cfg, s, r, closing, now);
    assert calls == head + tail && |head| == 2;
    if k == 0 {
      assert calls[..0] == [];
    } else if k == 1 {
      assert calls[..1] == [Update(closed)];
      AfterOne(Update(closed), s);
      assert closing in After(calls[..1], s).index;
    } else {
      assert calls[..k] == head + tail[..k - 2];
      ClosedThenPutAgrees(cfg, s, r, closing, now, k - 2);
    }
  }

  /** Once the closed fact has left the index, the rest of a replacement agrees wherever it stops. */
  lemma ClosedThenPutAgrees(cfg: Config, s: State, r: Record, closing: Id, now: Time, k: nat)
    requires Agrees(cfg, s) && r.id == s.nextId && Storable(s, r) && r.status == Active && closing in s.rows
    requires k <= |[Put(r)] + IndexCalls(cfg, r)|
    ensures var head := [Update(Conflict.CloseWindow(s.rows[closing], now))] + DropCalls(cfg, closing);
            Agrees(cfg, After(head + ([Put(r)] + IndexCalls(cfg, r))[..k], s))
  {
    var head := [Update(Conflict.CloseWindow(s.rows[closing], now))] + DropCalls(cfg, closing);
    var tail, t := [Put(r)] + IndexCalls(cfg, r), Closed(cfg, s, closing, now);
    ClosingIsGentle(cfg, s, closing, now, false);
    RetiredAgrees(cfg, s, Conflict.CloseWindow(s.rows[closing], now));
    PutIndexIsGentle(cfg, t, r, true);
    AllGentleKeeps(cfg, t, tail, true, k);
    AfterConcat(head, tail[..k], s);
  }

  /**
   * Index and graph agree with the store after a move, cut short or not, if and only if it is none of these: a forget or
   * a visible purge stopped past its first call and before the call that removes an existing vector or edge; a
   * replacement stopped between closing an indexed fact and dropping its vector.
   */
  lemma MoveAgreesIff(cfg: Config, s: State, m: Move)
    requires Agrees(cfg, s) && Moves(cfg, s, m)
    ensures Agrees(cfg, m.next) <==> StopsSafely(cfg, s, m)
  {
    var t := After(Calls(cfg, s, m.step)[..m.performed], s);
    StopIsSafeIff(cfg, s, m.step, m.performed);
    MoveEvolves(cfg, s, m);
    DrawsStayHonest(cfg, t, m.next);
    assert StopsSafely(cfg, s, m) == StopsSafely(cfg, s, Move(m.step, m.performed, t));
  }

  lemma StopIsSafeIff(cfg: Config, s: State, step: Step, k: nat)
    requires Agrees(cfg, s) && Enabled(cfg, s, step) && k <= |Calls(cfg, s, step)|
    ensures var t := After(Calls(cfg, s, step)[..k], s);
            Ordered(t) && (Agrees(cfg, t) <==> StopsSafely(cfg, s, Move(step, k, t)))
  {
    OperationIsGentle(cfg, s, step, false);
    AllGentleKeeps(cfg, s, Calls(cfg, s, step), false, k);
    if Risky(cfg, s, step) {
      RiskyStopIsSafeIff(cfg, s, step, k);
    } else {
      OperationIsGentle(cfg, s, step, true);
      AllGentleKeeps(cfg, s, Calls(cfg, s, step), true, k);
    }
  }

  lemma RiskyStopIsSafeIff(cfg: Config, s: State, step: Step, k: nat)
    requires Agrees(cfg, s) && Enabled(cfg, s, step) && Risky(cfg, s, step) && k <= |Calls(cfg, s, step)|
    ensures var t := After(Calls(cfg, s, step)[..k], s);
            Agrees(cfg, t) <==> StopsSafely(cfg, s, Move(step, k, t))
  {
    match step
    case Forget(id, _, now) =>
      assert Calls(cfg, s, step) == ForgetCalls(cfg, s.rows[id], now);
      BuriedAgreesIff(cfg, s, id, now, k);
    case Purge(id, scope) => DeletedAgreesIff(cfg, s, id, scope, k);
    case Remember(draft, now, _, _, _, _) => ReplacingStopIsSafeIff(cfg, s, step, k);
  }

  lemma ReplacingStopIsSafeIff(cfg: Config, s: State, step: Step, k: nat)
    requires Agrees(cfg, s) && Enabled(cfg, s, step) && step.Remember? && Risky(cfg, s, step)
    requires k <= |Calls(cfg, s, step)|
    ensures Agrees(cfg, After(Calls(cfg, s, step)[..k], s)) <==> k != 1
  {
    var r := Incoming(s, step.draft, step.now);
    var closing := Conflict.Verdict(cfg.negates(r.text), r, step.facts).closing;
    assert Calls(cfg, s, step) == ReplaceCalls(cfg, s, r, closing, step.now);
    ReplacedAgreesIff(cfg, s, r, closing, step.now, k);
  }

  // -------------------------------------------------------- completed operations

  lemma RiskyCallCount(cfg: Config, s: State, step: Step)
    requires Wired(cfg, s) && WellKeyed(s.rows) && Enabled(cfg, s, step) && Risky(cfg, s, step)
    ensures |Calls(cfg, s, step)| >= 1
    ensures step.Remember? ==> |Calls(cfg, s, step)| >= 3
    ensures !step.Remember? ==> |Calls(cfg, s, step)| == 1 + |DropCalls(cfg, 0)| + |EvidenceCalls(cfg, 0)|
  {
  }

  /** Any completed operation leaves index and graph sound. */
  lemma CompletedAgrees(cfg: Config, s: State, m: Move)
    requires Agrees(cfg, s) && Completes(cfg, s, m)
    ensures Agrees(cfg, m.next)
  {
    MoveAgreesIff(cfg, s, m);
    if Risky(cfg, s, m.step) {
      RiskyCallCount(cfg, s, m.step);
      if !m.step.Remember? {
        WiredReach(cfg, s, m.step.id);
      }
    }
  }

  ghost predicate IsCompleteRun(cfg: Config, s0: State, run: seq<Move>)
    decreases |run|
  {
    run == [] || (IsCompleteRun(cfg, s0, run[..|run| - 1]) && Completes(cfg, Last(s0, run[..|run| - 1]), run[|run| - 1]))
  }

  /** In every failure-free run, dedup on or off: index and graph never point at anything recall must not show. */
  lemma RunAgrees(cfg: Config, run: seq<Move>)
    requires IsCompleteRun(cfg, EMPTY, run)
    ensures Agrees(cfg, Last(EMPTY, run))
    ensures var s := Last(EMPTY, run);
            && (forall id :: id in s.index ==>
                  && id in s.rows && (s.rows[id].status == Active || s.rows[id].status == Archived)
                  && s.index[id].embedding == cfg.embed(s.rows[id].text) && IsOwn(cfg, s.index[id], s.rows[id]))
            && (forall e :: e in s.edges ==> e.evidence in s.rows && s.rows[e.evidence].status != Deleted)
  {
    AgreeingRunIsKept(cfg, run);
    EntriesAreOwn(cfg, Last(EMPTY, run));
  }

  lemma {:induction false} AgreeingRunIsKept(cfg: Config, run: seq<Move>)
    requires IsCompleteRun(cfg, EMPTY, run)
    ensures Agrees(cfg, Last(EMPTY, run))
    decreases |run|
  {
    if run != [] {
      AgreeingRunIsKept(cfg, run[..|run| - 1]);
      CompletedAgrees(cfg, Last(EMPTY, run[..|run| - 1]), run[|run| - 1]);
    }
  }

  // ---------------------------------------------------- what an operation reads

  lemma SweepFacts(cfg: Config, s: State, step: Step)
    requires WellKeyed(s.rows) && step.Sweep? && Enabled(cfg, s, step)
    ensures Candidates(s, step.candidates, step.scope)
    ensures After(Calls(cfg, s, step), s)
         == Swept(cfg, s, LapsedIds(step.candidates, step.now), ArchivableIds(step.candidates, step.now), step.now)
    ensures forall id :: id in ArchivableIds(step.candidates, step.now) ==> IsActive(s, id)
  {
    SweepResult(cfg, s, step.candidates, step.scope, step.now);
  }

  lemma RepairFacts(cfg: Config, s: State, step: Step)
    requires WellKeyed(s.rows) && step.Repair? && Enabled(cfg, s, step)
    ensures AreRows(s, step.active) && IdSet(step.ghosts) == s.index.Keys - Ids(step.active)
    ensures Ids(step.active) <= s.rows.Keys
    ensures After(Calls(cfg, s, step), s) == s.(index := Repaired(cfg, s, Ids(step.active)))
    ensures forall id :: id in Ids(step.active) ==> IsActive(s, id)
  {
    RepairReads(cfg, s, step);
    GhostSet(s, step.active, step.ghosts);
    RepairResult(cfg, s, step.active, step.ghosts);
  }

  lemma RepairReads(cfg: Config, s: State, step: Step)
    requires WellKeyed(s.rows) && step.Repair? && Enabled(cfg, s, step)
    ensures AreRows(s, step.active) && forall id :: id in Ids(step.active) ==> IsActive(s, id)
  {
    forall i | 0 <= i < |step.active| ensures IsActive(s, step.active[i].id) && s.rows[step.active[i].id] == step.active[i] {
      assert Matches(cfg.kw, step.active[i], REPAIR_QUERY, step.clock);
    }
  }

  lemma GhostSet(s: State, active: seq<Record>, ghosts: seq<Id>)
    requires forall i :: 0 <= i < |ghosts| ==> ghosts[i] in s.index.Keys - Ids(active)
    requires forall id :: id in s.index.Keys - Ids(active) ==> id in ghosts
    ensures IdSet(ghosts) == s.index.Keys - Ids(active)
  {
  }
}
