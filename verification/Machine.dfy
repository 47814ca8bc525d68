/**
 * The engine as a state machine over the canonical store, the vector index and the entity graph.
 *
 * An engine operation reads first and then issues a fixed list of provider calls. Any call may fail, before or
 * after it took effect, and a failed call ends the operation: a run that goes wrong performs a prefix of the list.
 */
module Machine {
  import opened Domain
  import Fingerprint
  import Dedup
  import Conflict

  /** Embedders have at least one dimension, so an upsert is never refused for an empty embedding. */
  type Embedding = v: seq<real> | v != [] witness [0.0]

  /** The scope dimensions mirrored into vector metadata. The organization is not among them. */
  datatype Dim = TenantId | WorkspaceId | UserId | AgentId | SessionId | TaskId

  type Metadata = map<Dim, string>

  datatype VectorRecord = VectorRecord(embedding: Embedding, metadata: Metadata)

  datatype Triple = Triple(from: string, kind: string, to: string)

  datatype Relation = Relation(evidence: Id, triple: Triple)

  /** What is attached and enabled, and the tables the engine consults. */
  datatype Config = Config(
    dedup: bool,
    conflict: bool,
    vector: bool,
    embedder: bool,
    graph: bool,
    maxChars: nat,
    kw: Keywords,
    ct: Fingerprint.CharTable,
    embed: string -> Embedding,
    similarity: (Embedding, Embedding) -> real,
    negates: string -> bool,
    relations: (string, string) -> seq<Triple>)

  datatype State = State(rows: Rows, index: map<Id, VectorRecord>, edges: set<Relation>, nextId: Id)

  const EMPTY := State(map[], map[], {}, 0)

  // ------------------------------------------------------------ scope filter

  function Pinned(s: Scope, d: Dim): Option<string> {
    match d
    case TenantId => s.tenant
    case WorkspaceId => s.workspace
    case UserId => s.user
    case AgentId => s.agent
    case SessionId => s.session
    case TaskId => s.task
  }

  /** The metadata mirror of a scope: its pinned dimensions, the organization excepted. */
  function ScopeFilter(s: Scope): Metadata {
    map d: Dim | Pinned(s, d).Some? :: Pinned(s, d).value
  }

  predicate FilterMatches(filter: Metadata, metadata: Metadata) {
    forall k :: k in filter ==> k in metadata && metadata[k] == filter[k]
  }

  function VectorOf(cfg: Config, r: Record): VectorRecord { VectorRecord(cfg.embed(r.text), ScopeFilter(r.scope)) }

  // ---------------------------------------------------------- provider calls

  datatype Call =
    | Put(record: Record)
    | Update(record: Record)
    | Delete(id: Id, scope: Scope)
    | Upsert(id: Id, vector: VectorRecord)
    | RemoveVector(id: Id)
    | AddEdge(edge: Relation)
    | RemoveEvidence(id: Id)

  function Effect(c: Call, s: State): State {
    match c
    case Put(r) => s.(rows := s.rows[r.id := r], nextId := if r.id < s.nextId then s.nextId else r.id + 1)
    case Update(r) => if r.id in s.rows then s.(rows := s.rows[r.id := r]) else s
    case Delete(id, scope) =>
      if id in s.rows && scope.Contains(s.rows[id].scope) then s.(rows := s.rows - {id}) else s
    case Upsert(id, v) => s.(index := s.index[id := v])
    case RemoveVector(id) => s.(index := s.index - {id})
    case AddEdge(e) => s.(edges := s.edges + {e})
    case RemoveEvidence(id) => s.(edges := set e | e in s.edges && e.evidence != id)
  }

  /** The state after a list of calls. */
  function After(calls: seq<Call>, s: State): State
    decreases |calls|
  {
    if calls == [] then s else Effect(calls[|calls| - 1], After(calls[..|calls| - 1], s))
  }

  lemma AfterSnoc(calls: seq<Call>, c: Call, s: State)
    ensures After(calls + [c], s) == Effect(c, After(calls, s))
  {
    assert (calls + [c])[..|calls|] == calls;
  }

  lemma {:induction false} AfterConcat(a: seq<Call>, b: seq<Call>, s: State)
    ensures After(a + b, s) == After(b, After(a, s))
    decreases |b|
  {
    if b == [] {
      assert a + b == a;
    } else {
      var n := |b| - 1;
      AfterConcat(a, b[..n], s);
      assert a + b == (a + b[..n]) + [b[n]];
      AfterSnoc(a + b[..n], b[n], s);
    }
  }

  lemma AfterOne(c: Call, s: State)
    ensures After([c], s) == Effect(c, s)
  {
    assert [c][..0] == [];
  }

  // -------------------------------------------------------------- operations

  /**
   * One engine operation together with everything it read: the query answers, the dedup decision, and the order in
   * which it went through a set. Idle is an operation that ended before its first provider call.
   */
  datatype Step =
    | Remember(draft: Draft, now: Time, cands: seq<Record>, sims: seq<real>, decision: Dedup.Decision, facts: seq<Record>)
    | Revise(id: Id, scope: Scope, text: string, confidence: Option<real>, importance: Option<real>, now: Time)
    | Forget(id: Id, scope: Scope, now: Time)
    | Purge(id: Id, scope: Scope)
    | Erase(id: Id, scope: Scope)
    | Sweep(scope: Scope, now: Time, clock: Time, candidates: seq<Record>)
    | Repair(clock: Time, active: seq<Record>, ghosts: seq<Id>)
    | RecallSemantic(scope: Scope, ghosts: seq<Id>)
    | WriteUnindexed(draft: Draft, now: Time)
    | Idle

  function DedupQuery(r: Record): Query { Query(r.scope, [r.memoryType], [Active], None, None, None, 20) }

  function ConflictQuery(r: Record): Query { Query(r.scope, [r.memoryType], [Active], r.subject, None, None, 5) }

  function SweepQuery(scope: Scope): Query { Query(scope, [], ALL_STATUSES, None, None, None, 1_000) }

  const REPAIR_QUERY := Query(ANYWHERE, [], [Active], None, None, None, 1_000)

  predicate Accepts(cfg: Config, text: string) { !cfg.kw.blank(text) && |text| <= cfg.maxChars }

  /** The record a remember builds; its identifier is the next one drawn. */
  function Incoming(s: State, d: Draft, now: Time): Record { IntoRecord(d, s.nextId, now) }

  /** The write went past deduplication. */
  predicate PassesDedup(d: Dedup.Decision) { d.Add? || d.Link? }

  ghost predicate Enabled(cfg: Config, s: State, step: Step) {
    match step
    case Remember(draft, now, cands, sims, decision, facts) =>
      var r := Incoming(s, draft, now);
      && (if cfg.dedup then
            && |cands| == |sims|
            && IsAnswer(cfg.kw, s.rows, DedupQuery(r), now, cands)
            && Dedup.Decides(cfg.ct, r, cands, sims, now, decision)
          else decision == Dedup.Add)
      && (PassesDedup(decision) && cfg.conflict && r.subject.Some? ==>
            IsAnswer(cfg.kw, s.rows, ConflictQuery(r), now, facts))
    case Sweep(scope, now, clock, candidates) => IsAnswer(cfg.kw, s.rows, SweepQuery(scope), clock, candidates)
    case Repair(clock, active, ghosts) =>
      && cfg.vector && cfg.embedder
      && IsAnswer(cfg.kw, s.rows, REPAIR_QUERY, clock, active)
      && (forall i :: 0 <= i < |ghosts| ==> ghosts[i] in s.index.Keys - Ids(active))
      && (forall id :: id in s.index.Keys - Ids(active) ==> id in ghosts)
      && (forall i, j :: 0 <= i < j < |ghosts| ==> ghosts[i] != ghosts[j])
    case RecallSemantic(scope, ghosts) =>
      forall i :: 0 <= i < |ghosts| ==>
        && ghosts[i] in s.index
        && FilterMatches(ScopeFilter(scope), s.index[ghosts[i]].metadata)
        && !Visible(s, ghosts[i], scope)
    case _ => true
  }

  predicate Visible(s: State, id: Id, scope: Scope) { id in s.rows && scope.Contains(s.rows[id].scope) }

  function IndexCalls(cfg: Config, r: Record): seq<Call> {
    if cfg.vector && cfg.embedder then [Upsert(r.id, VectorOf(cfg, r))] else []
  }

  function DropCalls(cfg: Config, id: Id): seq<Call> { if cfg.vector then [RemoveVector(id)] else [] }

  function EvidenceCalls(cfg: Config, id: Id): seq<Call> { if cfg.graph then [RemoveEvidence(id)] else [] }

  function EdgeCalls(id: Id, triples: seq<Triple>): seq<Call> {
    seq(|triples|, i requires 0 <= i < |triples| => AddEdge(Relation(id, triples[i])))
  }

  function GraphCalls(cfg: Config, r: Record): seq<Call> {
    if cfg.graph && r.subject.Some? then EdgeCalls(r.id, cfg.relations(r.subject.value, r.text)) else []
  }

  function AddCalls(cfg: Config, r: Record): seq<Call> { [Put(r)] + IndexCalls(cfg, r) + GraphCalls(cfg, r) }

  function QuarantineCalls(r: Record): seq<Call> { [Put(r.(status := Quarantined))] }

  /** Retires the closed fact, if the caller sees it, and only then stores the incoming one. */
  function ReplaceCalls(cfg: Config, s: State, r: Record, closing: Id, now: Time): seq<Call> {
    (if Visible(s, closing, r.scope) then [Update(Conflict.CloseWindow(s.rows[closing], now))] + DropCalls(cfg, closing)
     else [])
    + [Put(r)] + IndexCalls(cfg, r)
  }

  function Retire(r: Record, now: Time): Record { r.(status := Superseded, updatedAt := now) }

  /** Merging derives the successor from the incoming record, and does not index it. */
  function MergeCalls(cfg: Config, s: State, r: Record, target: Id, now: Time): seq<Call>
    requires target in s.rows
  {
    [Put(DeriveSuccessor(r, r.id + 1, r.text, now))] + DropCalls(cfg, target) + [Update(Retire(s.rows[target], now))]
  }

  function WriteCalls(cfg: Config, s: State, r: Record, now: Time, facts: seq<Record>): seq<Call> {
    if cfg.conflict && r.subject.Some? then
      match Conflict.Verdict(cfg.negates(r.text), r, facts)
      case Write => AddCalls(cfg, r)
      case ReplaceExisting(closing) => ReplaceCalls(cfg, s, r, closing, now)
      case QuarantineIncoming => QuarantineCalls(r)
    else AddCalls(cfg, r)
  }

  function RememberCalls(cfg: Config, s: State, r: Record, now: Time, decision: Dedup.Decision, facts: seq<Record>):
    seq<Call>
    requires decision.Merge? ==> decision.target in s.rows
  {
    match decision
    case Ignore(_) => []
    case Merge(target) => MergeCalls(cfg, s, r, target, now)
    case Review(_) => QuarantineCalls(r)
    case Link(_) => WriteCalls(cfg, s, r, now, facts)
    case Add => WriteCalls(cfg, s, r, now, facts)
  }

  /** The successor an update stores for the visible record `id`. */
  function Successor(s: State, step: Step): Record
    requires step.Revise? && step.id in s.rows
  {
    var next := DeriveSuccessor(s.rows[step.id], s.nextId, step.text, step.now);
    next.(confidence := if step.confidence.Some? then Clamp(step.confidence.value) else next.confidence,
          importance := if step.importance.Some? then Clamp(step.importance.value) else next.importance)
  }

  function ReviseCalls(cfg: Config, s: State, step: Step): seq<Call>
    requires step.Revise? && step.id in s.rows
  {
    [Put(Successor(s, step))] + IndexCalls(cfg, Successor(s, step)) + DropCalls(cfg, step.id)
    + [Update(Retire(s.rows[step.id], step.now))]
  }

  function ForgetCalls(cfg: Config, r: Record, now: Time): seq<Call> {
    [Update(r.(status := Deleted, updatedAt := now))] + DropCalls(cfg, r.id) + EvidenceCalls(cfg, r.id)
  }

  function PurgeCalls(cfg: Config, id: Id, scope: Scope): seq<Call> {
    [Delete(id, scope)] + DropCalls(cfg, id) + EvidenceCalls(cfg, id)
  }

  /** Downstream indexes first, the canonical row last. */
  function EraseCalls(cfg: Config, id: Id, scope: Scope): seq<Call> {
    DropCalls(cfg, id) + EvidenceCalls(cfg, id) + [Delete(id, scope)]
  }

  const ARCHIVE_GRACE: Time := 7 * 86_400

  predicate Lapsed(r: Record, now: Time) {
    && r.retention.expiresAt.Some? && r.retention.expiresAt.value <= now
    && (r.retention.class_.Ephemeral? || r.retention.class_.Session?)
  }

  predicate Archivable(r: Record, now: Time) {
    && r.retention.expiresAt.Some? && r.retention.expiresAt.value <= now
    && r.retention.class_.Standard?
    && now >= r.retention.expiresAt.value + ARCHIVE_GRACE
    && r.status.Active?
  }

  function ArchivedAt(r: Record, now: Time): Record { r.(status := Archived, updatedAt := now) }

  function SweepOne(cfg: Config, r: Record, scope: Scope, now: Time): seq<Call> {
    if Lapsed(r, now) then EraseCalls(cfg, r.id, scope)
    else if Archivable(r, now) then [Update(ArchivedAt(r, now))]
    else []
  }

  function SweepCalls(cfg: Config, rs: seq<Record>, scope: Scope, now: Time): seq<Call>
  {
    if rs == [] then []
    else SweepCalls(cfg, rs[..|rs| - 1], scope, now) + SweepOne(cfg, rs[|rs| - 1], scope, now)
  }

  function RemoveAll(ids: seq<Id>): seq<Call> { seq(|ids|, i requires 0 <= i < |ids| => RemoveVector(ids[i])) }

  /** The active records the index has no entry for, in query order. */
  function Missing(index: map<Id, VectorRecord>, active: seq<Record>): (missing: seq<Record>)
    ensures forall r :: r in missing <==> r in active && r.id !in index
  {
    if active == [] then []
    else
      var last := active[|active| - 1];
      Missing(index, active[..|active| - 1]) + (if last.id in index then [] else [last])
  }

  function UpsertAll(cfg: Config, rs: seq<Record>): seq<Call> {
    seq(|rs|, i requires 0 <= i < |rs| => Upsert(rs[i].id, VectorOf(cfg, rs[i])))
  }

  function RepairCalls(cfg: Config, s: State, active: seq<Record>, ghosts: seq<Id>): seq<Call> {
    RemoveAll(ghosts) + UpsertAll(cfg, Missing(s.index, active))
  }

  /** The provider calls of an operation that meets no failure. */
  ghost function Calls(cfg: Config, s: State, step: Step): seq<Call>
    requires Enabled(cfg, s, step) && WellKeyed(s.rows)
  {
    match step
    case Remember(draft, now, cands, sims, decision, facts) =>
      if !Accepts(cfg, draft.text) then []
      else
        MergeTargetIsStored(cfg, s, step);
        RememberCalls(cfg, s, Incoming(s, draft, now), now, decision, facts)
    case Revise(id, scope, text, _, _, now) =>
      if cfg.kw.blank(text) || !Visible(s, id, scope) then [] else ReviseCalls(cfg, s, step)
    case Forget(id, scope, now) =>
      if !Visible(s, id, scope) || s.rows[id].status.Deleted? then [] else ForgetCalls(cfg, s.rows[id], now)
    case Purge(id, scope) => PurgeCalls(cfg, id, scope)
    case Erase(id, scope) => EraseCalls(cfg, id, scope)
    case Sweep(scope, now, _, candidates) => SweepCalls(cfg, candidates, scope, now)
    case Repair(_, active, ghosts) => RepairCalls(cfg, s, active, ghosts)
    case RecallSemantic(_, ghosts) => if cfg.vector then RemoveAll(ghosts) else []
    case WriteUnindexed(draft, now) => if Accepts(cfg, draft.text) then [Put(Incoming(s, draft, now))] else []
    case Idle => []
  }

  /** A merge retires an active stored record of the same type and subject, inside the incoming scope. */
  lemma MergeTargetIsStored(cfg: Config, s: State, step: Step)
    requires step.Remember? && Enabled(cfg, s, step)
    ensures step.decision.Merge? ==> step.decision.target in s.rows
    ensures step.decision.Merge? ==>
              var t := s.rows[step.decision.target]; var r := Incoming(s, step.draft, step.now);
              SameSubject(t, r) && t.memoryType == r.memoryType && t.status == Active && r.scope.Contains(t.scope)
  {
    if step.decision.Merge? {
      var r := Incoming(s, step.draft, step.now);
      Dedup.MergeIsAnchored(cfg.ct, r, step.cands, step.sims, step.now, step.decision.target);
    }
  }

  /** What a completed remember hands back: the duplicate it found, or the record as it was stored. */
  ghost function Reply(cfg: Config, s: State, step: Step): Record
    requires step.Remember? && Enabled(cfg, s, step)
  {
    var r := Incoming(s, step.draft, step.now);
    match step.decision
    case Ignore(target) => if target in s.rows then s.rows[target] else r
    case Merge(_) => DeriveSuccessor(r, r.id + 1, r.text, step.now)
    case Review(_) => r.(status := Quarantined)
    case _ =>
      if cfg.conflict && r.subject.Some? && Conflict.Verdict(cfg.negates(r.text), r, step.facts).QuarantineIncoming?
      then r.(status := Quarantined)
      else r
  }

  // --------------------------------------------------------------------- runs

  /** The machine takes `step`, performs `performed` of its calls, and ends in `next`. */
  datatype Move = Move(step: Step, performed: nat, next: State)

  /** `t` is `s` up to identifiers drawn and thrown away. */
  predicate UpToDraws(s: State, t: State) { t == s.(nextId := t.nextId) && s.nextId <= t.nextId }

  ghost predicate Moves(cfg: Config, s: State, m: Move)
  {
    && WellKeyed(s.rows)
    && Enabled(cfg, s, m.step)
    && m.performed <= |Calls(cfg, s, m.step)|
    && UpToDraws(After(Calls(cfg, s, m.step)[..m.performed], s), m.next)
  }

  ghost predicate Completes(cfg: Config, s: State, m: Move) {
    Moves(cfg, s, m) && m.performed == |Calls(cfg, s, m.step)|
  }

  lemma CompletedState(cfg: Config, s: State, m: Move)
    requires Completes(cfg, s, m)
    ensures UpToDraws(After(Calls(cfg, s, m.step), s), m.next)
  {
    assert Calls(cfg, s, m.step)[..m.performed] == Calls(cfg, s, m.step);
  }

  ghost function Last(s0: State, run: seq<Move>): State { if run == [] then s0 else run[|run| - 1].next }

  /** A run: any operations, each of them possibly cut short. */
  ghost predicate IsRun(cfg: Config, s0: State, run: seq<Move>)
    decreases |run|
  {
    run == [] || (IsRun(cfg, s0, run[..|run| - 1]) && Moves(cfg, Last(s0, run[..|run| - 1]), run[|run| - 1]))
  }
}
