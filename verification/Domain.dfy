/** The canonical vocabulary of the memory engine: scopes, records and queries. */
module Domain {

  datatype Option<+T> = None | Some(value: T)

  datatype Error =
    | NotFound
    | Validation
    | Unsupported
    | Storage
    | SessionNotFound
    | SessionConflict(expected: nat, actual: nat)

  datatype Result<+T> = Ok(value: T) | Err(error: Error)

  /** Identifiers are drawn from a counter, in the order a time-ordered UUID is generated. */
  type Id = nat

  /** Instants and durations, in seconds. */
  type Time = int

  // ---------------------------------------------------------------- scopes

  /** Partition keys; an unset dimension of a query scope is a wildcard. */
  datatype Scope = Scope(
    tenant: Option<string>,
    organization: Option<string>,
    workspace: Option<string>,
    user: Option<string>,
    agent: Option<string>,
    session: Option<string>,
    task: Option<string>)
  {
    predicate Contains(candidate: Scope) {
      && DimMatches(tenant, candidate.tenant)
      && DimMatches(organization, candidate.organization)
      && DimMatches(workspace, candidate.workspace)
      && DimMatches(user, candidate.user)
      && DimMatches(agent, candidate.agent)
      && DimMatches(session, candidate.session)
      && DimMatches(task, candidate.task)
    }

    /** Narrows this scope with the pins of `other`; contradicting pins give None. */
    function Intersect(other: Scope): Option<Scope> {
      match (Reconcile(tenant, other.tenant), Reconcile(organization, other.organization),
             Reconcile(workspace, other.workspace), Reconcile(user, other.user),
             Reconcile(agent, other.agent), Reconcile(session, other.session), Reconcile(task, other.task))
      case (Some(t), Some(o), Some(w), Some(u), Some(a), Some(s), Some(k)) => Some(Scope(t, o, w, u, a, s, k))
      case _ => None
    }
  }

  predicate DimMatches(expected: Option<string>, actual: Option<string>) {
    expected.None? || actual == expected
  }

  function Reconcile(a: Option<string>, b: Option<string>): Option<Option<string>> {
    if a.None? then Some(b)
    else if b.None? then Some(a)
    else if a == b then Some(a)
    else None
  }

  const ANYWHERE := Scope(None, None, None, None, None, None, None)

  // --------------------------------------------------------------- records

  datatype MemoryType = Working | Episodic | Semantic | Procedural | Prospective

  datatype Status = Active | Superseded | Quarantined | Archived | Deleted
  {
    predicate Retrievable() { Active? || Archived? }
  }

  const ALL_STATUSES := [Active, Superseded, Quarantined, Archived, Deleted]

  datatype SourceKind = User | Agent | System | Tool | External
  {
    function Authority(): real {
      match this
      case User => 0.9
      case External => 0.8
      case Tool => 0.7
      case System => 0.6
      case Agent => 0.5
    }
  }

  datatype RetentionClass = Ephemeral | Session | Standard | Permanent

  datatype Retention = Retention(class_: RetentionClass, expiresAt: Option<Time>)

  /** The single canonical representation. `subject` is the subject's canonical key. */
  datatype Record = Record(
    id: Id,
    memoryType: MemoryType,
    subtype: Option<string>,
    scope: Scope,
    subject: Option<string>,
    text: string,
    confidence: real,
    importance: real,
    validFrom: Option<Time>,
    validTo: Option<Time>,
    status: Status,
    version: nat,
    supersedes: Option<Id>,
    source: SourceKind,
    retention: Retention,
    createdAt: Time,
    updatedAt: Time)
  {
    /** The validity window is closed-open. */
    predicate HoldsAt(at: Time) {
      && (validFrom.None? || validFrom.value <= at)
      && (validTo.None? || at < validTo.value)
    }

    predicate HasEnded(now: Time) { validTo.Some? && validTo.value <= now }

    predicate ValidAt(at: Time) { status.Retrievable() && HoldsAt(at) }

    predicate AlwaysValid() { validFrom.None? && validTo.None? }
  }

  /** `x`, or the end of the unit interval that is nearest to it. */
  function Clamp(x: real): (c: real)
    ensures 0.0 <= c <= 1.0 && (c < x ==> c == 1.0) && (c > x ==> c == 0.0)
  { 
    if x < 0.0 then 0.0 else if x > 1.0 then 1.0 else x
  }

  /** A new active record with neutral defaults. */
  function NewRecord(id: Id, memoryType: MemoryType, text: string, now: Time): Record {
    Record(id, memoryType, None, ANYWHERE, None, text, 0.5, 0.5, None, None, Active, 1, None, Agent,
           Retention(Standard, None), now, now)
  }

  /** The successor of `r`: fresh identity, inherited placement, pointing back at `r`. */
  function DeriveSuccessor(r: Record, id: Id, text: string, now: Time): Record {
    NewRecord(id, r.memoryType, text, now).(
      scope := r.scope, subtype := r.subtype, subject := r.subject, confidence := r.confidence,
      importance := r.importance, retention := r.retention, supersedes := Some(r.id))
  }

  /** What a caller states about a new memory; the engine adds identity and stamps. */
  datatype Draft = Draft(
    memoryType: MemoryType,
    text: string,
    subtype: Option<string>,
    scope: Scope,
    subject: Option<string>,
    confidence: real,
    importance: real,
    retention: Retention,
    source: SourceKind)

  function IntoRecord(d: Draft, id: Id, now: Time): Record {
    NewRecord(id, d.memoryType, d.text, now).(
      scope := d.scope, confidence := Clamp(d.confidence), importance := Clamp(d.importance),
      retention := d.retention, subtype := d.subtype, subject := d.subject, source := d.source)
  }

  predicate SameSubject(a: Record, b: Record) { a.subject.Some? && a.subject == b.subject }

  /** `r` after a status change: what the record states is untouched. */
  ghost predicate SameFact(r: Record, r': Record) {
    r' == r.(status := r'.status, updatedAt := r'.updatedAt, validTo := r'.validTo)
  }

  // --------------------------------------------------------------- queries

  const MAX_QUERY_LIMIT: nat := 1_000

  datatype Query = Query(
    scope: Scope,
    types: seq<MemoryType>,
    statuses: seq<Status>,
    subject: Option<string>,
    text: Option<string>,
    validAt: Option<Time>,
    limit: nat)

  /** How a keyword needle is tested: blank needles are rejected, the rest looked up in the text. */
  datatype Keywords = Keywords(blank: string -> bool, mentions: (string, string) -> bool)

  predicate ValidQuery(kw: Keywords, q: Query) {
    0 < q.limit <= MAX_QUERY_LIMIT && (q.text.Some? ==> !kw.blank(q.text.value))
  }

  /** True when `r` satisfies every constraint of `q` on a wall clock showing `clock`. */
  predicate Matches(kw: Keywords, r: Record, q: Query, clock: Time) {
    && q.scope.Contains(r.scope)
    && (q.types == [] || r.memoryType in q.types)
    && r.status in q.statuses
    && (q.subject.Some? ==> r.subject == q.subject)
    && (q.text.Some? ==> kw.mentions(r.text, q.text.value))
    && r.HoldsAt(if q.validAt.Some? then q.validAt.value else clock)
  }

  type Rows = map<Id, Record>

  ghost predicate WellKeyed(rows: Rows) { forall id :: id in rows ==> rows[id].id == id }

  ghost function Matching(kw: Keywords, rows: Rows, q: Query, clock: Time): set<Id> {
    set id | id in rows && Matches(kw, rows[id], q, clock)
  }

  predicate Newer(a: Record, b: Record) { a.createdAt >= b.createdAt }

  function Ids(rs: seq<Record>): (ids: set<Id>)
    ensures forall id :: id in ids <==> exists i :: 0 <= i < |rs| && rs[i].id == id
  {
    set i | 0 <= i < |rs| :: rs[i].id
  }

  ghost predicate DistinctIds(rs: seq<Record>) {
    forall i, j :: 0 <= i < j < |rs| ==> rs[i].id != rs[j].id
  }

  /**
   * `hits` is an answer to `q`: matching rows, once each, newest first, cut at the limit.
   * Rows with equal stamps come in any order, as they do from a hash map.
   */
  ghost predicate IsAnswer(kw: Keywords, rows: Rows, q: Query, clock: Time, hits: seq<Record>) {
    && (forall i :: 0 <= i < |hits| ==> hits[i].id in rows && rows[hits[i].id] == hits[i] && Matches(kw, hits[i], q, clock))
    && DistinctIds(hits)
    && (forall i, j :: 0 <= i < j < |hits| ==> Newer(hits[i], hits[j]))
    && |hits| <= q.limit
    && (forall id :: id in Matching(kw, rows, q, clock) && id !in Ids(hits) ==>
          |hits| == q.limit && forall i :: 0 <= i < |hits| ==> Newer(hits[i], rows[id]))
  }

  lemma IdsCount(rs: seq<Record>)
    requires DistinctIds(rs)
    ensures |Ids(rs)| == |rs|
  {
    if rs == [] {
      assert Ids(rs) == {};
    } else {
      var n := |rs| - 1;
      IdsCount(rs[..n]);
      assert Ids(rs) == Ids(rs[..n]) + {rs[n].id};
    }
  }

  /**
   * Every record of an answer meets each constraint of the query, its window holding at the instant asked for or else at
   * the clock; a stored record that does and is left out is no newer than any of `limit` records that are there.
   */
  lemma AnswerFields(kw: Keywords, rows: Rows, q: Query, clock: Time, hits: seq<Record>, id: Id)
    requires IsAnswer(kw, rows, q, clock, hits) && WellKeyed(rows) && id in rows
    ensures var (r, at) := (rows[id], if q.validAt.Some? then q.validAt.value else clock);
            var meets := && q.scope.Contains(r.scope) && (q.types == [] || r.memoryType in q.types)
                         && r.status in q.statuses
                         && (q.subject.None? || r.subject == q.subject)
                         && (q.text.None? || kw.mentions(r.text, q.text.value))
                         && (r.validFrom.None? || r.validFrom.value <= at) && (r.validTo.None? || at < r.validTo.value);
            && (r in hits ==> meets)
            && (meets && r !in hits ==>
                  |hits| == q.limit && forall i :: 0 <= i < |hits| ==> hits[i].createdAt >= r.createdAt)
  {
    var r := rows[id];
    if r in hits {
      var i :| 0 <= i < |hits| && hits[i] == r;
    } else if Matches(kw, r, q, clock) {
      assert id !in Ids(hits);
      forall i | 0 <= i < |hits| ensures Newer(hits[i], r) {
      }
    }
  }

  /** When everything that matches fits under the limit, an answer is exactly the matching rows. */
  lemma AnswerIsComplete(kw: Keywords, rows: Rows, q: Query, clock: Time, hits: seq<Record>)
    requires IsAnswer(kw, rows, q, clock, hits) && WellKeyed(rows)
    ensures Ids(hits) <= Matching(kw, rows, q, clock)
    ensures Ids(hits) == Matching(kw, rows, q, clock) <==> |Matching(kw, rows, q, clock)| <= q.limit
  {
    var m := Matching(kw, rows, q, clock);
    IdsCount(hits);
    assert Ids(hits) <= m;
    if |m| <= q.limit && exists id :: id in m && id !in Ids(hits) {
      SubsetSize(Ids(hits), m);
      assert false;
    }
  }

  lemma SubsetSize<T>(a: set<T>, b: set<T>)
    requires a < b
    ensures |a| < |b|
  {
    assert b == a + (b - a);
    assert |b| == |a| + |b - a|;
  }

  ghost predicate DistinctStamps(rows: Rows) {
    forall x, y :: x in rows && y in rows && x != y ==> rows[x].createdAt != rows[y].createdAt
  }

  /** Matching rows created after row `id`. */
  ghost function AheadOf(kw: Keywords, rows: Rows, q: Query, clock: Time, id: Id): set<Id>
    requires id in rows
  {
    set x | x in Matching(kw, rows, q, clock) && rows[x].createdAt > rows[id].createdAt
  }

  /** Over distinct stamps a matching row is in the answer if and only if fewer rows than the limit are ahead of it. */
  lemma AnswerHoldsIff(kw: Keywords, rows: Rows, q: Query, clock: Time, hits: seq<Record>, id: Id)
    requires IsAnswer(kw, rows, q, clock, hits) && WellKeyed(rows) && DistinctStamps(rows)
    requires id in Matching(kw, rows, q, clock)
    ensures id in Ids(hits) <==> |AheadOf(kw, rows, q, clock, id)| < q.limit
  {
    var ahead := AheadOf(kw, rows, q, clock, id);
    IdsCount(hits);
    if id in Ids(hits) {
      forall x | x in ahead ensures x in Ids(hits) {
        var i :| 0 <= i < |hits| && hits[i].id == id;
        assert x !in Ids(hits) ==> Newer(hits[i], rows[x]);
      }
      SubsetSize(ahead, Ids(hits));
    } else {
      forall x | x in Ids(hits) ensures x in ahead {
        var i :| 0 <= i < |hits| && hits[i].id == x;
        assert Newer(hits[i], rows[id]) && x != id;
      }
      if Ids(hits) != ahead {
        SubsetSize(Ids(hits), ahead);
      }
    }
  }
}
