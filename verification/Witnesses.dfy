/** Inputs on which the guarantees stop: runs from the empty engine that reach the failing side of each condition. */
module Witnesses {
  import opened Domain
  import opened Machine
  import opened Evolution
  import opened Outcomes
  import opened Safety
  import opened Agreement
  import opened Completeness
  import opened Reconcile
  import opened Uniqueness
  import Dedup
  import Stores
  import Sorting

  /** A run of whole operations, one step longer. */
  lemma Extend(cfg: Config, run: seq<Move>, step: Step) returns (longer: seq<Move>)
    requires IsCompleteRun(cfg, EMPTY, run) && WellKeyed(Last(EMPTY, run).rows) && Enabled(cfg, Last(EMPTY, run), step)
    ensures IsCompleteRun(cfg, EMPTY, longer)
    ensures Last(EMPTY, longer) == After(Calls(cfg, Last(EMPTY, run), step), Last(EMPTY, run))
    ensures |longer| == |run| + 1 && longer[|run|].step == step && Completes(cfg, Last(EMPTY, run), longer[|run|])
  {
    var m := WholeMove(cfg, Last(EMPTY, run), step);
    longer := run + [m];
    assert longer[..|run|] == run;
  }

  lemma WholeMove(cfg: Config, s: State, step: Step) returns (m: Move)
    requires WellKeyed(s.rows) && Enabled(cfg, s, step)
    ensures Completes(cfg, s, m) && m.step == step && m.next == After(Calls(cfg, s, step), s)
  {
    var calls := Calls(cfg, s, step);
    m := Move(step, |calls|, After(calls, s));
    assert calls[..|calls|] == calls;
  }

  lemma {:induction false} CompleteRunIsRun(cfg: Config, run: seq<Move>)
    requires IsCompleteRun(cfg, EMPTY, run)
    ensures IsRun(cfg, EMPTY, run) && Ordered(Last(EMPTY, run))
    decreases |run|
  {
    if run != [] {
      CompleteRunIsRun(cfg, run[..|run| - 1]);
      MoveEvolves(cfg, Last(EMPTY, run[..|run| - 1]), run[|run| - 1]);
    }
  }

  /** An engine without deduplication, and a draft it takes. */
  ghost predicate Takes(cfg: Config, draft: Draft) { !cfg.dedup && Accepts(cfg, draft.text) }

  /** The state with the draft stored, indexed and linked. */
  ghost function WithDraft(cfg: Config, s: State, draft: Draft, now: Time): State {
    var r := Incoming(s, draft, now);
    Added(cfg, s, r).(edges := s.edges + EdgesOf(cfg, r))
  }

  /** What remembering a first fact, or one without a subject, adds to the state. */
  lemma RememberOne(cfg: Config, run: seq<Move>, draft: Draft, now: Time) returns (longer: seq<Move>)
    requires Takes(cfg, draft) && IsCompleteRun(cfg, EMPTY, run)
    requires draft.subject.None? || Last(EMPTY, run).rows == map[]
    ensures IsCompleteRun(cfg, EMPTY, longer) && Last(EMPTY, longer) == WithDraft(cfg, Last(EMPTY, run), draft, now)
  {
    var s := Last(EMPTY, run);
    CompleteRunIsRun(cfg, run);
    var step := Remember(draft, now, [], [], Dedup.Add, []);
    longer := Extend(cfg, run, step);
    AddResult(cfg, s, Incoming(s, draft, now));
  }

  /** Updating one record twice leaves two live facts about one subject. */
  lemma TwoLiveFacts(cfg: Config, draft: Draft, text: string, now: Time) returns (run: seq<Move>)
    requires Takes(cfg, draft) && draft.subject.Some? && !cfg.kw.blank(text)
    ensures IsCompleteRun(cfg, EMPTY, run) && !OneFact(Last(EMPTY, run))
  {
    var step := Revise(0, ANYWHERE, text, None, None, now);
    run := RememberOne(cfg, [], draft, now);
    run := ReviseOnce(cfg, run, step);
    if OneFact(Last(EMPTY, run)) {
      var s := Last(EMPTY, run);
      CompleteRunIsRun(cfg, run);
      ReviseIsUniqueIff(cfg, s, step);
      run := Extend(cfg, run, step);
    }
  }

  /** After the first update the successor is live under the key of the record it retired. */
  lemma ReviseOnce(cfg: Config, run: seq<Move>, step: Step) returns (longer: seq<Move>)
    requires IsCompleteRun(cfg, EMPTY, run) && step.Revise? && !cfg.kw.blank(step.text)
    requires var s := Last(EMPTY, run); Visible(s, step.id, step.scope) && s.rows[step.id].subject.Some?
    ensures IsCompleteRun(cfg, EMPTY, longer)
    ensures var t := Last(EMPTY, longer);
            Visible(t, step.id, step.scope) && !IsActive(t, step.id) && !KeyIsFree(t, t.rows[step.id])
  {
    var s := Last(EMPTY, run);
    CompleteRunIsRun(cfg, run);
    longer := Extend(cfg, run, step);
    ReviseRows(cfg, s, step);
    RetiredKeyIsTaken(s, step, Last(EMPTY, longer));
  }

  lemma RetiredKeyIsTaken(s: State, step: Step, t: State)
    requires Ordered(s) && step.Revise? && step.id in s.rows && s.rows[step.id].subject.Some?
    requires t.rows == s.rows[step.id := Retire(s.rows[step.id], step.now)][s.nextId := Successor(s, step)]
    ensures step.id in t.rows && !IsActive(t, step.id) && !KeyIsFree(t, t.rows[step.id])
  {
    assert IsActive(t, s.nextId) && SameKey(t.rows[step.id], t.rows[s.nextId]);
  }

  /** A purge stopped after its first call strands the vector of the record it deleted. */
  lemma StrandedVector(cfg: Config, draft: Draft, now: Time) returns (run: seq<Move>)
    requires Takes(cfg, draft) && cfg.vector && cfg.embedder
    ensures IsRun(cfg, EMPTY, run) && !RowsBehind(Last(EMPTY, run))
  {
    var first := RememberOne(cfg, [], draft, now);
    var s := Last(EMPTY, first);
    CompleteRunIsRun(cfg, first);
    RunKeepsRowsOnce(cfg, first);
    PurgeStrandsIff(cfg, s, 0, ANYWHERE, 1);
    var m := Move(Purge(0, ANYWHERE), 1, After(PurgeCalls(cfg, 0, ANYWHERE)[..1], s));
    run := first + [m];
    assert run[..|first|] == first;
  }

  lemma RunKeepsRowsOnce(cfg: Config, run: seq<Move>)
    requires IsCompleteRun(cfg, EMPTY, run)
    ensures RowsBehind(Last(EMPTY, run))
  {
    RunAgrees(cfg, run);
  }

  /** A forget stopped after its first call leaves its tombstone indexed. */
  lemma IndexedTombstone(cfg: Config, draft: Draft, now: Time) returns (run: seq<Move>)
    requires Takes(cfg, draft) && cfg.vector && cfg.embedder
    ensures IsRun(cfg, EMPTY, run) && !Agrees(cfg, Last(EMPTY, run))
  {
    var first := RememberOne(cfg, [], draft, now);
    var s := Last(EMPTY, first);
    CompleteRunIsRun(cfg, first);
    RunAgrees(cfg, first);
    var m := Move(Forget(0, ANYWHERE, now), 1, After(ForgetCalls(cfg, s.rows[0], now)[..1], s));
    run := first + [m];
    assert run[..|first|] == first;
    MoveAgreesIff(cfg, s, m);
  }

  /** Recall pinned to one organization drops the live vector of another. */
  lemma DroppedForeignVector(cfg: Config, draft: Draft, now: Time, org: string, other: string) returns (run: seq<Move>)
    requires Takes(cfg, draft) && cfg.vector && cfg.embedder && draft.scope == ANYWHERE.(organization := Some(org))
    requires org != other
    ensures IsCompleteRun(cfg, EMPTY, run) && !IndexComplete(Last(EMPTY, run))
  {
    run := RememberOne(cfg, [], draft, now);
    var s := Last(EMPTY, run);
    CompleteRunIsRun(cfg, run);
    RunAgrees(cfg, run);
    var scope := ANYWHERE.(organization := Some(other));
    FilterIsScope(scope, draft.scope);
    RemoveAllResult([0], s);
    run := Extend(cfg, run, RecallSemantic(scope, [0]));
    assert IsActive(Last(EMPTY, run), 0) && 0 !in Last(EMPTY, run).index;
  }

  // --------------------------------------------------------- more than a thousand

  /** Exactly the identifiers below `n` are stored, all active and with the retention of one draft. */
  ghost predicate Crowded(s: State, draft: Draft, n: nat) {
    && s.nextId == n && (forall id: Id :: id in s.rows <==> id < n)
    && forall id: Id :: id < n ==> IsActive(s, id) && s.rows[id].retention == draft.retention
  }

  lemma {:induction false} Crowd(cfg: Config, draft: Draft, now: Time, n: nat) returns (run: seq<Move>)
    requires Takes(cfg, draft) && draft.subject.None?
    ensures IsCompleteRun(cfg, EMPTY, run) && Crowded(Last(EMPTY, run), draft, n)
  {
    if n == 0 {
      run := [];
    } else {
      var before := Crowd(cfg, draft, now, n - 1);
      run := RememberOne(cfg, before, draft, now);
      OneMore(Last(EMPTY, before), Last(EMPTY, run), Incoming(Last(EMPTY, before), draft, now), draft, n);
    }
  }

  lemma OneMore(s: State, t: State, r: Record, draft: Draft, n: nat)
    requires n > 0 && Crowded(s, draft, n - 1) && r.id == n - 1 && r.status == Active && r.retention == draft.retention
    requires t.rows == s.rows[r.id := r] && t.nextId == n
    ensures Crowded(t, draft, n)
  {
    forall id: Id | id < n ensures IsActive(t, id) && t.rows[id].retention == draft.retention {
      assert id < n - 1 ==> IsActive(s, id);
    }
  }

  lemma {:induction false} Below(n: nat) returns (ids: set<Id>)
    ensures |ids| == n && forall id: Id :: id in ids <==> id < n
  {
    if n == 0 {
      ids := {};
    } else {
      var fewer := Below(n - 1);
      ids := fewer + {n - 1};
    }
  }

  lemma {:induction false} Listing(ids: set<Id>) returns (order: seq<Id>)
    ensures forall id :: id in order <==> id in ids
    ensures forall i, j :: 0 <= i < j < |order| ==> order[i] != order[j]
    decreases ids
  {
    if ids == {} {
      order := [];
    } else {
      var id :| id in ids;
      var rest := Listing(ids - {id});
      order := rest + [id];
    }
  }

  /** Every query has an answer. */
  lemma SomeAnswer(kw: Keywords, rows: Rows, q: Query, clock: Time) returns (hits: seq<Record>)
    requires WellKeyed(rows)
    ensures IsAnswer(kw, rows, q, clock, hits)
  {
    var order := Listing(Matching(kw, rows, q, clock));
    assert forall i :: 0 <= i < |order| ==> order[i] in order;
    var all := seq(|order|, i requires 0 <= i < |order| && order[i] in rows => rows[order[i]]);
    assert Ids(all) == Matching(kw, rows, q, clock) by {
      forall id | id in Matching(kw, rows, q, clock) ensures id in Ids(all) {
        var i :| 0 <= i < |order| && order[i] == id;
        assert all[i].id == id;
      }
    }
    Stores.TopIsAnswer(kw, rows, q, clock, all);
    hits := Sorting.Top(Newer, all, q.limit);
  }

  /** Repair can always be started. */
  lemma RepairStep(cfg: Config, s: State, now: Time) returns (step: Step)
    requires WellKeyed(s.rows) && cfg.vector && cfg.embedder
    ensures step.Repair? && step.clock == now && Enabled(cfg, s, step)
  {
    var active := SomeAnswer(cfg.kw, s.rows, REPAIR_QUERY, now);
    var ghosts := Listing(s.index.Keys - Ids(active));
    step := Repair(now, active, ghosts);
    assert forall i :: 0 <= i < |ghosts| ==> ghosts[i] in ghosts;
  }

  /** With more than a thousand active records repair leaves some of them outside the index. */
  lemma RepairFallsShort(cfg: Config, draft: Draft, now: Time, n: nat) returns (run: seq<Move>)
    requires n > 1_000 && Takes(cfg, draft) && draft.subject.None? && cfg.vector && cfg.embedder
    ensures IsCompleteRun(cfg, EMPTY, run) && !IndexComplete(Last(EMPTY, run))
  {
    run := Crowd(cfg, draft, now, n);
    var s := Last(EMPTY, run);
    RunAgrees(cfg, run);
    var step := RepairStep(cfg, s, now);
    CrowdIsActive(cfg, s, draft, now, n);
    RepairIsCompleteIff(cfg, s, step);
    run := Extend(cfg, run, step);
  }

  lemma CrowdIsActive(cfg: Config, s: State, draft: Draft, now: Time, n: nat)
    requires Crowded(s, draft, n) && ActiveIsOpen(s)
    ensures |ActiveNow(cfg, s, now)| == n
  {
    var ids := Below(n);
    ActiveNowIsActive(cfg, s, now);
    assert forall id: Id :: IsActive(s, id) ==> id in s.rows;
    assert ActiveNow(cfg, s, now) == ids;
  }

  /** With more than a thousand lapsed records a completed sweep leaves some of them stored. */
  lemma SweepFallsShort(cfg: Config, draft: Draft, now: Time, n: nat) returns (run: seq<Move>)
    requires n > 1_000 && Takes(cfg, draft) && draft.subject.None?
    requires draft.retention.class_.Ephemeral? && draft.retention.expiresAt == Some(now)
    ensures IsCompleteRun(cfg, EMPTY, run) && EndsShort(run)
  {
    run := Crowd(cfg, draft, now, n);
    var s := Last(EMPTY, run);
    RunAgrees(cfg, run);
    var candidates := SomeAnswer(cfg.kw, s.rows, SweepQuery(ANYWHERE), now);
    run := Extend(cfg, run, Sweep(ANYWHERE, now, now, candidates));
    SomeAreLeft(cfg, s, run[|run| - 1], draft, n);
  }

  ghost predicate EndsShort(run: seq<Move>) { run != [] && FallsShort(run[|run| - 1]) }

  /** A sweep of everything after which a lapsed record is still stored. */
  ghost predicate FallsShort(m: Move) {
    m.step.Sweep? && m.step.scope == ANYWHERE && exists id :: id in m.next.rows && Lapsed(m.next.rows[id], m.step.now)
  }

  lemma SomeAreLeft(cfg: Config, s: State, m: Move, draft: Draft, n: nat)
    requires Crowded(s, draft, n) && n > 1_000 && Completes(cfg, s, m) && m.step.Sweep? && m.step.scope == ANYWHERE
    requires draft.retention.class_.Ephemeral? && draft.retention.expiresAt == Some(m.step.now)
    ensures FallsShort(m)
  {
    var ids := Below(n);
    var read := Ids(m.step.candidates);
    SweepActs(cfg, s, m);
    IdsCount(m.step.candidates);
    assert |ids| > |read|;
    LeftOver(ids, read);
    var id: Id :| id in ids && id !in read;
    assert id in m.next.rows && m.next.rows[id].retention == s.rows[id].retention;
  }

  lemma LeftOver<T>(a: set<T>, b: set<T>)
    requires |a| > |b|
    ensures exists x :: x in a && x !in b
  {
    assert a == a * b + (a - b) && b == a * b + (b - a);
    assert |a| == |a * b| + |a - b| && |b| == |a * b| + |b - a|;
    var x :| x in a - b;
  }
}
