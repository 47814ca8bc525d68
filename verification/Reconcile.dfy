/** The two reconciling passes: repairing the vector index, and the retention sweep. */
module Reconcile {
  import opened Domain
  import opened Machine
  import opened Outcomes
  import opened Safety
  import opened Agreement
  import opened Completeness

  // ------------------------------------------------------------------- repair

  lemma {:induction false} MissingIsDistinct(index: map<Id, VectorRecord>, active: seq<Record>)
    requires DistinctIds(active)
    ensures DistinctIds(Missing(index, active))
  {
    if active != [] {
      var n := |active| - 1;
      MissingIsDistinct(index, active[..n]);
      var init := Missing(index, active[..n]);
      forall i | 0 <= i < |init| ensures init[i].id != active[n].id {
        assert init[i] in active[..n];
      }
    }
  }

  /**
   * From any store and any index contents: a completed repair leaves exactly the active records it saw indexed,
   * leaves surviving vectors alone, and its two counts are the sizes of the two differences.
   */
  lemma RepairReconciles(cfg: Config, s: State, m: Move)
    requires Completes(cfg, s, m) && m.step.Repair?
    ensures m.next.index.Keys == Ids(m.step.active)
    ensures forall id :: id in s.index && id in m.next.index ==> m.next.index[id] == s.index[id]
    ensures forall id :: id in m.next.index && id !in s.index ==>
              && id in s.rows && m.next.index[id] == VectorOf(cfg, s.rows[id])
              && m.next.index[id].embedding == cfg.embed(s.rows[id].text) && IsOwn(cfg, m.next.index[id], s.rows[id])
    ensures m.next.rows == s.rows && m.next.edges == s.edges
    ensures |m.step.ghosts| == |s.index.Keys - m.next.index.Keys|
    ensures |Missing(s.index, m.step.active)| == |m.next.index.Keys - s.index.Keys|
  {
    CompletedState(cfg, s, m);
    RepairFacts(cfg, s, m.step);
    assert m.next.index.Keys == Ids(m.step.active);
    EntriesAreOwn(cfg, m.next);
    RepairCounts(s.index, m.step.active, m.step.ghosts);
  }

  lemma RepairCounts(index: map<Id, VectorRecord>, active: seq<Record>, ghosts: seq<Id>)
    requires DistinctIds(active) && IdSet(ghosts) == index.Keys - Ids(active)
    requires forall i, j :: 0 <= i < j < |ghosts| ==> ghosts[i] != ghosts[j]
    ensures |ghosts| == |index.Keys - Ids(active)|
    ensures |Missing(index, active)| == |Ids(active) - index.Keys|
  {
    DistinctSize(ghosts);
    MissingIds(index, active);
    MissingIsDistinct(index, active);
    IdsCount(Missing(index, active));
  }

  lemma {:induction false} DistinctSize(ids: seq<Id>)
    requires forall i, j :: 0 <= i < j < |ids| ==> ids[i] != ids[j]
    ensures |IdSet(ids)| == |ids|
  {
    if ids != [] {
      var n := |ids| - 1;
      DistinctSize(ids[..n]);
      assert IdSet(ids) == IdSet(ids[..n]) + {ids[n]};
    }
  }

  /** What repair converges to is all currently valid active records exactly when they fit into its query. */
  lemma RepairConvergesIff(cfg: Config, s: State, m: Move)
    requires Completes(cfg, s, m) && m.step.Repair?
    ensures m.next.index.Keys <= ActiveNow(cfg, s, m.step.clock)
    ensures m.next.index.Keys == ActiveNow(cfg, s, m.step.clock) <==> |ActiveNow(cfg, s, m.step.clock)| <= 1_000
    ensures ActiveNow(cfg, s, m.step.clock) == set id | id in s.rows && s.rows[id].status == Active
              && (s.rows[id].validFrom.Some? ==> s.rows[id].validFrom.value <= m.step.clock)
              && (s.rows[id].validTo.Some? ==> m.step.clock < s.rows[id].validTo.value)
  {
    RepairReconciles(cfg, s, m);
    AnswerIsComplete(cfg.kw, s.rows, REPAIR_QUERY, m.step.clock, m.step.active);
    ActiveNowMeans(cfg, s, m.step.clock);
  }

  /** A second repair at the same instant finds nothing to do. */
  lemma RepairIsStable(cfg: Config, s: State, m: Move, m': Move)
    requires Completes(cfg, s, m) && m.step.Repair? && |ActiveNow(cfg, s, m.step.clock)| <= 1_000
    requires Completes(cfg, m.next, m') && m'.step.Repair? && m'.step.clock == m.step.clock
    ensures m'.step.ghosts == [] && Missing(m.next.index, m'.step.active) == []
    ensures m'.next.index == m.next.index
  {
    RepairConvergesIff(cfg, s, m);
    RepairReconciles(cfg, s, m);
    assert ActiveNow(cfg, m.next, m.step.clock) == ActiveNow(cfg, s, m.step.clock);
    RepairConvergesIff(cfg, m.next, m');
    RepairReconciles(cfg, m.next, m');
    assert m.next.index.Keys - m'.next.index.Keys == {} && m'.next.index.Keys - m.next.index.Keys == {};
  }

  // -------------------------------------------------------------------- sweep

  /** The scope sees the record and its window holds. */
  ghost predicate InSight(r: Record, scope: Scope, clock: Time) {
    && scope.Contains(r.scope)
    && (r.validFrom.Some? ==> r.validFrom.value <= clock) && (r.validTo.Some? ==> clock < r.validTo.value)
  }

  /** What a sweep looks at: records of every status. */
  ghost function SweepScope(s: State, scope: Scope, clock: Time): set<Id> {
    set id | id in s.rows && InSight(s.rows[id], scope, clock)
  }

  /** Those whose deadline has come. */
  ghost function PastDeadline(s: State, scope: Scope, now: Time, clock: Time): set<Id> {
    set id | id in SweepScope(s, scope, clock)
      && s.rows[id].retention.expiresAt.Some? && s.rows[id].retention.expiresAt.value <= now
  }

  /** The records a sweep must remove: ephemeral and session ones. */
  ghost function ToPurge(s: State, scope: Scope, now: Time, clock: Time): set<Id> {
    set id | id in PastDeadline(s, scope, now, clock)
      && (s.rows[id].retention.class_ == Ephemeral || s.rows[id].retention.class_ == RetentionClass.Session)
  }

  /** Those it must archive: active standard ones, seven days after their deadline. */
  ghost function ToArchive(s: State, scope: Scope, now: Time, clock: Time): set<Id> {
    set id | id in PastDeadline(s, scope, now, clock) && s.rows[id].retention.class_ == Standard
      && s.rows[id].status == Active && s.rows[id].retention.expiresAt.value + 604_800 <= now
  }

  lemma ScopeIsQuery(cfg: Config, s: State, scope: Scope, clock: Time)
    ensures SweepScope(s, scope, clock) == Matching(cfg.kw, s.rows, SweepQuery(scope), clock)
  {
    forall r: Record ensures r.status in ALL_STATUSES {
      assert ALL_STATUSES[match r.status case Active => 0 case Superseded => 1 case Quarantined => 2 case Archived => 3
                          case Deleted => 4] == r.status;
    }
  }

  lemma CandidatesAreRows(cfg: Config, s: State, step: Step)
    requires WellKeyed(s.rows) && step.Sweep? && Enabled(cfg, s, step)
    ensures forall r :: r in step.candidates ==>
              r.id in s.rows && s.rows[r.id] == r && InSight(r, step.scope, step.clock)
  {
    forall r | r in step.candidates
      ensures r.id in s.rows && s.rows[r.id] == r && InSight(r, step.scope, step.clock)
    {
      var i :| 0 <= i < |step.candidates| && step.candidates[i] == r;
      assert Matches(cfg.kw, step.candidates[i], SweepQuery(step.scope), step.clock);
    }
  }

  lemma AllAreCandidates(cfg: Config, s: State, step: Step)
    requires WellKeyed(s.rows) && step.Sweep? && Enabled(cfg, s, step)
    requires |SweepScope(s, step.scope, step.clock)| <= 1_000
    ensures forall id :: id in SweepScope(s, step.scope, step.clock) ==> s.rows[id] in step.candidates
  {
    ScopeIsQuery(cfg, s, step.scope, step.clock);
    AnswerIsComplete(cfg.kw, s.rows, SweepQuery(step.scope), step.clock, step.candidates);
    forall id | id in SweepScope(s, step.scope, step.clock) ensures s.rows[id] in step.candidates {
      var i :| 0 <= i < |step.candidates| && step.candidates[i].id == id;
    }
  }

  lemma CandidateIds(cfg: Config, s: State, step: Step)
    requires WellKeyed(s.rows) && step.Sweep? && Enabled(cfg, s, step)
    requires |SweepScope(s, step.scope, step.clock)| <= 1_000
    ensures LapsedIds(step.candidates, step.now) == ToPurge(s, step.scope, step.now, step.clock)
    ensures ArchivableIds(step.candidates, step.now) == ToArchive(s, step.scope, step.now, step.clock)
  {
    CandidatesAreRows(cfg, s, step);
    AllAreCandidates(cfg, s, step);
    CandidatesDecide(s, step.candidates, step.scope, step.now, step.clock);
  }

  lemma CandidatesDecide(s: State, rs: seq<Record>, scope: Scope, now: Time, clock: Time)
    requires forall r :: r in rs ==> r.id in s.rows && s.rows[r.id] == r && InSight(r, scope, clock)
    requires WellKeyed(s.rows) && forall id :: id in SweepScope(s, scope, clock) ==> s.rows[id] in rs
    ensures LapsedIds(rs, now) == ToPurge(s, scope, now, clock)
    ensures ArchivableIds(rs, now) == ToArchive(s, scope, now, clock)
  {
  }

  /** What a sweep leaves that erases `gone` and archives `aged`; a missing index or graph is not touched. */
  ghost predicate LeavesSwept(cfg: Config, s: State, t: State, gone: set<Id>, aged: set<Id>, now: Time) {
    && t.rows.Keys == s.rows.Keys - gone
    && (forall id :: id in t.rows ==>
          t.rows[id] == if id in aged then s.rows[id].(status := Archived, updatedAt := now) else s.rows[id])
    && (cfg.vector || Wired(cfg, s) ==> t.index == s.index - gone)
    && (cfg.graph || Wired(cfg, s) ==> t.edges == set e | e in s.edges && e.evidence !in gone)
    && (!cfg.vector ==> t.index == s.index) && (!cfg.graph ==> t.edges == s.edges)
  }

  /**
   * With at most 1,000 candidates a completed sweep removes exactly the ephemeral and session records whose deadline has
   * come from the store and from whatever index and graph are attached, archives exactly the active standard records whose
   * deadline came seven days ago, and leaves everything else as it was. It looks at records of every status whose window
   * holds, inside the scope.
   */
  lemma SweepIsExact(cfg: Config, s: State, m: Move)
    requires Completes(cfg, s, m) && m.step.Sweep?
    requires |SweepScope(s, m.step.scope, m.step.clock)| <= 1_000
    ensures LeavesSwept(cfg, s, m.next, ToPurge(s, m.step.scope, m.step.now, m.step.clock),
                        ToArchive(s, m.step.scope, m.step.now, m.step.clock), m.step.now)
  {
    CandidateIds(cfg, s, m.step);
    SweepActs(cfg, s, m);
  }

  /** So no ephemeral or session record that the sweep looks at outlives its deadline, in any representation. */
  lemma NothingDueStays(cfg: Config, s: State, m: Move, id: Id)
    requires Completes(cfg, s, m) && m.step.Sweep? && Wired(cfg, s)
    requires |SweepScope(s, m.step.scope, m.step.clock)| <= 1_000
    requires id in s.rows && InSight(s.rows[id], m.step.scope, m.step.clock)
    requires s.rows[id].retention.class_ == Ephemeral || s.rows[id].retention.class_ == RetentionClass.Session
    ensures s.rows[id].retention.expiresAt.Some? && s.rows[id].retention.expiresAt.value <= m.step.now ==>
              id !in m.next.rows && id !in m.next.index && forall e :: e in m.next.edges ==> e.evidence != id
  {
    SweepIsExact(cfg, s, m);
  }

  /** However many candidates there are, a completed sweep does this to those its query answered with, and no more. */
  lemma SweepActsOnAnswer(cfg: Config, s: State, m: Move)
    requires Completes(cfg, s, m) && m.step.Sweep?
    ensures var due := set r | r in m.step.candidates
                         && r.retention.expiresAt.Some? && r.retention.expiresAt.value <= m.step.now;
            var gone := set r | r in due && (r.retention.class_ == Ephemeral
                                             || r.retention.class_ == RetentionClass.Session) :: r.id;
            var aged := set r | r in due && r.retention.class_ == Standard && r.status == Active
                          && r.retention.expiresAt.value + 604_800 <= m.step.now :: r.id;
            LeavesSwept(cfg, s, m.next, gone, aged, m.step.now)
  {
    SweepActs(cfg, s, m);
    IdsMean(m.step.candidates, m.step.now);
  }

  lemma IdsMean(rs: seq<Record>, now: Time)
    ensures var due := set r | r in rs && r.retention.expiresAt.Some? && r.retention.expiresAt.value <= now;
            && LapsedIds(rs, now) == (set r | r in due && (r.retention.class_ == Ephemeral
                                                           || r.retention.class_ == RetentionClass.Session) :: r.id)
            && ArchivableIds(rs, now) == (set r | r in due && r.retention.class_ == Standard && r.status == Active
                                            && r.retention.expiresAt.value + 604_800 <= now :: r.id)
  {
  }

  lemma SweepActs(cfg: Config, s: State, m: Move)
    requires Completes(cfg, s, m) && m.step.Sweep?
    ensures LeavesSwept(cfg, s, m.next, LapsedIds(m.step.candidates, m.step.now),
                        ArchivableIds(m.step.candidates, m.step.now), m.step.now)
  {
    CompletedState(cfg, s, m);
    SweepFacts(cfg, s, m.step);
    SweptLeaves(cfg, s, LapsedIds(m.step.candidates, m.step.now), ArchivableIds(m.step.candidates, m.step.now), m.step.now);
  }

  lemma SweptLeaves(cfg: Config, s: State, gone: set<Id>, aged: set<Id>, now: Time)
    ensures LeavesSwept(cfg, s, Swept(cfg, s, gone, aged, now), gone, aged, now)
  {
    if !cfg.vector && Wired(cfg, s) {
      assert s.index - gone == s.index;
    }
  }

  /**
   * However many candidates there are, a completed sweep leaves alone, in store, index and graph, every record without a
   * deadline, with a deadline still to come, or permanent; and it archives no record but active standard ones whose
   * deadline came seven days ago.
   */
  lemma SweepSpares(cfg: Config, s: State, m: Move, id: Id)
    requires Completes(cfg, s, m) && m.step.Sweep? && id in s.rows
    ensures s.rows[id].retention.expiresAt.None? || s.rows[id].retention.expiresAt.value > m.step.now
            || s.rows[id].retention.class_ == Permanent ==>
              && id in m.next.rows && m.next.rows[id] == s.rows[id]
              && (id in m.next.index <==> id in s.index) && (id in s.index ==> m.next.index[id] == s.index[id])
              && forall e: Relation :: e.evidence == id ==> (e in m.next.edges <==> e in s.edges)
    ensures id in m.next.rows && m.next.rows[id] != s.rows[id] ==>
              && m.next.rows[id] == s.rows[id].(status := Archived, updatedAt := m.step.now)
              && s.rows[id].status == Active && s.rows[id].retention.class_ == Standard
              && s.rows[id].retention.expiresAt.Some? && s.rows[id].retention.expiresAt.value + 604_800 <= m.step.now
  {
    SweepActs(cfg, s, m);
    CandidatesAreRows(cfg, s, m.step);
    SparedByDeadline(cfg, s, m.next, m.step, id);
  }

  lemma SparedByDeadline(cfg: Config, s: State, t: State, step: Step, id: Id)
    requires step.Sweep? && id in s.rows && forall r :: r in step.candidates ==> r.id in s.rows && s.rows[r.id] == r
    requires LeavesSwept(cfg, s, t, LapsedIds(step.candidates, step.now), ArchivableIds(step.candidates, step.now),
                         step.now)
    ensures s.rows[id].retention.expiresAt.None? || s.rows[id].retention.expiresAt.value > step.now
            || s.rows[id].retention.class_ == Permanent ==>
              && id in t.rows && t.rows[id] == s.rows[id]
              && (id in t.index <==> id in s.index) && (id in s.index ==> t.index[id] == s.index[id])
              && forall e: Relation :: e.evidence == id ==> (e in t.edges <==> e in s.edges)
    ensures id in t.rows && t.rows[id] != s.rows[id] ==>
              && t.rows[id] == s.rows[id].(status := Archived, updatedAt := step.now)
              && s.rows[id].status == Active && s.rows[id].retention.class_ == Standard
              && s.rows[id].retention.expiresAt.Some? && s.rows[id].retention.expiresAt.value + 604_800 <= step.now
  {
  }

  /** Repeated at the same instant, a sweep acts on nothing. */
  lemma SweepIsStable(cfg: Config, s: State, m: Move, m': Move)
    requires Completes(cfg, s, m) && m.step.Sweep?
    requires |SweepScope(s, m.step.scope, m.step.clock)| <= 1_000
    requires m'.step.Sweep? && m'.step.scope == m.step.scope && m'.step.now == m.step.now && m'.step.clock == m.step.clock
    requires WellKeyed(m.next.rows) && Enabled(cfg, m.next, m'.step)
    ensures LapsedIds(m'.step.candidates, m'.step.now) == {} && ArchivableIds(m'.step.candidates, m'.step.now) == {}
    ensures Calls(cfg, m.next, m'.step) == []
  {
    SweepIsExact(cfg, s, m);
    CandidatesAreRows(cfg, m.next, m'.step);
    NoneIsDue(cfg, s, m.next, m'.step);
    NothingToSweepIff(cfg, m'.step.candidates, m'.step.scope, m'.step.now);
  }

  /** What is left of a sweep holds nothing that another one at the same instant would act on. */
  lemma NoneIsDue(cfg: Config, s: State, t: State, again: Step)
    requires again.Sweep? && LeavesSwept(cfg, s, t, ToPurge(s, again.scope, again.now, again.clock),
                                         ToArchive(s, again.scope, again.now, again.clock), again.now)
    requires forall r :: r in again.candidates ==>
               r.id in t.rows && t.rows[r.id] == r && InSight(r, again.scope, again.clock)
    ensures LapsedIds(again.candidates, again.now) == {} && ArchivableIds(again.candidates, again.now) == {}
  {
    forall r | r in again.candidates ensures !Lapsed(r, again.now) && !Archivable(r, again.now) {
      assert InSight(s.rows[r.id], again.scope, again.clock);
    }
  }

  // ------------------------------------------------- more candidates than it reads

  /** What a sweep at this instant should act on. */
  ghost function Due(s: State, scope: Scope, now: Time, clock: Time): set<Id> {
    ToPurge(s, scope, now, clock) + ToArchive(s, scope, now, clock)
  }

  /** The candidates created after record `id`. */
  ghost function Ahead(s: State, scope: Scope, clock: Time, id: Id): set<Id>
    requires id in s.rows
  {
    set x | x in SweepScope(s, scope, clock) && s.rows[x].createdAt > s.rows[id].createdAt
  }

  lemma ActedOn(cfg: Config, s: State, step: Step)
    requires WellKeyed(s.rows) && step.Sweep? && Enabled(cfg, s, step)
    ensures var due := Due(s, step.scope, step.now, step.clock);
            LapsedIds(step.candidates, step.now) + ArchivableIds(step.candidates, step.now) == due * Ids(step.candidates)
  {
    forall id | id in Ids(step.candidates) ensures id in s.rows && s.rows[id] in step.candidates
                                             && id in SweepScope(s, step.scope, step.clock)
    {
      var i :| 0 <= i < |step.candidates| && step.candidates[i].id == id;
    }
    forall r | r in step.candidates ensures r.id in Ids(step.candidates) && s.rows[r.id] == r {
    }
  }

  /**
   * Over distinct creation times a due record is reached by a sweep if and only if fewer than 1,000 candidates are newer:
   * behind a thousand newer ones it is passed over.
   */
  lemma SweepReachesIff(cfg: Config, s: State, step: Step, id: Id)
    requires WellKeyed(s.rows) && DistinctStamps(s.rows) && step.Sweep? && Enabled(cfg, s, step)
    requires id in Due(s, step.scope, step.now, step.clock)
    ensures id in LapsedIds(step.candidates, step.now) + ArchivableIds(step.candidates, step.now)
            <==> |Ahead(s, step.scope, step.clock, id)| < 1_000
  {
    ActedOn(cfg, s, step);
    ScopeIsQuery(cfg, s, step.scope, step.clock);
    AnswerHoldsIff(cfg.kw, s.rows, SweepQuery(step.scope), step.clock, step.candidates, id);
    assert Ahead(s, step.scope, step.clock, id)
        == AheadOf(cfg.kw, s.rows, SweepQuery(step.scope), step.clock, id);
  }

  /**
   * Sweeping again at the same instant works off what is due: every sweep takes exactly what it acted on off the list, so
   * one that acts shortens it. Repeated sweeps end with one that acts on nothing.
   */
  lemma SweepsWorkOff(cfg: Config, s: State, m: Move)
    requires Completes(cfg, s, m) && m.step.Sweep?
    ensures var (due, left) := (Due(s, m.step.scope, m.step.now, m.step.clock),
                                Due(m.next, m.step.scope, m.step.now, m.step.clock));
            && left == due - Ids(m.step.candidates)
            && (Calls(cfg, s, m.step) == [] <==> left == due)
            && (Calls(cfg, s, m.step) != [] ==> |left| < |due|)
  {
    var step := m.step;
    var due := Due(s, step.scope, step.now, step.clock);
    ActedOn(cfg, s, step);
    SweepActs(cfg, s, m);
    LeftDue(cfg, s, m.next, LapsedIds(step.candidates, step.now), ArchivableIds(step.candidates, step.now), step);
    NothingToSweepIff(cfg, step.candidates, step.scope, step.now);
    if Calls(cfg, s, step) != [] {
      SubsetSize(due - Ids(step.candidates), due);
    }
  }

  lemma LeftDue(cfg: Config, s: State, t: State, gone: set<Id>, aged: set<Id>, step: Step)
    requires step.Sweep? && WellKeyed(s.rows) && LeavesSwept(cfg, s, t, gone, aged, step.now)
    requires gone + aged == Due(s, step.scope, step.now, step.clock) * Ids(step.candidates)
    requires forall id :: id in gone ==> id in s.rows && Lapsed(s.rows[id], step.now)
    requires forall id :: id in aged ==> id in s.rows && Archivable(s.rows[id], step.now)
    ensures Due(t, step.scope, step.now, step.clock)
         == Due(s, step.scope, step.now, step.clock) - Ids(step.candidates)
  {
    var left, due := Due(t, step.scope, step.now, step.clock), Due(s, step.scope, step.now, step.clock);
    forall id ensures id in left <==> id in due && id !in gone + aged {
      if id in t.rows && id in aged {
        assert t.rows[id] == ArchivedAt(s.rows[id], step.now);
      }
    }
    assert due - Ids(step.candidates) == due - (gone + aged);
  }

  lemma NothingToSweepIff(cfg: Config, rs: seq<Record>, scope: Scope, now: Time)
    ensures SweepCalls(cfg, rs, scope, now) == [] <==> LapsedIds(rs, now) + ArchivableIds(rs, now) == {}
  {
    NoCallsIff(cfg, rs, scope, now);
    NoIdsIff(rs, now);
  }

  ghost predicate NoneToSweep(rs: seq<Record>, now: Time) {
    forall i :: 0 <= i < |rs| ==> !Lapsed(rs[i], now) && !Archivable(rs[i], now)
  }

  lemma {:induction false} NoCallsIff(cfg: Config, rs: seq<Record>, scope: Scope, now: Time)
    ensures SweepCalls(cfg, rs, scope, now) == [] <==> NoneToSweep(rs, now)
  {
    if rs != [] {
      var n := |rs| - 1;
      NoCallsIff(cfg, rs[..n], scope, now);
      SweepOneActsIff(cfg, rs[n], scope, now);
      NeitherActs(SweepCalls(cfg, rs[..n], scope, now), SweepOne(cfg, rs[n], scope, now));
    }
  }

  lemma NoIdsIff(rs: seq<Record>, now: Time)
    ensures LapsedIds(rs, now) + ArchivableIds(rs, now) == {} <==> NoneToSweep(rs, now)
  {
    forall i | 0 <= i < |rs| ensures rs[i] in rs {
    }
    forall r | r in rs
      ensures Lapsed(r, now) ==> r.id in LapsedIds(rs, now)
      ensures Archivable(r, now) ==> r.id in ArchivableIds(rs, now)
    {
    }
  }

  lemma NeitherActs(head: seq<Call>, one: seq<Call>)
    ensures head + one == [] <==> head == [] && one == []
  {
    assert |head + one| == |head| + |one|;
  }

  lemma SweepOneActsIff(cfg: Config, r: Record, scope: Scope, now: Time)
    ensures SweepOne(cfg, r, scope, now) != [] <==> Lapsed(r, now) || Archivable(r, now)
  {
  }

  /** Over distinct creation times a sweep acts on nothing if and only if every due record is behind 1,000 newer ones. */
  lemma SweepStallsIff(cfg: Config, s: State, step: Step)
    requires WellKeyed(s.rows) && DistinctStamps(s.rows) && step.Sweep? && Enabled(cfg, s, step)
    ensures Calls(cfg, s, step) == [] <==>
              forall id :: id in Due(s, step.scope, step.now, step.clock) ==>
                |Ahead(s, step.scope, step.clock, id)| >= 1_000
  {
    var acted := LapsedIds(step.candidates, step.now) + ArchivableIds(step.candidates, step.now);
    NothingToSweepIff(cfg, step.candidates, step.scope, step.now);
    ActedOn(cfg, s, step);
    forall id | id in Due(s, step.scope, step.now, step.clock)
      ensures id in acted <==> |Ahead(s, step.scope, step.clock, id)| < 1_000
    {
      SweepReachesIff(cfg, s, step, id);
    }
    if acted != {} {
      var id :| id in acted;
      assert id in Due(s, step.scope, step.now, step.clock);
    }
  }

  /** What a sweep says it did. */
  datatype SweepReport = SweepReport(purged: seq<Id>, archived: seq<Id>, skipped: nat)

  /** Counted for visibility: permanent records, and standard ones past their deadline that are archived already. */
  predicate Skipped(r: Record, now: Time) {
    if r.retention.expiresAt.None? then r.retention.class_.Permanent? && r.ValidAt(now)
    else
      && r.retention.expiresAt.value <= now
      && (r.retention.class_.Permanent? || (r.retention.class_.Standard? && !Archivable(r, now) && r.status.Archived?))
  }

  function Noted(report: SweepReport, r: Record, now: Time): SweepReport {
    if Lapsed(r, now) then report.(purged := report.purged + [r.id])
    else if Archivable(r, now) then report.(archived := report.archived + [r.id])
    else if Skipped(r, now) then report.(skipped := report.skipped + 1)
    else report
  }

  function ReportOn(rs: seq<Record>, now: Time): SweepReport {
    if rs == [] then SweepReport([], [], 0)
    else Noted(ReportOn(rs[..|rs| - 1], now), rs[|rs| - 1], now)
  }

  ghost predicate Once(ids: seq<Id>) { forall i, j :: 0 <= i < j < |ids| ==> ids[i] != ids[j] }

  lemma {:induction false} ReportNames(rs: seq<Record>, now: Time)
    requires DistinctIds(rs)
    ensures IdSet(ReportOn(rs, now).purged) == LapsedIds(rs, now) && Once(ReportOn(rs, now).purged)
    ensures IdSet(ReportOn(rs, now).archived) == ArchivableIds(rs, now) && Once(ReportOn(rs, now).archived)
  {
    if rs != [] {
      var n := |rs| - 1;
      ReportNames(rs[..n], now);
      assert rs == rs[..n] + [rs[n]];
      IdsSnoc(rs[..n], rs[n], now);
      var before := ReportOn(rs[..n], now);
      assert rs[n].id !in LapsedIds(rs[..n], now) + ArchivableIds(rs[..n], now);
      OneNameMore(before.purged, rs[n].id);
      OneNameMore(before.archived, rs[n].id);
    }
  }

  lemma OneNameMore(ids: seq<Id>, id: Id)
    requires Once(ids) && id !in IdSet(ids)
    ensures Once(ids + [id]) && IdSet(ids + [id]) == IdSet(ids) + {id}
  {
    assert forall i :: 0 <= i < |ids| ==> ids[i] in IdSet(ids);
    assert forall x :: x in ids + [id] <==> x in ids || x == id;
  }

  /** The report of a completed sweep names exactly what it had to purge and to archive, once each. */
  lemma ReportIsExact(cfg: Config, s: State, m: Move)
    requires Completes(cfg, s, m) && m.step.Sweep?
    requires |SweepScope(s, m.step.scope, m.step.clock)| <= 1_000
    ensures var report := ReportOn(m.step.candidates, m.step.now);
            && Once(report.purged) && IdSet(report.purged) == ToPurge(s, m.step.scope, m.step.now, m.step.clock)
            && Once(report.archived) && IdSet(report.archived) == ToArchive(s, m.step.scope, m.step.now, m.step.clock)
            && report.skipped == |ToCount(s, m.step.scope, m.step.now, m.step.clock)|
  {
    CandidateIds(cfg, s, m.step);
    ReportNames(m.step.candidates, m.step.now);
    ReportCounts(m.step.candidates, m.step.now);
    CountedAreRows(cfg, s, m.step);
  }

  ghost function ToCount(s: State, scope: Scope, now: Time, clock: Time): set<Id> {
    set id | id in SweepScope(s, scope, clock) && Countable(s.rows[id], now)
  }

  /** Permanent records that are valid or past a deadline, and archived standard records past theirs. */
  ghost predicate Countable(r: Record, now: Time) {
    var past := r.retention.expiresAt.Some? && r.retention.expiresAt.value <= now;
    || (r.retention.class_ == Standard && past && r.status == Archived)
    || (r.retention.class_ == Permanent && past)
    || (r.retention.class_ == Permanent && r.retention.expiresAt.None? && (r.status == Active || r.status == Archived)
        && (r.validFrom.Some? ==> r.validFrom.value <= now) && (r.validTo.Some? ==> now < r.validTo.value))
  }

  ghost function Counted(rs: seq<Record>, now: Time): set<Id> { set r | r in rs && Countable(r, now) :: r.id }

  lemma {:induction false} ReportCounts(rs: seq<Record>, now: Time)
    requires DistinctIds(rs)
    ensures ReportOn(rs, now).skipped == |Counted(rs, now)|
  {
    if rs != [] {
      var n := |rs| - 1;
      ReportCounts(rs[..n], now);
      assert rs == rs[..n] + [rs[n]];
      CountedSnoc(rs[..n], rs[n], now);
      CountableIsSkipped(rs[n], now);
    }
  }

  lemma CountableIsSkipped(r: Record, now: Time)
    ensures Countable(r, now) <==> !Lapsed(r, now) && !Archivable(r, now) && Skipped(r, now)
  {
  }

  lemma CountedSnoc(rs: seq<Record>, r: Record, now: Time)
    requires DistinctIds(rs + [r])
    ensures |Counted(rs + [r], now)| == |Counted(rs, now)| + if Countable(r, now) then 1 else 0
  {
    assert forall x :: x in rs + [r] <==> x in rs || x == r;
    forall x | x in rs ensures x.id != r.id {
      var i :| 0 <= i < |rs| && rs[i] == x;
      assert (rs + [r])[i] == x && (rs + [r])[|rs|] == r;
    }
    assert Counted(rs + [r], now) == Counted(rs, now) + if Countable(r, now) then {r.id} else {};
  }

  lemma CountedAreRows(cfg: Config, s: State, step: Step)
    requires WellKeyed(s.rows) && step.Sweep? && Enabled(cfg, s, step)
    requires |SweepScope(s, step.scope, step.clock)| <= 1_000
    ensures Counted(step.candidates, step.now) == ToCount(s, step.scope, step.now, step.clock)
  {
    CandidatesAreRows(cfg, s, step);
    AllAreCandidates(cfg, s, step);
  }
}
