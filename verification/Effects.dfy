/** What each completed operation does to rows, index and edges, field by field. */
module Effects {
  import opened Domain
  import opened Machine
  import opened Evolution
  import opened Outcomes
  import opened Agreement
  import Conflict
  import Dedup
  import Fingerprint

  // ---------------------------------------------------------------- new records

  /** A new record that states what the draft states, confidence and importance kept within the unit interval. */
  ghost predicate IsFrom(r: Record, draft: Draft, id: Id, now: Time, status: Status) {
    && r.id == id && r.text == draft.text && r.subject == draft.subject && r.memoryType == draft.memoryType
    && r.subtype == draft.subtype && r.scope == draft.scope && r.retention == draft.retention && r.source == draft.source
    && IsUnit(r.confidence, draft.confidence) && IsUnit(r.importance, draft.importance)
    && r.validFrom.None? && r.validTo.None? && r.supersedes.None?
    && r.status == status && r.version == 1 && r.createdAt == now && r.updatedAt == now
  }

  /** `c` is `x`, or the end of the unit interval that is nearest to it. */
  ghost predicate IsUnit(c: real, x: real) {
    0.0 <= c <= 1.0 && (c < x ==> c == 1.0) && (c > x ==> c == 0.0)
  }

  lemma IncomingIsFrom(s: State, draft: Draft, now: Time)
    ensures IsFrom(Incoming(s, draft, now), draft, s.nextId, now, Active)
    ensures IsFrom(Incoming(s, draft, now).(status := Quarantined), draft, s.nextId, now, Quarantined)
  {
  }

  /** The index with one more entry that embeds `r`, or as it was when nothing can be indexed. */
  ghost predicate Indexes(cfg: Config, before: map<Id, VectorRecord>, after: map<Id, VectorRecord>, r: Record) {
    if cfg.vector && cfg.embedder
    then r.id in after && after == before[r.id := after[r.id]] && after[r.id].embedding == cfg.embed(r.text)
         && IsOwn(cfg, after[r.id], r)
    else after == before
  }

  ghost predicate Drops(cfg: Config, before: map<Id, VectorRecord>, after: map<Id, VectorRecord>, id: Id) {
    after == if cfg.vector then before - {id} else before
  }

  lemma IndexedIndexes(cfg: Config, s: State, r: Record)
    ensures Indexes(cfg, s.index, Indexed(cfg, s, r).index, r)
    ensures Indexed(cfg, s, r).rows == s.rows && Indexed(cfg, s, r).edges == s.edges
  {
    VectorIsOwn(cfg, r);
  }

  // -------------------------------------------------------------------- writes

  /** A live fact of the draft's type and subject that the scope of the draft sees. */
  ghost predicate Opposes(s: State, draft: Draft, now: Time, id: Id) {
    && id in s.rows && s.rows[id].status == Active && s.rows[id].memoryType == draft.memoryType
    && draft.subject.Some? && s.rows[id].subject == draft.subject && draft.scope.Contains(s.rows[id].scope)
    && (s.rows[id].validFrom.Some? ==> s.rows[id].validFrom.value <= now)
    && (s.rows[id].validTo.Some? ==> now < s.rows[id].validTo.value)
  }

  /** A write that deduplication lets through: the text is neither blank nor too long. */
  ghost predicate Writes(cfg: Config, s: State, m: Move) {
    && Ordered(s) && Completes(cfg, s, m) && m.step.Remember?
    && !cfg.kw.blank(m.step.draft.text) && |m.step.draft.text| <= cfg.maxChars
    && (m.step.decision.Add? || m.step.decision.Link?)
  }

  /** The facts that the conflict query answers with begin with the newest that opposes, if any does. */
  lemma FirstFact(cfg: Config, s: State, step: Step)
    requires Ordered(s) && step.Remember? && step.draft.subject.Some?
    requires IsAnswer(cfg.kw, s.rows, ConflictQuery(Incoming(s, step.draft, step.now)), step.now, step.facts)
    ensures step.facts == [] <==> forall id :: id in s.rows ==> !Opposes(s, step.draft, step.now, id)
    ensures step.facts != [] ==>
              && Opposes(s, step.draft, step.now, step.facts[0].id) && s.rows[step.facts[0].id] == step.facts[0]
              && forall id :: Opposes(s, step.draft, step.now, id) ==> s.rows[id].createdAt <= step.facts[0].createdAt
    ensures forall i :: 0 <= i < |step.facts| ==> SameSubject(Incoming(s, step.draft, step.now), step.facts[i])
  {
    var q := ConflictQuery(Incoming(s, step.draft, step.now));
    forall id ensures Opposes(s, step.draft, step.now, id) <==> id in Matching(cfg.kw, s.rows, q, step.now) {
    }
    forall id | Opposes(s, step.draft, step.now, id)
      ensures step.facts != [] && s.rows[id].createdAt <= step.facts[0].createdAt
    {
      if id in Ids(step.facts) {
        var i :| 0 <= i < |step.facts| && step.facts[i].id == id;
        assert i == 0 || Newer(step.facts[0], step.facts[i]);
      } else {
        assert Newer(step.facts[0], s.rows[id]);
      }
    }
    if step.facts != [] {
      assert step.facts[0].id in Matching(cfg.kw, s.rows, q, step.now);
    }
  }

  lemma UnopposedCalls(cfg: Config, s: State, step: Step)
    requires Ordered(s) && step.Remember? && Enabled(cfg, s, step) && Accepts(cfg, step.draft.text)
    requires PassesDedup(step.decision)
    requires !cfg.conflict || forall id :: id in s.rows ==> !Opposes(s, step.draft, step.now, id)
    ensures Calls(cfg, s, step) == AddCalls(cfg, Incoming(s, step.draft, step.now))
    ensures Reply(cfg, s, step) == Incoming(s, step.draft, step.now)
  {
    if cfg.conflict && step.draft.subject.Some? {
      FirstFact(cfg, s, step);
    }
  }

  /**
   * With no fact against it a write stores one new active record, indexes it under its own text and links it by the
   * relations of its subject and text; nothing else changes.
   */
  lemma UnopposedWrite(cfg: Config, s: State, m: Move)
    requires Writes(cfg, s, m)
    requires !cfg.conflict || forall id :: id in s.rows ==> !Opposes(s, m.step.draft, m.step.now, id)
    ensures var r := Reply(cfg, s, m.step);
            && IsFrom(r, m.step.draft, s.nextId, m.step.now, Active)
            && m.next.rows == s.rows[s.nextId := r]
            && Indexes(cfg, s.index, m.next.index, r)
            && m.next.edges == s.edges + if cfg.graph && r.subject.Some?
                 then (set t | t in cfg.relations(r.subject.value, r.text) :: Relation(s.nextId, t)) else {}
  {
    var r := Incoming(s, m.step.draft, m.step.now);
    CompletedState(cfg, s, m);
    IncomingIsFrom(s, m.step.draft, m.step.now);
    UnopposedCalls(cfg, s, m.step);
    AddResult(cfg, s, r);
    IndexedIndexes(cfg, Stored(s, r), r);
  }

  /** The order of sources: user, external source, tool, system, agent. */
  ghost predicate Outranks(a: SourceKind, b: SourceKind) {
    match a
    case User => b != User
    case External => b == Tool || b == System || b == Agent
    case Tool => b == System || b == Agent
    case System => b == Agent
    case Agent => false
  }

  /** The claim of a draft is as strong as that of a record, or stronger: by source, and by confidence for equal sources. */
  ghost predicate Prevails(draft: Draft, r: Record) {
    || Outranks(draft.source, r.source)
    || (draft.source == r.source && Clamp(draft.confidence) >= r.confidence)
  }

  lemma VerdictMeans(negates: bool, incoming: Record, draft: Draft, facts: seq<Record>)
    requires facts != [] && forall i :: 0 <= i < |facts| ==> SameSubject(incoming, facts[i])
    requires incoming.source == draft.source && incoming.confidence == Clamp(draft.confidence)
    ensures Conflict.Verdict(negates, incoming, facts)
         == if negates || Prevails(draft, facts[0]) then Conflict.ReplaceExisting(facts[0].id)
            else Conflict.QuarantineIncoming
  {
    Conflict.SameSubjectNeverWrites(negates, incoming, facts);
    Conflict.DominanceIsTotalPreorder(incoming, facts[0], facts[0]);
  }

  /** What a write against a fact does and answers. */
  lemma ContestedCalls(cfg: Config, s: State, step: Step, id: Id)
    requires Ordered(s) && step.Remember? && Enabled(cfg, s, step) && Accepts(cfg, step.draft.text)
    requires PassesDedup(step.decision) && cfg.conflict && Opposes(s, step.draft, step.now, id)
    requires forall x :: Opposes(s, step.draft, step.now, x) && x != id ==> s.rows[x].createdAt < s.rows[id].createdAt
    ensures var r := Incoming(s, step.draft, step.now);
            if cfg.negates(r.text) || Prevails(step.draft, s.rows[id])
            then Calls(cfg, s, step) == ReplaceCalls(cfg, s, r, id, step.now) && Reply(cfg, s, step) == r
            else Calls(cfg, s, step) == QuarantineCalls(r) && Reply(cfg, s, step) == r.(status := Quarantined)
  {
    var r := Incoming(s, step.draft, step.now);
    FirstFact(cfg, s, step);
    assert step.facts[0].id == id;
    CallsAgainst(cfg, s, r, step.draft, step.now, step.facts);
  }

  lemma CallsAgainst(cfg: Config, s: State, r: Record, draft: Draft, now: Time, facts: seq<Record>)
    requires cfg.conflict && r.subject.Some? && facts != [] && forall i :: 0 <= i < |facts| ==> SameSubject(r, facts[i])
    requires r.source == draft.source && r.confidence == Clamp(draft.confidence)
    ensures WriteCalls(cfg, s, r, now, facts)
         == if cfg.negates(r.text) || Prevails(draft, facts[0]) then ReplaceCalls(cfg, s, r, facts[0].id, now)
            else QuarantineCalls(r)
    ensures Conflict.Verdict(cfg.negates(r.text), r, facts).QuarantineIncoming?
            <==> !(cfg.negates(r.text) || Prevails(draft, facts[0]))
  {
    VerdictMeans(cfg.negates(r.text), r, draft, facts);
  }

  /**
   * Against a fact, the newest of those that oppose it, a write whose text negates, whose source ranks higher, or whose
   * source is the same and its confidence no lower, closes that fact and takes its place, in the index too.
   */
  lemma PrevailingWrite(cfg: Config, s: State, m: Move, id: Id)
    requires Writes(cfg, s, m) && cfg.conflict && Opposes(s, m.step.draft, m.step.now, id)
    requires forall x :: Opposes(s, m.step.draft, m.step.now, x) && x != id ==> s.rows[x].createdAt < s.rows[id].createdAt
    requires cfg.negates(m.step.draft.text) || Prevails(m.step.draft, s.rows[id])
    ensures var r := Reply(cfg, s, m.step);
            && IsFrom(r, m.step.draft, s.nextId, m.step.now, Active)
            && m.next.rows == s.rows[s.nextId := r][id := s.rows[id].(
                 status := Superseded, updatedAt := m.step.now,
                 validTo := if s.rows[id].validTo.Some? then s.rows[id].validTo else Some(m.step.now))]
            && Indexes(cfg, if cfg.vector then s.index - {id} else s.index, m.next.index, r)
            && m.next.edges == s.edges
  {
    CompletedState(cfg, s, m);
    IncomingIsFrom(s, m.step.draft, m.step.now);
    ContestedCalls(cfg, s, m.step, id);
    ReplacedFields(cfg, s, Incoming(s, m.step.draft, m.step.now), id, m.step.now);
  }

  lemma ReplacedFields(cfg: Config, s: State, r: Record, id: Id, now: Time)
    requires Ordered(s) && r.id == s.nextId && Visible(s, id, r.scope)
    ensures var t := After(ReplaceCalls(cfg, s, r, id, now), s);
            && t.rows == s.rows[s.nextId := r][id := s.rows[id].(
                 status := Superseded, updatedAt := now,
                 validTo := if s.rows[id].validTo.Some? then s.rows[id].validTo else Some(now))]
            && Indexes(cfg, if cfg.vector then s.index - {id} else s.index, t.index, r)
            && t.edges == s.edges
  {
    ReplaceResult(cfg, s, r, id, now);
    IndexedIndexes(cfg, Stored(Closed(cfg, s, id, now), r), r);
    UpdatesCommute(s.rows, id, Conflict.CloseWindow(s.rows[id], now), r.id, r);
  }

  /**
   * So against one fact, or the newest of several, without negation: either the fact is retired and the new record live,
   * or the new record is quarantined and the fact as it was. With equal sources the first happens if and only if the new
   * confidence is not lower, otherwise by the order of user, external source, tool, system and agent.
   */
  lemma OpposedWriteIff(cfg: Config, s: State, m: Move, id: Id)
    requires Writes(cfg, s, m) && cfg.conflict && Opposes(s, m.step.draft, m.step.now, id)
    requires forall x :: Opposes(s, m.step.draft, m.step.now, x) && x != id ==> s.rows[x].createdAt < s.rows[id].createdAt
    requires !cfg.negates(m.step.draft.text)
    ensures var (r, old_) := (Reply(cfg, s, m.step), s.rows[id]);
            && r.id == s.nextId && r.id in m.next.rows && m.next.rows[r.id] == r && id in m.next.rows
            && (if Outranks(r.source, old_.source) || (r.source == old_.source && r.confidence >= old_.confidence)
                then r.status == Active && m.next.rows[id].status == Superseded
                else r.status == Quarantined && m.next.rows[id] == old_)
  {
    if Prevails(m.step.draft, s.rows[id]) {
      PrevailingWrite(cfg, s, m, id);
    } else {
      YieldingWrite(cfg, s, m, id);
    }
  }

  /** Any other write against a fact is stored quarantined, and nothing else changes. */
  lemma YieldingWrite(cfg: Config, s: State, m: Move, id: Id)
    requires Writes(cfg, s, m) && cfg.conflict && Opposes(s, m.step.draft, m.step.now, id)
    requires forall x :: Opposes(s, m.step.draft, m.step.now, x) && x != id ==> s.rows[x].createdAt < s.rows[id].createdAt
    requires !cfg.negates(m.step.draft.text) && !Prevails(m.step.draft, s.rows[id])
    ensures var r := Reply(cfg, s, m.step);
            && IsFrom(r, m.step.draft, s.nextId, m.step.now, Quarantined)
            && m.next.rows == s.rows[s.nextId := r] && m.next.index == s.index && m.next.edges == s.edges
  {
    var r := Incoming(s, m.step.draft, m.step.now);
    CompletedState(cfg, s, m);
    IncomingIsFrom(s, m.step.draft, m.step.now);
    ContestedCalls(cfg, s, m.step, id);
    AfterOne(Put(r.(status := Quarantined)), s);
  }

  // ------------------------------------------------------------- deduplication

  /** A live record of the draft's type that its scope sees. */
  ghost predicate Compares(s: State, draft: Draft, now: Time, id: Id) {
    && id in s.rows && s.rows[id].status == Active && s.rows[id].memoryType == draft.memoryType
    && draft.scope.Contains(s.rows[id].scope)
    && (s.rows[id].validFrom.Some? ==> s.rows[id].validFrom.value <= now)
    && (s.rows[id].validTo.Some? ==> now < s.rows[id].validTo.value)
  }

  /** The record says the same: the same text on the same subject, or the same words. */
  ghost predicate Repeats(ct: Fingerprint.CharTable, r: Record, draft: Draft) {
    || (draft.subject.Some? && r.subject == draft.subject && r.text == draft.text)
    || Fingerprint.Normal(ct, r.text) == Fingerprint.Normal(ct, draft.text)
  }

  /** What deduplication looks at that is newer than record `id`. */
  ghost function NewerThan(s: State, draft: Draft, now: Time, id: Id): set<Id>
    requires id in s.rows
  {
    set x | x in s.rows && Compares(s, draft, now, x) && s.rows[x].createdAt > s.rows[id].createdAt
  }

  /** A deduplicated write of an acceptable text. */
  ghost predicate Deduplicates(cfg: Config, s: State, step: Step) {
    && Ordered(s) && cfg.dedup && step.Remember? && Enabled(cfg, s, step)
    && !cfg.kw.blank(step.draft.text) && |step.draft.text| <= cfg.maxChars
  }

  lemma CandidatesCompare(cfg: Config, s: State, step: Step)
    requires Deduplicates(cfg, s, step)
    ensures forall i :: 0 <= i < |step.cands| ==> var c := step.cands[i];
              && Compares(s, step.draft, step.now, c.id) && s.rows[c.id] == c && !c.HasEnded(step.now)
              && (Dedup.Duplicate(cfg.ct, c, Incoming(s, step.draft, step.now)) <==> Repeats(cfg.ct, c, step.draft))
  {
    forall i | 0 <= i < |step.cands|
      ensures Matches(cfg.kw, step.cands[i], DedupQuery(Incoming(s, step.draft, step.now)), step.now)
    {
    }
  }

  lemma CandidateIff(cfg: Config, s: State, step: Step, id: Id)
    requires Deduplicates(cfg, s, step) && DistinctStamps(s.rows) && Compares(s, step.draft, step.now, id)
    ensures s.rows[id] in step.cands <==> |NewerThan(s, step.draft, step.now, id)| < 20
  {
    var q := DedupQuery(Incoming(s, step.draft, step.now));
    forall x ensures Compares(s, step.draft, step.now, x) <==> x in Matching(cfg.kw, s.rows, q, step.now) {
    }
    AnswerHoldsIff(cfg.kw, s.rows, q, step.now, step.cands, id);
    assert NewerThan(s, step.draft, step.now, id) == AheadOf(cfg.kw, s.rows, q, step.now, id);
    CandidatesCompare(cfg, s, step);
    if id in Ids(step.cands) {
      var i :| 0 <= i < |step.cands| && step.cands[i].id == id;
      assert step.cands[i] == s.rows[id];
    }
  }

  /**
   * Over distinct creation times a write is ignored if and only if some live record of its type in its scope says the same
   * and fewer than 20 such records are newer than that one. It then changes nothing and answers with a record that says
   * the same.
   */
  lemma IgnoredIff(cfg: Config, s: State, step: Step)
    requires Deduplicates(cfg, s, step) && DistinctStamps(s.rows)
    ensures step.decision.Ignore? <==> (exists id ::
              Compares(s, step.draft, step.now, id) && Repeats(cfg.ct, s.rows[id], step.draft)
              && |NewerThan(s, step.draft, step.now, id)| < 20)
    ensures step.decision.Ignore? ==> var r := Reply(cfg, s, step);
              && Calls(cfg, s, step) == [] && Compares(s, step.draft, step.now, r.id) && s.rows[r.id] == r
              && Repeats(cfg.ct, r, step.draft)
  {
    CandidatesCompare(cfg, s, step);
    if step.decision.Ignore? {
      var i := IgnoredCandidate(cfg, s, step);
      CandidateIff(cfg, s, step, step.cands[i].id);
    } else {
      forall id | Compares(s, step.draft, step.now, id) && Repeats(cfg.ct, s.rows[id], step.draft)
        ensures |NewerThan(s, step.draft, step.now, id)| >= 20
      {
        CandidateIff(cfg, s, step, id);
        NotIgnoredIsFresh(cfg, s, step);
      }
    }
  }

  lemma IgnoredCandidate(cfg: Config, s: State, step: Step) returns (i: nat)
    requires Deduplicates(cfg, s, step) && step.decision.Ignore?
    ensures i < |step.cands| && step.cands[i].id == step.decision.target
    ensures Dedup.Duplicate(cfg.ct, step.cands[i], Incoming(s, step.draft, step.now))
  {
    var r := Incoming(s, step.draft, step.now);
    Dedup.IgnoreNamesDuplicate(cfg.ct, r, step.cands, step.sims, step.now, step.decision.target);
    i :| 0 <= i < |step.cands| && step.cands[i].id == step.decision.target && Dedup.Duplicate(cfg.ct, step.cands[i], r);
  }

  lemma NotIgnoredIsFresh(cfg: Config, s: State, step: Step)
    requires Deduplicates(cfg, s, step) && !step.decision.Ignore?
    ensures forall i :: 0 <= i < |step.cands| ==>
              !Dedup.Duplicate(cfg.ct, step.cands[i], Incoming(s, step.draft, step.now))
  {
  }

  /**
   * With nothing that says the same, the first of the most similar candidates decides: on the same subject and from a
   * similarity of 0.9 on the write is merged into it, from 0.8 up to 0.9 it is held for review, and otherwise it passes.
   */
  lemma SimilarityDecides(cfg: Config, s: State, step: Step, b: nat)
    requires Deduplicates(cfg, s, step) && !step.decision.Ignore? && b < |step.cands|
    requires forall j :: 0 <= j < |step.sims| ==> step.sims[j] <= step.sims[b]
    requires forall j :: 0 <= j < b ==> step.sims[j] < step.sims[b]
    ensures var (c, sim) := (step.cands[b], step.sims[b]);
            var same := step.draft.subject.Some? && c.subject == step.draft.subject;
            && (step.decision == Dedup.Merge(c.id) <==> sim >= 0.9 && same)
            && (step.decision == Dedup.Review(c.id) <==> 0.8 <= sim < 0.9)
            && (step.decision.Add? || step.decision.Link? <==> sim < 0.8 || (sim >= 0.9 && !same))
  {
    var r := Incoming(s, step.draft, step.now);
    CandidatesCompare(cfg, s, step);
    Dedup.MostSimilarDecides(cfg.ct, r, step.cands, step.sims, step.now, step.decision, b);
  }

  /** The record that a merge or an update stores in place of one that stays behind. */
  ghost predicate Succeeds(next: Record, r: Record, id: Id, now: Time) {
    && next.id == id && next.supersedes == Some(r.id) && next.status == Active && next.version == 1
    && next.memoryType == r.memoryType && next.subtype == r.subtype && next.scope == r.scope && next.subject == r.subject
    && next.retention == r.retention && next.source == Agent
    && next.validFrom.None? && next.validTo.None? && next.createdAt == now && next.updatedAt == now
  }

  /**
   * A merge stores a record with the text of the draft that names the identifier drawn for the draft as its predecessor,
   * and does not index it; the record merged into is superseded and leaves the index.
   */
  lemma MergeFields(cfg: Config, s: State, m: Move)
    requires Completes(cfg, s, m) && Deduplicates(cfg, s, m.step) && m.step.decision.Merge?
    ensures var (next, target) := (Reply(cfg, s, m.step), m.step.decision.target);
            && target in s.rows && s.rows[target].subject == m.step.draft.subject
            && m.next.rows == s.rows[target := s.rows[target].(status := Superseded, updatedAt := m.step.now)]
                                    [s.nextId + 1 := next]
            && MergesFrom(next, m.step.draft, s.nextId + 1, m.step.now)
            && Drops(cfg, s.index, m.next.index, target) && m.next.edges == s.edges
  {
    CompletedState(cfg, s, m);
    CallsOfMerge(cfg, s, m.step);
    AfterMerge(cfg, s, m.step);
    MergedIsFrom(s, m.step.draft, m.step.now);
  }

  lemma CallsOfMerge(cfg: Config, s: State, step: Step)
    requires Deduplicates(cfg, s, step) && step.decision.Merge?
    ensures step.decision.target in s.rows && s.rows[step.decision.target].subject == step.draft.subject
    ensures var r := Incoming(s, step.draft, step.now);
            && Calls(cfg, s, step) == MergeCalls(cfg, s, r, step.decision.target, step.now)
            && Reply(cfg, s, step) == DeriveSuccessor(r, s.nextId + 1, r.text, step.now)
  {
    MergeTargetIsStored(cfg, s, step);
  }

  lemma AfterMerge(cfg: Config, s: State, step: Step)
    requires Deduplicates(cfg, s, step) && step.decision.Merge? && step.decision.target in s.rows
    ensures var (t, target) := (After(Calls(cfg, s, step), s), step.decision.target);
            && t.rows == s.rows[target := s.rows[target].(status := Superseded, updatedAt := step.now)]
                               [s.nextId + 1 := Reply(cfg, s, step)]
            && Drops(cfg, s.index, t.index, target) && t.edges == s.edges
  {
    CallsOfMerge(cfg, s, step);
    MergeLeaves(cfg, s, Incoming(s, step.draft, step.now), step.decision.target, step.now);
  }

  lemma MergeLeaves(cfg: Config, s: State, r: Record, target: Id, now: Time)
    requires Ordered(s) && target in s.rows && r.id == s.nextId
    ensures var t := After(MergeCalls(cfg, s, r, target, now), s);
            && t.rows == s.rows[target := s.rows[target].(status := Superseded, updatedAt := now)]
                               [s.nextId + 1 := DeriveSuccessor(r, s.nextId + 1, r.text, now)]
            && Drops(cfg, s.index, t.index, target) && t.edges == s.edges
  {
    MergeRows(cfg, s, r, target, now);
    MergeLeavesRest(cfg, s, r, target, now);
  }

  lemma MergeLeavesRest(cfg: Config, s: State, r: Record, target: Id, now: Time)
    requires Ordered(s) && target in s.rows && r.id == s.nextId
    ensures var t := After(MergeCalls(cfg, s, r, target, now), s);
            Drops(cfg, s.index, t.index, target) && t.edges == s.edges
  {
    MergeResult(cfg, s, r, target, now);
  }

  lemma MergedIsFrom(s: State, draft: Draft, now: Time)
    ensures var (r, id) := (Incoming(s, draft, now), s.nextId + 1);
            MergesFrom(DeriveSuccessor(r, id, r.text, now), draft, id, now)
  {
  }

  /** The record a merge stores states what the draft states, as an agent, and names the identifier drawn before its own. */
  ghost predicate MergesFrom(next: Record, draft: Draft, id: Id, now: Time) {
    && next.id == id && next.supersedes.Some? && next.supersedes.value + 1 == id && next.text == draft.text
    && next.subject == draft.subject && next.memoryType == draft.memoryType && next.subtype == draft.subtype
    && next.scope == draft.scope && next.retention == draft.retention && next.source == Agent
    && IsUnit(next.confidence, draft.confidence) && IsUnit(next.importance, draft.importance)
    && next.validFrom.None? && next.validTo.None? && next.status == Active && next.version == 1
    && next.createdAt == now && next.updatedAt == now
  }

  /** A write held for review is stored quarantined, and nothing else changes. */
  lemma ReviewFields(cfg: Config, s: State, m: Move)
    requires Completes(cfg, s, m) && Deduplicates(cfg, s, m.step) && m.step.decision.Review?
    ensures var r := Reply(cfg, s, m.step);
            && IsFrom(r, m.step.draft, s.nextId, m.step.now, Quarantined)
            && m.next.rows == s.rows[s.nextId := r] && m.next.index == s.index && m.next.edges == s.edges
  {
    var r := Incoming(s, m.step.draft, m.step.now);
    CompletedState(cfg, s, m);
    IncomingIsFrom(s, m.step.draft, m.step.now);
    assert Calls(cfg, s, m.step) == QuarantineCalls(r);
    AfterOne(Put(r.(status := Quarantined)), s);
  }

  // ------------------------------------------------------- update and removal

  /**
   * A completed update of a visible record stores and indexes a record with the new text, in the place of the old one:
   * confidence and importance are those given, within the unit interval, or else inherited. The old record is superseded
   * and leaves the index; edges stay.
   */
  lemma UpdateFields(cfg: Config, s: State, m: Move)
    requires Ordered(s) && Completes(cfg, s, m) && m.step.Revise?
    requires !cfg.kw.blank(m.step.text) && Visible(s, m.step.id, m.step.scope)
    ensures var old_ := s.rows[m.step.id];
            && s.nextId in m.next.rows
            && var next := m.next.rows[s.nextId];
               && Succeeds(next, old_, s.nextId, m.step.now) && next.text == m.step.text
               && (if m.step.confidence.Some? then IsUnit(next.confidence, m.step.confidence.value)
                   else next.confidence == old_.confidence)
               && (if m.step.importance.Some? then IsUnit(next.importance, m.step.importance.value)
                   else next.importance == old_.importance)
               && m.next.rows == s.rows[s.nextId := next]
                                       [m.step.id := old_.(status := Superseded, updatedAt := m.step.now)]
               && (if cfg.vector then m.step.id !in m.next.index
                     && Indexes(cfg, s.index - {m.step.id}, m.next.index, next)
                   else m.next.index == s.index)
               && m.next.edges == s.edges
  {
    CompletedState(cfg, s, m);
    RevisedFields(cfg, s, m.step);
  }

  lemma RevisedFields(cfg: Config, s: State, step: Step)
    requires Ordered(s) && step.Revise? && step.id in s.rows
    ensures var (next, t) := (Successor(s, step), After(ReviseCalls(cfg, s, step), s));
            && t.rows == s.rows[s.nextId := next][step.id := s.rows[step.id].(status := Superseded, updatedAt := step.now)]
            && (if cfg.vector then step.id !in t.index && Indexes(cfg, s.index - {step.id}, t.index, next)
                else t.index == s.index)
            && t.edges == s.edges
  {
    ReviseResult(cfg, s, step);
    VectorIsOwn(cfg, Successor(s, step));
    if cfg.vector && cfg.embedder {
      var next := Successor(s, step);
      assert s.index[next.id := VectorOf(cfg, next)] - {step.id} == (s.index - {step.id})[next.id := VectorOf(cfg, next)];
    }
  }

  /**
   * An update does not hand on who stated a fact: whoever it was, afterwards a claim by anyone but an agent takes the place
   * of the fact, and so does an agent's that is as confident.
   */
  lemma UpdateDropsAuthority(cfg: Config, s: State, u: Move, m: Move)
    requires Ordered(s) && Completes(cfg, s, u) && u.step.Revise?
    requires !cfg.kw.blank(u.step.text) && Visible(s, u.step.id, u.step.scope)
    requires Writes(cfg, u.next, m) && cfg.conflict && !cfg.negates(m.step.draft.text)
    requires Opposes(u.next, m.step.draft, m.step.now, s.nextId)
    requires forall x :: Opposes(u.next, m.step.draft, m.step.now, x) && x != s.nextId ==>
               u.next.rows[x].createdAt < u.next.rows[s.nextId].createdAt
    ensures var (claim, fact) := (Reply(cfg, u.next, m.step), u.next.rows[s.nextId]);
            claim.status == if claim.source != Agent || claim.confidence >= fact.confidence then Active else Quarantined
  {
    UpdateFields(cfg, s, u);
    OpposedWriteIff(cfg, u.next, m, s.nextId);
  }

  /** Forgetting a visible record leaves its tombstone, and nothing that points at it. */
  lemma ForgetFields(cfg: Config, s: State, m: Move)
    requires Ordered(s) && Completes(cfg, s, m) && m.step.Forget?
    requires Visible(s, m.step.id, m.step.scope) && s.rows[m.step.id].status != Deleted
    ensures m.next.rows == s.rows[m.step.id := s.rows[m.step.id].(status := Deleted, updatedAt := m.step.now)]
    ensures Drops(cfg, s.index, m.next.index, m.step.id)
    ensures m.next.edges == if cfg.graph then set e | e in s.edges && e.evidence != m.step.id else s.edges
  {
    CompletedState(cfg, s, m);
    ForgetResult(cfg, s, m.step.id, m.step.now);
  }

  /** A completed purge or erasure removes the row if the scope sees it, and what points at it in any case. */
  lemma RemovalFields(cfg: Config, s: State, m: Move)
    requires Completes(cfg, s, m) && (m.step.Purge? || m.step.Erase?)
    ensures m.next.rows == if m.step.id in s.rows && m.step.scope.Contains(s.rows[m.step.id].scope)
                           then s.rows - {m.step.id} else s.rows
    ensures Drops(cfg, s.index, m.next.index, m.step.id)
    ensures m.next.edges == if cfg.graph then set e | e in s.edges && e.evidence != m.step.id else s.edges
  {
    CompletedState(cfg, s, m);
    RemovalResult(cfg, s, m.step.id, m.step.scope);
  }
}
