/** Semantic recall: what is shown of the nearest vectors, and when that is the exact answer. */
module Nearest {
  import opened Domain
  import opened Machine
  import opened Evolution
  import opened Safety
  import opened Agreement
  import opened Stores

  // ------------------------------------------------------------- how it is done

  /** Over-fetch, because some candidates die at hydration; the product saturates at 32 bits. */
  function OverFetch(topK: nat): nat { if 2 * topK > 0xFFFF_FFFF then 0xFFFF_FFFF else 2 * topK }

  type Similarity = (Embedding, Embedding) -> real

  /** A vector that a search may return. */
  ghost predicate MayMatch(similarity: Similarity, index: map<Id, VectorRecord>, query: Embedding, filter: Metadata,
                           id: Id)
  {
    && id in index && FilterMatches(filter, index[id].metadata) && |index[id].embedding| == |query|
    && similarity(query, index[id].embedding) > 0.0
  }

  /** What an index store finds: the `n` closest of those, distinct, in falling similarity, with their scores. */
  ghost predicate AreNearest(similarity: Similarity, index: map<Id, VectorRecord>, query: Embedding, n: nat,
                             filter: Metadata, found: seq<Match>)
  {
    && |found| <= n
    && (forall i :: 0 <= i < |found| ==>
          MayMatch(similarity, index, query, filter, found[i].id)
          && found[i].score == similarity(query, index[found[i].id].embedding))
    && (forall i, j :: 0 <= i < j < |found| ==> found[i].id != found[j].id && found[i].score >= found[j].score)
    && (forall id ::
          MayMatch(similarity, index, query, filter, id) && (forall i :: 0 <= i < |found| ==> found[i].id != id) ==>
          |found| == n && forall i :: 0 <= i < |found| ==> found[i].score >= similarity(query, index[id].embedding))
  }

  lemma SearchIsNearest(store: InMemoryVectorStore, query: Embedding, n: nat, filter: Metadata, found: seq<Match>)
    requires store.IsNearest(query, n, filter, found)
    ensures AreNearest(store.similarity, store.vectors, query, n, filter, found)
  {
    forall id ensures MayMatch(store.similarity, store.vectors, query, filter, id) <==> store.Qualifies(id, query, filter) {
    }
    forall i, j | 0 <= i < j < |found| ensures found[i].id != found[j].id && found[i].score >= found[j].score {
      assert Closer(found[i], found[j]);
    }
  }

  /** The row `id` is visible, live and valid. */
  predicate Shows(rows: Rows, id: Id, scope: Scope, now: Time) {
    id in rows && scope.Contains(rows[id].scope) && rows[id].status.Active? && rows[id].HoldsAt(now)
  }

  /** The matches whose row shows, each with that row. */
  ghost function Shown(rows: Rows, found: seq<Match>, scope: Scope, now: Time): seq<(Record, real)> {
    if found == [] then [] else
    var c := found[|found| - 1];
    Shown(rows, found[..|found| - 1], scope, now) +
    if Shows(rows, c.id, scope, now) then [(rows[c.id], c.score)] else []
  }

  function Cut<T>(s: seq<T>, n: nat): seq<T> { if |s| <= n then s else s[..n] }

  ghost predicate Ranked(scored: seq<(Record, real)>) {
    forall i, j :: 0 <= i < j < |scored| ==> scored[i].0.id != scored[j].0.id && scored[i].1 >= scored[j].1
  }

  lemma RankedMore(scored: seq<(Record, real)>, e: (Record, real))
    requires Ranked(scored) && forall i :: 0 <= i < |scored| ==> scored[i].0.id != e.0.id && scored[i].1 >= e.1
    ensures Ranked(scored + [e])
  {
  }

  /** What is shown is a match whose row is stored, visible, live and valid. */
  lemma {:induction false} ShownAreMatches(rows: Rows, found: seq<Match>, scope: Scope, now: Time)
    requires WellKeyed(rows)
    ensures forall e :: e in Shown(rows, found, scope, now) ==>
              Shows(rows, e.0.id, scope, now) && rows[e.0.id] == e.0 && Match(e.0.id, e.1) in found
  {
    if found != [] {
      var n := |found| - 1;
      assert found == found[..n] + [found[n]];
      ShownAreMatches(rows, found[..n], scope, now);
      assert Match(found[n].id, found[n].score) == found[n];
    }
  }

  /** Each record is shown once, by falling score. */
  lemma {:induction false} ShownIsRanked(rows: Rows, found: seq<Match>, scope: Scope, now: Time)
    requires WellKeyed(rows)
    requires forall i, j :: 0 <= i < j < |found| ==> found[i].id != found[j].id && found[i].score >= found[j].score
    ensures Ranked(Shown(rows, found, scope, now))
  {
    if found != [] {
      var n := |found| - 1;
      var before, c := Shown(rows, found[..n], scope, now), found[n];
      ShownIsRanked(rows, found[..n], scope, now);
      ShownAreMatches(rows, found[..n], scope, now);
      if Shows(rows, c.id, scope, now) {
        LaterIsFurther(before, found, n);
        RankedMore(before, (rows[c.id], c.score));
      } else {
        assert before + [] == before;
      }
    }
  }

  lemma LaterIsFurther(before: seq<(Record, real)>, found: seq<Match>, n: nat)
    requires n < |found| && forall e :: e in before ==> Match(e.0.id, e.1) in found[..n]
    requires forall i, j :: 0 <= i < j < |found| ==> found[i].id != found[j].id && found[i].score >= found[j].score
    ensures forall k :: 0 <= k < |before| ==> before[k].0.id != found[n].id && before[k].1 >= found[n].score
  {
    forall k | 0 <= k < |before| ensures before[k].0.id != found[n].id && before[k].1 >= found[n].score {
      assert before[k] in before;
      var i :| 0 <= i < n && found[i] == Match(before[k].0.id, before[k].1);
    }
  }

  // ---------------------------------------------------------------- what it means

  /** Matching entries whose row recall does not show. */
  ghost function Dead(similarity: Similarity, s: State, query: Embedding, scope: Scope, now: Time): set<Id> {
    set id | id in s.index && MayMatch(similarity, s.index, query, ScopeFilter(scope), id) && !Shows(s.rows, id, scope, now)
  }

  /** What a match leads to is shown, or the match is dead. */
  lemma {:induction false} ShownOrDead(rows: Rows, found: seq<Match>, scope: Scope, now: Time)
    requires forall i, j :: 0 <= i < j < |found| ==> found[i].id != found[j].id
    ensures |found| == |Shown(rows, found, scope, now)| + |DeadIn(rows, found, scope, now)|
  {
    if found != [] {
      ShownOrDead(rows, found[..|found| - 1], scope, now);
      OneMoreDead(rows, found, scope, now);
    }
  }

  lemma DeadInAreDead(similarity: Similarity, s: State, query: Embedding, scope: Scope, now: Time, found: seq<Match>)
    requires forall i :: 0 <= i < |found| ==> MayMatch(similarity, s.index, query, ScopeFilter(scope), found[i].id)
    ensures DeadIn(s.rows, found, scope, now) <= Dead(similarity, s, query, scope, now)
    ensures |DeadIn(s.rows, found, scope, now)| <= |Dead(similarity, s, query, scope, now)|
  {
    if DeadIn(s.rows, found, scope, now) != Dead(similarity, s, query, scope, now) {
      SubsetSize(DeadIn(s.rows, found, scope, now), Dead(similarity, s, query, scope, now));
    }
  }

  lemma OneMoreDead(rows: Rows, found: seq<Match>, scope: Scope, now: Time)
    requires found != [] && forall i, j :: 0 <= i < j < |found| ==> found[i].id != found[j].id
    ensures var n := |found| - 1;
            && DeadIn(rows, found, scope, now)
            == DeadIn(rows, found[..n], scope, now) + (if Shows(rows, found[n].id, scope, now) then {} else {found[n].id})
            && found[n].id !in DeadIn(rows, found[..n], scope, now)
  {
    var n := |found| - 1;
    assert found == found[..n] + [found[n]];
    forall m | m in found[..n] ensures m.id != found[n].id {
    }
  }

  ghost function DeadIn(rows: Rows, found: seq<Match>, scope: Scope, now: Time): set<Id> {
    set m | m in found && !Shows(rows, m.id, scope, now) :: m.id
  }

  lemma {:induction false} ShownIfFound(rows: Rows, found: seq<Match>, scope: Scope, now: Time, i: nat)
    requires i < |found| && Shows(rows, found[i].id, scope, now)
    ensures (rows[found[i].id], found[i].score) in Shown(rows, found, scope, now)
  {
    if i < |found| - 1 {
      ShownIfFound(rows, found[..|found| - 1], scope, now, i);
    }
  }

  /**
   * In whatever run the engine got to its state, failures included: what semantic recall answers is stored, active, inside
   * the scope and within its window, each record once, with the similarity of the query to its own text, by falling
   * similarity and `topK` at most.
   */
  lemma RecallIsSound(cfg: Config, run: seq<Move>, queryText: string, topK: nat, scope: Scope, now: Time,
                      found: seq<Match>)
    requires IsRun(cfg, EMPTY, run)
    requires AreNearest(cfg.similarity, Last(EMPTY, run).index, cfg.embed(queryText), OverFetch(topK), ScopeFilter(scope),
                        found)
    ensures var s := Last(EMPTY, run); var answer := Cut(Shown(s.rows, found, scope, now), topK);
            && |answer| <= topK
            && (forall i :: 0 <= i < |answer| ==> var r := answer[i].0;
                  && r.id in s.rows && s.rows[r.id] == r && r.status == Active && scope.Contains(r.scope)
                  && (r.validFrom.Some? ==> r.validFrom.value <= now) && (r.validTo.Some? ==> now < r.validTo.value)
                  && answer[i].1 == cfg.similarity(cfg.embed(queryText), cfg.embed(r.text)) > 0.0)
            && (forall i, j :: 0 <= i < j < |answer| ==>
                  answer[i].0.id != answer[j].0.id && answer[i].1 >= answer[j].1)
  {
    RunStaysHonest(cfg, run);
    SoundIn(cfg, Last(EMPTY, run), queryText, topK, scope, now, found);
  }

  /** Every entry with a row embeds that row's own text. */
  ghost predicate OwnTexts(cfg: Config, s: State) {
    WellKeyed(s.rows) && forall id :: id in s.index && id in s.rows ==> IsOwn(cfg, s.index[id], s.rows[id])
  }

  lemma SoundIn(cfg: Config, s: State, queryText: string, topK: nat, scope: Scope, now: Time, found: seq<Match>)
    requires OwnTexts(cfg, s)
    requires AreNearest(cfg.similarity, s.index, cfg.embed(queryText), OverFetch(topK), ScopeFilter(scope), found)
    ensures var answer := Cut(Shown(s.rows, found, scope, now), topK);
            && |answer| <= topK
            && (forall i :: 0 <= i < |answer| ==> var r := answer[i].0;
                  && r.id in s.rows && s.rows[r.id] == r && r.status == Active && scope.Contains(r.scope)
                  && (r.validFrom.Some? ==> r.validFrom.value <= now) && (r.validTo.Some? ==> now < r.validTo.value)
                  && answer[i].1 == cfg.similarity(cfg.embed(queryText), cfg.embed(r.text)) > 0.0)
            && (forall i, j :: 0 <= i < j < |answer| ==>
                  answer[i].0.id != answer[j].0.id && answer[i].1 >= answer[j].1)
  {
    var shown := Shown(s.rows, found, scope, now);
    ShownAreSimilar(cfg, s, cfg.embed(queryText), OverFetch(topK), scope, now, found);
    ShownIsRanked(s.rows, found, scope, now);
    forall i | 0 <= i < |Cut(shown, topK)| ensures Cut(shown, topK)[i] in shown {
    }
  }

  lemma ShownAreSimilar(cfg: Config, s: State, query: Embedding, n: nat, scope: Scope, now: Time, found: seq<Match>)
    requires OwnTexts(cfg, s) && AreNearest(cfg.similarity, s.index, query, n, ScopeFilter(scope), found)
    ensures forall e :: e in Shown(s.rows, found, scope, now) ==>
              && Shows(s.rows, e.0.id, scope, now) && s.rows[e.0.id] == e.0
              && e.1 == cfg.similarity(query, cfg.embed(e.0.text)) > 0.0
  {
    ShownAreMatches(s.rows, found, scope, now);
    forall e | e in Shown(s.rows, found, scope, now)
      ensures e.1 == cfg.similarity(query, cfg.embed(e.0.text)) > 0.0
    {
      var i :| 0 <= i < |found| && found[i] == Match(e.0.id, e.1);
      assert IsOwn(cfg, s.index[e.0.id], s.rows[e.0.id]);
    }
  }

  /**
   * And it is exact as long as no more matches die than are fetched beyond `topK`: an active record inside the scope and
   * its window that is indexed, has the dimensions of the query and a positive similarity to it is left out only when
   * `topK` others are answered that are all at least as similar.
   */
  lemma RecallIsExact(cfg: Config, run: seq<Move>, queryText: string, topK: nat, scope: Scope, now: Time,
                      found: seq<Match>, id: Id)
    requires IsRun(cfg, EMPTY, run)
    requires AreNearest(cfg.similarity, Last(EMPTY, run).index, cfg.embed(queryText), OverFetch(topK), ScopeFilter(scope),
                        found)
    requires |Dead(cfg.similarity, Last(EMPTY, run), cfg.embed(queryText), scope, now)|
             <= if 2 * topK <= 0xFFFF_FFFF then topK else 0xFFFF_FFFF - topK
    requires var s := Last(EMPTY, run);
             && id in s.index && id in s.rows && s.rows[id].status == Active && scope.Contains(s.rows[id].scope)
             && (s.rows[id].validFrom.Some? ==> s.rows[id].validFrom.value <= now)
             && (s.rows[id].validTo.Some? ==> now < s.rows[id].validTo.value)
             && |cfg.embed(s.rows[id].text)| == |cfg.embed(queryText)|
             && cfg.similarity(cfg.embed(queryText), cfg.embed(s.rows[id].text)) > 0.0
    ensures var s := Last(EMPTY, run); var answer := Cut(Shown(s.rows, found, scope, now), topK);
            || (exists i :: 0 <= i < |answer| && answer[i].0 == s.rows[id])
            || (|answer| == topK && forall i :: 0 <= i < |answer| ==>
                  answer[i].1 >= cfg.similarity(cfg.embed(queryText), cfg.embed(s.rows[id].text)))
  {
    RunStaysHonest(cfg, run);
    ExactIn(cfg, Last(EMPTY, run), queryText, topK, scope, now, found, id);
  }

  lemma ExactIn(cfg: Config, s: State, queryText: string, topK: nat, scope: Scope, now: Time, found: seq<Match>, id: Id)
    requires OwnTexts(cfg, s)
    requires AreNearest(cfg.similarity, s.index, cfg.embed(queryText), OverFetch(topK), ScopeFilter(scope), found)
    requires topK + |Dead(cfg.similarity, s, cfg.embed(queryText), scope, now)| <= OverFetch(topK)
    requires id in s.index && Shows(s.rows, id, scope, now)
    requires |cfg.embed(s.rows[id].text)| == |cfg.embed(queryText)|
    requires cfg.similarity(cfg.embed(queryText), cfg.embed(s.rows[id].text)) > 0.0
    ensures var answer := Cut(Shown(s.rows, found, scope, now), topK);
            || (exists i :: 0 <= i < |answer| && answer[i].0 == s.rows[id])
            || (|answer| == topK && forall i :: 0 <= i < |answer| ==>
                  answer[i].1 >= cfg.similarity(cfg.embed(queryText), cfg.embed(s.rows[id].text)))
  {
    var query := cfg.embed(queryText);
    LiveMayMatch(cfg, s, query, scope, id);
    if i :| 0 <= i < |found| && found[i].id == id {
      FoundIsExact(s.rows, topK, scope, now, found, i);
    } else {
      ShownOrDead(s.rows, found, scope, now);
      DeadInAreDead(cfg.similarity, s, query, scope, now, found);
      ShownScoresAtLeast(s.rows, found, scope, now, cfg.similarity(query, cfg.embed(s.rows[id].text)));
    }
  }

  lemma FoundIsExact(rows: Rows, topK: nat, scope: Scope, now: Time, found: seq<Match>, i: nat)
    requires WellKeyed(rows) && i < |found| && Shows(rows, found[i].id, scope, now)
    requires forall i, j :: 0 <= i < j < |found| ==> found[i].id != found[j].id && found[i].score >= found[j].score
    ensures var answer := Cut(Shown(rows, found, scope, now), topK);
            || (exists k :: 0 <= k < |answer| && answer[k].0 == rows[found[i].id])
            || (|answer| == topK && forall k :: 0 <= k < |answer| ==> answer[k].1 >= found[i].score)
  {
    ShownIsRanked(rows, found, scope, now);
    ShownIfFound(rows, found, scope, now, i);
    CutIsBest(Shown(rows, found, scope, now), topK, (rows[found[i].id], found[i].score));
  }

  /** What recall may show of the index, a search under the scope's filter may match. */
  lemma LiveMayMatch(cfg: Config, s: State, query: Embedding, scope: Scope, id: Id)
    requires OwnTexts(cfg, s) && id in s.index && id in s.rows && scope.Contains(s.rows[id].scope)
    requires |cfg.embed(s.rows[id].text)| == |query| && cfg.similarity(query, cfg.embed(s.rows[id].text)) > 0.0
    ensures MayMatch(cfg.similarity, s.index, query, ScopeFilter(scope), id)
    ensures s.index[id].embedding == cfg.embed(s.rows[id].text)
  {
    assert IsOwn(cfg, s.index[id], s.rows[id]);
    assert scope.(organization := None).Contains(s.rows[id].scope);
  }

  lemma ShownScoresAtLeast(rows: Rows, found: seq<Match>, scope: Scope, now: Time, least: real)
    requires WellKeyed(rows) && forall i :: 0 <= i < |found| ==> found[i].score >= least
    ensures var shown := Shown(rows, found, scope, now); forall i :: 0 <= i < |shown| ==> shown[i].1 >= least
  {
    ShownAreMatches(rows, found, scope, now);
    var shown := Shown(rows, found, scope, now);
    forall i | 0 <= i < |shown| ensures shown[i].1 >= least {
      assert shown[i] in shown;
    }
  }

  /** A list in falling order, cut: what is left out is no better than what is kept. */
  lemma CutIsBest(shown: seq<(Record, real)>, topK: nat, e: (Record, real))
    requires Ranked(shown) && e in shown
    ensures var kept := Cut(shown, topK);
            e in kept || (|kept| == topK && forall i :: 0 <= i < topK ==> kept[i].1 >= e.1)
  {
    var k :| 0 <= k < |shown| && shown[k] == e;
    if k < topK {
      assert Cut(shown, topK)[k] == e;
    }
  }

  /** Where index and store agree, matches die only for archived records and those of another organization. */
  lemma FewDie(cfg: Config, run: seq<Move>, query: Embedding, scope: Scope, now: Time, id: Id)
    requires IsCompleteRun(cfg, EMPTY, run) && id in Dead(cfg.similarity, Last(EMPTY, run), query, scope, now)
    ensures var s := Last(EMPTY, run);
            id in s.rows && (s.rows[id].status == Archived
                             || (scope.organization.Some? && s.rows[id].scope.organization != scope.organization))
  {
    RunAgrees(cfg, run);
    assert IsOwn(cfg, Last(EMPTY, run).index[id], Last(EMPTY, run).rows[id]);
    assert scope.(organization := None).Contains(Last(EMPTY, run).rows[id].scope);
    assert Last(EMPTY, run).rows[id].status == Active ==> IsActive(Last(EMPTY, run), id);
  }
}
