/** The in-process providers: canonical store, vector index and entity graph. */
module Stores {
  import opened Domain
  import opened Machine
  import Sorting

  class InMemoryStore {
    const kw: Keywords
    var records: Rows

    ghost predicate Valid() reads this { WellKeyed(records) }

    constructor (kw: Keywords)
      ensures Valid() && records == map[] && this.kw == kw
    {
      this.kw := kw;
      records := map[];
    }

    method Put(memory: Record)
      requires Valid()
      modifies this
      ensures Valid() && records == old(records)[memory.id := memory]
    {
      records := records[memory.id := memory];
    }

    method Get(id: Id, scope: Scope) returns (r: Option<Record>)
      ensures r.Some? <==> id in records && scope.Contains(records[id].scope)
      ensures r.Some? ==> r.value == records[id]
    {
      if id in records && scope.Contains(records[id].scope) {
        return Some(records[id]);
      }
      r := None;
    }

    method Update(memory: Record) returns (r: Result<Record>)
      requires Valid()
      modifies this
      ensures Valid()
      ensures memory.id in old(records) ==> r == Ok(memory) && records == old(records)[memory.id := memory]
      ensures memory.id !in old(records) ==> r == Err(NotFound) && records == old(records)
    {
      if memory.id !in records {
        return Err(NotFound);
      }
      records := records[memory.id := memory];
      r := Ok(memory);
    }

    /** Deleting what the scope does not see is a silent no-op. */
    method Delete(id: Id, scope: Scope)
      requires Valid()
      modifies this
      ensures Valid()
      ensures records == if id in old(records) && scope.Contains(old(records)[id].scope) then old(records) - {id}
                         else old(records)
    {
      if id in records && !scope.Contains(records[id].scope) {
        return;
      }
      records := records - {id};
    }

    method Query(q: Domain.Query, clock: Time) returns (r: Result<seq<Record>>)
      requires Valid()
      ensures r.Ok? <==> 0 < q.limit <= 1_000 && (q.text.Some? ==> !kw.blank(q.text.value))
      ensures r.Err? ==> r.error == Validation
      ensures r.Ok? ==> IsAnswer(kw, records, q, clock, r.value)
    {
      if !ValidQuery(kw, q) {
        return Err(Validation);
      }
      var left, hits := records.Keys, [];
      while left != {}
        invariant left <= records.Keys
        invariant Found(hits, Matching(kw, records, q, clock) - left)
        decreases left
      {
        var id :| id in left;
        left := left - {id};
        if Matches(kw, records[id], q, clock) {
          FoundMore(hits, Matching(kw, records, q, clock) - left - {id}, id);
          hits := hits + [records[id]];
          assert Matching(kw, records, q, clock) - left == Matching(kw, records, q, clock) - left - {id} + {id};
        } else {
          assert Matching(kw, records, q, clock) - left == Matching(kw, records, q, clock) - (left + {id});
        }
      }
      assert Matching(kw, records, q, clock) - left == Matching(kw, records, q, clock);
      r := Ok(Sorting.Top(Newer, hits, q.limit));
      TopIsAnswer(kw, records, q, clock, hits);
    }

    /** `hits` lists the rows `ids`, once each. */
    ghost predicate Found(hits: seq<Record>, ids: set<Id>)
      reads this
    {
      && DistinctIds(hits) && Ids(hits) == ids
      && forall i :: 0 <= i < |hits| ==> hits[i].id in records && records[hits[i].id] == hits[i]
    }

    lemma FoundMore(hits: seq<Record>, ids: set<Id>, id: Id)
      requires Valid() && Found(hits, ids) && id in records && id !in ids
      ensures Found(hits + [records[id]], ids + {id})
    {
      var more := hits + [records[id]];
      forall i | 0 <= i < |hits| ensures hits[i].id != id {
        assert hits[i].id in Ids(hits);
      }
      assert Ids(more) == ids + {id} by {
        forall x | x in ids ensures x in Ids(more) {
          var i :| 0 <= i < |hits| && hits[i].id == x;
          assert more[i].id == x;
        }
        assert more[|hits|].id == id;
      }
    }
  }

  /** Sorting and cutting the full list of matching rows gives an answer. */
  lemma TopIsAnswer(kw: Keywords, rows: Rows, q: Query, clock: Time, hits: seq<Record>)
    requires WellKeyed(rows) && DistinctIds(hits) && Ids(hits) == Matching(kw, rows, q, clock)
    requires forall i :: 0 <= i < |hits| ==> hits[i].id in rows && rows[hits[i].id] == hits[i]
    ensures IsAnswer(kw, rows, q, clock, Sorting.Top(Newer, hits, q.limit))
  {
    var top := Sorting.Top(Newer, hits, q.limit);
    var key := (r: Record) => r.id;
    assert Sorting.DistinctBy(key, hits);
    Sorting.TopIsTop(Newer, key, hits, q.limit);
    forall i, j | 0 <= i < j < |top| ensures top[i].id != top[j].id {
      assert key(top[i]) != key(top[j]);
    }
    forall i | 0 <= i < |top| ensures top[i].id in rows && rows[top[i].id] == top[i] && Matches(kw, top[i], q, clock) {
      assert top[i] in hits;
      assert top[i].id in Ids(hits);
    }
    forall id | id in Matching(kw, rows, q, clock) && id !in Ids(top) ensures rows[id] in hits && rows[id] !in top {
      LeftOutIsListed(rows, hits, top, id);
    }
  }

  lemma LeftOutIsListed(rows: Rows, hits: seq<Record>, top: seq<Record>, id: Id)
    requires id in Ids(hits) && id !in Ids(top) && id in rows && rows[id].id == id
    requires forall i :: 0 <= i < |hits| ==> hits[i].id in rows && rows[hits[i].id] == hits[i]
    ensures rows[id] in hits && rows[id] !in top
  {
    var i :| 0 <= i < |hits| && hits[i].id == id;
    assert hits[i] == rows[id];
  }

  /** With pairwise distinct creation stamps a query has one answer only. */
  lemma AnswerIsUnique(kw: Keywords, rows: Rows, q: Query, clock: Time, a: seq<Record>, b: seq<Record>)
    requires IsAnswer(kw, rows, q, clock, a) && IsAnswer(kw, rows, q, clock, b) && WellKeyed(rows)
    requires DistinctStamps(rows)
    ensures a == b
  {
    var all := set id | id in Matching(kw, rows, q, clock) :: rows[id];
    AnswerIsTop(kw, rows, q, clock, a);
    AnswerIsTop(kw, rows, q, clock, b);
    assert Sorting.NoTies(Newer, all) by {
      assert forall x, y :: x in all && y in all && x.createdAt == y.createdAt ==> x.id == y.id;
    }
    Sorting.TopIsUnique(Newer, (r: Record) => r.id, all, q.limit, a, b);
  }

  lemma AnswerIsTop(kw: Keywords, rows: Rows, q: Query, clock: Time, hits: seq<Record>)
    requires IsAnswer(kw, rows, q, clock, hits) && WellKeyed(rows)
    ensures Sorting.IsTop(Newer, (r: Record) => r.id, (set id | id in Matching(kw, rows, q, clock) :: rows[id]),
                          q.limit, hits)
  {
    var all := set id | id in Matching(kw, rows, q, clock) :: rows[id];
    forall i | 0 <= i < |hits| ensures hits[i] in all {
      assert hits[i].id in Matching(kw, rows, q, clock);
    }
    forall x | x in all && x !in hits ensures |hits| == q.limit && forall i :: 0 <= i < |hits| ==> Newer(hits[i], x) {
      assert x == rows[x.id] && forall i :: 0 <= i < |hits| ==> hits[i] == rows[hits[i].id] && hits[i] != x;
      assert x.id !in Ids(hits);
    }
  }

  // --------------------------------------------------------------- vector index

  datatype Match = Match(id: Id, score: real)

  predicate Closer(a: Match, b: Match) { a.score >= b.score }

  class InMemoryVectorStore {
    const similarity: (Embedding, Embedding) -> real
    var vectors: map<Id, VectorRecord>

    constructor (similarity: (Embedding, Embedding) -> real)
      ensures vectors == map[] && this.similarity == similarity
    {
      this.similarity := similarity;
      vectors := map[];
    }

    method Upsert(id: Id, vector: VectorRecord)
      modifies this
      ensures vectors == old(vectors)[id := vector]
    {
      vectors := vectors[id := vector];
    }

    method Delete(id: Id)
      modifies this
      ensures vectors == old(vectors) - {id}
    {
      vectors := vectors - {id};
    }

    method ListIds() returns (ids: set<Id>)
      ensures ids == vectors.Keys
    {
      ids := vectors.Keys;
    }

    /** A vector passes the metadata filter, has the dimensions asked for, and scores above zero. */
    predicate Qualifies(id: Id, query: Embedding, filter: Metadata)
      reads this
    {
      && id in vectors
      && FilterMatches(filter, vectors[id].metadata)
      && |vectors[id].embedding| == |query|
      && similarity(query, vectors[id].embedding) > 0.0
    }

    /** The `topK` closest qualifying vectors with their scores; of the rest none is closer. */
    ghost predicate IsNearest(query: Embedding, topK: nat, filter: Metadata, found: seq<Match>)
      reads this
    {
      && |found| <= topK
      && (forall i :: 0 <= i < |found| ==>
            Qualifies(found[i].id, query, filter) && found[i].score == similarity(query, vectors[found[i].id].embedding))
      && (forall i, j :: 0 <= i < j < |found| ==> found[i].id != found[j].id && Closer(found[i], found[j]))
      && (forall id :: Qualifies(id, query, filter) && (forall i :: 0 <= i < |found| ==> found[i].id != id) ==>
            |found| == topK && forall i :: 0 <= i < |found| ==> found[i].score >= similarity(query, vectors[id].embedding))
    }

    method Search(query: Embedding, topK: nat, filter: Metadata) returns (r: Result<seq<Match>>)
      ensures r.Err? <==> topK == 0
      ensures r.Ok? ==> IsNearest(query, topK, filter, r.value)
    {
      if topK == 0 {
        return Err(Validation);
      }
      var left, scored := vectors.Keys, [];
      while left != {}
        invariant left <= vectors.Keys
        invariant Scored(scored, query, filter, vectors.Keys - left)
        decreases left
      {
        var id :| id in left;
        left := left - {id};
        ghost var seen := vectors.Keys - (left + {id});
        assert vectors.Keys - left == seen + {id};
        if Qualifies(id, query, filter) {
          ScoredMore(scored, query, filter, seen, id);
          scored := scored + [Match(id, similarity(query, vectors[id].embedding))];
        }
      }
      r := Ok(Sorting.Top(Closer, scored, topK));
      assert vectors.Keys - left == vectors.Keys;
      TopIsNearest(scored, query, topK, filter);
    }

    ghost predicate Scored(scored: seq<Match>, query: Embedding, filter: Metadata, seen: set<Id>)
      reads this
    {
      && (forall i :: 0 <= i < |scored| ==>
            && scored[i].id in seen && Qualifies(scored[i].id, query, filter)
            && scored[i].score == similarity(query, vectors[scored[i].id].embedding))
      && (forall i, j :: 0 <= i < j < |scored| ==> scored[i].id != scored[j].id)
      && (forall id :: id in seen && Qualifies(id, query, filter) ==> exists i :: 0 <= i < |scored| && scored[i].id == id)
    }

    lemma ScoredMore(scored: seq<Match>, query: Embedding, filter: Metadata, seen: set<Id>, id: Id)
      requires Scored(scored, query, filter, seen) && id !in seen && Qualifies(id, query, filter)
      ensures Scored(scored + [Match(id, similarity(query, vectors[id].embedding))], query, filter, seen + {id})
    {
      var more := scored + [Match(id, similarity(query, vectors[id].embedding))];
      forall x | x in seen + {id} && Qualifies(x, query, filter) ensures exists i :: 0 <= i < |more| && more[i].id == x {
        if x == id {
          assert more[|scored|].id == id;
        } else {
          var i :| 0 <= i < |scored| && scored[i].id == x;
          assert more[i].id == x;
        }
      }
    }

    lemma TopIsNearest(scored: seq<Match>, query: Embedding, topK: nat, filter: Metadata)
      requires Scored(scored, query, filter, vectors.Keys)
      ensures IsNearest(query, topK, filter, Sorting.Top(Closer, scored, topK))
    {
      var top := Sorting.Top(Closer, scored, topK);
      var key := (m: Match) => m.id;
      assert Sorting.DistinctBy(key, scored);
      Sorting.TopIsTop(Closer, key, scored, topK);
      forall i, j | 0 <= i < j < |top| ensures top[i].id != top[j].id {
        assert key(top[i]) != key(top[j]);
      }
      forall i | 0 <= i < |top|
        ensures Qualifies(top[i].id, query, filter) && top[i].score == similarity(query, vectors[top[i].id].embedding)
      {
        assert top[i] in scored;
      }
      forall id | Qualifies(id, query, filter) && (forall i :: 0 <= i < |top| ==> top[i].id != id)
        ensures |top| == topK
        ensures forall i :: 0 <= i < |top| ==> top[i].score >= similarity(query, vectors[id].embedding)
      {
        var k :| 0 <= k < |scored| && scored[k].id == id;
        assert scored[k] !in top;
        assert forall i :: 0 <= i < |top| ==> Closer(top[i], scored[k]);
      }
    }
  }

  // --------------------------------------------------------------- entity graph

  class InMemoryGraphStore {
    var edges: seq<Relation>

    ghost function Edges(): set<Relation> reads this { set e | e in edges }

    ghost predicate Valid() reads this { forall i, j :: 0 <= i < j < |edges| ==> edges[i] != edges[j] }

    constructor ()
      ensures Valid() && edges == [] && Edges() == {}
    {
      edges := [];
    }

    /** Adding an edge twice is the same as adding it once. */
    method AddRelation(relation: Relation)
      requires Valid()
      modifies this
      ensures Valid() && Edges() == old(Edges()) + {relation}
    {
      if relation in edges {
        return;
      }
      edges := edges + [relation];
    }

    /** Removes all edges justified by one memory, keeping the others in order. */
    method RemoveEvidence(evidence: Id)
      requires Valid()
      modifies this
      ensures Valid()
      ensures Edges() == set e | e in old(Edges()) && e.evidence != evidence
    {
      var kept: seq<Relation> := [];
      for i := 0 to |edges|
        invariant edges == old(edges)
        invariant forall e :: e in kept <==> e in edges[..i] && e.evidence != evidence
        invariant forall x, y :: 0 <= x < y < |kept| ==> kept[x] != kept[y]
      {
        assert edges[..i + 1] == edges[..i] + [edges[i]];
        assert edges[i] !in edges[..i];
        if edges[i].evidence != evidence {
          kept := kept + [edges[i]];
        }
      }
      assert edges[..|edges|] == edges;
      edges := kept;
    }
  }
}
