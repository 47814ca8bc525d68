/** What the ranking of hybrid recall means: the weights, the fading of old facts, and what outranks what. */
module Ranking {
  import opened Domain
  import opened Machine
  import opened Recall
  import Stores
  import Sorting

  // -------------------------------------------------------- what steps contribute

  /** What a store step looks for: active rows of the scope that hold at its instant, by subject or by keyword. */
  ghost predicate Sought(kw: Keywords, request: Request, step: PlanStep, r: Record) {
    && r.status == Active && request.scope.Contains(r.scope)
    && (step.types == [] || r.memoryType in step.types)
    && (r.validFrom.Some? ==> r.validFrom.value <= step.validAt)
    && (r.validTo.Some? ==> step.validAt < r.validTo.value)
    && (step.kind.ExactSubject? ==> request.subject.Some? && r.subject == request.subject)
    && (step.kind.Keyword? ==> request.keywords != [] && kw.mentions(r.text, request.keywords[0]))
  }

  ghost predicate Overlooked(x: HybridExecutor, request: Request, step: PlanStep, hits: seq<Hit>, id: Id)
    reads x.store
  {
    && id in x.store.records && Sought(x.store.kw, request, step, x.store.records[id])
    && forall i :: 0 <= i < |hits| ==> hits[i].record.id != id
  }

  /**
   * A store step contributes rows that it looks for, up to its limit but at least one, all with one similarity: 0.95 for
   * a subject and 0.7 for a keyword. What it looks for and leaves out is no newer than anything it contributes.
   */
  lemma StoreStepMeans(x: HybridExecutor, request: Request, step: PlanStep, now: Time, hits: seq<Hit>)
    requires x.Valid() && x.StepHits(request, step, now, hits)
    requires step.provider.StoreProvider? && (step.kind.ExactSubject? || step.kind.Keyword?)
    ensures forall i :: 0 <= i < |hits| ==>
              && hits[i].record.id in x.store.records && x.store.records[hits[i].record.id] == hits[i].record
              && Sought(x.store.kw, request, step, hits[i].record)
              && hits[i].sim == if step.kind.ExactSubject? then 0.95 else 0.7
    ensures var most := if step.limit == 0 then 1 else step.limit;
            && |hits| <= most
            && forall id :: Overlooked(x, request, step, hits, id) ==>
                 && |hits| == most
                 && forall i :: 0 <= i < |hits| ==> hits[i].record.createdAt >= x.store.records[id].createdAt
  {
    if step.kind.ExactSubject? && request.subject.Some? {
      AnsweredMeans(x, request, step, x.SubjectQuery(request, step), now, hits);
    } else if step.kind.Keyword? && request.keywords != [] {
      AnsweredMeans(x, request, step, x.KeywordQuery(request, step), now, hits);
    }
  }

  lemma AnsweredMeans(x: HybridExecutor, request: Request, step: PlanStep, q: Query, now: Time, hits: seq<Hit>)
    requires x.Valid() && IsAnswer(x.store.kw, x.store.records, q, now, Records(hits))
    requires forall r :: Sought(x.store.kw, request, step, r) <==> Matches(x.store.kw, r, q, now)
    ensures |hits| <= q.limit
    ensures forall i :: 0 <= i < |hits| ==>
              && hits[i].record.id in x.store.records && x.store.records[hits[i].record.id] == hits[i].record
              && Sought(x.store.kw, request, step, hits[i].record)
    ensures forall id :: Overlooked(x, request, step, hits, id) ==>
              |hits| == q.limit && forall i :: 0 <= i < |hits| ==> hits[i].record.createdAt >= x.store.records[id].createdAt
  {
    var rs := Records(hits);
    forall i | 0 <= i < |hits| ensures rs[i] == hits[i].record && Matches(x.store.kw, rs[i], q, now) {
    }
    forall id | Overlooked(x, request, step, hits, id)
      ensures id in Matching(x.store.kw, x.store.records, q, now) && id !in Ids(rs)
    {
    }
    forall id, i | id in Matching(x.store.kw, x.store.records, q, now) && id !in Ids(rs) && 0 <= i < |hits|
      ensures hits[i].record.createdAt >= x.store.records[id].createdAt
    {
      assert Newer(rs[i], x.store.records[id]);
    }
  }

  /**
   * A semantic step contributes rows of the scope whose vector has the dimensions of the query and a positive similarity
   * to it, each with that similarity, whatever their status. A vector that is closer than something it contributes, and
   * has a row in the scope, it contributes too.
   */
  lemma VectorStepMeans(x: HybridExecutor, request: Request, step: PlanStep, now: Time, hits: seq<Hit>)
    requires x.Valid() && x.StepHits(request, step, now, hits) && x.cfg.vector
    requires step.provider.VectorProvider? && step.kind.Semantic?
    ensures |hits| <= if step.limit == 0 then 1 else step.limit
    ensures var query := x.cfg.embed(step.kind.queryText); forall h :: h in hits ==>
              && h.record.id in x.store.records && x.store.records[h.record.id] == h.record
              && request.scope.Contains(h.record.scope) && h.record.id in x.vector.vectors
              && |x.vector.vectors[h.record.id].embedding| == |query|
              && h.sim == x.vector.similarity(query, x.vector.vectors[h.record.id].embedding) > 0.0
    ensures var query := x.cfg.embed(step.kind.queryText); forall id, h ::
              && id in x.vector.vectors && id in x.store.records && request.scope.Contains(x.store.records[id].scope)
              && |x.vector.vectors[id].embedding| == |query|
              && h in hits && x.vector.similarity(query, x.vector.vectors[id].embedding) > h.sim ==>
              exists g :: g in hits && g.record == x.store.records[id]
  {
    var query, scope := x.cfg.embed(step.kind.queryText), request.scope;
    var found: seq<Stores.Match> :|
      x.vector.IsNearest(query, Max1(step.limit), map[], found) && hits == x.Hydrated(found, scope);
    HydratedMeans(x, found, scope);
    forall h | h in hits ensures exists m :: m in found && m.id == h.record.id && m.score == h.sim {
    }
    forall id, h | id in x.vector.vectors && id in x.store.records && scope.Contains(x.store.records[id].scope)
                   && |x.vector.vectors[id].embedding| == |query|
                   && h in hits && x.vector.similarity(query, x.vector.vectors[id].embedding) > h.sim
      ensures exists g :: g in hits && g.record == x.store.records[id]
    {
      CloserIsFound(x, query, Max1(step.limit), found, id, h);
    }
  }

  lemma CloserIsFound(x: HybridExecutor, query: Embedding, topK: nat, found: seq<Stores.Match>, id: Id, h: Hit)
    requires x.vector.IsNearest(query, topK, map[], found)
    requires exists m :: m in found && m.id == h.record.id && m.score == h.sim
    requires id in x.vector.vectors && |x.vector.vectors[id].embedding| == |query|
    requires x.vector.similarity(query, x.vector.vectors[id].embedding) > h.sim
    ensures exists m :: m in found && m.id == id
  {
    var m :| m in found && m.id == h.record.id && m.score == h.sim;
    assert x.vector.Qualifies(m.id, query, map[]);
    assert x.vector.Qualifies(id, query, map[]);
  }

  lemma {:induction false} HydratedMeans(x: HybridExecutor, found: seq<Stores.Match>, scope: Scope)
    requires x.Valid()
    ensures |x.Hydrated(found, scope)| <= |found|
    ensures forall h :: h in x.Hydrated(found, scope) ==>
              && h.record.id in x.store.records && x.store.records[h.record.id] == h.record
              && scope.Contains(h.record.scope)
              && exists m :: m in found && m.id == h.record.id && m.score == h.sim
    ensures forall m :: m in found && m.id in x.store.records && scope.Contains(x.store.records[m.id].scope) ==>
              exists h :: h in x.Hydrated(found, scope) && h.record == x.store.records[m.id]
  {
    if found != [] {
      var n := |found| - 1;
      HydratedMeans(x, found[..n], scope);
      assert found == found[..n] + [found[n]];
      forall m | m in found && m.id in x.store.records && scope.Contains(x.store.records[m.id].scope)
        ensures exists h :: h in x.Hydrated(found, scope) && h.record == x.store.records[m.id]
      {
        if m == found[n] {
          assert Hit(x.store.records[m.id], m.score) in x.Hydrated(found, scope);
        }
      }
    }
  }

  /**
   * Why a step fails: a provider that does not answer, a blank keyword, or the lack of an embedder. A subject or a keyword
   * that the request does not name, or a vector index that is not attached, is no failure.
   */
  lemma FailureMeans(x: HybridExecutor, request: Request, step: PlanStep, down: bool)
    ensures var failure := x.StepFailure(request, step, down);
            var asks := step.provider.StoreProvider? && ((step.kind.ExactSubject? && request.subject.Some?)
                                                         || (step.kind.Keyword? && request.keywords != []));
            var embeds := step.provider.VectorProvider? && step.kind.Semantic?;
            var most := if step.limit == 0 then 1 else step.limit;
            && (failure == Some(Unsupported) <==> embeds && !x.cfg.embedder)
            && (failure == Some(Storage) <==> down && (asks || (embeds && x.cfg.embedder && x.cfg.vector)))
            && (failure == Some(Validation) <==>
                  !down && asks && (most > 1_000 || (step.kind.Keyword? && x.store.kw.blank(request.keywords[0]))))
            && (failure.None? || failure in {Some(Unsupported), Some(Storage), Some(Validation)})
  {
  }

  // ------------------------------------------------------------- what is ranked

  /**
   * A ranking stays within its budget and names each record once. Every entry is a hit that no hit supersedes, and its
   * score is the weighted sum at the record's highest similarity, times its temporal relevance. The order is by score,
   * then newest first, then by identifier.
   */
  lemma RankingMeans(hits: set<Hit>, terms: Terms, ranked: seq<Ranked>)
    requires IsRanking(hits, terms, ranked)
    ensures |ranked| <= terms.budget
    ensures forall i :: 0 <= i < |ranked| ==> EntryMeans(hits, terms, ranked[i])
    ensures forall i, j :: 0 <= i < j < |ranked| ==> var (a, b) := (ranked[i], ranked[j]);
              && a.record.id != b.record.id
              && (a.score > b.score || (a.score == b.score &&
                   (a.record.createdAt > b.record.createdAt
                    || (a.record.createdAt == b.record.createdAt && a.record.id < b.record.id))))
  {
    forall i | 0 <= i < |ranked| ensures EntryMeans(hits, terms, ranked[i]) {
      var h := HitOf(hits, terms, ranked[i]);
      ScoreMeans(h.record, h.sim, terms);
    }
    forall i, j | 0 <= i < j < |ranked| ensures NotAfter(ranked[i], ranked[j]) && KeyOf(ranked[i]) != KeyOf(ranked[j]) {
    }
  }

  ghost predicate EntryMeans(hits: set<Hit>, terms: Terms, e: Ranked) {
    exists h ::
      && h in hits && h.record == e.record
      && (forall g :: g in hits && g.record.id == h.record.id ==> g.sim <= h.sim)
      && (forall g :: g in hits ==> g.record.supersedes != Some(h.record.id))
      && Scores(h.record, h.sim, terms, e.score)
  }

  /** The weighted sum of similarity, recency, importance, confidence and authority, times the temporal relevance. */
  ghost predicate Scores(r: Record, sim: real, terms: Terms, score: real) {
    exists sum :: IsSum(r, sim, terms, sum) && score == sum * TemporalRelevance(r, terms.at)
  }

  ghost predicate IsSum(r: Record, sim: real, terms: Terms, sum: real) {
    sum == 0.55 * Clamp(sim) + 0.15 * terms.recency(r.createdAt, terms.now) + 0.12 * Clamp(r.importance)
           + 0.10 * Clamp(r.confidence) + 0.08 * Standing(r.source)
  }

  lemma HitOf(hits: set<Hit>, terms: Terms, e: Ranked) returns (h: Hit)
    requires e in Entries(hits, terms)
    ensures h in hits && MostSimilar(hits, h) && Unsuperseded(hits, h.record) && e == Entry(h, terms)
  {
    h :| h in hits && MostSimilar(hits, h) && Unsuperseded(hits, h.record) && e == Entry(h, terms);
  }

  lemma ScoreMeans(r: Record, sim: real, terms: Terms)
    ensures Scores(r, sim, terms, Score(r, sim, terms.at, terms.now, terms.recency))
  {
    SumMeans(r, sim, terms);
    Product(Composite(r, sim, terms.now, terms.recency), TemporalRelevance(r, terms.at));
  }

  lemma SumMeans(r: Record, sim: real, terms: Terms)
    ensures IsSum(r, sim, terms, Composite(r, sim, terms.now, terms.recency))
  {
  }

  lemma Product(sum: real, t: real)
    ensures Weighted(sum, t) == sum * t
  {
  }

  /** User, External, Tool, System, Agent, a tenth apart. */
  function Standing(k: SourceKind): real {
    match k
    case User => 0.9
    case External => 0.8
    case Tool => 0.7
    case System => 0.6
    case Agent => 0.5
  }

  // ----------------------------------------------------------------- components

  /** What each component is worth: a change of one of them alone, within the unit interval, moves the score by that. */
  lemma Marginals(r: Record, sim: real, at: Time, now: Time, recency: Recency, x: real, k: SourceKind, other: Recency)
    requires 0.0 <= sim <= 1.0 && 0.0 <= x <= 1.0 && 0.0 <= r.importance <= 1.0 && 0.0 <= r.confidence <= 1.0
    ensures var (score, t) := (Score(r, sim, at, now, recency), TemporalRelevance(r, at));
            && Score(r, x, at, now, recency) == score + Weighted(0.55 * (x - sim), t)
            && Score(r, sim, at, now, other)
            == score + Weighted(0.15 * (other(r.createdAt, now) - recency(r.createdAt, now)), t)
            && Score(r.(importance := x), sim, at, now, recency) == score + Weighted(0.12 * (x - r.importance), t)
            && Score(r.(confidence := x), sim, at, now, recency) == score + Weighted(0.10 * (x - r.confidence), t)
            && Score(r.(source := k), sim, at, now, recency)
            == score + Weighted(0.08 * (Standing(k) - Standing(r.source)), t)
  {
    var c, t := Composite(r, sim, now, recency), TemporalRelevance(r, at);
    Additive(c, 0.55 * (x - sim), t);
    Additive(c, 0.15 * (other(r.createdAt, now) - recency(r.createdAt, now)), t);
    Additive(c, 0.12 * (x - r.importance), t);
    Additive(c, 0.10 * (x - r.confidence), t);
    Additive(c, 0.08 * (Standing(k) - Standing(r.source)), t);
  }

  lemma Additive(a: real, b: real, t: real)
    ensures Weighted(a + b, t) == Weighted(a, t) + Weighted(b, t)
  {
  }

  /**
   * A retrievable record whose window holds counts in full. One that ended fades with the time since, one that has not
   * begun with the time until: to a half after thirty days, a third after sixty, and to a twentieth from 570 days on.
   */
  lemma RelevanceMeans(r: Record, at: Time)
    ensures var t := TemporalRelevance(r, at);
            var begun := r.validFrom.Some? ==> r.validFrom.value <= at;
            var over := r.validTo.Some? && r.validTo.value <= at;
            if begun && !over && (r.status == Active || r.status == Archived) then t == 1.0
            else if over then FadesTo(t, at - r.validTo.value)
            else if !begun then FadesTo(t, r.validFrom.value - at)
            else t == 1.0
  {
    if r.validTo.Some? && r.validTo.value <= at {
      FadedMeans(at - r.validTo.value);
    } else if r.validFrom.Some? && r.validFrom.value > at {
      FadedMeans(r.validFrom.value - at);
    }
  }

  /** The relevance `t` times one and the distance in thirty-day months is one, up to 19 months. */
  ghost predicate FadesTo(t: real, distance: Time) {
    if distance <= 19 * 30 * 86_400 then t * (1.0 + distance as real / 2_592_000.0) == 1.0 else t == 0.05
  }

  lemma FadedMeans(distance: Time)
    requires distance >= 0
    ensures FadesTo(Faded(distance), distance)
  {
    var d := 1.0 + (distance as real / 86_400.0) / 30.0;
    assert d == 1.0 + distance as real / 2_592_000.0;
    ReciprocalBound(d);
    assert d <= 20.0 <==> distance <= 19 * 30 * 86_400;
  }

  lemma ReciprocalBound(d: real)
    requires d >= 1.0
    ensures 1.0 / d < 0.05 <==> d > 20.0
    ensures (1.0 / d) * d == 1.0
  {
    var f := 1.0 / d;
    assert f * d == 1.0;
    if d > 20.0 {
      Scaled(f, 20.0, d);
    } else {
      Scaled(f, d, 20.0);
    }
  }

  lemma Scaled(f: real, x: real, y: real)
    requires f > 0.0 && x <= y
    ensures f * x <= f * y
    ensures x < y ==> f * x < f * y
  {
    assert f * y - f * x == f * (y - x);
  }

  // ------------------------------------------------------------- what decides

  /**
   * Under equal temporal relevance similarity decides from a gap of 201/275 on: a hit that is so much more similar than
   * every hit of a ranked record is ranked before it, whatever their age, importance, confidence and source.
   */
  lemma SimilarityDecides(hits: set<Hit>, terms: Terms, ranked: seq<Ranked>, h: Hit, j: nat)
    requires IsRanking(hits, terms, ranked) && OneRecordPerId(hits) && IsDecay(terms.recency) && j < |ranked|
    requires h in hits && forall g :: g in hits ==> g.record.supersedes != Some(h.record.id)
    requires TemporalRelevance(h.record, terms.at) == TemporalRelevance(ranked[j].record, terms.at)
    requires forall g :: g in hits && g.record.id == ranked[j].record.id ==> Clamp(h.sim) - Clamp(g.sim) > 201.0 / 275.0
    ensures exists i :: 0 <= i < j && ranked[i].record == h.record
  {
    var best := Best(hits, hits, h);
    assert best.record == h.record;
    assert Entry(best, terms) in Entries(hits, terms);
    var g := HitOf(hits, terms, ranked[j]);
    MoreSimilarScoresHigher(best, g, terms, h.sim);
    Outranks(hits, terms, ranked, Entry(best, terms), j);
  }

  /** An entry that scores higher than a ranked one is ranked before it. */
  lemma Outranks(hits: set<Hit>, terms: Terms, ranked: seq<Ranked>, e: Ranked, j: nat)
    requires IsRanking(hits, terms, ranked) && j < |ranked| && e in Entries(hits, terms) && e.score > ranked[j].score
    ensures exists i :: 0 <= i < j && ranked[i] == e
  {
    assert !NotAfter(ranked[j], e);
    var i :| 0 <= i < |ranked| && ranked[i] == e;
    assert i != j && !(j < i);
  }

  lemma MoreSimilarScoresHigher(a: Hit, b: Hit, terms: Terms, sim: real)
    requires IsDecay(terms.recency) && sim <= a.sim && Clamp(sim) - Clamp(b.sim) > 201.0 / 275.0
    requires TemporalRelevance(a.record, terms.at) == TemporalRelevance(b.record, terms.at)
    ensures Entry(a, terms).score > Entry(b, terms).score
  {
    var x, y := Composite(a.record, a.sim, terms.now, terms.recency), Composite(b.record, b.sim, terms.now, terms.recency);
    GapOutweighs(a, b, terms);
    RelevanceIsPositive(a.record, terms.at);
    WeightedGrows(x, y, TemporalRelevance(a.record, terms.at));
  }

  lemma WeightedGrows(x: real, y: real, t: real)
    requires x > y && t > 0.0
    ensures Weighted(x, t) > Weighted(y, t)
  {
    Scaled(t, y, x);
  }

  /** The other components differ by 0.402 at most: 0.15, 0.12, 0.10, and 0.08 of four tenths of authority. */
  lemma GapOutweighs(a: Hit, b: Hit, terms: Terms)
    requires IsDecay(terms.recency) && Clamp(a.sim) - Clamp(b.sim) > 201.0 / 275.0
    ensures Composite(a.record, a.sim, terms.now, terms.recency) > Composite(b.record, b.sim, terms.now, terms.recency)
  {
    assert 0.0 <= terms.recency(a.record.createdAt, terms.now);
    assert terms.recency(b.record.createdAt, terms.now) <= 1.0;
  }

  lemma RelevanceIsPositive(r: Record, at: Time)
    ensures TemporalRelevance(r, at) >= 0.05
  {
    if r.validTo.Some? && r.validTo.value <= at {
      FadedBounds(at - r.validTo.value);
    } else if r.validFrom.Some? && r.validFrom.value > at {
      FadedBounds(r.validFrom.value - at);
    }
  }

  /** No smaller gap would do: at each gap up to 201/275 there are two hits of which the less similar one comes first. */
  lemma GapIsSharp(gap: real) returns (a: Hit, b: Hit, terms: Terms)
    requires 0.0 <= gap <= 201.0 / 275.0
    ensures IsDecay(terms.recency) && OneRecordPerId({a, b}) && a.record.id != b.record.id
    ensures a.record.supersedes.None? && b.record.supersedes.None?
    ensures Clamp(a.sim) - Clamp(b.sim) == gap
    ensures TemporalRelevance(a.record, terms.at) == TemporalRelevance(b.record, terms.at)
    ensures forall ranked: seq<Ranked> :: IsRanking({a, b}, terms, ranked) ==> |ranked| == 2 && ranked[0].record == b.record
  {
    var old_ := NewRecord(0, MemoryType.Semantic, "", -1).(importance := 0.0, confidence := 0.0);
    var new_ := NewRecord(1, MemoryType.Semantic, "", 0).(importance := 1.0, confidence := 1.0, source := User);
    a, b := Hit(old_, gap), Hit(new_, 0.0);
    terms := Terms(2, 0, 0, (created, now) => if created == now then 1.0 else 0.0);
    var x, y := Entry(a, terms), Entry(b, terms);
    assert x.score == 0.55 * gap + 0.04 && y.score == 0.442;
    assert MostSimilar({a, b}, a) && MostSimilar({a, b}, b);
    assert Entries({a, b}, terms) == {x, y};
    forall ranked: seq<Ranked> | IsRanking({a, b}, terms, ranked) ensures |ranked| == 2 && ranked[0].record == b.record {
      BothRanked({a, b}, terms, ranked, x, y);
    }
  }

  lemma BothRanked(hits: set<Hit>, terms: Terms, ranked: seq<Ranked>, x: Ranked, y: Ranked)
    requires IsRanking(hits, terms, ranked) && Entries(hits, terms) == {x, y} && terms.budget == 2 && x != y
    requires !NotAfter(x, y)
    ensures |ranked| == 2 && ranked[0] == y
  {
    assert forall i :: 0 <= i < |ranked| ==> ranked[i] in {x, y};
    var i :| 0 <= i < |ranked| && ranked[i] == x;
    var j :| 0 <= j < |ranked| && ranked[j] == y;
    assert j < i;
  }
}
