/** Hybrid recall: run the plan's steps, merge, drop the superseded, rank, cut; and recall under a principal. */
module Recall {
  import opened Domain
  import opened Machine
  import opened Stores
  import Sorting
  import Agreement
  import Evolution
  import Faults

  // ----------------------------------------------------------------- scoring

  /** Decay of a record's age, with values between zero and one. */
  type Recency = (Time, Time) -> real

  ghost predicate IsDecay(recency: Recency) { forall created, now :: 0.0 <= recency(created, now) <= 1.0 }

  function Composite(r: Record, similarity: real, now: Time, recency: Recency): real {
    0.55 * Clamp(similarity) + 0.15 * recency(r.createdAt, now) + 0.12 * Clamp(r.importance)
    + 0.10 * Clamp(r.confidence) + 0.08 * r.source.Authority()
  }

  /** Facts outside their window fade with the distance in seconds, over thirty days, never below a twentieth. */
  function Faded(distance: Time): real
    requires distance >= 0
  {
    var f := 1.0 / (1.0 + (distance as real / 86_400.0) / 30.0);
    if f < 0.05 then 0.05 else f
  }

  function TemporalRelevance(r: Record, at: Time): real {
    if r.ValidAt(at) then 1.0
    else if r.validTo.Some? && r.validTo.value <= at then Faded(at - r.validTo.value)
    else if r.validFrom.Some? && r.validFrom.value > at then Faded(r.validFrom.value - at)
    else 1.0
  }

  function Weighted(base: real, temporal: real): real { base * temporal }

  function Score(r: Record, similarity: real, at: Time, now: Time, recency: Recency): real {
    Weighted(Composite(r, similarity, now, recency), TemporalRelevance(r, at))
  }

  lemma FadedBounds(distance: Time)
    requires distance >= 0
    ensures 0.05 <= Faded(distance) <= 1.0
  {
    var d := 1.0 + (distance as real / 86_400.0) / 30.0;
    assert d >= 1.0;
    assert 1.0 / d <= 1.0;
  }

  /** Scores stay within the unit interval, and a higher similarity never lowers one. */
  lemma ScoreIsNormal(r: Record, a: real, b: real, at: Time, now: Time, recency: Recency)
    requires IsDecay(recency) && a <= b
    ensures 0.0 <= Score(r, a, at, now, recency) <= Score(r, b, at, now, recency) <= 1.0
  {
    RelevanceBounds(r, at);
    CompositeBounds(r, a, b, now, recency);
    ScaleKeepsOrder(Composite(r, a, now, recency), Composite(r, b, now, recency), TemporalRelevance(r, at));
  }

  lemma RelevanceBounds(r: Record, at: Time)
    ensures 0.0 <= TemporalRelevance(r, at) <= 1.0
  {
    if r.validTo.Some? && r.validTo.value <= at {
      FadedBounds(at - r.validTo.value);
    } else if r.validFrom.Some? && r.validFrom.value > at {
      FadedBounds(r.validFrom.value - at);
    }
  }

  lemma CompositeBounds(r: Record, a: real, b: real, now: Time, recency: Recency)
    requires IsDecay(recency) && a <= b
    ensures 0.0 <= Composite(r, a, now, recency) <= Composite(r, b, now, recency) <= 1.0
  {
    assert 0.0 <= recency(r.createdAt, now) <= 1.0;
  }

  lemma ScaleKeepsOrder(x: real, y: real, t: real)
    requires 0.0 <= x <= y <= 1.0 && 0.0 <= t <= 1.0
    ensures 0.0 <= Weighted(x, t) <= Weighted(y, t) <= 1.0
  {
    SignOfProduct(x, t);
    SignOfProduct(y - x, t);
    SignOfProduct(1.0 - y, t);
    assert y * t - x * t == (y - x) * t;
    assert t - y * t == (1.0 - y) * t;
  }

  lemma SignOfProduct(x: real, t: real)
    requires x >= 0.0 && t >= 0.0
    ensures x * t >= 0.0
  {
  }

  // --------------------------------------------------------- what is computed

  datatype Hit = Hit(record: Record, sim: real)

  datatype Ranked = Ranked(record: Record, score: real)

  /** What the ranking depends on besides the hits: the budget, the snapshot, the clock. */
  datatype Terms = Terms(budget: nat, at: Time, now: Time, recency: Recency)

  ghost predicate OneRecordPerId(hits: set<Hit>) {
    forall a, b :: a in hits && b in hits && a.record.id == b.record.id ==> a.record == b.record
  }

  ghost predicate MostSimilar(hits: set<Hit>, h: Hit) {
    h in hits && forall g :: g in hits && g.record.id == h.record.id ==> g.sim <= h.sim
  }

  /** No candidate names this record as its predecessor. */
  ghost predicate Unsuperseded(hits: set<Hit>, r: Record) {
    forall g :: g in hits ==> g.record.supersedes != Some(r.id)
  }

  function Entry(h: Hit, terms: Terms): Ranked {
    Ranked(h.record, Score(h.record, h.sim, terms.at, terms.now, terms.recency))
  }

  /** Every surviving record, scored with its highest similarity. */
  ghost function Entries(hits: set<Hit>, terms: Terms): set<Ranked> {
    set h | h in hits && MostSimilar(hits, h) && Unsuperseded(hits, h.record) :: Entry(h, terms)
  }

  /** Score descending, then newest first, then identifier ascending. */
  predicate NotAfter(a: Ranked, b: Ranked) {
    || a.score > b.score
    || (a.score == b.score && a.record.createdAt > b.record.createdAt)
    || (a.score == b.score && a.record.createdAt == b.record.createdAt && a.record.id <= b.record.id)
  }

  function KeyOf(e: Ranked): Id { e.record.id }

  /** The best entries in order, cut to the budget. */
  ghost predicate IsRanking(hits: set<Hit>, terms: Terms, ranked: seq<Ranked>) {
    Sorting.IsTop(NotAfter, KeyOf, Entries(hits, terms), terms.budget, ranked)
  }

  /** One set of hits has one ranking, whatever order the steps or a hash map produced it in. */
  lemma RankingIsUnique(hits: set<Hit>, terms: Terms, a: seq<Ranked>, b: seq<Ranked>)
    requires OneRecordPerId(hits) && IsRanking(hits, terms, a) && IsRanking(hits, terms, b)
    ensures a == b
  {
    Sorting.TopIsUnique(NotAfter, KeyOf, Entries(hits, terms), terms.budget, a, b);
  }

  /** Neighbours in a ranking are strictly ordered. */
  lemma RankingIsStrict(hits: set<Hit>, terms: Terms, ranked: seq<Ranked>, i: nat, j: nat)
    requires IsRanking(hits, terms, ranked) && i < j < |ranked|
    ensures NotAfter(ranked[i], ranked[j]) && !NotAfter(ranked[j], ranked[i])
  {
    assert KeyOf(ranked[i]) != KeyOf(ranked[j]);
  }

  /** A record survives exactly when no other candidate names it, and some candidate always survives. */
  lemma SomethingSurvives(hits: set<Hit>, terms: Terms)
    requires OneRecordPerId(hits) && hits != {}
    requires forall h :: h in hits && h.record.supersedes.Some? ==> h.record.supersedes.value < h.record.id
    ensures Entries(hits, terms) != {}
    ensures forall h :: h in hits ==>
              ((exists e :: e in Entries(hits, terms) && e.record == h.record) <==> Unsuperseded(hits, h.record))
  {
    var last := Latest(hits);
    forall h | h in hits && Unsuperseded(hits, h.record)
      ensures exists e :: e in Entries(hits, terms) && e.record == h.record
    {
      var best := Best(hits, hits, h);
      assert Entry(best, terms) in Entries(hits, terms);
    }
    assert Unsuperseded(hits, last.record);
  }

  lemma {:induction false} Latest(hits: set<Hit>) returns (last: Hit)
    requires hits != {}
    ensures last in hits && forall h :: h in hits ==> h.record.id <= last.record.id
    decreases hits
  {
    last :| last in hits;
    if hits != {last} {
      var other := Latest(hits - {last});
      if other.record.id > last.record.id {
        last := other;
      }
    }
  }

  /** The most similar hit among `some` with the identifier of `h`. */
  lemma {:induction false} Best(hits: set<Hit>, some: set<Hit>, h: Hit) returns (best: Hit)
    requires h in some && some <= hits
    ensures best in some && best.record.id == h.record.id
    ensures forall g :: g in some && g.record.id == h.record.id ==> g.sim <= best.sim
    decreases some
  {
    best := h;
    if g :| g in some && g != h && g.record.id == h.record.id {
      if g.sim <= h.sim {
        best := Best(hits, some - {g}, h);
      } else {
        best := Best(hits, some - {h}, g);
      }
    }
  }

  // ------------------------------------------------------------ how it is done

  datatype Provider = StoreProvider | VectorProvider | WorkingProvider | GraphProvider

  datatype Lookup = ExactSubject | Keyword | Semantic(queryText: string) | GraphRelations

  datatype PlanStep = PlanStep(provider: Provider, kind: Lookup, types: seq<MemoryType>, validAt: Time, limit: nat)

  datatype Request = Request(
    scope: Scope,
    subject: Option<string>,
    keywords: seq<string>,
    validAt: Option<Time>,
    budget: nat)

  function Max1(n: nat): nat { if n == 0 then 1 else n }

  function TermsFor(request: Request, now: Time, recency: Recency): Terms {
    Terms(request.budget, if request.validAt.Some? then request.validAt.value else now, now, recency)
  }

  class HybridExecutor {
    const cfg: Config
    const store: InMemoryStore
    const vector: InMemoryVectorStore
    const recency: Recency

    constructor (cfg: Config, store: InMemoryStore, vector: InMemoryVectorStore, recency: Recency)
      ensures this.cfg == cfg && this.store == store && this.vector == vector && this.recency == recency
    {
      this.cfg, this.store, this.vector, this.recency := cfg, store, vector, recency;
    }

    ghost predicate Valid()
      reads store
    {
      store.Valid()
    }

    /**
     * A hit is a row inside the request scope that is live, or that some vector led to: the semantic step does not
     * look at the status.
     */
    ghost predicate Grounded(h: Hit, scope: Scope)
      reads store, vector
    {
      && h.record.id in store.records && store.records[h.record.id] == h.record && scope.Contains(h.record.scope)
      && (h.record.status.Active? || h.record.id in vector.vectors)
    }

    function SubjectQuery(request: Request, step: PlanStep): Query {
      Query(request.scope, step.types, [Active], request.subject, None, Some(step.validAt), Max1(step.limit))
    }

    function KeywordQuery(request: Request, step: PlanStep): Query
      requires request.keywords != []
    {
      Query(request.scope, step.types, [Active], None, Some(request.keywords[0]), Some(step.validAt), Max1(step.limit))
    }

    /** The hits are an answer of the store, all with one similarity. */
    ghost predicate FoundInStore(q: Query, now: Time, sim: real, hits: seq<Hit>)
      reads store
    {
      IsAnswer(store.kw, store.records, q, now, Records(hits)) && forall i :: 0 <= i < |hits| ==> hits[i].sim == sim
    }

    /** The matches whose row the scope can see, each with that row. */
    ghost function Hydrated(found: seq<Match>, scope: Scope): seq<Hit>
      reads store
    {
      if found == [] then [] else
      var m := found[|found| - 1];
      Hydrated(found[..|found| - 1], scope) +
      if m.id in store.records && scope.Contains(store.records[m.id].scope) then [Hit(store.records[m.id], m.score)] else []
    }

    lemma {:induction false} HydratedIsGrounded(found: seq<Match>, scope: Scope, i: nat)
      requires Valid() && i < |Hydrated(found, scope)|
      requires forall k :: 0 <= k < |found| ==> found[k].id in vector.vectors
      ensures Grounded(Hydrated(found, scope)[i], scope)
    {
      var before := found[..|found| - 1];
      if i < |Hydrated(before, scope)| {
        HydratedIsGrounded(before, scope, i);
      }
    }

    ghost predicate FoundByVectors(queryText: string, topK: nat, scope: Scope, hits: seq<Hit>)
      reads store, vector
    {
      exists found: seq<Match> ::
        vector.IsNearest(cfg.embed(queryText), topK, map[], found) && hits == Hydrated(found, scope)
    }

    /** What one step of a plan contributes. */
    ghost predicate StepHits(request: Request, step: PlanStep, now: Time, hits: seq<Hit>)
      reads store, vector
    {
      match (step.provider, step.kind)
      case (StoreProvider, ExactSubject) =>
        if request.subject.None? then hits == [] else FoundInStore(SubjectQuery(request, step), now, 0.95, hits)
      case (StoreProvider, Keyword) =>
        if request.keywords == [] then hits == [] else FoundInStore(KeywordQuery(request, step), now, 0.7, hits)
      case (VectorProvider, Semantic(text)) =>
        if !cfg.vector then hits == [] else FoundByVectors(text, Max1(step.limit), request.scope, hits)
      case _ =>
        hits == []
    }

    /** Why a step fails, when it does: `down` says that its provider does not answer. */
    function StepFailure(request: Request, step: PlanStep, down: bool): Option<Error> {
      match (step.provider, step.kind)
      case (StoreProvider, ExactSubject) =>
        if request.subject.None? then None else StoreFailure(SubjectQuery(request, step), down)
      case (StoreProvider, Keyword) =>
        if request.keywords == [] then None else StoreFailure(KeywordQuery(request, step), down)
      case (VectorProvider, Semantic(text)) =>
        if !cfg.embedder then Some(Unsupported) else if cfg.vector && down then Some(Storage) else None
      case _ =>
        None
    }

    function StoreFailure(q: Query, down: bool): Option<Error> {
      if down then Some(Storage) else if ValidQuery(store.kw, q) then None else Some(Validation)
    }

    /** Everything a step contributes is grounded. */
    lemma StepIsGrounded(request: Request, step: PlanStep, now: Time, hits: seq<Hit>, i: nat)
      requires Valid() && StepHits(request, step, now, hits) && i < |hits|
      ensures Grounded(hits[i], request.scope)
    {
      match (step.provider, step.kind) {
        case (StoreProvider, ExactSubject) =>
          assert Matches(store.kw, Records(hits)[i], SubjectQuery(request, step), now);
        case (StoreProvider, Keyword) =>
          assert Matches(store.kw, Records(hits)[i], KeywordQuery(request, step), now);
        case (VectorProvider, Semantic(text)) =>
          var found: seq<Match> :|
            vector.IsNearest(cfg.embed(text), Max1(step.limit), map[], found) && hits == Hydrated(found, request.scope);
          forall k | 0 <= k < |found| ensures found[k].id in vector.vectors {
            assert vector.Qualifies(found[k].id, cfg.embed(text), map[]);
          }
          HydratedIsGrounded(found, request.scope, i);
        case _ =>
      }
    }

    method FromStore(q: Query, now: Time, sim: real, down: bool) returns (r: Result<seq<Hit>>)
      requires Valid()
      ensures r.Ok? ==> StoreFailure(q, down).None? && FoundInStore(q, now, sim, r.value)
      ensures r.Err? ==> StoreFailure(q, down) == Some(r.error)
    {
      if down {
        return Err(Storage);
      }
      var answer := store.Query(q, now);
      if answer.Err? {
        return Err(Validation);
      }
      var hits := seq(|answer.value|, i requires 0 <= i < |answer.value| => Hit(answer.value[i], sim));
      assert Records(hits) == answer.value;
      r := Ok(hits);
    }

    method FromVectors(request: Request, step: PlanStep, queryText: string, down: bool) returns (r: Result<seq<Hit>>)
      requires Valid()
      ensures r.Ok? ==> (cfg.vector ==> !down && FoundByVectors(queryText, Max1(step.limit), request.scope, r.value))
      ensures r.Ok? ==> (!cfg.vector ==> r.value == [])
      ensures r.Err? ==> cfg.vector && down && r.error == Storage
    {
      if !cfg.vector {
        return Ok([]);
      }
      if down {
        return Err(Storage);
      }
      var search := vector.Search(cfg.embed(queryText), Max1(step.limit), map[]);
      var hits := Hydrate(search.value, request.scope);
      r := Ok(hits);
    }

    /** Reads every match back from the store, so that its scope decides. */
    method Hydrate(found: seq<Match>, scope: Scope) returns (hits: seq<Hit>)
      ensures hits == Hydrated(found, scope)
    {
      hits := [];
      for i := 0 to |found|
        invariant hits == Hydrated(found[..i], scope)
      {
        assert found[..i + 1][..i] == found[..i];
        var got := store.Get(found[i].id, scope);
        if got.Some? {
          hits := hits + [Hit(got.value, found[i].score)];
        }
      }
      assert found[..|found|] == found;
    }

    method RunStep(request: Request, step: PlanStep, now: Time, down: bool) returns (r: Result<seq<Hit>>)
      requires Valid()
      ensures r.Ok? ==> StepFailure(request, step, down).None? && StepHits(request, step, now, r.value)
      ensures r.Err? ==> StepFailure(request, step, down) == Some(r.error)
    {
      match (step.provider, step.kind) {
        case (StoreProvider, ExactSubject) =>
          if request.subject.None? {
            return Ok([]);
          }
          r := FromStore(SubjectQuery(request, step), now, 0.95, down);
        case (StoreProvider, Keyword) =>
          if request.keywords == [] {
            return Ok([]);
          }
          r := FromStore(KeywordQuery(request, step), now, 0.7, down);
        case (VectorProvider, Semantic(queryText)) =>
          if !cfg.embedder {
            return Err(Unsupported);
          }
          r := FromVectors(request, step, queryText, down);
        case _ =>
          r := Ok([]);
      }
    }

    /** Runs the steps in turn; the first that fails decides the error. `down(i)` says that step i gets no answer. */
    method Gather(request: Request, plan: seq<PlanStep>, now: Time, down: nat -> bool)
      returns (r: Result<seq<Hit>>, ghost parts: seq<seq<Hit>>)
      requires Valid()
      ensures AllAnswered(request, plan, now, down, parts)
      ensures r.Ok? ==> |parts| == |plan| && r.value == Flat(parts)
      ensures r.Err? ==> |parts| < |plan| && StepFailure(request, plan[|parts|], down(|parts|)) == Some(r.error)
    {
      var hits: seq<Hit> := [];
      parts := [];
      for i := 0 to |plan|
        invariant |parts| == i && hits == Flat(parts) && AllAnswered(request, plan, now, down, parts)
      {
        var step := RunStep(request, plan[i], now, down(i));
        if step.Err? {
          return step, parts;
        }
        hits := hits + step.value;
        FlatOfMore(parts, step.value);
        OneMoreAnswered(request, plan, now, down, parts, step.value);
        parts := parts + [step.value];
      }
      r := Ok(hits);
    }

    ghost predicate Answered(request: Request, plan: seq<PlanStep>, now: Time, down: nat -> bool, k: nat, hits: seq<Hit>)
      requires k < |plan|
      reads store, vector
    {
      StepHits(request, plan[k], now, hits) && StepFailure(request, plan[k], down(k)).None?
    }

    ghost predicate AllAnswered(request: Request, plan: seq<PlanStep>, now: Time, down: nat -> bool, parts: seq<seq<Hit>>)
      reads store, vector
    {
      |parts| <= |plan| && forall k :: 0 <= k < |parts| ==> Answered(request, plan, now, down, k, parts[k])
    }

    lemma OneMoreAnswered(request: Request, plan: seq<PlanStep>, now: Time, down: nat -> bool, parts: seq<seq<Hit>>,
                          hits: seq<Hit>)
      requires AllAnswered(request, plan, now, down, parts) && |parts| < |plan|
      requires StepHits(request, plan[|parts|], now, hits) && StepFailure(request, plan[|parts|], down(|parts|)).None?
      ensures AllAnswered(request, plan, now, down, parts + [hits])
    {
      assert Answered(request, plan, now, down, |parts|, hits);
    }

    /**
     * Succeeds exactly when no step fails, and then ranks exactly what the steps contributed. `hits` is that set, which
     * alone determines the result.
     */
    method Execute(request: Request, plan: seq<PlanStep>, now: Time, down: nat -> bool)
      returns (r: Result<seq<Ranked>>, ghost hits: set<Hit>, ghost parts: seq<seq<Hit>>)
      requires Valid()
      ensures r.Ok? <==> AllAble(request, plan, down)
      ensures r.Ok? ==> |parts| == |plan| && forall k :: 0 <= k < |plan| ==> StepHits(request, plan[k], now, parts[k])
      ensures r.Ok? ==> hits == Among(Flat(parts))
      ensures r.Ok? ==> OneRecordPerId(hits) && IsRanking(hits, TermsOf(request, now), r.value)
      ensures TermsOf(request, now)
           == Terms(request.budget, if request.validAt.Some? then request.validAt.value else now, now, recency)
      ensures r.Ok? ==> forall h :: h in hits ==> Grounded(h, request.scope)
      ensures (exists i :: 0 <= i < |plan| && !Embeddable(plan[i])) ==> r == Err(Unsupported)
    {
      hits, parts := {}, [];
      if exists i :: 0 <= i < |plan| && !Embeddable(plan[i]) {
        ghost var i :| 0 <= i < |plan| && !Embeddable(plan[i]);
        assert !Able(request, plan, down, i);
        return Err(Unsupported), {}, [];
      }
      var gathered;
      gathered, parts := Gather(request, plan, now, down);
      if gathered.Err? {
        assert !Able(request, plan, down, |parts|);
        return Err(gathered.error), {}, parts;
      }
      forall k | 0 <= k < |plan| ensures Able(request, plan, down, k) && StepHits(request, plan[k], now, parts[k]) {
        assert Answered(request, plan, now, down, k, parts[k]);
      }
      hits := Among(gathered.value);
      GatheredIsGrounded(request, plan, now, parts);
      var ranked := Rank(gathered.value, TermsOf(request, now));
      r := Ok(ranked);
    }

    /** Nothing about the step stands in the way of an answer. */
    predicate Able(request: Request, plan: seq<PlanStep>, down: nat -> bool, k: nat)
      requires k < |plan|
    {
      StepFailure(request, plan[k], down(k)).None? && Embeddable(plan[k])
    }

    ghost predicate AllAble(request: Request, plan: seq<PlanStep>, down: nat -> bool) {
      forall k :: 0 <= k < |plan| ==> Able(request, plan, down, k)
    }

    lemma GatheredIsGrounded(request: Request, plan: seq<PlanStep>, now: Time, parts: seq<seq<Hit>>)
      requires Valid() && |parts| == |plan|
      requires forall k :: 0 <= k < |plan| ==> StepHits(request, plan[k], now, parts[k])
      ensures forall h :: h in Flat(parts) ==> Grounded(h, request.scope)
    {
      forall h | h in Flat(parts) ensures Grounded(h, request.scope) {
        FlatMembers(parts, h);
        var k :| 0 <= k < |parts| && h in parts[k];
        var i :| 0 <= i < |parts[k]| && parts[k][i] == h;
        StepIsGrounded(request, plan[k], now, parts[k], i);
      }
    }

    /** A step that needs embeddings has an embedder. */
    predicate Embeddable(step: PlanStep) { step.kind.Semantic? ==> cfg.embedder }

    function TermsOf(request: Request, now: Time): Terms { TermsFor(request, now, recency) }
  }

  ghost function Among(hits: seq<Hit>): set<Hit> { set h | h in hits }

  ghost function Records(hits: seq<Hit>): seq<Record> {
    seq(|hits|, i requires 0 <= i < |hits| => hits[i].record)
  }

  ghost function Flat(parts: seq<seq<Hit>>): seq<Hit> {
    if parts == [] then [] else Flat(parts[..|parts| - 1]) + parts[|parts| - 1]
  }

  lemma FlatOfMore(parts: seq<seq<Hit>>, hits: seq<Hit>)
    ensures Flat(parts + [hits]) == Flat(parts) + hits
  {
    assert (parts + [hits])[..|parts|] == parts;
  }

  lemma {:induction false} FlatMembers(parts: seq<seq<Hit>>, h: Hit)
    ensures h in Flat(parts) <==> exists k :: 0 <= k < |parts| && h in parts[k]
  {
    if parts != [] {
      FlatMembers(parts[..|parts| - 1], h);
    }
  }

  /** Running the steps in another order, or one of them twice, changes no ranking. */
  lemma StepOrderIsIrrelevant(a: seq<seq<Hit>>, b: seq<seq<Hit>>, terms: Terms, ranked: seq<Ranked>, other: seq<Ranked>)
    requires forall hits :: hits in a <==> hits in b
    requires OneRecordPerId(Among(Flat(a)))
    requires IsRanking(Among(Flat(a)), terms, ranked) && IsRanking(Among(Flat(b)), terms, other)
    ensures ranked == other
  {
    forall h ensures h in Flat(a) <==> h in Flat(b) {
      FlatMembers(a, h);
      FlatMembers(b, h);
      assert (exists hits :: hits in a && h in hits) <==> exists hits :: hits in b && h in hits;
    }
    assert Among(Flat(a)) == Among(Flat(b));
    RankingIsUnique(Among(Flat(a)), terms, ranked, other);
  }

  /** Candidates by identifier, each with its highest similarity so far. */
  ghost predicate IsMerged(hits: set<Hit>, candidates: map<Id, Hit>) {
    && (forall id :: id in candidates ==> candidates[id].record.id == id && MostSimilar(hits, candidates[id]))
    && (forall h :: h in hits ==> h.record.id in candidates)
  }

  method MergeHits(hits: seq<Hit>) returns (candidates: map<Id, Hit>)
    requires OneRecordPerId(Among(hits))
    ensures IsMerged(Among(hits), candidates)
  {
    candidates := map[];
    for i := 0 to |hits|
      invariant IsMerged(Among(hits[..i]), candidates)
    {
      var h := hits[i];
      assert hits[..i + 1] == hits[..i] + [h];
      assert h in hits;
      if h.record.id in candidates {
        var c := candidates[h.record.id];
        assert c in hits[..i] && c in hits && c.record == h.record;
        candidates := candidates[h.record.id := c.(sim := if c.sim < h.sim then h.sim else c.sim)];
      } else {
        candidates := candidates[h.record.id := h];
      }
    }
    assert hits[..|hits|] == hits;
  }

  method Rank(hits: seq<Hit>, terms: Terms) returns (ranked: seq<Ranked>)
    requires OneRecordPerId(Among(hits))
    ensures IsRanking(Among(hits), terms, ranked)
  {
    var candidates := MergeHits(hits);
    KeptAreEntries(Among(hits), candidates, terms);
    var kept := Kept(candidates);
    var entries := Listed(kept, terms);
    TopIsRanking(Among(hits), entries, terms);
    ranked := Sorting.Top(NotAfter, entries, terms.budget);
  }

  /** Sorting and cutting a list of the entries gives the ranking. */
  lemma TopIsRanking(hits: set<Hit>, entries: seq<Ranked>, terms: Terms)
    requires forall e :: e in entries <==> e in Entries(hits, terms)
    requires Sorting.DistinctBy(KeyOf, entries)
    ensures IsRanking(hits, terms, Sorting.Top(NotAfter, entries, terms.budget))
  {
    assert (set e | e in entries) == Entries(hits, terms);
    NotAfterIsTotal();
    Sorting.TopIsTop(NotAfter, KeyOf, entries, terms.budget);
  }

  function Superseding(candidates: map<Id, Hit>): set<Id> {
    set id | id in candidates && candidates[id].record.supersedes.Some? :: candidates[id].record.supersedes.value
  }

  /** The candidates that no candidate supersedes. */
  function Kept(candidates: map<Id, Hit>): map<Id, Hit> {
    var superseding := Superseding(candidates);
    map id | id in candidates && id !in superseding :: candidates[id]
  }

  /** Scores the kept candidates, in the order the map yields them. */
  method Listed(kept: map<Id, Hit>, terms: Terms) returns (entries: seq<Ranked>)
    requires forall id :: id in kept ==> kept[id].record.id == id
    ensures forall e :: e in entries <==> exists id :: id in kept && e == Entry(kept[id], terms)
    ensures Sorting.DistinctBy(KeyOf, entries)
  {
    var order := Sorting.InSomeOrder(kept.Keys);
    entries := seq(|order|, i requires 0 <= i < |order| => Entry(kept[order[i]], terms));
    forall id | id in kept ensures Entry(kept[id], terms) in entries {
      var i :| 0 <= i < |order| && order[i] == id;
      assert entries[i] == Entry(kept[id], terms);
    }
  }

  lemma NotAfterIsTotal()
    ensures Sorting.TotalPreorder(NotAfter)
  {
  }

  /** Retaining the candidates nobody supersedes retains exactly the entries. */
  lemma KeptAreEntries(hits: set<Hit>, candidates: map<Id, Hit>, terms: Terms)
    requires OneRecordPerId(hits) && IsMerged(hits, candidates)
    ensures forall id :: id in Kept(candidates) ==> Kept(candidates)[id].record.id == id
    ensures forall e :: e in Entries(hits, terms) <==>
              exists id :: id in Kept(candidates) && e == Entry(Kept(candidates)[id], terms)
  {
    forall h | h in hits ensures h.record == candidates[h.record.id].record {
    }
    forall id | id in candidates ensures id in Kept(candidates) <==> Unsuperseded(hits, candidates[id].record) {
      if g :| g in hits && g.record.supersedes == Some(id) {
        assert candidates[g.record.id].record.supersedes == Some(id);
        assert id in Superseding(candidates);
      }
    }
    forall h | h in hits && MostSimilar(hits, h) ensures h == candidates[h.record.id] {
    }
  }

  // ------------------------------------------------------ composed guarantees

  /** Every hit is a stored row inside the scope, and live or led to by a vector: what `Grounded` says, of a state. */
  ghost predicate DrawnFrom(s: State, hits: set<Hit>, scope: Scope) {
    forall h :: h in hits ==>
      && h.record.id in s.rows && s.rows[h.record.id] == h.record && scope.Contains(h.record.scope)
      && (h.record.status.Active? || h.record.id in s.index)
  }

  /** After any run without failures recall returns stored records that are active or archived, inside its scope. */
  lemma RecallIsSafe(cfg: Config, run: seq<Move>, hits: set<Hit>, scope: Scope, terms: Terms, ranked: seq<Ranked>, i: nat)
    requires Agreement.IsCompleteRun(cfg, EMPTY, run) && DrawnFrom(Last(EMPTY, run), hits, scope)
    requires IsRanking(hits, terms, ranked) && i < |ranked|
    ensures ranked[i].record.status.Retrievable() && scope.Contains(ranked[i].record.scope)
    ensures ranked[i].record.id in Last(EMPTY, run).rows
    ensures Last(EMPTY, run).rows[ranked[i].record.id] == ranked[i].record
  {
    Agreement.RunAgrees(cfg, run);
    assert ranked[i] in Entries(hits, terms);
    var h :| h in hits && ranked[i] == Entry(h, terms);
  }

  /**
   * After a move from agreement, cut short or not, recall returns nothing but active and archived records, except for
   * the rows that the move exposed; and each of those is stored and led to by a vector.
   */
  lemma RecallAfterMove(cfg: Config, s: State, m: Move, hits: set<Hit>, scope: Scope, terms: Terms, ranked: seq<Ranked>)
    requires Agreement.Agrees(cfg, s) && Moves(cfg, s, m)
    requires DrawnFrom(m.next, hits, scope) && IsRanking(hits, terms, ranked)
    ensures forall i :: 0 <= i < |ranked| ==>
              ranked[i].record.status.Retrievable() || ranked[i].record.id in Faults.ExposedBy(cfg, s, m)
    ensures forall id :: id in Faults.ExposedBy(cfg, s, m) ==> id in m.next.index && id in m.next.rows
  {
    Faults.MoveExposesExactly(cfg, s, m);
    forall i | 0 <= i < |ranked|
      ensures ranked[i].record.status.Retrievable() || ranked[i].record.id in Faults.Exposed(m.next)
    {
      assert ranked[i] in Entries(hits, terms);
      var h :| h in hits && ranked[i] == Entry(h, terms);
    }
  }

  /** In any run, failures included, recall returns stored records inside its scope, and never a quarantined one. */
  lemma RecallNeverShowsQuarantined(cfg: Config, run: seq<Move>, hits: set<Hit>, scope: Scope, terms: Terms,
                                    ranked: seq<Ranked>, i: nat)
    requires IsRun(cfg, EMPTY, run) && DrawnFrom(Last(EMPTY, run), hits, scope)
    requires IsRanking(hits, terms, ranked) && i < |ranked|
    ensures var r := ranked[i].record;
            r.id in Last(EMPTY, run).rows && Last(EMPTY, run).rows[r.id] == r
            && scope.Contains(r.scope) && r.status != Quarantined
  {
    Agreement.RunStaysHonest(cfg, run);
    assert ranked[i] in Entries(hits, terms);
    var h :| h in hits && ranked[i] == Entry(h, terms);
  }

  /** In any run, failures included, what recall draws from the store is never filtered down to nothing. */
  lemma RecallKeepsSomething(cfg: Config, run: seq<Move>, hits: set<Hit>, scope: Scope, terms: Terms, ranked: seq<Ranked>)
    requires IsRun(cfg, EMPTY, run) && DrawnFrom(Last(EMPTY, run), hits, scope) && hits != {}
    requires IsRanking(hits, terms, ranked)
    ensures ranked != [] <==> terms.budget > 0
  {
    Evolution.RunEvolves(cfg, EMPTY, run);
    SomethingSurvives(hits, terms);
    var e :| e in Entries(hits, terms);
    assert ranked == [] ==> e !in ranked;
  }

  // -------------------------------------------------------------- governance

  /** Containment is a partial order on scopes. */
  lemma ContainsIsPartialOrder(a: Scope, b: Scope, c: Scope)
    ensures a.Contains(a)
    ensures a.Contains(b) && b.Contains(a) ==> a == b
    ensures a.Contains(b) && b.Contains(c) ==> a.Contains(c)
  {
  }

  /** Intersecting is the exact meet, and it fails exactly when no scope lies in both. */
  lemma IntersectIsMeet(a: Scope, b: Scope)
    ensures a.Intersect(b).Some? ==>
              forall r: Scope :: a.Intersect(b).value.Contains(r) <==> a.Contains(r) && b.Contains(r)
    ensures a.Intersect(b).None? <==> forall r: Scope :: !(a.Contains(r) && b.Contains(r))
  {
    if a.Intersect(b).Some? {
      var m := a.Intersect(b).value;
      assert a.Contains(m) && b.Contains(m);
    }
  }

  datatype Principal = Principal(scope: Scope)

  /** The entries whose record passes, in order. */
  function Permitted(ranked: seq<Ranked>, authorized: Record -> bool): seq<Ranked> {
    if ranked == [] then [] else
    var last := ranked[|ranked| - 1];
    Permitted(ranked[..|ranked| - 1], authorized) + if authorized(last.record) then [last] else []
  }

  lemma {:induction false} PermittedMembers(ranked: seq<Ranked>, authorized: Record -> bool)
    ensures forall e :: e in Permitted(ranked, authorized) <==> e in ranked && authorized(e.record)
  {
    if ranked != [] {
      PermittedMembers(ranked[..|ranked| - 1], authorized);
      assert ranked == ranked[..|ranked| - 1] + [ranked[|ranked| - 1]];
    }
  }

  /** The entries of one list in another, in the same order. */
  ghost predicate InOrder(part: seq<Ranked>, whole: seq<Ranked>) {
    forall i, j :: 0 <= i < j < |part| ==> exists x, y :: 0 <= x < y < |whole| && whole[x] == part[i] && whole[y] == part[j]
  }

  lemma {:induction false} PermittedInOrder(ranked: seq<Ranked>, authorized: Record -> bool)
    ensures InOrder(Permitted(ranked, authorized), ranked)
  {
    if ranked != [] {
      var n := |ranked| - 1;
      PermittedInOrder(ranked[..n], authorized);
      PermittedMembers(ranked[..n], authorized);
      var part, before := Permitted(ranked, authorized), Permitted(ranked[..n], authorized);
      forall i, j | 0 <= i < j < |part|
        ensures exists x, y :: 0 <= x < y < |ranked| && ranked[x] == part[i] && ranked[y] == part[j]
      {
        assert part[i] == before[i] && before[i] in before;
        if j < |before| {
          var x, y :| 0 <= x < y < n && ranked[..n][x] == before[i] && ranked[..n][y] == before[j];
          assert ranked[x] == part[i] && ranked[y] == part[j];
        } else {
          var x :| 0 <= x < n && ranked[..n][x] == before[i];
          assert ranked[x] == part[i] && ranked[n] == part[j];
        }
      }
    }
  }

  /**
   * Recall narrowed to the principal's scope: the ranking of what was found in both scopes, without the records the
   * authorizer refuses. A request that contradicts the principal's scope fails.
   */
  method RecallFor(executor: HybridExecutor, principal: Principal, request: Request, plan: seq<PlanStep>, now: Time,
                   down: nat -> bool, authorized: Record -> bool)
    returns (r: Result<seq<Ranked>>, ghost ranked: seq<Ranked>, ghost hits: set<Hit>)
    requires executor.Valid()
    ensures r.Ok? ==> InOrder(r.value, ranked) && IsRanking(hits, executor.TermsOf(request, now), ranked)
    ensures r.Ok? ==> forall e :: e in r.value <==> e in ranked && authorized(e.record)
    ensures r.Ok? ==> forall h :: h in hits ==>
              && principal.scope.Contains(h.record.scope) && request.scope.Contains(h.record.scope)
              && executor.Grounded(h, request.scope)
    ensures r.Ok? ==> forall i :: 0 <= i < |r.value| ==>
              && principal.scope.Contains(r.value[i].record.scope) && request.scope.Contains(r.value[i].record.scope)
              && authorized(r.value[i].record)
    ensures (forall x: Scope :: !(principal.scope.Contains(x) && request.scope.Contains(x))) ==> r == Err(Validation)
    ensures var narrowed := principal.scope.Intersect(request.scope);
            narrowed.Some? && executor.AllAble(request.(scope := narrowed.value), plan, down) ==> r.Ok?
  {
    ranked, hits := [], {};
    IntersectIsMeet(principal.scope, request.scope);
    var narrowed := principal.scope.Intersect(request.scope);
    if narrowed.None? {
      return Err(Validation), [], {};
    }
    var found;
    ghost var parts;
    found, hits, parts := executor.Execute(request.(scope := narrowed.value), plan, now, down);
    if found.Err? {
      return found, [], {};
    }
    ranked := found.value;
    var allowed: seq<Ranked> := [];
    for i := 0 to |found.value|
      invariant allowed == Permitted(found.value[..i], authorized)
    {
      assert found.value[..i + 1][..i] == found.value[..i];
      if authorized(found.value[i].record) {
        allowed := allowed + [found.value[i]];
      }
    }
    assert found.value[..|found.value|] == found.value;
    PermittedMembers(ranked, authorized);
    PermittedInOrder(ranked, authorized);
    r := Ok(allowed);
  }
}
