/**
 * The engine facade: each operation talks to the providers call by call, any call may fail, and what the operation
 * does is a move of the machine.
 */
module Engine {
  import opened Domain
  import opened Machine
  import opened Stores
  import Agreement
  import Conflict
  import Dedup
  import Evolution
  import History
  import opened Nearest
  import Outcomes
  import Recall
  import Reconcile
  import Sorting

  class MemoryEngine {
    const cfg: Config
    const store: InMemoryStore
    const vector: InMemoryVectorStore
    const graph: InMemoryGraphStore
    /** No provider call fails: only then does an operation owe an answer. */
    const reliable: bool
    var nextId: Id

    ghost predicate Valid()
      reads this, store, vector, graph
    {
      Steady() && Evolution.Ordered(State())
    }

    ghost function State(): State
      reads this, store, vector, graph
    {
      Machine.State(store.records, vector.vectors, graph.Edges(), nextId)
    }

    constructor (cfg: Config, reliable: bool)
      ensures Valid() && State() == EMPTY && this.cfg == cfg && this.reliable == reliable
      ensures fresh(store) && fresh(vector) && fresh(graph)
    {
      this.cfg, this.reliable := cfg, reliable;
      store := new InMemoryStore(cfg.kw);
      vector := new InMemoryVectorStore(cfg.similarity);
      graph := new InMemoryGraphStore();
      nextId := 0;
    }

    // -------------------------------------------------------- failing calls

    /** `done` is what has taken effect since the state was `s0`. */
    ghost predicate Tracks(s0: State, done: seq<Call>)
      reads this, store, vector, graph
    {
      UpToDraws(After(done, s0), State())
    }

    /** What an operation does in between: providers keep their own invariants, the counter is drawn ahead. */
    ghost predicate Steady()
      reads this, store, vector, graph
    {
      store.kw == cfg.kw && vector.similarity == cfg.similarity && store.Valid() && graph.Valid()
    }

    /** Whether a read reaches its provider. */
    method Answers() returns (up: bool)
      ensures reliable ==> up
    {
      up :| reliable ==> up;
    }

    function RowsDeleted(c: Call): set<Id> { if c.Delete? then {c.id} else {} }

    /** One provider write. It may fail before it takes effect, or after, when only the answer is lost. */
    method Perform(c: Call, ghost s0: State, ghost done: seq<Call>) returns (ok: bool, ghost done': seq<Call>)
      requires Steady() && Tracks(s0, done) && (c.Put? ==> c.record.id < nextId)
      modifies store, vector, graph
      ensures Steady() && Tracks(s0, done') && (done' == done || done' == done + [c])
      ensures ok ==> done' == done + [c]
      ensures reliable && (c.Update? ==> c.record.id in old(store.records)) ==> ok
      ensures old(store.records.Keys) - RowsDeleted(c) <= store.records.Keys
      ensures nextId == old(nextId)
    {
      done' := done;
      var sent: bool :| reliable ==> sent;
      if !sent {
        return false, done;
      }
      AfterSnoc(done, c, s0);
      EffectIgnoresDraws(c, After(done, s0), State());
      done' := done + [c];
      ok := Apply(c);
      if ok {
        ok :| reliable ==> ok;
      }
    }

    /** What the provider does with a call that reaches it; only an update of a missing row is refused. */
    method Apply(c: Call) returns (applied: bool)
      requires Steady() && (c.Put? ==> c.record.id < nextId)
      modifies store, vector, graph
      ensures Steady() && State() == Effect(c, old(State()))
      ensures applied <==> (c.Update? ==> c.record.id in old(store.records))
    {
      applied := true;
      match c {
        case Put(r) =>
          store.Put(r);
        case Update(r) =>
          var res := store.Update(r);
          applied := res.Ok?;
        case Delete(id, scope) =>
          store.Delete(id, scope);
        case Upsert(id, v) =>
          vector.Upsert(id, v);
        case RemoveVector(id) =>
          vector.Delete(id);
        case AddEdge(e) =>
          graph.AddRelation(e);
        case RemoveEvidence(id) =>
          graph.RemoveEvidence(id);
      }
    }

    method IndexVector(r: Record, ghost s0: State, ghost done: seq<Call>) returns (ok: bool, ghost done': seq<Call>)
      requires Steady() && Tracks(s0, done)
      modifies store, vector, graph
      ensures Steady() && Tracks(s0, done') && done <= done' <= done + IndexCalls(cfg, r)
      ensures ok ==> done' == done + IndexCalls(cfg, r)
      ensures (reliable ==> ok) && old(store.records.Keys) <= store.records.Keys
      ensures nextId == old(nextId)
    {
      ok, done' := true, done;
      if cfg.vector && cfg.embedder {
        assert IndexCalls(cfg, r) == [Upsert(r.id, VectorOf(cfg, r))];
        ok, done' := Perform(Upsert(r.id, VectorOf(cfg, r)), s0, done);
      } else {
        assert done + IndexCalls(cfg, r) == done;
      }
    }

    method DropVector(id: Id, ghost s0: State, ghost done: seq<Call>) returns (ok: bool, ghost done': seq<Call>)
      requires Steady() && Tracks(s0, done)
      modifies store, vector, graph
      ensures Steady() && Tracks(s0, done') && done <= done' <= done + DropCalls(cfg, id)
      ensures ok ==> done' == done + DropCalls(cfg, id)
      ensures (reliable ==> ok) && old(store.records.Keys) <= store.records.Keys
      ensures nextId == old(nextId)
    {
      ok, done' := true, done;
      if cfg.vector {
        assert DropCalls(cfg, id) == [RemoveVector(id)];
        ok, done' := Perform(RemoveVector(id), s0, done);
      } else {
        assert done + DropCalls(cfg, id) == done;
      }
    }

    method DropEvidence(id: Id, ghost s0: State, ghost done: seq<Call>) returns (ok: bool, ghost done': seq<Call>)
      requires Steady() && Tracks(s0, done)
      modifies store, vector, graph
      ensures Steady() && Tracks(s0, done') && done <= done' <= done + EvidenceCalls(cfg, id)
      ensures ok ==> done' == done + EvidenceCalls(cfg, id)
      ensures (reliable ==> ok) && old(store.records.Keys) <= store.records.Keys
      ensures nextId == old(nextId)
    {
      ok, done' := true, done;
      if cfg.graph {
        assert EvidenceCalls(cfg, id) == [RemoveEvidence(id)];
        ok, done' := Perform(RemoveEvidence(id), s0, done);
      } else {
        assert done + EvidenceCalls(cfg, id) == done;
      }
    }

    method IndexGraph(r: Record, ghost s0: State, ghost done: seq<Call>) returns (ok: bool, ghost done': seq<Call>)
      requires Steady() && Tracks(s0, done)
      modifies store, vector, graph
      ensures Steady() && Tracks(s0, done') && done <= done' <= done + GraphCalls(cfg, r)
      ensures ok ==> done' == done + GraphCalls(cfg, r)
      ensures (reliable ==> ok) && old(store.records.Keys) <= store.records.Keys
      ensures nextId == old(nextId)
    {
      ok, done' := true, done;
      if cfg.graph && r.subject.Some? {
        ok, done' := PerformAll(EdgeCalls(r.id, cfg.relations(r.subject.value, r.text)), s0, done);
      }
    }

    /** Issues calls one after the other until one fails. */
    method PerformAll(calls: seq<Call>, ghost s0: State, ghost done: seq<Call>) returns (ok: bool, ghost done': seq<Call>)
      requires Steady() && Tracks(s0, done) && forall i :: 0 <= i < |calls| ==> calls[i].AddEdge? || calls[i].Upsert?
      modifies store, vector, graph
      ensures Steady() && Tracks(s0, done') && done <= done' <= done + calls
      ensures ok ==> done' == done + calls
      ensures (reliable ==> ok) && old(store.records.Keys) <= store.records.Keys
      ensures nextId == old(nextId)
    {
      ok, done' := true, done;
      for i := 0 to |calls|
        invariant Steady() && Tracks(s0, done') && done' == done + calls[..i]
        invariant nextId == old(nextId) && ok && old(store.records.Keys) <= store.records.Keys
      {
        assert calls[..i + 1] == calls[..i] + [calls[i]];
        ok, done' := Perform(calls[i], s0, done');
        if !ok {
          return;
        }
      }
      assert calls[..|calls|] == calls;
    }

    /** An operation that stops after `done` has made a move; with nothing left to do it is a completed one. */
    lemma Stopped(s0: State, step: Step, done: seq<Call>)
      requires Steady() && Tracks(s0, done) && Evolution.Ordered(s0)
      requires Enabled(cfg, s0, step) && done <= Calls(cfg, s0, step)
      ensures Valid() && Moves(cfg, s0, Move(step, |done|, State()))
      ensures done == Calls(cfg, s0, step) ==> Completes(cfg, s0, Move(step, |done|, State()))
    {
      assert done == Calls(cfg, s0, step)[..|done|];
      Evolution.MoveEvolves(cfg, s0, Move(step, |done|, State()));
    }

    /** An operation that ends before its first write. */
    lemma Untouched(s0: State)
      requires Steady() && Tracks(s0, []) && Evolution.Ordered(s0)
      ensures Valid() && Moves(cfg, s0, Move(Idle, 0, State()))
    {
      Stopped(s0, Idle, []);
    }

    // --------------------------------------------------------------- update

    method Update(id: Id, scope: Scope, text: string, confidence: Option<real>, importance: Option<real>, now: Time)
      returns (r: Result<Record>, ghost m: Move)
      requires Valid()
      modifies this`nextId, store, vector, graph
      ensures Valid() && Moves(cfg, old(State()), m) && m.next == State()
      ensures m.step == Revise(id, scope, text, confidence, importance, now) || m.step == Idle
      ensures r.Ok? ==> History.Revises(cfg, old(State()), m, id) && r.value == Successor(old(State()), m.step)
      ensures cfg.kw.blank(text) ==> r == Err(Validation)
      ensures reliable && !cfg.kw.blank(text) ==> if Visible(old(State()), id, scope) then r.Ok? else r == Err(NotFound)
      ensures !Visible(old(State()), id, scope) ==> r.Err? && State() == old(State())
    {
      ghost var s0 := State();
      Untouched(s0);
      m := Move(Idle, 0, State());
      if cfg.kw.blank(text) {
        return Err(Validation), m;
      }
      var up := Answers();
      if !up {
        return Err(Storage), m;
      }
      var got := store.Get(id, scope);
      if got.None? {
        return Err(NotFound), m;
      }
      r, m := ReviseVisible(got.value, scope, text, confidence, importance, now);
    }

    /** The update of a record that was found. */
    method ReviseVisible(existing: Record, ghost scope: Scope, text: string, confidence: Option<real>,
                         importance: Option<real>, now: Time)
      returns (r: Result<Record>, ghost m: Move)
      requires Valid() && !cfg.kw.blank(text) && Visible(State(), existing.id, scope)
      requires store.records[existing.id] == existing
      modifies this`nextId, store, vector, graph
      ensures Valid() && Moves(cfg, old(State()), m) && m.next == State()
      ensures m.step == Revise(existing.id, scope, text, confidence, importance, now)
      ensures reliable ==> r.Ok?
      ensures r.Ok? ==> Completes(cfg, old(State()), m) && r.value == Successor(old(State()), m.step)
    {
      ghost var s0 := State();
      ghost var step := Revise(existing.id, scope, text, confidence, importance, now);
      var next := DeriveSuccessor(existing, nextId, text, now);
      nextId := nextId + 1;
      if confidence.Some? {
        next := next.(confidence := Clamp(confidence.value));
      }
      if importance.Some? {
        next := next.(importance := Clamp(importance.value));
      }
      assert next == Successor(s0, step);
      assert Calls(cfg, s0, step) == SupersedeCalls(next, existing, now);
      var ok; ghost var done;
      ok, done := Supersede(next, existing, now, s0);
      Stopped(s0, step, done);
      m := Move(step, |done|, State());
      r := if ok then Ok(next) else Err(Storage);
    }

    ghost function SupersedeCalls(next: Record, existing: Record, now: Time): seq<Call> {
      [Put(next)] + IndexCalls(cfg, next) + DropCalls(cfg, existing.id) + [Machine.Update(Retire(existing, now))]
    }

    /** Successor stored and indexed, predecessor's vector dropped, predecessor retired, in this order. */
    method Supersede(next: Record, existing: Record, now: Time, ghost s0: State) returns (ok: bool, ghost done: seq<Call>)
      requires Steady() && Tracks(s0, []) && next.id < nextId && existing.id in store.records
      modifies store, vector, graph
      ensures Steady() && Tracks(s0, done) && done <= SupersedeCalls(next, existing, now)
      ensures ok ==> done == SupersedeCalls(next, existing, now)
      ensures reliable ==> ok
      ensures nextId == old(nextId)
    {
      ghost var calls := SupersedeCalls(next, existing, now);
      ghost var retire := [Machine.Update(Retire(existing, now))];
      ghost var p1 := [Put(next)];
      ghost var p2 := p1 + IndexCalls(cfg, next);
      ghost var p3 := p2 + DropCalls(cfg, existing.id);
      assert p1 <= calls && p2 <= calls && p3 <= calls && calls == p3 + retire;
      ok, done := Perform(Put(next), s0, []);
      if !ok {
        return;
      }
      assert done == p1;
      ok, done := IndexVector(next, s0, done);
      if !ok {
        return;
      }
      assert done == p2;
      ok, done := DropVector(existing.id, s0, done);
      if !ok {
        return;
      }
      assert done == p3;
      ok, done := Perform(Machine.Update(Retire(existing, now)), s0, done);
    }

    // ------------------------------------------------------- forget and purge

    method Forget(id: Id, scope: Scope, now: Time) returns (r: Result<bool>, ghost m: Move)
      requires Valid()
      modifies store, vector, graph
      ensures Valid() && Moves(cfg, old(State()), m) && m.next == State()
      ensures m.step == Machine.Forget(id, scope, now) || m.step == Idle
      ensures (reliable ==> r.Ok?) && (r.Ok? ==> Completes(cfg, old(State()), m) && m.step.Forget?)
      ensures r.Ok? ==> (r.value <==> Visible(old(State()), id, scope) && !old(State()).rows[id].status.Deleted?)
    {
      ghost var s0 := State();
      Untouched(s0);
      m := Move(Idle, 0, State());
      var up := Answers();
      if !up {
        return Err(Storage), m;
      }
      ghost var step := Machine.Forget(id, scope, now);
      var got := store.Get(id, scope);
      if got.None? || got.value.status.Deleted? {
        Stopped(s0, step, []);
        return Ok(false), Move(step, 0, State());
      }
      assert Calls(cfg, s0, step) == ForgetCalls(cfg, got.value, now);
      var ok; ghost var done;
      ok, done := Bury(got.value, now, s0);
      Stopped(s0, step, done);
      m := Move(step, |done|, State());
      r := if ok then Ok(true) else Err(Storage);
    }

    /** Tombstone first, then its vector and its edges. */
    method Bury(existing: Record, now: Time, ghost s0: State) returns (ok: bool, ghost done: seq<Call>)
      requires Steady() && Tracks(s0, []) && existing.id in store.records
      modifies store, vector, graph
      ensures Steady() && Tracks(s0, done) && done <= ForgetCalls(cfg, existing, now)
      ensures (reliable ==> ok) && (ok ==> done == ForgetCalls(cfg, existing, now))
      ensures nextId == old(nextId)
    {
      ghost var calls := ForgetCalls(cfg, existing, now);
      ghost var p1 := [Machine.Update(existing.(status := Deleted, updatedAt := now))];
      ghost var p2 := p1 + DropCalls(cfg, existing.id);
      assert p1 <= calls && p2 <= calls && calls == p2 + EvidenceCalls(cfg, existing.id);
      ok, done := Perform(Machine.Update(existing.(status := Deleted, updatedAt := now)), s0, []);
      if !ok {
        return;
      }
      assert done == p1;
      ok, done := DropVector(existing.id, s0, done);
      if !ok {
        return;
      }
      assert done == p2;
      ok, done := DropEvidence(existing.id, s0, done);
    }

    method Purge(id: Id, scope: Scope) returns (r: Result<bool>, ghost m: Move)
      requires Valid()
      modifies store, vector, graph
      ensures Valid() && Moves(cfg, old(State()), m) && m.next == State()
      ensures m.step == Machine.Purge(id, scope)
      ensures (reliable ==> r.Ok?) && (r.Ok? ==> Completes(cfg, old(State()), m))
    {
      ghost var s0 := State();
      ghost var step := Machine.Purge(id, scope);
      var ok; ghost var done;
      ok, done := Expunge(id, scope, s0);
      Stopped(s0, step, done);
      m := Move(step, |done|, State());
      r := if ok then Ok(true) else Err(Storage);
    }

    /** Row first, then its vector and its edges. */
    method Expunge(id: Id, scope: Scope, ghost s0: State) returns (ok: bool, ghost done: seq<Call>)
      requires Steady() && Tracks(s0, [])
      modifies store, vector, graph
      ensures Steady() && Tracks(s0, done) && done <= PurgeCalls(cfg, id, scope)
      ensures (reliable ==> ok) && (ok ==> done == PurgeCalls(cfg, id, scope))
      ensures nextId == old(nextId)
    {
      ghost var calls := PurgeCalls(cfg, id, scope);
      ghost var p1 := [Machine.Delete(id, scope)];
      ghost var p2 := p1 + DropCalls(cfg, id);
      assert p1 <= calls && p2 <= calls && calls == p2 + EvidenceCalls(cfg, id);
      ok, done := Perform(Machine.Delete(id, scope), s0, []);
      if !ok {
        return;
      }
      assert done == p1;
      ok, done := DropVector(id, s0, done);
      if !ok {
        return;
      }
      assert done == p2;
      ok, done := DropEvidence(id, s0, done);
    }

    /** Deletes one memory from every representation: downstream indexes first, canonical row last. */
    method CoordinateDelete(id: Id, scope: Scope, ghost s0: State, ghost done: seq<Call>)
      returns (ok: bool, ghost done': seq<Call>)
      requires Steady() && Tracks(s0, done)
      modifies store, vector, graph
      ensures Steady() && Tracks(s0, done') && done <= done' <= done + EraseCalls(cfg, id, scope)
      ensures (reliable ==> ok) && (ok ==> done' == done + EraseCalls(cfg, id, scope))
      ensures nextId == old(nextId) && old(store.records.Keys) - {id} <= store.records.Keys
    {
      ghost var calls := EraseCalls(cfg, id, scope);
      ghost var afterDrop := EvidenceCalls(cfg, id) + [Machine.Delete(id, scope)];
      assert done + calls == done + DropCalls(cfg, id) + afterDrop;
      ok, done' := DropVector(id, s0, done);
      if !ok {
        return;
      }
      assert done + calls == done' + EvidenceCalls(cfg, id) + [Machine.Delete(id, scope)];
      ok, done' := DropEvidence(id, s0, done');
      if !ok {
        return;
      }
      ok, done' := Perform(Machine.Delete(id, scope), s0, done');
    }

    method ForgetEverywhere(id: Id, scope: Scope) returns (r: Result<bool>, ghost m: Move)
      requires Valid()
      modifies store, vector, graph
      ensures Valid() && Moves(cfg, old(State()), m) && m.next == State()
      ensures m.step == Erase(id, scope)
      ensures (reliable ==> r.Ok?) && (r.Ok? ==> Completes(cfg, old(State()), m))
    {
      ghost var s0 := State();
      var ok; ghost var done;
      ok, done := CoordinateDelete(id, scope, s0, []);
      Stopped(s0, Erase(id, scope), done);
      m := Move(Erase(id, scope), |done|, State());
      r := if ok then Ok(true) else Err(Storage);
    }

    // -------------------------------------------------------------- remember

    /** Stores, indexes and links a new record. */
    method Add(record: Record, ghost s0: State) returns (ok: bool, ghost done: seq<Call>)
      requires Steady() && Tracks(s0, []) && record.id < nextId
      modifies store, vector, graph
      ensures Steady() && Tracks(s0, done) && done <= AddCalls(cfg, record)
      ensures (reliable ==> ok) && (ok ==> done == AddCalls(cfg, record))
      ensures nextId == old(nextId)
    {
      ghost var calls := AddCalls(cfg, record);
      ghost var p1 := [Put(record)];
      ghost var p2 := p1 + IndexCalls(cfg, record);
      assert p1 <= calls && p2 <= calls && calls == p2 + GraphCalls(cfg, record);
      ok, done := Perform(Put(record), s0, []);
      if !ok {
        return;
      }
      assert done == p1;
      ok, done := IndexVector(record, s0, done);
      if !ok {
        return;
      }
      assert done == p2;
      ok, done := IndexGraph(record, s0, done);
    }

    /** The fact that is replaced is closed first; the incoming one is indexed but not linked. */
    method Replace(record: Record, closing: Id, now: Time, ghost s0: State) returns (ok: bool, ghost done: seq<Call>)
      requires Steady() && Tracks(s0, []) && record.id < nextId
      modifies store, vector, graph
      ensures Steady() && Tracks(s0, done) && done <= ReplaceCalls(cfg, s0, record, closing, now)
      ensures (reliable ==> ok) && (ok ==> done == ReplaceCalls(cfg, s0, record, closing, now))
      ensures nextId == old(nextId)
    {
      ghost var calls := ReplaceCalls(cfg, s0, record, closing, now);
      done := [];
      var got := store.Get(closing, record.scope);
      ghost var p0 := if got.Some? then [Machine.Update(Conflict.CloseWindow(got.value, now))] + DropCalls(cfg, closing)
                      else [];
      ghost var p1 := p0 + [Put(record)];
      assert p0 <= calls && p1 <= calls && calls == p1 + IndexCalls(cfg, record);
      if got.Some? {
        ok, done := Perform(Machine.Update(Conflict.CloseWindow(got.value, now)), s0, done);
        if !ok {
          return;
        }
        ok, done := DropVector(closing, s0, done);
        if !ok {
          return;
        }
      }
      assert done == p0;
      ok, done := Perform(Put(record), s0, done);
      if !ok {
        return;
      }
      assert done == p1;
      ok, done := IndexVector(record, s0, done);
    }

    /** The successor of the incoming record is stored, the target's vector dropped, the target retired. */
    method Merge(record: Record, target: Record, now: Time, ghost s0: State) returns (ok: bool, ghost done: seq<Call>)
      requires Steady() && Tracks(s0, []) && record.id + 1 < nextId
      requires target.id in s0.rows && s0.rows[target.id] == target
      modifies store, vector, graph
      ensures Steady() && Tracks(s0, done) && done <= MergeCalls(cfg, s0, record, target.id, now)
      ensures (reliable ==> ok) && (ok ==> done == MergeCalls(cfg, s0, record, target.id, now))
      ensures nextId == old(nextId)
    {
      var successor := DeriveSuccessor(record, record.id + 1, record.text, now);
      ghost var calls := MergeCalls(cfg, s0, record, target.id, now);
      ghost var p1 := [Put(successor)];
      ghost var p2 := p1 + DropCalls(cfg, target.id);
      assert p1 <= calls && p2 <= calls && calls == p2 + [Machine.Update(Retire(target, now))];
      ok, done := Perform(Put(successor), s0, []);
      if !ok {
        return;
      }
      assert done == p1;
      ok, done := DropVector(target.id, s0, done);
      if !ok {
        return;
      }
      assert done == p2;
      ok, done := Perform(Machine.Update(Retire(target, now)), s0, done);
    }

    /** The merge of a record into a target that the store holds and the record's scope sees. */
    method MergeInto(record: Record, target: Id, now: Time, ghost s0: State)
      returns (ok: bool, kept: Record, ghost done: seq<Call>)
      requires Steady() && Tracks(s0, []) && record.id + 1 < nextId && Visible(s0, target, record.scope)
      modifies store, vector, graph
      ensures Steady() && Tracks(s0, done) && done <= MergeCalls(cfg, s0, record, target, now)
      ensures (reliable ==> ok) && (ok ==> done == MergeCalls(cfg, s0, record, target, now))
      ensures kept == DeriveSuccessor(record, record.id + 1, record.text, now) && nextId == old(nextId)
    {
      var found := store.Get(target, record.scope);
      kept := DeriveSuccessor(record, record.id + 1, record.text, now);
      ok, done := Merge(record, found.value, now, s0);
    }

    /** Best-effort similarities: zero for every candidate when the embedder does not answer. */
    method Similarities(record: Record, cands: seq<Record>) returns (sims: seq<real>)
      ensures |sims| == |cands|
      ensures forall i :: 0 <= i < |sims| ==>
                || sims[i] == 0.0
                || (cfg.embedder && sims[i] == cfg.similarity(cfg.embed(record.text), cfg.embed(cands[i].text)))
    {
      var up := Answers();
      if cfg.embedder && up {
        sims := seq(|cands|, i requires 0 <= i < |cands| =>
                      cfg.similarity(cfg.embed(record.text), cfg.embed(cands[i].text)));
      } else {
        sims := seq(|cands|, _ => 0.0);
      }
    }

    /** The candidates deduplication reads, and what the cascade decides about them. */
    method Consult(record: Record, now: Time) returns (r: Result<(Dedup.Decision, seq<Record>)>, ghost sims: seq<real>)
      requires Steady()
      ensures reliable ==> r.Ok?
      ensures r.Ok? ==> var (d, cands) := r.value;
                && |sims| == |cands|
                && IsAnswer(cfg.kw, store.records, DedupQuery(record), now, cands)
                && Dedup.Decides(cfg.ct, record, cands, sims, now, d)
    {
      sims := [];
      var up := Answers();
      if !up {
        return Err(Storage), [];
      }
      var hits := store.Query(DedupQuery(record), now);
      var cands := hits.value;
      if cands == [] {
        return Ok((Dedup.Add, [])), [];
      }
      var s := Similarities(record, cands);
      var d := Dedup.Evaluate(cfg.ct, record, cands, s, now);
      return Ok((d, cands)), s;
    }

    /** A write that deduplication let through: conflict resolution when enabled, a plain add otherwise. */
    method Write(draft: Draft, record: Record, now: Time, ghost s0: State,
                 cands: seq<Record>, ghost sims: seq<real>, decision: Dedup.Decision)
      returns (r: Result<Record>, ghost m: Move)
      requires Steady() && Tracks(s0, []) && Evolution.Ordered(s0)
      requires record == Incoming(s0, draft, now) && record.id < nextId && Accepts(cfg, draft.text)
      requires PassesDedup(decision) && Consulted(s0, record, now, cands, sims, decision)
      modifies store, vector, graph
      ensures Valid() && Moves(cfg, s0, m) && m.next == State()
      ensures m.step == Idle || (m.step.Remember? && m.step.draft == draft && m.step.now == now)
      ensures reliable ==> r.Ok?
      ensures r.Ok? ==> Completes(cfg, s0, m) && m.step.Remember? && r.value == Reply(cfg, s0, m.step)
    {
      var facts: seq<Record> := [];
      if cfg.conflict && record.subject.Some? {
        var up := Answers();
        if !up {
          Untouched(s0);
          return Err(Storage), Move(Idle, 0, State());
        }
        var hits := store.Query(ConflictQuery(record), now);
        facts := hits.value;
      }
      var ok, kept; ghost var done;
      ok, kept, done := WriteAgainst(record, now, s0, facts);
      ghost var step := Machine.Remember(draft, now, cands, sims, decision, facts);
      Stopped(s0, step, done);
      m := Move(step, |done|, State());
      r := if ok then Ok(kept) else Err(Storage);
    }

    method WriteAgainst(record: Record, now: Time, ghost s0: State, facts: seq<Record>)
      returns (ok: bool, kept: Record, ghost done: seq<Call>)
      requires Steady() && Tracks(s0, []) && record.id < nextId
      modifies store, vector, graph
      ensures Steady() && Tracks(s0, done) && done <= WriteCalls(cfg, s0, record, now, facts)
      ensures (reliable ==> ok) && (ok ==> done == WriteCalls(cfg, s0, record, now, facts))
      ensures kept == if cfg.conflict && record.subject.Some?
                         && Conflict.Verdict(cfg.negates(record.text), record, facts).QuarantineIncoming?
                      then record.(status := Quarantined) else record
      ensures nextId == old(nextId)
    {
      kept := record;
      ghost var calls := WriteCalls(cfg, s0, record, now, facts);
      if cfg.conflict && record.subject.Some? {
        var outcome := Conflict.ResolveAll(cfg.negates(record.text), record, facts);
        match outcome {
          case Write =>
            assert calls == AddCalls(cfg, record);
            ok, done := Add(record, s0);
          case ReplaceExisting(closing) =>
            assert calls == ReplaceCalls(cfg, s0, record, closing, now);
            ok, done := Replace(record, closing, now, s0);
          case QuarantineIncoming =>
            assert calls == QuarantineCalls(record);
            kept := record.(status := Quarantined);
            ok, done := Quarantine(record, s0);
        }
      } else {
        assert calls == AddCalls(cfg, record);
        ok, done := Add(record, s0);
      }
    }

    /** Stores a record for review, unindexed. */
    method Quarantine(record: Record, ghost s0: State) returns (ok: bool, ghost done: seq<Call>)
      requires Steady() && Tracks(s0, []) && record.id < nextId
      modifies store, vector, graph
      ensures Steady() && Tracks(s0, done) && done <= QuarantineCalls(record)
      ensures (reliable ==> ok) && (ok ==> done == QuarantineCalls(record))
      ensures nextId == old(nextId)
    {
      ok, done := Perform(Put(record.(status := Quarantined)), s0, []);
    }

    /** The dedup answer the engine acts on is the one the cascade gives for what the store holds. */
    ghost predicate Consulted(s0: State, record: Record, now: Time, cands: seq<Record>, sims: seq<real>,
                              decision: Dedup.Decision)
    {
      if cfg.dedup then
        && |cands| == |sims|
        && IsAnswer(cfg.kw, s0.rows, DedupQuery(record), now, cands)
        && Dedup.Decides(cfg.ct, record, cands, sims, now, decision)
      else decision == Dedup.Add
    }

    /** A decision that ends the write without conflict analysis. */
    method Settle(draft: Draft, record: Record, now: Time, ghost s0: State,
                  cands: seq<Record>, ghost sims: seq<real>, decision: Dedup.Decision)
      returns (r: Result<Record>, ghost m: Move)
      requires Steady() && Tracks(s0, []) && Evolution.Ordered(s0)
      requires record == Incoming(s0, draft, now) && nextId == record.id + 1 && Accepts(cfg, draft.text)
      requires !PassesDedup(decision) && Consulted(s0, record, now, cands, sims, decision)
      modifies this`nextId, store, vector, graph
      ensures Valid() && Moves(cfg, s0, m) && m.next == State()
      ensures m.step.Remember? && m.step.draft == draft && m.step.now == now
      ensures reliable ==> r.Ok?
      ensures r.Ok? ==> Completes(cfg, s0, m) && r.value == Reply(cfg, s0, m.step)
    {
      ghost var step := Machine.Remember(draft, now, cands, sims, decision, []);
      var ok, kept := true, record;
      ghost var done := [];
      match decision {
        case Ignore(target) =>
          Dedup.IgnoreNamesDuplicate(cfg.ct, record, cands, sims, now, target);
          var existing := store.Get(target, record.scope);
          kept := existing.value;
          ok := Answers();
        case Merge(target) =>
          MergeTargetIsStored(cfg, s0, step);
          nextId := nextId + 1;
          ok, kept, done := MergeInto(record, target, now, s0);
        case Review(_) =>
          kept := record.(status := Quarantined);
          ok, done := Quarantine(record, s0);
        case _ =>
          assert false;
      }
      Stopped(s0, step, done);
      m := Move(step, |done|, State());
      r := if ok then Ok(kept) else Err(Storage);
    }

    method Remember(draft: Draft, now: Time) returns (r: Result<Record>, ghost m: Move)
      requires Valid()
      modifies this`nextId, store, vector, graph
      ensures Valid() && Moves(cfg, old(State()), m) && m.next == State()
      ensures m.step == Idle || (m.step.Remember? && m.step.draft == draft && m.step.now == now)
      ensures reliable ==> if !cfg.kw.blank(draft.text) && |draft.text| <= cfg.maxChars then r.Ok? else r == Err(Validation)
      ensures r.Ok? ==> Completes(cfg, old(State()), m) && m.step.Remember?
      ensures r.Ok? ==> !cfg.kw.blank(draft.text) && |draft.text| <= cfg.maxChars
      ensures r.Ok? ==> r.value == Reply(cfg, old(State()), m.step)
    {
      ghost var s0 := State();
      if !Accepts(cfg, draft.text) {
        Untouched(s0);
        return Err(Validation), Move(Idle, 0, State());
      }
      var record := IntoRecord(draft, nextId, now);
      nextId := nextId + 1;
      var decision, cands := Dedup.Add, [];
      ghost var sims := [];
      if cfg.dedup {
        var got;
        got, sims := Consult(record, now);
        if got.Err? {
          Untouched(s0);
          return Err(got.error), Move(Idle, 0, State());
        }
        decision, cands := got.value.0, got.value.1;
      }
      if PassesDedup(decision) {
        r, m := Write(draft, record, now, s0, cands, sims, decision);
      } else {
        r, m := Settle(draft, record, now, s0, cands, sims, decision);
      }
    }

    method WriteUnindexed(draft: Draft, now: Time) returns (r: Result<Record>, ghost m: Move)
      requires Valid()
      modifies this`nextId, store, vector, graph
      ensures Valid() && Moves(cfg, old(State()), m) && m.next == State()
      ensures m.step == Machine.WriteUnindexed(draft, now)
      ensures reliable ==> if !cfg.kw.blank(draft.text) && |draft.text| <= cfg.maxChars then r.Ok? else r == Err(Validation)
      ensures r.Ok? ==> Completes(cfg, old(State()), m) && r.value == Incoming(old(State()), draft, now)
    {
      ghost var s0 := State();
      ghost var step := Machine.WriteUnindexed(draft, now);
      if !Accepts(cfg, draft.text) {
        Stopped(s0, step, []);
        return Err(Validation), Move(step, 0, State());
      }
      var record := IntoRecord(draft, nextId, now);
      nextId := nextId + 1;
      var ok; ghost var done;
      ok, done := Perform(Put(record), s0, []);
      Stopped(s0, step, done);
      m := Move(step, |done|, State());
      r := if ok then Ok(record) else Err(Storage);
    }

    // --------------------------------------------------------------- history

    /** Walks the chain back from `id` and reverses it; any of its reads may fail. */
    method HistoryOf(id: Id, scope: Scope) returns (r: Result<seq<Record>>)
      requires Valid()
      ensures History.Acyclic(store.records)
      ensures r.Ok? ==> r.value == History.Chain(store.records, id, scope)
      ensures (reliable ==> r.Ok?) && (r.Err? ==> r.error == Storage)
    {
      var up := Answers();
      if !up {
        return Err(Storage);
      }
      var tip := store.Get(id, scope);
      if tip.None? {
        return Ok([]);
      }
      var newestFirst, cursor := [tip.value], tip.value;
      ghost var tail: seq<Record> := [];
      while cursor.supersedes.Some?
        invariant History.Sees(store.records, cursor.id, scope) && store.records[cursor.id] == cursor
        invariant History.Chain(store.records, id, scope) == History.Chain(store.records, cursor.id, scope) + tail
        invariant Reverse(newestFirst) == [cursor] + tail
        decreases cursor.id
      {
        up := Answers();
        if !up {
          return Err(Storage);
        }
        var prev := store.Get(cursor.supersedes.value, scope);
        if prev.None? {
          break;
        }
        assert History.Chain(store.records, cursor.id, scope)
            == History.Chain(store.records, prev.value.id, scope) + [cursor];
        ReverseSnoc(newestFirst, prev.value);
        newestFirst := newestFirst + [prev.value];
        tail := [cursor] + tail;
        cursor := prev.value;
      }
      assert History.Chain(store.records, cursor.id, scope) == [cursor];
      r := Ok(Reverse(newestFirst));
    }

    // ----------------------------------------------------------------- sweep

    /** Purges or archives one candidate, or leaves it. */
    method SweepRecord(record: Record, scope: Scope, now: Time, ghost s0: State, ghost done: seq<Call>)
      returns (ok: bool, ghost done': seq<Call>)
      requires Steady() && Tracks(s0, done)
      modifies store, vector, graph
      ensures Steady() && Tracks(s0, done') && done <= done' <= done + SweepOne(cfg, record, scope, now)
      ensures ok ==> done' == done + SweepOne(cfg, record, scope, now)
      ensures reliable && record.id in old(store.records) ==> ok
      ensures old(store.records.Keys) - {record.id} <= store.records.Keys
    {
      ok, done' := true, done;
      if Lapsed(record, now) {
        ok, done' := CoordinateDelete(record.id, scope, s0, done);
      } else if Archivable(record, now) {
        ok, done' := Perform(Machine.Update(ArchivedAt(record, now)), s0, done);
      }
    }

    method SweepAll(candidates: seq<Record>, scope: Scope, now: Time, ghost s0: State)
      returns (ok: bool, report: Reconcile.SweepReport, ghost done: seq<Call>)
      requires Steady() && Tracks(s0, []) && DistinctIds(candidates)
      requires forall k :: 0 <= k < |candidates| ==> candidates[k].id in store.records
      modifies store, vector, graph
      ensures Steady() && Tracks(s0, done) && done <= SweepCalls(cfg, candidates, scope, now)
      ensures reliable ==> ok
      ensures ok ==> done == SweepCalls(cfg, candidates, scope, now) && report == Reconcile.ReportOn(candidates, now)
    {
      ok, report, done := true, Reconcile.SweepReport([], [], 0), [];
      for i := 0 to |candidates|
        invariant Steady() && Tracks(s0, done)
        invariant done == SweepCalls(cfg, candidates[..i], scope, now)
        invariant ok && report == Reconcile.ReportOn(candidates[..i], now)
        invariant forall k :: i <= k < |candidates| ==> candidates[k].id in store.records
      {
        SweepGrows(cfg, candidates, scope, now, i);
        assert candidates[..i + 1][..i] == candidates[..i];
        ghost var before := store.records.Keys;
        ok, done := SweepRecord(candidates[i], scope, now, s0, done);
        LaterRowsStay(candidates, i, before, store.records.Keys);
        if !ok {
          return;
        }
        report := Reconcile.Noted(report, candidates[i], now);
      }
      assert candidates[..|candidates|] == candidates;
    }

    method RunRetentionSweep(scope: Scope, now: Time, clock: Time)
      returns (r: Result<Reconcile.SweepReport>, ghost m: Move)
      requires Valid()
      modifies store, vector, graph
      ensures Valid() && Moves(cfg, old(State()), m) && m.next == State()
      ensures m.step == Idle || (m.step.Sweep? && m.step == Sweep(scope, now, clock, m.step.candidates))
      ensures reliable ==> r.Ok?
      ensures r.Ok? ==> Completes(cfg, old(State()), m) && m.step.Sweep?
                        && r.value == Reconcile.ReportOn(m.step.candidates, now)
    {
      ghost var s0 := State();
      var up := Answers();
      if !up {
        Untouched(s0);
        return Err(Storage), Move(Idle, 0, State());
      }
      var hits := store.Query(SweepQuery(scope), clock);
      var ok, report; ghost var done;
      ok, report, done := SweepAll(hits.value, scope, now, s0);
      ghost var step := Sweep(scope, now, clock, hits.value);
      Stopped(s0, step, done);
      r := if ok then Ok(report) else Err(Storage);
      m := Move(step, |done|, State());
    }

    // ---------------------------------------------------------------- repair

    method RemoveGhosts(ghosts: seq<Id>, ghost s0: State) returns (ok: bool, removed: nat, ghost done: seq<Call>)
      requires Steady() && Tracks(s0, [])
      modifies store, vector, graph
      ensures Steady() && Tracks(s0, done) && done <= RemoveAll(ghosts)
      ensures (reliable ==> ok) && (ok ==> done == RemoveAll(ghosts) && removed == |ghosts|)
    {
      ok, removed, done := true, 0, [];
      ghost var calls := RemoveAll(ghosts);
      while removed < |ghosts|
        invariant removed <= |ghosts| && ok
        invariant Steady() && Tracks(s0, done) && done == calls[..removed]
      {
        assert calls[..removed + 1] == calls[..removed] + [RemoveVector(ghosts[removed])];
        ok, done := Perform(RemoveVector(ghosts[removed]), s0, done);
        if !ok {
          return;
        }
        removed := removed + 1;
      }
      assert done == calls;
    }

    /** Returns how many ghosts were removed and how many missing vectors were added. */
    method RepairVectorIndex(clock: Time) returns (r: Result<(nat, nat)>, ghost m: Move)
      requires Valid()
      modifies store, vector, graph
      ensures Valid() && Moves(cfg, old(State()), m) && m.next == State()
      ensures m.step == Idle || (m.step.Repair? && m.step.clock == clock)
      ensures reliable ==> if cfg.vector && cfg.embedder then r.Ok? else r == Err(Unsupported)
      ensures r.Ok? ==> Completes(cfg, old(State()), m) && m.step.Repair?
                        && r.value == (|m.step.ghosts|, |Missing(old(State()).index, m.step.active)|)
    {
      ghost var s0 := State();
      if !cfg.vector || !cfg.embedder {
        Untouched(s0);
        return Err(Unsupported), Move(Idle, 0, State());
      }
      var up := Answers();
      if !up {
        Untouched(s0);
        return Err(Storage), Move(Idle, 0, State());
      }
      var hits := store.Query(REPAIR_QUERY, clock);
      var active := hits.value;
      var indexed := vector.ListIds();
      var missing := Missing(vector.vectors, active);
      var ghosts := Sorting.InSomeOrder(indexed - Ids(active));
      ghost var step := Repair(clock, active, ghosts);
      assert Enabled(cfg, s0, step);
      assert Calls(cfg, s0, step) == RemoveAll(ghosts) + UpsertAll(cfg, missing);
      var ok, removed; ghost var done;
      ok, removed, done := Align(ghosts, missing, s0);
      Stopped(s0, step, done);
      r := if ok then Ok((removed, |missing|)) else Err(Storage);
      m := Move(step, |done|, State());
    }

    /** Ghosts go first, then the missing vectors are written. */
    method Align(ghosts: seq<Id>, missing: seq<Record>, ghost s0: State)
      returns (ok: bool, removed: nat, ghost done: seq<Call>)
      requires Steady() && Tracks(s0, [])
      modifies store, vector, graph
      ensures Steady() && Tracks(s0, done) && done <= RemoveAll(ghosts) + UpsertAll(cfg, missing)
      ensures (reliable ==> ok) && (ok ==> done == RemoveAll(ghosts) + UpsertAll(cfg, missing) && removed == |ghosts|)
      ensures nextId == old(nextId)
    {
      ok, removed, done := RemoveGhosts(ghosts, s0);
      if ok {
        ok, done := PerformAll(UpsertAll(cfg, missing), s0, done);
      }
    }

    // -------------------------------------------------------- semantic recall

    /** Identifiers recall may drop: indexed, matched by the filter, and not visible. */
    ghost predicate Droppable(s0: State, scope: Scope, ghosts: seq<Id>) {
      forall i :: 0 <= i < |ghosts| ==>
        && ghosts[i] in s0.index
        && FilterMatches(ScopeFilter(scope), s0.index[ghosts[i]].metadata)
        && !Visible(s0, ghosts[i], scope)
    }

    /** Canonical truth decides about one match; what the store does not know under the scope is dropped. */
    method Hydrate(c: Match, scope: Scope, now: Time, ghost s0: State, ghost ghosts: seq<Id>)
      returns (hit: Option<Record>, ghost ghosts': seq<Id>)
      requires Steady() && Tracks(s0, RemoveAll(ghosts)) && store.records == s0.rows && Droppable(s0, scope, ghosts)
      requires c.id in s0.index && FilterMatches(ScopeFilter(scope), s0.index[c.id].metadata)
      modifies store, vector, graph
      ensures Steady() && Tracks(s0, RemoveAll(ghosts')) && store.records == s0.rows && Droppable(s0, scope, ghosts')
      ensures hit == if Shows(s0.rows, c.id, scope, now) then Some(s0.rows[c.id]) else None
      ensures ghosts <= ghosts' && (reliable && !Visible(s0, c.id, scope) ==> c.id in ghosts')
    {
      hit, ghosts' := None, ghosts;
      var got := store.Get(c.id, scope);
      if got.Some? {
        if got.value.status.Active? && got.value.ValidAt(now) {
          hit := got;
        }
      } else {
        assert RemoveAll(ghosts + [c.id]) == RemoveAll(ghosts) + [RemoveVector(c.id)];
        var _, done := Perform(RemoveVector(c.id), s0, RemoveAll(ghosts));
        RowsUntouched(s0, ghosts);
        RowsUntouched(s0, ghosts + [c.id]);
        if done != RemoveAll(ghosts) {
          ghosts' := ghosts + [c.id];
        }
      }
    }

    method HydrateAll(candidates: seq<Match>, scope: Scope, now: Time, ghost s0: State)
      returns (ok: bool, scored: seq<(Record, real)>, ghost ghosts: seq<Id>)
      requires Steady() && Tracks(s0, []) && store.records == s0.rows
      requires forall i :: 0 <= i < |candidates| ==>
                 candidates[i].id in s0.index && FilterMatches(ScopeFilter(scope), s0.index[candidates[i].id].metadata)
      modifies store, vector, graph
      ensures Steady() && Tracks(s0, RemoveAll(ghosts)) && store.records == s0.rows && Droppable(s0, scope, ghosts)
      ensures (reliable ==> ok) && (ok ==> scored == Shown(s0.rows, candidates, scope, now))
      ensures reliable ==> forall i :: 0 <= i < |candidates| ==>
                Visible(s0, candidates[i].id, scope) || candidates[i].id in ghosts
    {
      ok, scored, ghosts := true, [], [];
      assert RemoveAll(ghosts) == [];
      for i := 0 to |candidates|
        invariant Steady() && Tracks(s0, RemoveAll(ghosts)) && store.records == s0.rows && Droppable(s0, scope, ghosts)
        invariant ok && scored == Shown(s0.rows, candidates[..i], scope, now)
        invariant reliable ==> forall k :: 0 <= k < i ==> Visible(s0, candidates[k].id, scope) || candidates[k].id in ghosts
      {
        ok := Answers();
        if !ok {
          return;
        }
        assert candidates[..i + 1][..i] == candidates[..i];
        var hit;
        hit, ghosts := Hydrate(candidates[i], scope, now, s0, ghosts);
        if hit.Some? {
          scored := scored + [(hit.value, candidates[i].score)];
        }
      }
      assert candidates[..|candidates|] == candidates;
    }

    method SearchIndex(query: Embedding, n: nat, filter: Metadata) returns (r: Result<seq<Match>>)
      requires Steady()
      ensures r.Err? <==> n == 0
      ensures r.Ok? ==> AreNearest(cfg.similarity, vector.vectors, query, n, filter, r.value)
    {
      r := vector.Search(query, n, filter);
      if r.Ok? {
        SearchIsNearest(vector, query, n, filter, r.value);
      }
    }

    /**
     * The nearest vectors under the scope's filter, each with its row when that is visible, live and valid, cut to
     * `topK`. Matches that are not visible are dropped from the index.
     */
    method SemanticRecall(queryText: string, topK: nat, scope: Scope, now: Time)
      returns (r: Result<seq<(Record, real)>>, ghost m: Move, ghost found: seq<Match>)
      requires Valid() && topK <= 0xFFFF_FFFF
      modifies store, vector, graph
      ensures Valid() && Moves(cfg, old(State()), m) && m.next == State()
      ensures m.step == Idle || (m.step.RecallSemantic? && m.step.scope == scope)
      ensures reliable ==> if !cfg.vector || !cfg.embedder then r == Err(Unsupported)
                           else if topK == 0 then r == Err(Validation) else r.Ok?
      ensures r.Ok? ==>
                && AreNearest(cfg.similarity, old(State()).index, cfg.embed(queryText), OverFetch(topK), ScopeFilter(scope),
                              found)
                && r.value == Cut(Shown(old(State()).rows, found, scope, now), topK)
      ensures r.Ok? && reliable ==> m.step.RecallSemantic? && forall i :: 0 <= i < |found| ==>
                Visible(old(State()), found[i].id, scope) || found[i].id in m.step.ghosts
    {
      ghost var s0 := State();
      found := [];
      if !cfg.vector || !cfg.embedder {
        Untouched(s0);
        return Err(Unsupported), Move(Idle, 0, State()), [];
      }
      var up := Answers();
      if !up {
        Untouched(s0);
        return Err(Storage), Move(Idle, 0, State()), [];
      }
      var search := SearchIndex(cfg.embed(queryText), OverFetch(topK), ScopeFilter(scope));
      if search.Err? {
        Untouched(s0);
        return Err(Validation), Move(Idle, 0, State()), [];
      }
      found := search.value;
      var ok, scored; ghost var ghosts;
      ok, scored, ghosts := HydrateAll(search.value, scope, now, s0);
      ghost var step := RecallSemantic(scope, ghosts);
      assert Enabled(cfg, s0, step);
      Stopped(s0, step, RemoveAll(ghosts));
      m := Move(step, |RemoveAll(ghosts)|, State());
      r := if ok then Ok(Cut(scored, topK)) else Err(Storage);
    }
  }

  /**
   * Hybrid recall by an engine, over its own store and index. In whatever run the engine got to its state, recall
   * returns stored records inside the request scope and no quarantined one; where no operation of the run was cut short,
   * active and archived ones only.
   */
  method HybridRecall(engine: MemoryEngine, recency: Recall.Recency, request: Recall.Request, plan: seq<Recall.PlanStep>,
                      now: Time, down: nat -> bool, ghost run: seq<Move>)
    returns (r: Result<seq<Recall.Ranked>>, ghost hits: set<Recall.Hit>, ghost executed: Recall.HybridExecutor)
    requires engine.Valid()
    ensures executed.cfg == engine.cfg && executed.recency == recency
    ensures executed.store == engine.store && executed.vector == engine.vector
    ensures r.Ok? <==> executed.AllAble(request, plan, down)
    ensures r.Ok? ==>
              && Recall.DrawnFrom(engine.State(), hits, request.scope)
              && Recall.IsRanking(hits, Recall.TermsFor(request, now, recency), r.value)
    ensures r.Ok? && IsRun(engine.cfg, EMPTY, run) && engine.State() == Last(EMPTY, run) ==>
              forall i :: 0 <= i < |r.value| ==> MayReturn(engine.State(), request.scope, r.value[i].record)
    ensures r.Ok? && Agreement.IsCompleteRun(engine.cfg, EMPTY, run) && engine.State() == Last(EMPTY, run) ==>
              forall i :: 0 <= i < |r.value| ==> r.value[i].record.status.Retrievable()
  {
    var executor := new Recall.HybridExecutor(engine.cfg, engine.store, engine.vector, recency);
    ghost var parts;
    executed := executor;
    r, hits, parts := executor.Execute(request, plan, now, down);
    if r.Ok? {
      SafeAfterRun(engine.cfg, run, engine.State(), hits, request.scope, Recall.TermsFor(request, now, recency), r.value);
    }
  }

  /** A stored record inside the scope that is not quarantined. */
  ghost predicate MayReturn(s: State, scope: Scope, r: Record) {
    r.id in s.rows && s.rows[r.id] == r && scope.Contains(r.scope) && r.status != Quarantined
  }

  lemma SafeAfterRun(cfg: Config, run: seq<Move>, s: State, hits: set<Recall.Hit>, scope: Scope, terms: Recall.Terms,
                     ranked: seq<Recall.Ranked>)
    requires Recall.DrawnFrom(s, hits, scope) && Recall.IsRanking(hits, terms, ranked)
    ensures IsRun(cfg, EMPTY, run) && s == Last(EMPTY, run) ==>
              forall i :: 0 <= i < |ranked| ==> MayReturn(s, scope, ranked[i].record)
    ensures Agreement.IsCompleteRun(cfg, EMPTY, run) && s == Last(EMPTY, run) ==>
              forall i :: 0 <= i < |ranked| ==> ranked[i].record.status.Retrievable()
  {
    if IsRun(cfg, EMPTY, run) && s == Last(EMPTY, run) {
      forall i | 0 <= i < |ranked| ensures MayReturn(s, scope, ranked[i].record) {
        Recall.RecallNeverShowsQuarantined(cfg, run, hits, scope, terms, ranked, i);
      }
    }
    if Agreement.IsCompleteRun(cfg, EMPTY, run) && s == Last(EMPTY, run) {
      forall i | 0 <= i < |ranked| ensures ranked[i].record.status.Retrievable() {
        Recall.RecallIsSafe(cfg, run, hits, scope, terms, ranked, i);
      }
    }
  }

  /** A call does the same to states that differ in thrown away identifiers only. */
  lemma EffectIgnoresDraws(c: Call, s: State, t: State)
    requires UpToDraws(s, t) && (c.Put? ==> c.record.id < t.nextId)
    ensures UpToDraws(Effect(c, s), Effect(c, t)) && Effect(c, t).nextId == t.nextId
  {
  }

  /** Deleting the row of one candidate leaves those of the later ones. */
  lemma LaterRowsStay(candidates: seq<Record>, i: nat, before: set<Id>, after: set<Id>)
    requires DistinctIds(candidates) && i < |candidates| && before - {candidates[i].id} <= after
    requires forall k :: i <= k < |candidates| ==> candidates[k].id in before
    ensures forall k :: i < k < |candidates| ==> candidates[k].id in after
  {
  }

  /** Dropping vectors leaves the rows alone. */
  lemma RowsUntouched(s: State, ghosts: seq<Id>)
    ensures After(RemoveAll(ghosts), s).rows == s.rows
  {
    Outcomes.RemoveAllResult(ghosts, s);
  }

  lemma SweepGrows(cfg: Config, rs: seq<Record>, scope: Scope, now: Time, i: nat)
    requires i < |rs|
    ensures SweepCalls(cfg, rs[..i + 1], scope, now)
         == SweepCalls(cfg, rs[..i], scope, now) + SweepOne(cfg, rs[i], scope, now)
    ensures SweepCalls(cfg, rs[..i + 1], scope, now) <= SweepCalls(cfg, rs, scope, now)
    decreases |rs| - i
  {
    assert rs[..i + 1][..i] == rs[..i];
    if i + 1 < |rs| {
      SweepGrows(cfg, rs, scope, now, i + 1);
    } else {
      assert rs[..i + 1] == rs;
    }
  }

  lemma ReverseSnoc(s: seq<Record>, r: Record)
    ensures Reverse(s + [r]) == [r] + Reverse(s)
  {
  }

  function Reverse(s: seq<Record>): seq<Record> {
    seq(|s|, i requires 0 <= i < |s| => s[|s| - 1 - i])
  }
}
