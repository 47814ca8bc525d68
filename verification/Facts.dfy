/** One live fact per type and subject, without restrictions: any scopes, any configuration, any stop of any operation. */
module Facts {
  import opened Domain
  import opened Machine
  import opened Evolution
  import opened Outcomes
  import opened Safety
  import opened Agreement
  import opened Uniqueness
  import Conflict
  import Dedup

  /** The scope of `r` contains every live fact under its key. */
  ghost predicate Covers(s: State, r: Record) {
    forall id :: IsActive(s, id) && SameKey(r, s.rows[id]) ==> r.scope.Contains(s.rows[id].scope)
  }

  /**
   * The first `k` calls of the step leave facts unique. A plain write needs a free key, or conflict resolution and a scope
   * that sees the live fact; a merge must not begin, or end; an update must not begin, find the key free, or end and have
   * named the live record.
   */
  ghost predicate StaysUnique(cfg: Config, s: State, step: Step, k: nat) {
    match step
    case Remember(draft, now, _, _, decision, facts) =>
      var r := Incoming(s, draft, now);
      !Accepts(cfg, draft.text) || k == 0 ||
      (match decision
       case Merge(_) => k == 2 + |DropCalls(cfg, 0)|
       case Ignore(_) => true
       case Review(_) => true
       case _ => if cfg.conflict then Covers(s, r) else KeyIsFree(s, r))
    case Revise(id, scope, text, _, _, _) =>
      cfg.kw.blank(text) || !Visible(s, id, scope) || k == 0 || KeyIsFree(s, s.rows[id])
      || (IsActive(s, id) && k == 2 + |IndexCalls(cfg, s.rows[id])| + |DropCalls(cfg, id)|)
    case WriteUnindexed(draft, now) => !Accepts(cfg, draft.text) || k == 0 || KeyIsFree(s, Incoming(s, draft, now))
    case _ => true
  }

  // ------------------------------------------------------------------- rows only

  ghost predicate LeavesRows(c: Call) { !c.Put? && !c.Update? && !c.Delete? }

  lemma {:induction false} RowsStay(s: State, calls: seq<Call>)
    requires forall c :: c in calls ==> LeavesRows(c)
    ensures After(calls, s).rows == s.rows
    decreases |calls|
  {
    if calls != [] {
      var n := |calls| - 1;
      assert calls[n] in calls;
      RowsStay(s, calls[..n]);
    }
  }

  /** Rows after a put, however many of the calls after it were made that leave rows alone. */
  lemma PutThenRows(s: State, r: Record, rest: seq<Call>, k: nat)
    requires forall c :: c in rest ==> LeavesRows(c)
    requires 0 < k <= 1 + |rest|
    ensures After(([Put(r)] + rest)[..k], s).rows == s.rows[r.id := r]
  {
    assert ([Put(r)] + rest)[..k] == [Put(r)] + rest[..k - 1];
    AfterConcat([Put(r)], rest[..k - 1], s);
    AfterOne(Put(r), s);
    RowsStay(Effect(Put(r), s), rest[..k - 1]);
  }

  /** Storing a new live record keeps facts unique if and only if its key is free. */
  lemma StoringIsUniqueIff(s: State, t: State, r: Record)
    requires OneFact(s) && r.id !in s.rows && r.status == Active && t.rows == s.rows[r.id := r]
    ensures OneFact(t) <==> KeyIsFree(s, r)
  {
    assert forall id :: IsActive(t, id) <==> id == r.id || IsActive(s, id);
    if !KeyIsFree(s, r) {
      var id :| IsActive(s, id) && SameKey(r, s.rows[id]);
      assert IsActive(t, r.id) && IsActive(t, id) && SameKey(t.rows[r.id], t.rows[id]);
    } else {
      StoredIsUnique(s, r);
      SameRowsUnique(Stored(s, r), t);
    }
  }

  lemma AddShape(cfg: Config, r: Record)
    ensures AddCalls(cfg, r) == [Put(r)] + (IndexCalls(cfg, r) + GraphCalls(cfg, r))
    ensures forall c :: c in IndexCalls(cfg, r) + GraphCalls(cfg, r) ==> LeavesRows(c)
    ensures forall c :: c in IndexCalls(cfg, r) ==> LeavesRows(c)
  {
  }

  lemma AddStopIsUniqueIff(cfg: Config, s: State, r: Record, k: nat)
    requires Ordered(s) && OneFact(s) && r.id == s.nextId && r.status == Active && k <= |AddCalls(cfg, r)|
    ensures OneFact(After(AddCalls(cfg, r)[..k], s)) <==> k == 0 || KeyIsFree(s, r)
  {
    AddShape(cfg, r);
    if k > 0 {
      PutThenRows(s, r, IndexCalls(cfg, r) + GraphCalls(cfg, r), k);
      StoringIsUniqueIff(s, After(AddCalls(cfg, r)[..k], s), r);
    }
  }

  lemma QuarantineStopIsUnique(s: State, r: Record, k: nat)
    requires OneFact(s) && Ordered(s) && r.id == s.nextId && k <= 1
    ensures OneFact(After(QuarantineCalls(r)[..k], s))
  {
    if k == 1 {
      assert QuarantineCalls(r)[..1] == QuarantineCalls(r);
      QuarantineIsUnique(s, r);
    }
  }

  // --------------------------------------------------------------- replacements

  /** A replacement closes its fact before it stores the new one, so it is unique wherever it stops. */
  lemma ReplaceStopIsUnique(cfg: Config, s: State, r: Record, closing: Id, now: Time, k: nat)
    requires Ordered(s) && OneFact(s) && r.id == s.nextId && r.status == Active
    requires IsActive(s, closing) && Visible(s, closing, r.scope) && SameKey(s.rows[closing], r)
    requires k <= |ReplaceCalls(cfg, s, r, closing, now)|
    ensures OneFact(After(ReplaceCalls(cfg, s, r, closing, now)[..k], s))
  {
    var closed := Conflict.CloseWindow(s.rows[closing], now);
    var head, tail := [Update(closed)] + DropCalls(cfg, closing), [Put(r)] + IndexCalls(cfg, r);
    var calls := ReplaceCalls(cfg, s, r, closing, now);
    assert calls == head + tail;
    if 0 < k <= |head| {
      assert calls[..k] == [Update(closed)] + DropCalls(cfg, closing)[..k - 1];
      ClosedStopIsUnique(s, closed, DropCalls(cfg, closing)[..k - 1]);
    } else if k > |head| {
      assert calls[..k] == head + tail[..k - |head|];
      StoredStopIsUnique(cfg, s, r, closed, k - |head|);
    }
  }

  lemma ClosedStopIsUnique(s: State, closed: Record, drops: seq<Call>)
    requires OneFact(s) && IsActive(s, closed.id) && SameFact(s.rows[closed.id], closed) && closed.status != Active
    requires forall c :: c in drops ==> c.RemoveVector?
    ensures OneFact(After([Update(closed)] + drops, s))
  {
    ClosedRows(s, closed, drops);
    RetiringFreesKey(s, closed.id, closed);
    SameRowsUnique(s.(rows := s.rows[closed.id := closed]), After([Update(closed)] + drops, s));
  }

  lemma StoredStopIsUnique(cfg: Config, s: State, r: Record, closed: Record, k: nat)
    requires Ordered(s) && OneFact(s) && r.id == s.nextId && r.status == Active
    requires IsActive(s, closed.id) && SameFact(s.rows[closed.id], closed) && closed.status != Active
    requires SameKey(s.rows[closed.id], r) && 0 < k <= |[Put(r)] + IndexCalls(cfg, r)|
    ensures OneFact(After([Update(closed)] + DropCalls(cfg, closed.id) + ([Put(r)] + IndexCalls(cfg, r))[..k], s))
  {
    var head, tail := [Update(closed)] + DropCalls(cfg, closed.id), [Put(r)] + IndexCalls(cfg, r);
    var t := After(head, s);
    AfterConcat(head, tail[..k], s);
    ClosedRows(s, closed, DropCalls(cfg, closed.id));
    ClosedThenStored(s, t, r, closed.id, closed);
    AddShape(cfg, r);
    PutThenRows(t, r, IndexCalls(cfg, r), k);
    StoringIsUniqueIff(t, After(tail[..k], t), r);
  }

  lemma ClosedRows(s: State, closed: Record, drops: seq<Call>)
    requires closed.id in s.rows && forall c :: c in drops ==> c.RemoveVector?
    ensures After([Update(closed)] + drops, s).rows == s.rows[closed.id := closed]
  {
    AfterConcat([Update(closed)], drops, s);
    AfterOne(Update(closed), s);
    RowsStay(Effect(Update(closed), s), drops);
  }

  lemma ClosedThenStored(s: State, t: State, r: Record, closing: Id, closed: Record)
    requires Ordered(s) && OneFact(s) && r.id == s.nextId && IsActive(s, closing) && SameKey(s.rows[closing], r)
    requires closed.id == closing && SameFact(s.rows[closing], closed) && closed.status != Active
    requires t.rows == s.rows[closing := closed]
    ensures OneFact(t) && r.id !in t.rows && KeyIsFree(t, r)
  {
    var u := s.(rows := s.rows[closing := closed]);
    RetiringFreesKey(s, closing, closed);
    SameRowsUnique(u, t);
    KeyFreeAlike(u, s.rows[closing], r);
    assert forall id :: IsActive(t, id) <==> IsActive(u, id);
  }

  // ------------------------------------------------------------------- handovers

  /** Between storing a successor and retiring its predecessor the rows are the old ones and the successor. */
  lemma BetweenRows(s: State, next: Record, mid: seq<Call>, last: Call, k: nat)
    requires forall c :: c in mid ==> LeavesRows(c)
    requires 0 < k <= 1 + |mid|
    ensures After(([Put(next)] + mid + [last])[..k], s).rows == s.rows[next.id := next]
  {
    assert ([Put(next)] + mid + [last])[..k] == ([Put(next)] + mid)[..k];
    PutThenRows(s, next, mid, k);
  }

  lemma MergeStopIsUniqueIff(cfg: Config, s: State, r: Record, target: Id, now: Time, k: nat)
    requires Ordered(s) && OneFact(s) && r.id == s.nextId && IsActive(s, target) && SameKey(s.rows[target], r)
    requires k <= |MergeCalls(cfg, s, r, target, now)|
    ensures OneFact(After(MergeCalls(cfg, s, r, target, now)[..k], s)) <==> k == 0 || k == 2 + |DropCalls(cfg, 0)|
  {
    var calls := MergeCalls(cfg, s, r, target, now);
    if k == |calls| {
      assert calls[..k] == calls;
      MergeIsUnique(cfg, s, r, target, now);
    } else if k > 0 {
      MidMergeIsNotUnique(cfg, s, r, target, now, k);
    }
  }

  lemma MidMergeIsNotUnique(cfg: Config, s: State, r: Record, target: Id, now: Time, k: nat)
    requires Ordered(s) && OneFact(s) && r.id == s.nextId && IsActive(s, target) && SameKey(s.rows[target], r)
    requires 0 < k <= 1 + |DropCalls(cfg, target)|
    ensures !OneFact(After(MergeCalls(cfg, s, r, target, now)[..k], s))
  {
    var next := DeriveSuccessor(r, r.id + 1, r.text, now);
    MidMergeRows(cfg, s, r, target, now, k, next);
    BesideIsNotUnique(s, After(MergeCalls(cfg, s, r, target, now)[..k], s), next, target);
  }

  lemma MidMergeRows(cfg: Config, s: State, r: Record, target: Id, now: Time, k: nat, next: Record)
    requires target in s.rows && 0 < k <= 1 + |DropCalls(cfg, target)| && next == DeriveSuccessor(r, r.id + 1, r.text, now)
    ensures After(MergeCalls(cfg, s, r, target, now)[..k], s).rows == s.rows[next.id := next]
  {
    BetweenRows(s, next, DropCalls(cfg, target), Update(Retire(s.rows[target], now)), k);
  }

  /** A live record stored beside the live one under its key. */
  lemma BesideIsNotUnique(s: State, t: State, next: Record, id: Id)
    requires OneFact(s) && next.id !in s.rows && next.status == Active && t.rows == s.rows[next.id := next]
    requires IsActive(s, id) && SameKey(next, s.rows[id])
    ensures !OneFact(t)
  {
    StoringIsUniqueIff(s, t, next);
  }

  lemma ReviseStopIsUniqueIff(cfg: Config, s: State, step: Step, k: nat)
    requires Ordered(s) && OneFact(s) && step.Revise? && step.id in s.rows && k <= |ReviseCalls(cfg, s, step)|
    ensures OneFact(After(ReviseCalls(cfg, s, step)[..k], s)) <==>
              k == 0 || KeyIsFree(s, s.rows[step.id]) || (IsActive(s, step.id) && k == |ReviseCalls(cfg, s, step)|)
  {
    var calls := ReviseCalls(cfg, s, step);
    var next := Successor(s, step);
    if k == |calls| {
      assert calls[..k] == calls;
      ReviseIsUniqueIff(cfg, s, step);
    } else if k > 0 {
      var mid := IndexCalls(cfg, next) + DropCalls(cfg, step.id);
      assert calls == [Put(next)] + mid + [Update(Retire(s.rows[step.id], step.now))];
      BetweenRows(s, next, mid, Update(Retire(s.rows[step.id], step.now)), k);
      StoringIsUniqueIff(s, After(calls[..k], s), next);
      SameKeyFree(s, next, s.rows[step.id]);
    }
  }

  lemma SameKeyFree(s: State, a: Record, b: Record)
    requires a.subject == b.subject && a.memoryType == b.memoryType
    ensures KeyIsFree(s, a) <==> KeyIsFree(s, b)
  {
  }

  // --------------------------------------------------------------------- writes

  /** What the conflict query answers: with a live fact in sight that fact, and otherwise nothing. */
  lemma FactsInSight(cfg: Config, s: State, r: Record, now: Time, facts: seq<Record>)
    requires WellKeyed(s.rows) && OneFact(s) && ActiveIsOpen(s) && r.subject.Some?
    requires IsAnswer(cfg.kw, s.rows, ConflictQuery(r), now, facts)
    ensures facts == [] <==> KeyIsFree(s, r) || !Covers(s, r)
    ensures facts != [] ==> IsActive(s, facts[0].id) && s.rows[facts[0].id] == facts[0] && SameKey(facts[0], r)
                            && Visible(s, facts[0].id, r.scope)
    ensures forall i :: 0 <= i < |facts| ==> SameSubject(r, facts[i])
  {
    if facts == [] {
      forall id | IsActive(s, id) && SameKey(r, s.rows[id]) ensures !r.scope.Contains(s.rows[id].scope) {
        assert r.scope.Contains(s.rows[id].scope) ==> id in Matching(cfg.kw, s.rows, ConflictQuery(r), now);
      }
    } else {
      var x := facts[0].id;
      assert Matches(cfg.kw, facts[0], ConflictQuery(r), now);
      forall id | IsActive(s, id) && SameKey(r, s.rows[id]) ensures id == x {
        assert SameKey(s.rows[id], s.rows[x]);
      }
    }
  }

  lemma WriteStopIsUniqueIff(cfg: Config, s: State, r: Record, now: Time, facts: seq<Record>, k: nat)
    requires Ordered(s) && OneFact(s) && ActiveIsOpen(s) && r.id == s.nextId && r.status == Active
    requires cfg.conflict && r.subject.Some? ==> IsAnswer(cfg.kw, s.rows, ConflictQuery(r), now, facts)
    requires k <= |WriteCalls(cfg, s, r, now, facts)|
    ensures OneFact(After(WriteCalls(cfg, s, r, now, facts)[..k], s)) <==>
              k == 0 || if cfg.conflict then Covers(s, r) else KeyIsFree(s, r)
  {
    if cfg.conflict && r.subject.Some? {
      FactsInSight(cfg, s, r, now, facts);
      if facts != [] {
        Conflict.SameSubjectNeverWrites(cfg.negates(r.text), r, facts);
        match Conflict.Verdict(cfg.negates(r.text), r, facts)
        case ReplaceExisting(closing) => ReplaceStopIsUnique(cfg, s, r, closing, now, k);
        case QuarantineIncoming => QuarantineStopIsUnique(s, r, k);
      } else {
        AddStopIsUniqueIff(cfg, s, r, k);
        FreeIsCovered(s, r);
      }
    } else {
      AddStopIsUniqueIff(cfg, s, r, k);
      assert r.subject.None? ==> KeyIsFree(s, r) && Covers(s, r);
    }
  }

  lemma FreeIsCovered(s: State, r: Record)
    ensures KeyIsFree(s, r) ==> Covers(s, r)
  {
  }

  lemma RememberStopIsUniqueIff(cfg: Config, s: State, step: Step, k: nat)
    requires Ordered(s) && OneFact(s) && ActiveIsOpen(s) && step.Remember? && Enabled(cfg, s, step)
    requires k <= |Calls(cfg, s, step)|
    ensures OneFact(After(Calls(cfg, s, step)[..k], s)) <==> StaysUnique(cfg, s, step, k)
  {
    var calls := Calls(cfg, s, step);
    if Accepts(cfg, step.draft.text) {
      MergeTargetIsStored(cfg, s, step);
      var r := Incoming(s, step.draft, step.now);
      match step.decision
      case Ignore(_) =>
      case Merge(target) => MergeStopIsUniqueIff(cfg, s, r, target, step.now, k);
      case Review(_) => QuarantineStopIsUnique(s, r, k);
      case _ => WriteStopIsUniqueIff(cfg, s, r, step.now, step.facts, k);
    }
  }

  // ---------------------------------------------------------------- other steps

  /** Calls that store nothing new, and only retire what is stored, keep facts unique. */
  lemma RetiringStaysUnique(s: State, calls: seq<Call>)
    requires Ordered(s) && OneFact(s) && AllLawful(s, calls) && forall c :: c in calls ==> !c.Put?
    ensures OneFact(After(calls, s))
  {
    LawfulCallsEvolve(s, calls);
    NoPutNoRows(s, calls);
    FewerIsUnique(s, After(calls, s));
  }

  lemma OtherStopIsUnique(cfg: Config, s: State, step: Step, k: nat)
    requires Ordered(s) && OneFact(s) && Enabled(cfg, s, step) && k <= |Calls(cfg, s, step)|
    requires !step.Remember? && !step.Revise? && !step.WriteUnindexed?
    ensures OneFact(After(Calls(cfg, s, step)[..k], s))
  {
    var calls := Calls(cfg, s, step);
    OperationsAreLawful(cfg, s, step);
    if step.Sweep? {
      SweepPutsNothing(cfg, step.candidates, step.scope, step.now);
    }
    forall c | c in calls[..k] ensures Lawful(s, c) && !c.Put? {
      assert c in calls;
    }
    RetiringStaysUnique(s, calls[..k]);
  }

  lemma StopIsUniqueIff(cfg: Config, s: State, step: Step, k: nat)
    requires Ordered(s) && OneFact(s) && ActiveIsOpen(s) && Enabled(cfg, s, step) && k <= |Calls(cfg, s, step)|
    ensures OneFact(After(Calls(cfg, s, step)[..k], s)) <==> StaysUnique(cfg, s, step, k)
  {
    match step
    case Remember(_, _, _, _, _, _) => RememberStopIsUniqueIff(cfg, s, step, k);
    case Revise(id, scope, _, _, _, _) => if Visible(s, id, scope) { ReviseStopIsUniqueIff(cfg, s, step, k); }
    case WriteUnindexed(draft, now) => UnindexedStopIsUniqueIff(cfg, s, step, k);
    case _ => OtherStopIsUnique(cfg, s, step, k);
  }

  lemma UnindexedStopIsUniqueIff(cfg: Config, s: State, step: Step, k: nat)
    requires Ordered(s) && OneFact(s) && step.WriteUnindexed? && k <= |Calls(cfg, s, step)|
    ensures OneFact(After(Calls(cfg, s, step)[..k], s)) <==> StaysUnique(cfg, s, step, k)
  {
    if k > 0 {
      var r := Incoming(s, step.draft, step.now);
      assert Calls(cfg, s, step) == [Put(r)] + [];
      PutThenRows(s, r, [], k);
      StoringIsUniqueIff(s, After(Calls(cfg, s, step)[..k], s), r);
    }
  }

  /** From unique facts a move, cut short or not, leads to unique facts if and only if its step and stop allow it. */
  lemma MoveIsUniqueIff(cfg: Config, s: State, m: Move)
    requires Ordered(s) && OneFact(s) && ActiveIsOpen(s) && Moves(cfg, s, m)
    ensures OneFact(m.next) <==> StaysUnique(cfg, s, m.step, m.performed)
  {
    StopIsUniqueIff(cfg, s, m.step, m.performed);
    SameRowsUnique(After(Calls(cfg, s, m.step)[..m.performed], s), m.next);
  }

  /**
   * Over every run from the empty engine, whatever its scopes, its configuration and its failures: facts are unique all
   * along if and only if every move is one of those that keep them so.
   */
  lemma {:induction false} RunIsUniqueIff(cfg: Config, run: seq<Move>)
    requires IsRun(cfg, EMPTY, run)
    ensures AlwaysUnique(run) <==> AllStayUnique(cfg, run)
    decreases |run|
  {
    if run != [] {
      var n := |run| - 1;
      var before := run[..n];
      RunIsUniqueIff(cfg, before);
      UniqueOneLonger(cfg, run);
      if AlwaysUnique(before) {
        RunStaysHonest(cfg, before);
        UniqueAtLast(before);
        MoveIsUniqueIff(cfg, Last(EMPTY, before), run[n]);
      }
    }
  }

  lemma UniqueOneLonger(cfg: Config, run: seq<Move>)
    requires run != []
    ensures var (n, before) := (|run| - 1, run[..|run| - 1]);
            && (AlwaysUnique(run) <==> AlwaysUnique(before) && OneFact(run[n].next))
            && (AllStayUnique(cfg, run) <==>
                  AllStayUnique(cfg, before) && StaysUnique(cfg, Last(EMPTY, before), run[n].step, run[n].performed))
  {
    var n := |run| - 1;
    assert forall k :: 0 <= k <= n ==> run[..n][..k] == run[..k];
    assert forall k :: 0 <= k < n ==> run[..n][k] == run[k];
    assert run[..|run|] == run;
  }

  lemma UniqueAtLast(run: seq<Move>)
    requires AlwaysUnique(run)
    ensures OneFact(Last(EMPTY, run))
  {
    assert run[..|run|] == run;
  }

  ghost predicate AlwaysUnique(run: seq<Move>) { forall n :: 0 <= n <= |run| ==> OneFact(Last(EMPTY, run[..n])) }

  ghost predicate AllStayUnique(cfg: Config, run: seq<Move>) {
    forall n :: 0 <= n < |run| ==> StaysUnique(cfg, Last(EMPTY, run[..n]), run[n].step, run[n].performed)
  }

  /** An update of the live fact cut short after it stored the successor leaves two. */
  lemma UpdateIsUniqueIffWhole(cfg: Config, s: State, m: Move)
    requires Ordered(s) && OneFact(s) && Moves(cfg, s, m) && m.step.Revise?
    requires IsActive(s, m.step.id) && s.rows[m.step.id].subject.Some?
    ensures OneFact(m.next) <==> m.performed == 0 || m.performed == |Calls(cfg, s, m.step)|
  {
    var calls := Calls(cfg, s, m.step);
    if calls != [] {
      ReviseStopIsUniqueIff(cfg, s, m.step, m.performed);
      assert SameKey(s.rows[m.step.id], s.rows[m.step.id]);
    }
    SameRowsUnique(After(calls[..m.performed], s), m.next);
  }

  // -------------------------------------------------------------- orderly runs

  /** Everything is stored in one scope. */
  ghost predicate AtHome(s: State, home: Scope) { forall id :: id in s.rows ==> s.rows[id].scope == home }

  ghost predicate Tidy(s: State, home: Scope) { Ordered(s) && ActiveIsOpen(s) && AtHome(s, home) && OneFact(s) }

  /** Writes stay in one scope and go through remember; updates address live records. */
  ghost predicate Orderly(cfg: Config, s: State, step: Step, home: Scope) {
    match step
    case Remember(draft, _, _, _, _, _) => draft.scope == home
    case Revise(id, scope, _, _, _, _) => Visible(s, id, scope) ==> IsActive(s, id)
    case WriteUnindexed(draft, _) => !Accepts(cfg, draft.text)
    case _ => true
  }

  lemma CompletedIsUnique(cfg: Config, s: State, m: Move, home: Scope)
    requires Tidy(s, home) && cfg.conflict && Completes(cfg, s, m) && Orderly(cfg, s, m.step, home)
    ensures OneFact(m.next)
  {
    MoveIsUniqueIff(cfg, s, m);
    OrderlyStaysUnique(cfg, s, m.step, home);
  }

  /** In one scope every fact is in sight, so a whole orderly operation is one of those that keep facts unique. */
  lemma OrderlyStaysUnique(cfg: Config, s: State, step: Step, home: Scope)
    requires Tidy(s, home) && cfg.conflict && Enabled(cfg, s, step) && Orderly(cfg, s, step, home)
    ensures StaysUnique(cfg, s, step, |Calls(cfg, s, step)|)
  {
    if step.Remember? {
      MergeTargetIsStored(cfg, s, step);
    }
  }

  /** Placement: new rows carry the scope of the write, or of the record they revise, and are open while active. */
  ghost predicate Homely(s: State, c: Call, home: Scope) {
    && (c.Put? ==> c.record.scope == home && c.record.AlwaysValid())
    && (c.Update? ==> c.record.id in s.rows && SameFact(s.rows[c.record.id], c.record) && c.record.status != Active)
  }

  lemma {:induction false} HomelyCallsStay(s: State, calls: seq<Call>, home: Scope)
    requires AtHome(s, home) && ActiveIsOpen(s) && forall c :: c in calls ==> Homely(s, c, home)
    ensures AtHome(After(calls, s), home) && ActiveIsOpen(After(calls, s))
    decreases |calls|
  {
    if calls != [] {
      var n := |calls| - 1;
      HomelyCallsStay(s, calls[..n], home);
      assert calls[n] in calls;
    }
  }

  lemma PutsAreHomely(cfg: Config, s: State, step: Step, home: Scope)
    requires Ordered(s) && AtHome(s, home) && Enabled(cfg, s, step) && Orderly(cfg, s, step, home)
    ensures forall c :: c in Calls(cfg, s, step) ==> Homely(s, c, home)
  {
    OperationsAreLawful(cfg, s, step);
    forall c | c in Calls(cfg, s, step) && c.Put? ensures c.record.scope == home && c.record.AlwaysValid() {
      PutIsHomely(cfg, s, step, home, c);
    }
    forall c | c in Calls(cfg, s, step) ensures Homely(s, c, home) {
      assert Lawful(s, c);
    }
  }

  lemma PutIsHomely(cfg: Config, s: State, step: Step, home: Scope, c: Call)
    requires Ordered(s) && AtHome(s, home) && Enabled(cfg, s, step) && Orderly(cfg, s, step, home)
    requires c in Calls(cfg, s, step) && c.Put?
    ensures c.record.scope == home && c.record.AlwaysValid()
  {
    match step
    case Remember(draft, now, _, _, decision, facts) =>
      if Accepts(cfg, draft.text) {
        MergeTargetIsStored(cfg, s, step);
        RememberPuts(cfg, s, Incoming(s, draft, now), now, decision, facts, c);
      }
    case Sweep(scope, now, _, candidates) => SweepPutsNothing(cfg, candidates, scope, now);
    case _ =>
  }

  lemma RememberPuts(cfg: Config, s: State, r: Record, now: Time, decision: Dedup.Decision, facts: seq<Record>, c: Call)
    requires decision.Merge? ==> decision.target in s.rows
    requires c.Put? && c in RememberCalls(cfg, s, r, now, decision, facts) && r.AlwaysValid()
    ensures c.record.scope == r.scope && c.record.AlwaysValid()
  {
    WritePuts(cfg, s, r, now, facts, c);
  }

  lemma WritePuts(cfg: Config, s: State, r: Record, now: Time, facts: seq<Record>, c: Call)
    ensures c.Put? && c in WriteCalls(cfg, s, r, now, facts) ==> c.record.(status := r.status) == r
  {
    if r.subject.Some? {
      EdgeCallsShape(r.id, cfg.relations(r.subject.value, r.text));
    }
    assert c in AddCalls(cfg, r) ==> c == Put(r) || c in IndexCalls(cfg, r) || c in GraphCalls(cfg, r);
  }

  ghost predicate IsOrderlyRun(cfg: Config, run: seq<Move>, home: Scope) {
    && IsCompleteRun(cfg, EMPTY, run)
    && forall n :: 0 <= n < |run| ==> Orderly(cfg, Last(EMPTY, run[..n]), run[n].step, home)
  }

  /**
   * With conflict resolution on, dedup on or off: in every failure-free run of orderly operations each type and
   * subject has at most one live record.
   */
  lemma {:induction false} RunIsUnique(cfg: Config, run: seq<Move>, home: Scope)
    requires cfg.conflict && IsOrderlyRun(cfg, run, home)
    ensures Tidy(Last(EMPTY, run), home)
    ensures var rows := Last(EMPTY, run).rows; forall a, b ::
              && a in rows && rows[a].status == Active && b in rows && rows[b].status == Active
              && rows[a].subject.Some? && rows[a].subject == rows[b].subject && rows[a].memoryType == rows[b].memoryType ==>
              a == b
    decreases |run|
  {
    if run != [] {
      var n := |run| - 1;
      assert forall k :: 0 <= k < n ==> run[..n][..k] == run[..k] && run[..n][k] == run[k];
      RunIsUnique(cfg, run[..n], home);
      var s, m := Last(EMPTY, run[..n]), run[n];
      MoveEvolves(cfg, s, m);
      CompletedState(cfg, s, m);
      PutsAreHomely(cfg, s, m.step, home);
      HomelyCallsStay(s, Calls(cfg, s, m.step), home);
      SameRowsTidy(After(Calls(cfg, s, m.step), s), m.next, home);
      CompletedIsUnique(cfg, s, m, home);
    }
  }

  lemma SameRowsTidy(s: State, t: State, home: Scope)
    requires t.rows == s.rows && AtHome(s, home) && ActiveIsOpen(s)
    ensures AtHome(t, home) && ActiveIsOpen(t)
  {
    assert forall id :: IsActive(t, id) <==> IsActive(s, id);
  }
}
