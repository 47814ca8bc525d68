/** Supersession chains: what `history` returns, and that it is the whole story of a record. */
module History {
  import opened Domain
  import opened Machine
  import opened Evolution
  import Outcomes

  ghost predicate Acyclic(rows: Rows) {
    forall id :: id in rows && rows[id].supersedes.Some? ==> rows[id].supersedes.value < id
  }

  predicate Sees(rows: Rows, id: Id, scope: Scope) { id in rows && scope.Contains(rows[id].scope) }

  /** The visible chain ending at `id`, oldest first. */
  ghost function Chain(rows: Rows, id: Id, scope: Scope): seq<Record>
    requires Acyclic(rows)
    decreases id
  {
    if !Sees(rows, id, scope) then []
    else if rows[id].supersedes.None? then [rows[id]]
    else Chain(rows, rows[id].supersedes.value, scope) + [rows[id]]
  }

  /** Consecutive records are linked, every record is stored and visible, the last one is the requested one. */
  ghost predicate LinkedUpTo(rows: Rows, id: Id, scope: Scope, chain: seq<Record>) {
    && chain != []
    && chain[|chain| - 1].id == id
    && (forall i :: 0 <= i < |chain| ==> Sees(rows, chain[i].id, scope) && rows[chain[i].id] == chain[i])
    && (forall i :: 0 < i < |chain| ==> chain[i].supersedes == Some(chain[i - 1].id))
  }

  /** Nothing visible comes before the first record. */
  ghost predicate Maximal(rows: Rows, scope: Scope, chain: seq<Record>) {
    chain != [] && (chain[0].supersedes.Some? ==> !Sees(rows, chain[0].supersedes.value, scope))
  }

  lemma {:induction false} ChainIsHistory(rows: Rows, id: Id, scope: Scope)
    requires Acyclic(rows) && WellKeyed(rows)
    ensures Chain(rows, id, scope) == [] <==> !Sees(rows, id, scope)
    ensures Sees(rows, id, scope) ==>
              LinkedUpTo(rows, id, scope, Chain(rows, id, scope)) && Maximal(rows, scope, Chain(rows, id, scope))
    decreases id
  {
    if Sees(rows, id, scope) && rows[id].supersedes.Some? {
      ChainIsHistory(rows, rows[id].supersedes.value, scope);
    }
  }

  lemma {:induction false} LinkedIsIncreasing(rows: Rows, id: Id, scope: Scope, chain: seq<Record>, i: nat, j: nat)
    requires Acyclic(rows) && WellKeyed(rows) && LinkedUpTo(rows, id, scope, chain) && i < j < |chain|
    ensures chain[i].id < chain[j].id
    decreases j
  {
    assert rows[chain[j].id] == chain[j] && chain[j].supersedes == Some(chain[j - 1].id);
    if i < j - 1 {
      LinkedIsIncreasing(rows, id, scope, chain, i, j - 1);
    }
  }

  /** A chain has no repetition, so it is never longer than the store. */
  lemma HistoryIsShort(rows: Rows, id: Id, scope: Scope, chain: seq<Record>)
    requires Acyclic(rows) && WellKeyed(rows) && LinkedUpTo(rows, id, scope, chain)
    ensures DistinctIds(chain)
    ensures |chain| <= |rows|
  {
    forall i, j | 0 <= i < j < |chain| ensures chain[i].id != chain[j].id {
      LinkedIsIncreasing(rows, id, scope, chain, i, j);
    }
    IdsCount(chain);
    assert Ids(chain) <= rows.Keys;
    if Ids(chain) != rows.Keys {
      SubsetSize(Ids(chain), rows.Keys);
    }
  }

  /** Linked, maximal chains are unique: these properties say all there is to say about a history. */
  lemma {:induction false} HistoryIsUnique(rows: Rows, id: Id, scope: Scope, chain: seq<Record>)
    requires Acyclic(rows) && WellKeyed(rows)
    requires LinkedUpTo(rows, id, scope, chain) && Maximal(rows, scope, chain)
    ensures chain == Chain(rows, id, scope)
    decreases id
  {
    var n := |chain| - 1;
    assert chain[n] == rows[id];
    if n > 0 {
      assert chain[n].supersedes == Some(chain[n - 1].id);
      HistoryIsUnique(rows, chain[n - 1].id, scope, chain[..n]);
    }
    assert chain == chain[..n] + [chain[n]];
  }

  // --------------------------------------------------------- versions over runs

  /** The move is a completed update of `id`. */
  ghost predicate Revises(cfg: Config, s: State, m: Move, id: Id) {
    && Completes(cfg, s, m)
    && m.step.Revise? && m.step.id == id && !cfg.kw.blank(m.step.text) && Visible(s, id, m.step.scope)
  }

  /** The versions of record `first`: each completed update of the latest version adds one. */
  ghost function Versions(cfg: Config, s0: State, run: seq<Move>, first: Id): (ids: seq<Id>)
    ensures ids != []
    decreases |run|
  {
    if run == [] then [first]
    else
      var prefix, m := run[..|run| - 1], run[|run| - 1];
      var ids, s := Versions(cfg, s0, prefix, first), Last(s0, prefix);
      if Revises(cfg, s, m, ids[|ids| - 1]) then ids + [s.nextId] else ids
  }

  /** The first text, followed by the texts of those updates in order. */
  ghost function Texts(cfg: Config, s0: State, run: seq<Move>, first: Id): seq<string>
    requires first in s0.rows
    decreases |run|
  {
    if run == [] then [s0.rows[first].text]
    else
      var prefix, m := run[..|run| - 1], run[|run| - 1];
      var ids, s := Versions(cfg, s0, prefix, first), Last(s0, prefix);
      if Revises(cfg, s, m, ids[|ids| - 1]) then Texts(cfg, s0, prefix, first) + [m.step.text]
      else Texts(cfg, s0, prefix, first)
  }

  /** No version is physically deleted along the run. */
  ghost predicate NoVersionLost(cfg: Config, s0: State, run: seq<Move>, first: Id) {
    forall n :: 0 <= n <= |run| ==>
      forall i :: 0 <= i < |Versions(cfg, s0, run[..n], first)| ==>
        Versions(cfg, s0, run[..n], first)[i] in Last(s0, run[..n]).rows
  }

  /** `ids` and `texts` are a full supersession line of `s` inside `scope`. */
  ghost predicate Lineage(s: State, ids: seq<Id>, texts: seq<string>, scope: Scope) {
    && |ids| == |texts| > 0
    && (forall i :: 0 <= i < |ids| ==>
          ids[i] in s.rows && s.rows[ids[i]].text == texts[i] && scope.Contains(s.rows[ids[i]].scope))
    && (forall i :: 0 < i < |ids| ==> s.rows[ids[i]].supersedes == Some(ids[i - 1]))
    && Unpreceded(s, s.rows[ids[0]])
  }

  /** A remembered record has no predecessor, or (after a merge) names one that was never stored. */
  ghost predicate Unpreceded(s: State, r: Record) {
    r.supersedes.Some? ==> r.supersedes.value !in s.rows && r.supersedes.value < s.nextId
  }

  lemma LineageIsKept(s: State, t: State, ids: seq<Id>, texts: seq<string>, scope: Scope)
    requires Ordered(s) && Evolves(s, t) && Lineage(s, ids, texts, scope)
    requires forall i :: 0 <= i < |ids| ==> ids[i] in t.rows
    ensures Lineage(t, ids, texts, scope)
  {
  }

  lemma RevisedRows(cfg: Config, s: State, m: Move, id: Id)
    requires Ordered(s) && Revises(cfg, s, m, id)
    ensures m.next.rows == s.rows[s.nextId := Successor(s, m.step)][id := Retire(s.rows[id], m.step.now)]
    ensures s.nextId < m.next.nextId
  {
    CompletedState(cfg, s, m);
    Outcomes.ReviseResult(cfg, s, m.step);
  }

  lemma LineageGrows(cfg: Config, s: State, m: Move, ids: seq<Id>, texts: seq<string>, scope: Scope)
    requires Ordered(s) && Lineage(s, ids, texts, scope) && Revises(cfg, s, m, ids[|ids| - 1])
    requires forall i :: 0 <= i < |ids| ==> ids[i] in m.next.rows
    ensures Lineage(m.next, ids + [s.nextId], texts + [m.step.text], scope)
  {
    MoveEvolves(cfg, s, m);
    LineageIsKept(s, m.next, ids, texts, scope);
    RevisedRows(cfg, s, m, ids[|ids| - 1]);
    LineageExtends(m.next, ids, texts, scope, s.nextId, m.step.text);
  }

  lemma LineageExtends(t: State, ids: seq<Id>, texts: seq<string>, scope: Scope, id: Id, text: string)
    requires Lineage(t, ids, texts, scope)
    requires id in t.rows && t.rows[id].text == text && scope.Contains(t.rows[id].scope)
    requires t.rows[id].supersedes == Some(ids[|ids| - 1])
    ensures Lineage(t, ids + [id], texts + [text], scope)
  {
  }

  lemma {:induction false} RunKeepsLineage(cfg: Config, s0: State, run: seq<Move>, first: Id, scope: Scope)
    requires Ordered(s0) && IsRun(cfg, s0, run)
    requires first in s0.rows && Unpreceded(s0, s0.rows[first]) && scope.Contains(s0.rows[first].scope)
    requires NoVersionLost(cfg, s0, run, first)
    ensures Lineage(Last(s0, run), Versions(cfg, s0, run, first), Texts(cfg, s0, run, first), scope)
    decreases |run|
  {
    if run != [] {
      var prefix, m := run[..|run| - 1], run[|run| - 1];
      NoneLostSoFar(cfg, s0, run, first);
      RunKeepsLineage(cfg, s0, prefix, first, scope);
      RunEvolves(cfg, s0, prefix);
      var ids, texts := Versions(cfg, s0, prefix, first), Texts(cfg, s0, prefix, first);
      assert m.next == Last(s0, run) && Moves(cfg, Last(s0, prefix), m);
      MoveKeepsLineage(cfg, Last(s0, prefix), m, ids, texts, scope);
    }
  }

  lemma NoneLostSoFar(cfg: Config, s0: State, run: seq<Move>, first: Id)
    requires run != [] && NoVersionLost(cfg, s0, run, first)
    ensures NoVersionLost(cfg, s0, run[..|run| - 1], first)
    ensures forall id :: id in Versions(cfg, s0, run[..|run| - 1], first) ==> id in Last(s0, run).rows
  {
    var prefix := run[..|run| - 1];
    assert forall n :: 0 <= n <= |prefix| ==> prefix[..n] == run[..n];
    assert run[..|run|] == run;
    var ids := Versions(cfg, s0, prefix, first);
    assert forall i :: 0 <= i < |ids| ==> Versions(cfg, s0, run, first)[i] == ids[i];
  }

  /** One more move: a completed update of the latest version extends the line, anything else leaves it. */
  lemma MoveKeepsLineage(cfg: Config, s: State, m: Move, ids: seq<Id>, texts: seq<string>, scope: Scope)
    requires Ordered(s) && Moves(cfg, s, m) && Lineage(s, ids, texts, scope)
    requires forall id :: id in ids ==> id in m.next.rows
    ensures if Revises(cfg, s, m, ids[|ids| - 1]) then Lineage(m.next, ids + [s.nextId], texts + [m.step.text], scope)
            else Lineage(m.next, ids, texts, scope)
  {
    if Revises(cfg, s, m, ids[|ids| - 1]) {
      LineageGrows(cfg, s, m, ids, texts, scope);
    } else {
      MoveEvolves(cfg, s, m);
      LineageIsKept(s, m.next, ids, texts, scope);
    }
  }

  /**
   * After any run, failures included, in which no version is physically deleted, the history of the latest version
   * under any scope holding the first is exactly its versions, with their texts in update order.
   */
  lemma HistoryAfterUpdates(cfg: Config, s0: State, run: seq<Move>, first: Id, scope: Scope)
    requires Ordered(s0) && IsRun(cfg, s0, run)
    requires first in s0.rows && Unpreceded(s0, s0.rows[first]) && scope.Contains(s0.rows[first].scope)
    requires NoVersionLost(cfg, s0, run, first)
    ensures Ordered(Last(s0, run))
    ensures var ids, texts := Versions(cfg, s0, run, first), Texts(cfg, s0, run, first);
            var chain := Chain(Last(s0, run).rows, ids[|ids| - 1], scope);
            && |chain| == |ids| == |texts|
            && (forall i :: 0 <= i < |ids| ==> chain[i].id == ids[i] && chain[i].text == texts[i])
  {
    RunEvolves(cfg, s0, run);
    RunKeepsLineage(cfg, s0, run, first, scope);
    LineageIsHistory(Last(s0, run), Versions(cfg, s0, run, first), Texts(cfg, s0, run, first), scope);
  }

  lemma LineageIsHistory(t: State, ids: seq<Id>, texts: seq<string>, scope: Scope)
    requires Ordered(t) && Lineage(t, ids, texts, scope)
    ensures var chain := Chain(t.rows, ids[|ids| - 1], scope);
            && |chain| == |ids| == |texts|
            && (forall i :: 0 <= i < |ids| ==> chain[i].id == ids[i] && chain[i].text == texts[i])
  {
    var chain := seq(|ids|, i requires 0 <= i < |ids| && ids[i] in t.rows => t.rows[ids[i]]);
    HistoryIsUnique(t.rows, ids[|ids| - 1], scope, chain);
  }

  /** In every reachable state histories are finite, repetition-free and end at the requested record. */
  lemma HistoryAlwaysEnds(cfg: Config, run: seq<Move>, id: Id, scope: Scope)
    requires IsRun(cfg, EMPTY, run)
    ensures Acyclic(Last(EMPTY, run).rows)
    ensures var rows := Last(EMPTY, run).rows;
            Sees(rows, id, scope) ==>
              && LinkedUpTo(rows, id, scope, Chain(rows, id, scope))
              && DistinctIds(Chain(rows, id, scope))
              && |Chain(rows, id, scope)| <= |rows|
  {
    RunEvolves(cfg, EMPTY, run);
    var rows := Last(EMPTY, run).rows;
    ChainIsHistory(rows, id, scope);
    if Sees(rows, id, scope) {
      HistoryIsShort(rows, id, scope, Chain(rows, id, scope));
    }
  }

  lemma MergeStepCalls(cfg: Config, s: State, step: Step)
    requires Ordered(s) && step.Remember? && Enabled(cfg, s, step) && Accepts(cfg, step.draft.text) && step.decision.Merge?
    ensures step.decision.target in s.rows
    ensures Calls(cfg, s, step) == MergeCalls(cfg, s, Incoming(s, step.draft, step.now), step.decision.target, step.now)
  {
    MergeTargetIsStored(cfg, s, step);
  }

  lemma CompletedMerge(cfg: Config, s: State, m: Move)
    requires Ordered(s) && Completes(cfg, s, m) && m.step.Remember? && Accepts(cfg, m.step.draft.text)
    requires m.step.decision.Merge?
    ensures var r, t := Incoming(s, m.step.draft, m.step.now), m.step.decision.target;
            t in s.rows && UpToDraws(After(MergeCalls(cfg, s, r, t, m.step.now), s), m.next)
  {
    MergeStepCalls(cfg, s, m.step);
    CompletedState(cfg, s, m);
  }

  /** What a merge leaves under the two identifiers it draws. */
  lemma MergedRows(cfg: Config, s: State, r: Record, target: Id, now: Time, next: State)
    requires Ordered(s) && target in s.rows && r.id == s.nextId
    requires UpToDraws(After(MergeCalls(cfg, s, r, target, now), s), next)
    ensures s.nextId + 1 in next.rows && next.rows[s.nextId + 1].supersedes == Some(s.nextId)
    ensures s.nextId !in next.rows && s.nextId < next.nextId
  {
    Outcomes.MergeRows(cfg, s, r, target, now);
  }

  lemma DrawnIsNeverStored(cfg: Config, s: State, rest: seq<Move>, id: Id)
    requires Ordered(s) && IsRun(cfg, s, rest) && id !in s.rows && id < s.nextId
    ensures id !in Last(s, rest).rows
  {
    RunEvolves(cfg, s, rest);
  }

  /** A merged record names a predecessor that is not stored and never will be. */
  lemma MergeLinksToNothing(cfg: Config, s: State, m: Move, rest: seq<Move>)
    requires Ordered(s) && Completes(cfg, s, m) && m.step.Remember? && Accepts(cfg, m.step.draft.text)
    requires m.step.decision.Merge? && IsRun(cfg, m.next, rest)
    ensures s.nextId + 1 in m.next.rows && m.next.rows[s.nextId + 1].supersedes == Some(s.nextId)
    ensures s.nextId !in Last(m.next, rest).rows
  {
    CompletedMerge(cfg, s, m);
    MergedRows(cfg, s, Incoming(s, m.step.draft, m.step.now), m.step.decision.target, m.step.now, m.next);
    MoveEvolves(cfg, s, m);
    DrawnIsNeverStored(cfg, m.next, rest, s.nextId);
  }

  /**
   * What a completed remember answers starts a history, unless it is an old record that the text duplicates: it is
   * stored where the draft says and nothing stored comes before it.
   */
  lemma RememberedIsUnpreceded(cfg: Config, s: State, m: Move)
    requires Ordered(s) && Completes(cfg, s, m) && m.step.Remember? && Accepts(cfg, m.step.draft.text)
    requires !m.step.decision.Ignore?
    ensures var r := Reply(cfg, s, m.step);
            && Outcomes.Holds(m.next, r) && r.scope == m.step.draft.scope && r.text == m.step.draft.text
            && Unpreceded(m.next, r)
  {
    CompletedState(cfg, s, m);
    Outcomes.RememberStoresItsReply(cfg, s, m.step);
    if m.step.decision.Merge? {
      CompletedMerge(cfg, s, m);
      MergedRows(cfg, s, Incoming(s, m.step.draft, m.step.now), m.step.decision.target, m.step.now, m.next);
    }
  }

  /**
   * From remembering a record on: after any later run that deletes no version of it physically, the history of its latest
   * version is the remembered text followed by the texts of its completed updates.
   */
  lemma HistorySinceRemember(cfg: Config, s: State, m: Move, run: seq<Move>, scope: Scope)
    requires Ordered(s) && Completes(cfg, s, m) && m.step.Remember? && Accepts(cfg, m.step.draft.text)
    requires !m.step.decision.Ignore? && scope.Contains(m.step.draft.scope)
    requires IsRun(cfg, m.next, run) && NoVersionLost(cfg, m.next, run, Reply(cfg, s, m.step).id)
    ensures var first := Reply(cfg, s, m.step).id;
            && first in m.next.rows && Ordered(Last(m.next, run))
            && var ids, texts := Versions(cfg, m.next, run, first), Texts(cfg, m.next, run, first);
               var chain := Chain(Last(m.next, run).rows, ids[|ids| - 1], scope);
               && |chain| == |ids| == |texts| && texts[0] == m.step.draft.text
               && (forall i :: 0 <= i < |ids| ==> chain[i].id == ids[i] && chain[i].text == texts[i])
  {
    RememberedIsUnpreceded(cfg, s, m);
    MoveEvolves(cfg, s, m);
    var first := Reply(cfg, s, m.step).id;
    HistoryAfterUpdates(cfg, m.next, run, first, scope);
    TextsStartFirst(cfg, m.next, run, first);
  }

  lemma {:induction false} TextsStartFirst(cfg: Config, s0: State, run: seq<Move>, first: Id)
    requires first in s0.rows
    ensures |Texts(cfg, s0, run, first)| > 0 && Texts(cfg, s0, run, first)[0] == s0.rows[first].text
    decreases |run|
  {
    if run != [] {
      TextsStartFirst(cfg, s0, run[..|run| - 1], first);
    }
  }
}
