/** Sessions that are set anew, deleted or expire while writers are at work: what the revision still guards. */
module Resets {
  import opened Domain
  import opened Session
  import opened Working

  /** What the session started from when it was last set, and how long the log was then; no base while it is gone. */
  datatype Epoch = Epoch(base: Option<Cell>, mark: nat)

  predicate Resets(e: Event) { e.act.Reset? || e.act.Drop? }

  ghost function EpochOf(jobs: seq<Mutation>, s0: System, events: seq<Event>): Epoch
    requires |s0.phases| == |s0.windows| == |jobs|
  {
    if events == [] then Epoch(s0.cell, |s0.log|) else
    var (before, e) := (events[..|events| - 1], events[|events| - 1]);
    if e.act.Reset? then Epoch(Some(Initial(e.act.data)), |Run(jobs, s0, before).log|)
    else if e.act.Drop? then Epoch(None, |Run(jobs, s0, before).log|)
    else EpochOf(jobs, s0, before)
  }

  /** Writers still holding what they read before the session was last set or dropped. */
  ghost function Stale(jobs: seq<Mutation>, s0: System, events: seq<Event>): set<nat>
    requires |s0.phases| == |s0.windows| == |jobs|
  {
    if events == [] then {} else
    var (before, e) := (events[..|events| - 1], events[|events| - 1]);
    if Resets(e) then set w: nat | w < |jobs| && Run(jobs, s0, before).phases[w].Holding?
    else set w | w in Stale(jobs, s0, before) && w < |jobs|
                 && Run(jobs, s0, events).phases[w] == Run(jobs, s0, before).phases[w]
  }

  /** The cell after `k` commits from `base`. */
  ghost predicate CountsFrom(e: Epoch, s: System) {
    && e.mark <= |s.log|
    && (s.cell.Some? <==> e.base.Some?)
    && (s.cell.Some? ==> s.cell.value.revision == e.base.value.revision + |s.log| - e.mark)
  }

  /** The event is a swap that the store lets through. */
  ghost predicate Commits(jobs: seq<Mutation>, s: System, e: Event) {
    && (e.act.Swap? || e.act.SwapLost?) && e.writer < |jobs| == |s.phases|
    && s.phases[e.writer].Holding? && s.cell.Some? && s.cell.value.revision == s.phases[e.writer].seen.revision
  }

  /** What any event but a set or a drop does to the cell and the log. */
  lemma EventEffect(jobs: seq<Mutation>, s: System, e: Event)
    requires |s.phases| == |s.windows| == |jobs| && !Resets(e)
    ensures var t := Next(jobs, s, e);
            && t.cell == (if Commits(jobs, s, e) then Some(Derived(jobs, s, e.writer)) else s.cell)
            && t.log == (if Commits(jobs, s, e) then s.log + [e.writer] else s.log)
            && forall w :: 0 <= w < |jobs| && w != e.writer ==> t.phases[w] == s.phases[w]
    ensures Commits(jobs, s, e) ==> !Next(jobs, s, e).phases[e.writer].Live()
  {
    if e.writer < |jobs| && s.phases[e.writer].Holding? && s.cell.Some? {
      var p := s.phases[e.writer];
      SwappedEitherWay(jobs, s, e.writer, p.tries, p.seen, p.since, e.act.SwapLost?);
    }
  }

  /** What a holding writer would store. */
  function Derived(jobs: seq<Mutation>, s: System, w: nat): Cell
    requires w < |jobs| == |s.phases| && s.phases[w].Holding?
  {
    Cell(jobs[w](s.phases[w].seen.data), s.phases[w].seen.revision + 1)
  }

  /**
   * Over every list of events, sets and drops included: the stored revision is that of the last set (or the first one)
   * plus the commits since.
   */
  lemma {:induction false} RevisionCountsCommits(jobs: seq<Mutation>, cell: Option<Cell>, events: seq<Event>)
    ensures CountsFrom(EpochOf(jobs, Start(jobs, cell), events), Run(jobs, Start(jobs, cell), events))
  {
    if events != [] {
      var before, e := events[..|events| - 1], events[|events| - 1];
      RevisionCountsCommits(jobs, cell, before);
      if !Resets(e) {
        EventEffect(jobs, Run(jobs, Start(jobs, cell), before), e);
      }
    }
  }

  /**
   * A pending swap succeeds if and only if the session is there and the revision it read is that of the last set plus
   * the commits since. Then the session is what the writer derived from what it read; otherwise it is untouched.
   */
  lemma SwapLandsIff(jobs: seq<Mutation>, cell: Option<Cell>, events: seq<Event>, w: nat)
    requires w < |jobs| && Run(jobs, Start(jobs, cell), events).phases[w].Holding?
    ensures var (s, e) := (Run(jobs, Start(jobs, cell), events), EpochOf(jobs, Start(jobs, cell), events));
            var t := Next(jobs, s, Event(w, Swap));
            && (t.phases[w].Done? <==>
                  e.base.Some? && s.phases[w].seen.revision == e.base.value.revision + |s.log| - e.mark)
            && t.cell == if t.phases[w].Done? then Some(Derived(jobs, s, w)) else s.cell
  {
    RevisionCountsCommits(jobs, cell, events);
    SwapSucceedsIff(jobs, Run(jobs, Start(jobs, cell), events), w);
  }

  lemma SwapSucceedsIff(jobs: seq<Mutation>, s: System, w: nat)
    requires |s.phases| == |s.windows| == |jobs| && w < |jobs| && s.phases[w].Holding?
    ensures var t := Next(jobs, s, Event(w, Swap));
            && (t.phases[w].Done? <==> s.cell.Some? && s.cell.value.revision == s.phases[w].seen.revision)
            && t.cell == (if t.phases[w].Done? then Some(Derived(jobs, s, w)) else s.cell)
            && (t.phases[w].Done? ==> t.phases[w].state == Derived(jobs, s, w))
  {
    var p := s.phases[w];
    if s.cell.Some? {
      SwappedEitherWay(jobs, s, w, p.tries, p.seen, p.since, false);
    }
  }

  lemma StaleIsHolding(jobs: seq<Mutation>, s0: System, events: seq<Event>)
    requires |s0.phases| == |s0.windows| == |jobs|
    ensures forall w :: w in Stale(jobs, s0, events) ==> w < |jobs| && Run(jobs, s0, events).phases[w].Holding?
  {
    if events != [] {
      var before, e := events[..|events| - 1], events[|events| - 1];
      StaleIsHolding(jobs, s0, before);
      if Resets(e) {
        assert Run(jobs, s0, events).phases == Run(jobs, s0, before).phases;
      }
    }
  }

  /** Event `n` is the read that writer `w` still holds. */
  ghost predicate HeldSince(jobs: seq<Mutation>, s0: System, events: seq<Event>, w: nat, n: nat)
    requires |s0.phases| == |s0.windows| == |jobs|
  {
    && w < |jobs| && n < |events| && events[n] == Event(w, Read)
    && Run(jobs, s0, events).phases[w].Holding?
    && Run(jobs, s0, events[..n]).cell == Some(Run(jobs, s0, events).phases[w].seen)
    && forall m :: n < m <= |events| ==> Run(jobs, s0, events[..m]).phases[w] == Run(jobs, s0, events).phases[w]
  }

  /** Stale means just that: the session was set or dropped between the read a writer holds and now. */
  lemma {:induction false} StaleIff(jobs: seq<Mutation>, cell: Option<Cell>, events: seq<Event>, w: nat) returns (n: nat)
    requires w < |jobs| && Run(jobs, Start(jobs, cell), events).phases[w].Holding?
    ensures HeldSince(jobs, Start(jobs, cell), events, w, n)
    ensures w in Stale(jobs, Start(jobs, cell), events) <==> ResetAfter(events, n)
  {
    var s0 := Start(jobs, cell);
    var k := |events| - 1;
    var before, e := events[..k], events[k];
    assert events == before + [e];
    StaleIsHolding(jobs, s0, before);
    if Run(jobs, s0, before).phases[w] == Run(jobs, s0, events).phases[w] {
      n := StaleIff(jobs, cell, before, w);
      HeldOn(jobs, s0, before, e, w, n);
      ResetOneLater(before, e, n);
    } else {
      n := k;
      HoldingIsRead(jobs, Run(jobs, s0, before), e, w);
      JustRead(jobs, s0, events, w);
    }
  }

  ghost predicate ResetAfter(events: seq<Event>, n: nat) { exists m :: n < m < |events| && Resets(events[m]) }

  lemma ResetOneLater(before: seq<Event>, e: Event, n: nat)
    requires n < |before|
    ensures ResetAfter(before + [e], n) <==> ResetAfter(before, n) || Resets(e)
  {
    var events := before + [e];
    if m :| n < m < |before| && Resets(before[m]) {
      assert Resets(events[m]);
    }
    assert events[|before|] == e;
    assert forall m :: 0 <= m < |before| ==> events[m] == before[m];
  }

  lemma HeldOn(jobs: seq<Mutation>, s0: System, before: seq<Event>, e: Event, w: nat, n: nat)
    requires |s0.phases| == |s0.windows| == |jobs| && HeldSince(jobs, s0, before, w, n)
    requires Run(jobs, s0, before).phases[w] == Run(jobs, s0, before + [e]).phases[w]
    ensures HeldSince(jobs, s0, before + [e], w, n)
  {
    var events := before + [e];
    forall m | n < m <= |events| ensures Run(jobs, s0, events[..m]).phases[w] == Run(jobs, s0, events).phases[w] {
      if m <= |before| {
        assert events[..m] == before[..m];
      } else {
        assert events[..m] == events;
      }
    }
    assert events[..n] == before[..n];
  }

  lemma JustRead(jobs: seq<Mutation>, s0: System, events: seq<Event>, w: nat)
    requires |s0.phases| == |s0.windows| == |jobs| && w < |jobs|
    requires events != [] && events[|events| - 1] == Event(w, Read) && Run(jobs, s0, events).phases[w].Holding?
    requires Run(jobs, s0, events[..|events| - 1]).cell == Some(Run(jobs, s0, events).phases[w].seen)
    ensures HeldSince(jobs, s0, events, w, |events| - 1) && !ResetAfter(events, |events| - 1)
  {
    assert events[..|events|] == events;
  }

  /** A writer comes to hold something by reading it only. */
  lemma HoldingIsRead(jobs: seq<Mutation>, s: System, e: Event, w: nat)
    requires |s.phases| == |s.windows| == |jobs| && w < |jobs|
    requires var t := Next(jobs, s, e); t.phases[w].Holding? && t.phases[w] != s.phases[w]
    ensures e == Event(w, Read) && s.cell == Some(Next(jobs, s, e).phases[w].seen)
  {
    if !Resets(e) {
      EventEffect(jobs, s, e);
    }
  }

  /**
   * A swap whose read is from before the last set undoes that set, and every commit since, if and only if the revision it
   * read is that of the set plus the commits since: then the session is what the writer made of what it had read.
   */
  lemma StaleSwapUndoesResetIff(jobs: seq<Mutation>, cell: Option<Cell>, events: seq<Event>, w: nat)
    requires w in Stale(jobs, Start(jobs, cell), events)
    ensures w < |jobs| && Run(jobs, Start(jobs, cell), events).phases[w].Holding?
    ensures var (s, e) := (Run(jobs, Start(jobs, cell), events), EpochOf(jobs, Start(jobs, cell), events));
            var t, seen := Next(jobs, s, Event(w, Swap)), s.phases[w].seen;
            if e.base.Some? && seen.revision == e.base.value.revision + |s.log| - e.mark
            then t.phases[w].Done? && t.cell == Some(Derived(jobs, s, w))
            else !t.phases[w].Done? && t.cell == s.cell
  {
    StaleIsHolding(jobs, Start(jobs, cell), events);
    SwapLandsIff(jobs, cell, events, w);
  }

  // ---------------------------------------------------------- since the last set

  /** The guard of the swap lets a stale read through. */
  ghost predicate LandsStale(jobs: seq<Mutation>, s: System, stale: set<nat>, e: Event) {
    e.writer in stale && Commits(jobs, s, e)
  }

  /** Since the last set no swap with an older read met the revision it had read. */
  ghost predicate NoStaleLanding(jobs: seq<Mutation>, s0: System, events: seq<Event>)
    requires |s0.phases| == |s0.windows| == |jobs|
  {
    events == [] || Resets(events[|events| - 1]) ||
    var before := events[..|events| - 1];
    && NoStaleLanding(jobs, s0, before)
    && !LandsStale(jobs, Run(jobs, s0, before), Stale(jobs, s0, before), events[|events| - 1])
  }

  /** Writers at work are not in the log yet. */
  ghost predicate Tidy(jobs: seq<Mutation>, s: System) {
    && |s.phases| == |s.windows| == |jobs| && LogOk(jobs, s.log)
    && forall w :: 0 <= w < |jobs| && s.phases[w].Live() ==> w !in s.log
  }

  /** What a writer with a read since the last set holds is the session at that point. */
  ghost predicate FreshRead(jobs: seq<Mutation>, e: Epoch, log: seq<nat>, p: Phase)
    requires LogOk(jobs, log) && e.mark <= |log|
  {
    p.Holding? ==>
      && e.base.Some? && e.mark <= p.since <= |log|
      && p.seen == CellAt(jobs, e.base.value, log[e.mark..], p.since - e.mark)
  }

  /** The session is its last setting followed by the commits since. */
  ghost predicate WholeCell(jobs: seq<Mutation>, e: Epoch, log: seq<nat>, cell: Option<Cell>)
    requires LogOk(jobs, log) && e.mark <= |log|
  {
    cell == if e.base.Some? then Some(CellAt(jobs, e.base.value, log[e.mark..], |log| - e.mark)) else None
  }

  ghost predicate Whole(jobs: seq<Mutation>, e: Epoch, stale: set<nat>, s: System) {
    && Tidy(jobs, s) && e.mark <= |s.log|
    && WholeCell(jobs, e, s.log, s.cell)
    && forall w :: 0 <= w < |jobs| && w !in stale ==> FreshRead(jobs, e, s.log, s.phases[w])
  }

  lemma TidyStep(jobs: seq<Mutation>, s: System, e: Event)
    requires Tidy(jobs, s)
    ensures Tidy(jobs, Next(jobs, s, e))
  {
    if !Resets(e) {
      EventEffect(jobs, s, e);
      if e.writer < |jobs| && e.writer !in s.log {
        LogGrows(jobs, s.log, e.writer);
      }
    }
  }

  lemma {:induction false} TidyRun(jobs: seq<Mutation>, cell: Option<Cell>, events: seq<Event>)
    ensures Tidy(jobs, Run(jobs, Start(jobs, cell), events))
  {
    if events != [] {
      TidyRun(jobs, cell, events[..|events| - 1]);
      TidyStep(jobs, Run(jobs, Start(jobs, cell), events[..|events| - 1]), events[|events| - 1]);
    }
  }

  /** A commit extends what followed the last set. */
  lemma RecentGrows(jobs: seq<Mutation>, e: Epoch, log: seq<nat>, w: nat)
    requires LogOk(jobs, log) && LogOk(jobs, log + [w]) && w < |jobs| && e.mark <= |log| && e.base.Some?
    ensures forall n :: 0 <= n <= |log| - e.mark ==>
              CellAt(jobs, e.base.value, (log + [w])[e.mark..], n) == CellAt(jobs, e.base.value, log[e.mark..], n)
  {
    var recent := log[e.mark..];
    assert (log + [w])[e.mark..] == recent + [w];
    forall n: nat | n <= |recent|
      ensures CellAt(jobs, e.base.value, recent + [w], n) == CellAt(jobs, e.base.value, recent, n)
    {
      CellAtStays(jobs, e.base.value, recent, w, n);
    }
  }

  lemma WholeCellGrows(jobs: seq<Mutation>, e: Epoch, log: seq<nat>, w: nat, cell: Cell)
    requires LogOk(jobs, log) && LogOk(jobs, log + [w]) && w < |jobs| && e.mark <= |log|
    requires WholeCell(jobs, e, log, Some(cell))
    ensures WholeCell(jobs, e, log + [w], Some(Cell(jobs[w](cell.data), cell.revision + 1)))
  {
    var recent := log[e.mark..];
    assert (log + [w])[e.mark..] == recent + [w];
    CellAtNext(jobs, e.base.value, recent, w);
  }

  lemma FreshStays(jobs: seq<Mutation>, e: Epoch, log: seq<nat>, w: nat, p: Phase)
    requires LogOk(jobs, log) && LogOk(jobs, log + [w]) && w < |jobs| && e.mark <= |log| && FreshRead(jobs, e, log, p)
    ensures FreshRead(jobs, e, log + [w], p)
  {
    if p.Holding? {
      RecentGrows(jobs, e, log, w);
    }
  }

  /** The commit of a fresh read keeps the session whole. */
  lemma FreshCommit(jobs: seq<Mutation>, e: Epoch, stale: set<nat>, s: System, w: nat)
    requires Whole(jobs, e, stale, s) && w < |jobs| && w !in stale && s.phases[w].Holding? && w !in s.log
    requires s.cell.Some? && s.cell.value.revision == s.phases[w].seen.revision
    ensures LogOk(jobs, s.log + [w]) && WholeCell(jobs, e, s.log + [w], Some(Derived(jobs, s, w)))
  {
    LogGrows(jobs, s.log, w);
    FreshIsCurrent(jobs, e, s.log, s.phases[w], s.cell.value);
    WholeCellGrows(jobs, e, s.log, w, s.phases[w].seen);
  }

  /** A fresh read whose revision is the current one is the current cell. */
  lemma FreshIsCurrent(jobs: seq<Mutation>, e: Epoch, log: seq<nat>, p: Phase, cell: Cell)
    requires LogOk(jobs, log) && e.mark <= |log| && p.Holding? && FreshRead(jobs, e, log, p)
    requires WholeCell(jobs, e, log, Some(cell)) && cell.revision == p.seen.revision
    ensures p.seen == cell
  {
  }

  lemma WholeStep(jobs: seq<Mutation>, epoch: Epoch, stale: set<nat>, s: System, e: Event)
    requires Whole(jobs, epoch, stale, s) && !Resets(e) && !LandsStale(jobs, s, stale, e)
    ensures var t := Next(jobs, s, e);
            Whole(jobs, epoch, (set w | w in stale && w < |jobs| && t.phases[w] == s.phases[w]), t)
  {
    var t := Next(jobs, s, e);
    var left := set w | w in stale && w < |jobs| && t.phases[w] == s.phases[w];
    TidyStep(jobs, s, e);
    CellStaysWhole(jobs, epoch, stale, s, e);
    forall w: nat | w < |jobs| && w !in left ensures FreshRead(jobs, epoch, t.log, t.phases[w]) {
      WriterStaysFresh(jobs, epoch, stale, s, e, w);
    }
  }

  lemma CellStaysWhole(jobs: seq<Mutation>, epoch: Epoch, stale: set<nat>, s: System, e: Event)
    requires Whole(jobs, epoch, stale, s) && !Resets(e) && !LandsStale(jobs, s, stale, e)
    ensures var t := Next(jobs, s, e);
            LogOk(jobs, t.log) && epoch.mark <= |t.log| && WholeCell(jobs, epoch, t.log, t.cell)
  {
    EventEffect(jobs, s, e);
    if Commits(jobs, s, e) {
      FreshCommit(jobs, epoch, stale, s, e.writer);
    }
  }

  lemma WriterStaysFresh(jobs: seq<Mutation>, epoch: Epoch, stale: set<nat>, s: System, e: Event, w: nat)
    requires Whole(jobs, epoch, stale, s) && !Resets(e) && !LandsStale(jobs, s, stale, e) && w < |jobs|
    requires Next(jobs, s, e).phases[w] == s.phases[w] ==> w !in stale
    ensures Tidy(jobs, Next(jobs, s, e)) && FreshRead(jobs, epoch, Next(jobs, s, e).log, Next(jobs, s, e).phases[w])
  {
    var t := Next(jobs, s, e);
    TidyStep(jobs, s, e);
    EventEffect(jobs, s, e);
    if t.phases[w] == s.phases[w] {
      assert FreshRead(jobs, epoch, s.log, s.phases[w]);
      if t.log != s.log {
        FreshStays(jobs, epoch, s.log, e.writer, s.phases[w]);
      }
    } else if t.phases[w].Holding? {
      HoldingIsRead(jobs, s, e, w);
      assert t.log == s.log;
    }
  }

  lemma {:induction false} RunStaysWhole(jobs: seq<Mutation>, cell: Option<Cell>, events: seq<Event>)
    requires NoStaleLanding(jobs, Start(jobs, cell), events)
    ensures var s0 := Start(jobs, cell);
            Whole(jobs, EpochOf(jobs, s0, events), Stale(jobs, s0, events), Run(jobs, s0, events))
  {
    var s0 := Start(jobs, cell);
    TidyRun(jobs, cell, events);
    if events == [] {
    } else {
      var before, e := events[..|events| - 1], events[|events| - 1];
      if Resets(e) {
        JustReset(jobs, s0, events);
      } else {
        RunStaysWhole(jobs, cell, before);
        WholeStep(jobs, EpochOf(jobs, s0, before), Stale(jobs, s0, before), Run(jobs, s0, before), e);
      }
    }
  }

  lemma JustReset(jobs: seq<Mutation>, s0: System, events: seq<Event>)
    requires |s0.phases| == |s0.windows| == |jobs| && events != [] && Resets(events[|events| - 1])
    requires Tidy(jobs, Run(jobs, s0, events))
    ensures Whole(jobs, EpochOf(jobs, s0, events), Stale(jobs, s0, events), Run(jobs, s0, events))
  {
    var s := Run(jobs, s0, events);
    assert s.log[|s.log|..] == [];
  }

  /**
   * Since the session was last set, nothing is lost as long as no older read met its revision: every list is the last
   * fifty of what it was set to followed by everything committed since, in commit order.
   */
  lemma NoUpdateIsLostSinceReset(pushes: seq<Push>, cell: Option<Cell>, events: seq<Event>, k: ListKey)
    requires NoStaleLanding(Pushing(pushes), Start(Pushing(pushes), cell), events)
    requires EpochOf(Pushing(pushes), Start(Pushing(pushes), cell), events).base.Some?
    ensures var jobs := Pushing(pushes);
            var (s, e) := (Run(jobs, Start(jobs, cell), events), EpochOf(jobs, Start(jobs, cell), events));
            && s.cell.Some? && e.mark <= |s.log| && LogOk(jobs, s.log)
            && s.cell.value.revision == e.base.value.revision + |s.log| - e.mark
            && var (before, items) := (FromStateData(e.base.value.data).List(k),
                                       Items(Committed(pushes, s.log[e.mark..]), k));
               var (list, all) := (FromStateData(s.cell.value.data).List(k), before + items);
               && (items == [] ==> list == before)
               && (|before| <= 50 || items != [] ==>
                     |list| == (if |all| < 50 then |all| else 50) && list == all[|all| - |list|..])
  {
    var jobs := Pushing(pushes);
    RunStaysWhole(jobs, cell, events);
    var s, e := Run(jobs, Start(jobs, cell), events), EpochOf(jobs, Start(jobs, cell), events);
    var recent := s.log[e.mark..];
    assert recent[..|recent|] == recent;
    LogIsSuffix(pushes, recent, e.base.value.data, k);
  }

  /** A session left alone is one epoch without stale reads, so all of this speaks of it too. */
  lemma {:induction false} LeftAloneIsOneEpoch(jobs: seq<Mutation>, cell: Option<Cell>, events: seq<Event>)
    requires LeftAlone(events)
    ensures EpochOf(jobs, Start(jobs, cell), events) == Epoch(cell, 0)
    ensures Stale(jobs, Start(jobs, cell), events) == {} && NoStaleLanding(jobs, Start(jobs, cell), events)
  {
    if events != [] {
      LeftAloneIsOneEpoch(jobs, cell, events[..|events| - 1]);
    }
  }
}
