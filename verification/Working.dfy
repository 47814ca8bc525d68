/** Working memory: the revision-guarded session hash, and any number of writers racing on one session. */
module Working {
  import opened Domain
  import opened Session

  /** A session's hash: the payload and its revision. */
  datatype Cell = Cell(data: Json, revision: nat)

  function Initial(data: Json): Cell { Cell(data, 1) }

  /** The next state, from a caller that expects `expected`. */
  function DeriveNext(c: Cell, expected: nat, data: Json): Result<Cell> {
    if c.revision != expected then Err(SessionConflict(expected, c.revision)) else Ok(Cell(data, c.revision + 1))
  }

  // -------------------------------------------------------------------- store

  /** Sessions as Redis keeps them; every method is one script, pipeline or command. */
  class RedisWorkingStore {
    var sessions: map<string, Cell>

    constructor ()
      ensures sessions == map[]
    {
      sessions := map[];
    }

    function CellOf(session: string): Option<Cell>
      reads this
    {
      if session in sessions then Some(sessions[session]) else None
    }

    method Set(session: string, state: Cell)
      modifies this
      ensures sessions == old(sessions)[session := state]
    {
      sessions := sessions[session := state];
    }

    method Get(session: string) returns (current: Option<Cell>)
      ensures current == CellOf(session)
    {
      current := if session in sessions then Some(sessions[session]) else None;
    }

    method Delete(session: string)
      modifies this
      ensures sessions == old(sessions) - {session}
    {
      sessions := sessions - {session};
    }

    /** The script: -1 without the key, -2 when the revision is another, else overwrites and answers 0. */
    method CasScript(session: string, expected: nat, data: Json, next: nat) returns (code: int)
      modifies this
      ensures code == -1 <==> session !in old(sessions)
      ensures code == -2 <==> session in old(sessions) && old(sessions)[session].revision != expected
      ensures code == 0 <==> session in old(sessions) && old(sessions)[session].revision == expected
      ensures sessions == if code == 0 then old(sessions)[session := Cell(data, next)] else old(sessions)
    {
      if session !in sessions {
        return -1;
      }
      if sessions[session].revision != expected {
        return -2;
      }
      sessions := sessions[session := Cell(data, next)];
      code := 0;
    }

    /**
     * Keeps the contract of the working-memory interface in one step. The error of a mismatch needs another read, a
     * command of its own that may fail or come after further writes: `later` is what it finds.
     */
    method CompareAndSet(session: string, expected: nat, data: Json, later: Result<Option<Cell>>) returns (r: Result<Cell>)
      modifies this
      ensures session !in old(sessions) ==> r == Err(SessionNotFound)
      ensures session in old(sessions) && old(sessions)[session].revision == expected ==> r == Ok(Cell(data, expected + 1))
      ensures session in old(sessions) && old(sessions)[session].revision != expected ==>
                match later
                case Err(e) => r == Err(e)
                case Ok(c) => r == Err(SessionConflict(expected, if c.Some? then c.value.revision else 0))
      ensures sessions == if r.Ok? then old(sessions)[session := r.value] else old(sessions)
    {
      var code := CasScript(session, expected, data, expected + 1);
      if code == 0 {
        return Ok(Cell(data, expected + 1));
      } else if code == -1 {
        return Err(SessionNotFound);
      }
      r := Mismatch(expected, later);
    }

    /** The script creates the session once; a later caller reads what is there by then, if anything still is. */
    method Initialize(session: string, data: Json, later: Result<Option<Cell>>) returns (r: Result<Cell>)
      modifies this
      ensures sessions == if session in old(sessions) then old(sessions) else old(sessions)[session := Cell(data, 1)]
      ensures session !in old(sessions) ==> r == Ok(Cell(data, 1))
      ensures session in old(sessions) ==>
                match later
                case Err(e) => r == Err(e)
                case Ok(None) => r == Err(SessionNotFound)
                case Ok(Some(c)) => r == Ok(c)
    {
      if session !in sessions {
        sessions := sessions[session := Initial(data)];
        return Ok(Initial(data));
      }
      r := Adopted(later);
    }
  }

  /** The error of a swap that met another revision: it names the one found by the read after it. */
  function Mismatch(expected: nat, later: Result<Option<Cell>>): (r: Result<Cell>)
    ensures r.Err?
  {
    match later
    case Err(e) => Err(e)
    case Ok(c) => Err(SessionConflict(expected, if c.Some? then c.value.revision else 0))
  }

  function Adopted(later: Result<Option<Cell>>): Result<Cell> {
    match later
    case Err(e) => Err(e)
    case Ok(None) => Err(SessionNotFound)
    case Ok(Some(c)) => Ok(c)
  }

  // ----------------------------------------------------------------- protocol

  const MAX_RACES: nat := 5

  /** Between a read and the swap that lost to another writer: how long the log was at either end. */
  datatype Window = Window(since: nat, until: nat)

  /** Where a writer stands. `tries` counts the races it lost, `since` is the log's length when it read. */
  datatype Phase =
    | Ready(tries: nat)
    | Holding(tries: nat, seen: Cell, since: nat)
    | Done(state: Cell)
    | Missing
    | Contended
    | Failed
  {
    predicate Live() { Ready? || Holding? }
  }

  /** What a writer makes of the payload it has read. */
  type Mutation = Json -> Json

  /** Writers that each push one item. */
  function Pushing(pushes: seq<Push>): seq<Mutation> {
    seq(|pushes|, i requires 0 <= i < |pushes| => (j: Json) => Edited(pushes[i], j))
  }

  /** One session and its writers; `log` lists the writers whose swap succeeded, in order. */
  datatype System = System(cell: Option<Cell>, phases: seq<Phase>, log: seq<nat>, windows: seq<seq<Window>>)

  /**
   * Read and Swap are the provider calls of a writer; a swap can be applied and its reply lost, and any call can fail
   * without effect. Reset and Drop stand for setting the state anew, and for deletion or expiry.
   */
  datatype Act = Read | Swap | SwapLost | Fail | Reset(data: Json) | Drop

  datatype Event = Event(writer: nat, act: Act)

  function Next(jobs: seq<Mutation>, s: System, e: Event): System
    requires |s.phases| == |s.windows| == |jobs|
  {
    if e.act.Reset? then s.(cell := Some(Initial(e.act.data)))
    else if e.act.Drop? then s.(cell := None)
    else if e.writer >= |jobs| then s
    else
      match (s.phases[e.writer], e.act)
      case (Ready(tries), Read) =>
        To(s, e.writer, if s.cell.None? then Missing else Holding(tries, s.cell.value, |s.log|))
      case (Holding(tries, seen, since), Swap) => Swapped(jobs, s, e.writer, tries, seen, since, false)
      case (Holding(tries, seen, since), SwapLost) => Swapped(jobs, s, e.writer, tries, seen, since, true)
      case (Ready(_), Fail) => To(s, e.writer, Failed)
      case (Holding(_, _, _), Fail) => To(s, e.writer, Failed)
      case _ => s
  }

  function To(s: System, w: nat, p: Phase): System
    requires w < |s.phases|
  {
    s.(phases := s.phases[w := p])
  }

  function Committing(s: System, w: nat, next: Cell, lost: bool): System
    requires w < |s.phases|
  {
    To(s, w, if lost then Failed else Done(next)).(cell := Some(next), log := s.log + [w])
  }

  /** Where a writer stands that lost its race number `tries`. */
  function Lost(tries: nat): Phase { if tries + 1 == MAX_RACES then Contended else Ready(tries + 1) }

  function Losing(s: System, w: nat, tries: nat, since: nat, lost: bool): System
    requires w < |s.phases| == |s.windows|
  {
    To(s, w, if lost then Failed else Lost(tries)).(
      windows := s.windows[w := s.windows[w] + [Window(since, |s.log|)]])
  }

  /** A swap of what writer `w` derived from what it has seen. */
  function Swapped(jobs: seq<Mutation>, s: System, w: nat, tries: nat, seen: Cell, since: nat, lost: bool): System
    requires |s.phases| == |s.windows| == |jobs| && w < |jobs|
  {
    if s.cell.None? then To(s, w, if lost then Failed else Missing)
    else
      match DeriveNext(s.cell.value, seen.revision, jobs[w](seen.data))
      case Ok(next) => Committing(s, w, next, lost)
      case Err(_) => Losing(s, w, tries, since, lost)
  }

  function Start(jobs: seq<Mutation>, cell: Option<Cell>): (s: System)
    ensures |s.phases| == |s.windows| == |jobs|
  {
    System.System(cell, seq(|jobs|, _ => Ready(0)), [], seq(|jobs|, _ => []))
  }

  ghost function Run(jobs: seq<Mutation>, s: System, events: seq<Event>): (t: System)
    requires |s.phases| == |s.windows| == |jobs|
    ensures |t.phases| == |t.windows| == |jobs|
  {
    if events == [] then s else Next(jobs, Run(jobs, s, events[..|events| - 1]), events[|events| - 1])
  }

  /** Nobody sets the session anew, deletes it or lets it expire. */
  ghost predicate LeftAlone(events: seq<Event>) {
    forall i :: 0 <= i < |events| ==> !events[i].act.Reset? && !events[i].act.Drop?
  }

  /** A payload after the mutations of the writers in the log, in that order. */
  ghost function Mutated(jobs: seq<Mutation>, log: seq<nat>, j: Json): Json
    requires forall i :: 0 <= i < |log| ==> log[i] < |jobs|
  {
    if log == [] then j else jobs[log[|log| - 1]](Mutated(jobs, log[..|log| - 1], j))
  }

  /** What the session holds after the first `n` commits. */
  ghost function CellAt(jobs: seq<Mutation>, first: Cell, log: seq<nat>, n: nat): Cell
    requires n <= |log| && forall i :: 0 <= i < |log| ==> log[i] < |jobs|
  {
    Cell(Mutated(jobs, log[..n], first.data), first.revision + n)
  }

  /** Windows follow one another, and in each some swap succeeded. */
  ghost predicate Disjoint(windows: seq<Window>, end: nat) {
    && (forall k :: 0 <= k < |windows| ==> windows[k].since < windows[k].until <= end)
    && (forall k, m :: 0 <= k < m < |windows| ==> windows[k].until <= windows[m].since)
  }

  ghost predicate LogOk(jobs: seq<Mutation>, log: seq<nat>) {
    && (forall i :: 0 <= i < |log| ==> log[i] < |jobs|)
    && (forall i, j :: 0 <= i < j < |log| ==> log[i] != log[j])
  }

  ghost predicate WriterOk(jobs: seq<Mutation>, first: Cell, log: seq<nat>, w: nat, p: Phase, windows: seq<Window>)
    requires LogOk(jobs, log)
  {
    && Disjoint(windows, |log|)
    && match p
       case Ready(tries) => tries < MAX_RACES && |windows| == tries && w !in log
       case Holding(tries, seen, since) =>
         && tries < MAX_RACES && |windows| == tries && w !in log
         && since <= |log| && seen == CellAt(jobs, first, log, since)
         && (windows != [] ==> windows[|windows| - 1].until <= since)
       case Done(state) =>
         var at := state.revision - first.revision;
         1 <= at <= |log| && log[at - 1] == w && state == CellAt(jobs, first, log, at)
       case Missing => false
       case Contended => |windows| == MAX_RACES && w !in log
       case Failed => true
  }

  /** What holds of a session that started with `first` and is left alone. */
  ghost predicate Consistent(jobs: seq<Mutation>, first: Cell, s: System) {
    && |s.phases| == |s.windows| == |jobs|
    && LogOk(jobs, s.log)
    && s.cell == Some(CellAt(jobs, first, s.log, |s.log|))
    && (forall w :: 0 <= w < |jobs| ==> WriterOk(jobs, first, s.log, w, s.phases[w], s.windows[w]))
  }

  // ------------------------------------------------------- one step at a time

  lemma LogGrows(jobs: seq<Mutation>, log: seq<nat>, w: nat)
    requires LogOk(jobs, log) && w < |jobs| && w !in log
    ensures LogOk(jobs, log + [w])
    ensures forall v :: v in log + [w] <==> v in log || v == w
  {
  }

  /** What was committed before stays what it was. */
  lemma CellAtStays(jobs: seq<Mutation>, first: Cell, log: seq<nat>, w: nat, n: nat)
    requires LogOk(jobs, log) && LogOk(jobs, log + [w]) && n <= |log|
    ensures CellAt(jobs, first, log + [w], n) == CellAt(jobs, first, log, n)
  {
    assert (log + [w])[..n] == log[..n];
  }

  lemma CellAtNext(jobs: seq<Mutation>, first: Cell, log: seq<nat>, w: nat)
    requires LogOk(jobs, log) && LogOk(jobs, log + [w]) && w < |jobs|
    ensures CellAt(jobs, first, log + [w], |log| + 1)
         == Cell(jobs[w](CellAt(jobs, first, log, |log|).data), first.revision + |log| + 1)
  {
    assert (log + [w])[..|log| + 1] == log + [w] && log[..|log|] == log;
    assert (log + [w])[..|log|] == log;
  }

  /** Another writer's commit leaves everything a writer knows in place. */
  lemma OthersStayOk(jobs: seq<Mutation>, first: Cell, log: seq<nat>, winner: nat, w: nat, p: Phase, windows: seq<Window>)
    requires LogOk(jobs, log) && LogOk(jobs, log + [winner]) && w != winner && WriterOk(jobs, first, log, w, p, windows)
    ensures WriterOk(jobs, first, log + [winner], w, p, windows)
  {
    match p
    case Holding(tries, seen, since) => CellAtStays(jobs, first, log, winner, since);
    case Done(state) => CellAtStays(jobs, first, log, winner, state.revision - first.revision);
    case _ =>
  }

  lemma AllOthersStayOk(jobs: seq<Mutation>, first: Cell, s: System, w: nat)
    requires Consistent(jobs, first, s) && w < |jobs| && LogOk(jobs, s.log + [w])
    ensures forall v :: 0 <= v < |jobs| && v != w ==> WriterOk(jobs, first, s.log + [w], v, s.phases[v], s.windows[v])
  {
    forall v | 0 <= v < |jobs| && v != w ensures WriterOk(jobs, first, s.log + [w], v, s.phases[v], s.windows[v]) {
      OthersStayOk(jobs, first, s.log, w, v, s.phases[v], s.windows[v]);
    }
  }

  /** A swap of the current state commits. */
  lemma SwapCommits(jobs: seq<Mutation>, first: Cell, s: System, w: nat)
    requires Consistent(jobs, first, s) && w < |jobs| && s.phases[w].Holding? && s.phases[w].since == |s.log|
    ensures LogOk(jobs, s.log + [w])
    ensures s.cell == Some(s.phases[w].seen)
    ensures CellAt(jobs, first, s.log + [w], |s.log| + 1)
         == Cell(jobs[w](s.phases[w].seen.data), s.phases[w].seen.revision + 1)
  {
    assert WriterOk(jobs, first, s.log, w, s.phases[w], s.windows[w]);
    LogGrows(jobs, s.log, w);
    CellAtNext(jobs, first, s.log, w);
  }

  lemma CommitKeeps(jobs: seq<Mutation>, first: Cell, s: System, w: nat, lost: bool)
    requires Consistent(jobs, first, s) && w < |jobs| && LogOk(jobs, s.log + [w])
    ensures Consistent(jobs, first, Committing(s, w, CellAt(jobs, first, s.log + [w], |s.log| + 1), lost))
  {
    assert WriterOk(jobs, first, s.log, w, s.phases[w], s.windows[w]);
    CommitterIsOk(jobs, first, s.log, w, s.windows[w]);
    AllOthersStayOk(jobs, first, s, w);
  }

  lemma CommitterIsOk(jobs: seq<Mutation>, first: Cell, log: seq<nat>, w: nat, windows: seq<Window>)
    requires LogOk(jobs, log + [w]) && LogOk(jobs, log) && Disjoint(windows, |log|)
    ensures WriterOk(jobs, first, log + [w], w, Done(CellAt(jobs, first, log + [w], |log| + 1)), windows)
    ensures WriterOk(jobs, first, log + [w], w, Failed, windows)
  {
  }

  lemma LosingKeeps(jobs: seq<Mutation>, first: Cell, s: System, w: nat, lost: bool)
    requires Consistent(jobs, first, s) && w < |jobs| && s.phases[w].Holding? && s.phases[w].since != |s.log|
    ensures Consistent(jobs, first, Losing(s, w, s.phases[w].tries, s.phases[w].since, lost))
    ensures s.cell.Some? && s.cell.value.revision != s.phases[w].seen.revision
  {
    var p := s.phases[w];
    var t := Losing(s, w, p.tries, p.since, lost);
    assert WriterOk(jobs, first, s.log, w, p, s.windows[w]);
    LoserIsOk(jobs, first, s.log, w, p, s.windows[w], t.phases[w]);
    assert forall v :: 0 <= v < |jobs| && v != w ==> t.phases[v] == s.phases[v] && t.windows[v] == s.windows[v];
  }

  lemma LoserIsOk(jobs: seq<Mutation>, first: Cell, log: seq<nat>, w: nat, p: Phase, windows: seq<Window>, p': Phase)
    requires LogOk(jobs, log) && p.Holding? && WriterOk(jobs, first, log, w, p, windows) && p.since != |log|
    requires p' == Failed || p' == if p.tries + 1 == MAX_RACES then Contended else Ready(p.tries + 1)
    ensures WriterOk(jobs, first, log, w, p', windows + [Window(p.since, |log|)])
  {
    assert Disjoint(windows + [Window(p.since, |log|)], |log|);
  }

  lemma SwappedEitherWay(jobs: seq<Mutation>, s: System, w: nat, tries: nat, seen: Cell, since: nat, lost: bool)
    requires |s.phases| == |s.windows| == |jobs| && w < |jobs| && s.cell.Some?
    ensures Swapped(jobs, s, w, tries, seen, since, lost)
         == if s.cell.value.revision == seen.revision
            then Committing(s, w, Cell(jobs[w](seen.data), seen.revision + 1), lost)
            else Losing(s, w, tries, since, lost)
  {
  }

  /** What a swap does to a consistent system. */
  lemma SwapKeeps(jobs: seq<Mutation>, first: Cell, s: System, w: nat, lost: bool)
    requires Consistent(jobs, first, s) && w < |jobs| && s.phases[w].Holding?
    ensures Consistent(jobs, first, Swapped(jobs, s, w, s.phases[w].tries, s.phases[w].seen, s.phases[w].since, lost))
  {
    var p := s.phases[w];
    SwappedEitherWay(jobs, s, w, p.tries, p.seen, p.since, lost);
    if p.since == |s.log| {
      SwapCommits(jobs, first, s, w);
      CommitKeeps(jobs, first, s, w, lost);
    } else {
      LosingKeeps(jobs, first, s, w, lost);
    }
  }

  lemma StepKeeps(jobs: seq<Mutation>, first: Cell, s: System, e: Event)
    requires Consistent(jobs, first, s) && !e.act.Reset? && !e.act.Drop?
    ensures Consistent(jobs, first, Next(jobs, s, e))
  {
    var w, t := e.writer, Next(jobs, s, e);
    if t != s {
      assert WriterOk(jobs, first, s.log, w, s.phases[w], s.windows[w]);
      if s.phases[w].Holding? && (e.act.Swap? || e.act.SwapLost?) {
        SwapKeeps(jobs, first, s, w, e.act.SwapLost?);
      } else {
        forall v | 0 <= v < |jobs| ensures WriterOk(jobs, first, t.log, v, t.phases[v], t.windows[v]) {
          assert WriterOk(jobs, first, s.log, v, s.phases[v], s.windows[v]);
        }
      }
    }
  }

  lemma {:induction false} RunKeeps(jobs: seq<Mutation>, first: Cell, s: System, events: seq<Event>)
    requires Consistent(jobs, first, s) && LeftAlone(events)
    ensures Consistent(jobs, first, Run(jobs, s, events))
  {
    if events != [] {
      var before := events[..|events| - 1];
      RunKeeps(jobs, first, s, before);
      StepKeeps(jobs, first, Run(jobs, s, before), events[|events| - 1]);
    }
  }

  lemma StartIsConsistent(jobs: seq<Mutation>, first: Cell)
    ensures Consistent(jobs, first, Start(jobs, Some(first)))
  {
  }

  // ----------------------------------------------------------------- theorems

  /** The system after a run of a session left alone. */
  ghost function Outcome(jobs: seq<Mutation>, first: Cell, events: seq<Event>): (s: System)
    ensures |s.phases| == |s.windows| == |jobs|
  {
    Run(jobs, Start(jobs, Some(first)), events)
  }

  lemma OutcomeIsConsistent(jobs: seq<Mutation>, first: Cell, events: seq<Event>)
    requires LeftAlone(events)
    ensures Consistent(jobs, first, Outcome(jobs, first, events))
  {
    StartIsConsistent(jobs, first);
    RunKeeps(jobs, first, Start(jobs, Some(first)), events);
  }

  /** The pushes of the writers in the log. */
  ghost function Committed(pushes: seq<Push>, log: seq<nat>): seq<Push>
    requires forall i :: 0 <= i < |log| ==> log[i] < |pushes|
  {
    seq(|log|, i requires 0 <= i < |log| => pushes[log[i]])
  }

  lemma {:induction false} MutatedIsReplayed(pushes: seq<Push>, log: seq<nat>, j: Json)
    requires forall i :: 0 <= i < |log| ==> log[i] < |pushes|
    ensures Mutated(Pushing(pushes), log, j) == Replayed(Committed(pushes, log), j)
  {
    if log != [] {
      var n := |log| - 1;
      MutatedIsReplayed(pushes, log[..n], j);
      assert Committed(pushes, log)[..n] == Committed(pushes, log[..n]);
    }
  }

  /** The lists of a payload after a log of pushes. */
  lemma ListsAfterLog(pushes: seq<Push>, log: seq<nat>, j: Json, k: ListKey)
    requires forall i :: 0 <= i < |log| ==> log[i] < |pushes|
    ensures FromStateData(Mutated(Pushing(pushes), log, j)).List(k)
         == Tail(FromStateData(j).List(k), Items(Committed(pushes, log), k))
    ensures log != [] ==>
              Mutated(Pushing(pushes), log, j) == ApplyTo(PushedAll(Committed(pushes, log), FromStateData(j)), j)
  {
    MutatedIsReplayed(pushes, log, j);
    ReplayedIsOneMerge(Committed(pushes, log), j);
    ListsAreTails(Committed(pushes, log), FromStateData(j), k);
  }

  lemma LogIsSuffix(pushes: seq<Push>, log: seq<nat>, j: Json, k: ListKey)
    requires forall i :: 0 <= i < |log| ==> log[i] < |pushes|
    ensures IsRecent(FromStateData(j).List(k), Items(Committed(pushes, log), k),
                     FromStateData(Mutated(Pushing(pushes), log, j)).List(k))
  {
    ListsAfterLog(pushes, log, j, k);
    ListIsSuffix(FromStateData(j).List(k), Items(Committed(pushes, log), k),
                 FromStateData(Mutated(Pushing(pushes), log, j)).List(k));
  }

  /**
   * Nothing is lost: in any interleaving of any number of writers the revision counts the commits, and every list is the
   * last fifty of what it started as followed by everything committed to it, in commit order.
   */
  lemma NoUpdateIsLost(pushes: seq<Push>, first: Cell, events: seq<Event>, k: ListKey)
    requires LeftAlone(events)
    ensures var s, before := Outcome(Pushing(pushes), first, events), FromStateData(first.data).List(k);
            && LogOk(Pushing(pushes), s.log) && s.cell.Some? && s.cell.value.revision == first.revision + |s.log|
            && var (list, items) := (FromStateData(s.cell.value.data).List(k), Items(Committed(pushes, s.log), k));
               var all := before + items;
               && (items == [] ==> list == before)
               && (|before| <= 50 || items != [] ==>
                     |list| == (if |all| < 50 then |all| else 50) && list == all[|all| - |list|..])
  {
    OutcomeCell(Pushing(pushes), first, events);
    var log := Outcome(Pushing(pushes), first, events).log;
    LogIsSuffix(pushes, log, first.data, k);
  }

  /** The session is the first payload after the log. */
  lemma OutcomeCell(jobs: seq<Mutation>, first: Cell, events: seq<Event>)
    requires LeftAlone(events)
    ensures var s := Outcome(jobs, first, events);
            LogOk(jobs, s.log) && s.cell == Some(Cell(Mutated(jobs, s.log, first.data), first.revision + |s.log|))
  {
    OutcomeIsConsistent(jobs, first, events);
    var log := Outcome(jobs, first, events).log;
    assert log[..|log|] == log;
  }

  /** Commits touch no field but the four lists. */
  lemma ForeignFieldsStay(pushes: seq<Push>, first: Cell, events: seq<Event>, name: string)
    requires LeftAlone(events) && Foreign(name)
    ensures var s := Outcome(Pushing(pushes), first, events);
            && s.cell.Some?
            && (name in Base(s.cell.value.data) <==> name in Base(first.data))
            && (name in Base(first.data) ==> Base(s.cell.value.data)[name] == Base(first.data)[name])
  {
    OutcomeCell(Pushing(pushes), first, events);
    var log := Outcome(Pushing(pushes), first, events).log;
    ListsAfterLog(pushes, log, first.data, ActiveGoals);
    AppliedFields(PushedAll(Committed(pushes, log), FromStateData(first.data)), first.data);
  }

  /**
   * Commits onto other lists keep a stored list `k` if and only if the session started out well typed or the list was
   * empty: a session in which one list is ill typed starts over from empty lists at its first commit.
   */
  lemma CommitsKeepListIff(pushes: seq<Push>, first: Cell, events: seq<Event>, k: ListKey)
    requires LeftAlone(events) && first.data.Object? && Name(k) in first.data.fields
    requires var log := Outcome(Pushing(pushes), first, events).log;
             log != [] && LogOk(Pushing(pushes), log) && Items(Committed(pushes, log), k) == []
    ensures var s := Outcome(Pushing(pushes), first, events);
            && s.cell.Some? && s.cell.value.data.Object? && Name(k) in s.cell.value.data.fields
            && (s.cell.value.data.fields[Name(k)] == first.data.fields[Name(k)]
                <==> WellTyped(first.data) || first.data.fields[Name(k)] == Encoded([]))
  {
    OutcomeCell(Pushing(pushes), first, events);
    var log := Outcome(Pushing(pushes), first, events).log;
    ListsAfterLog(pushes, log, first.data, k);
    var after := PushedAll(Committed(pushes, log), FromStateData(first.data));
    ListsAreTails(Committed(pushes, log), FromStateData(first.data), k);
    AppliedFields(after, first.data);
    ReadBackIff(first.data, k);
  }

  /**
   * An acknowledged push is in the log exactly once, at the position its revision tells, and the state acknowledged is
   * the session's at that point; a push refused for contention is not in the log.
   */
  lemma AcknowledgedExactlyOnce(jobs: seq<Mutation>, first: Cell, events: seq<Event>, w: nat)
    requires LeftAlone(events) && w < |jobs|
    ensures var s := Outcome(jobs, first, events);
            && LogOk(jobs, s.log)
            && (s.phases[w].Done? ==> CommittedOnce(jobs, first, s.log, w, s.phases[w].state))
            && (s.phases[w].Contended? || s.phases[w].Live() ==> w !in s.log)
            && !s.phases[w].Missing?
  {
    OutcomeIsConsistent(jobs, first, events);
    var s := Outcome(jobs, first, events);
    DoneIsCommittedOnce(jobs, first, s.log, w, s.phases[w], s.windows[w]);
  }

  ghost predicate CommittedOnce(jobs: seq<Mutation>, first: Cell, log: seq<nat>, w: nat, state: Cell)
    requires LogOk(jobs, log)
  {
    var at := state.revision - first.revision - 1;
    && 0 <= at < |log| && (forall i :: 0 <= i < |log| ==> (log[i] == w <==> i == at))
    && state == CellAt(jobs, first, log, at + 1)
  }

  lemma DoneIsCommittedOnce(jobs: seq<Mutation>, first: Cell, log: seq<nat>, w: nat, p: Phase, windows: seq<Window>)
    requires LogOk(jobs, log) && WriterOk(jobs, first, log, w, p, windows)
    ensures p.Done? ==> CommittedOnce(jobs, first, log, w, p.state)
    ensures p.Contended? || p.Live() ==> w !in log
    ensures !p.Missing?
  {
    if p.Done? {
      OnlyThere(log, p.state.revision - first.revision - 1, w);
    }
  }

  lemma OnlyThere(log: seq<nat>, at: nat, w: nat)
    requires at < |log| && log[at] == w && forall i, j :: 0 <= i < j < |log| ==> log[i] != log[j]
    ensures forall i :: 0 <= i < |log| ==> (log[i] == w <==> i == at)
  {
  }

  /** Five races lost: five windows one after the other, in each of which another writer's swap succeeded. */
  lemma ContentionNeedsFiveCommits(jobs: seq<Mutation>, first: Cell, events: seq<Event>, w: nat)
    requires LeftAlone(events) && w < |jobs| && Outcome(jobs, first, events).phases[w].Contended?
    ensures var s := Outcome(jobs, first, events); var races := s.windows[w];
            && |races| == 5
            && (forall k :: 0 <= k < 5 ==> 0 <= races[k].since < races[k].until <= |s.log|)
            && (forall k, m :: 0 <= k < m < 5 ==> races[k].until <= races[m].since)
            && (forall i :: 0 <= i < |s.log| ==> s.log[i] != w)
            && (forall i, j :: 0 <= i < j < |s.log| ==> s.log[i] != s.log[j])
  {
    OutcomeIsConsistent(jobs, first, events);
    var s := Outcome(jobs, first, events);
    assert WriterOk(jobs, first, s.log, w, s.phases[w], s.windows[w]);
  }

  /** Up to five writers never meet the limit, however they interleave. */
  lemma FiveWritersNeverContend(jobs: seq<Mutation>, first: Cell, events: seq<Event>, w: nat)
    requires LeftAlone(events) && |jobs| <= 5 && w < |jobs|
    ensures !Outcome(jobs, first, events).phases[w].Contended?
  {
    var s := Outcome(jobs, first, events);
    if s.phases[w].Contended? {
      ContentionNeedsFiveCommits(jobs, first, events, w);
      OutcomeIsConsistent(jobs, first, events);
      DistinctBelow(s.log + [w], |jobs|);
      RacesFillTheLog(s.windows[w], |s.log|);
      assert false;
    }
  }

  lemma RacesFillTheLog(races: seq<Window>, end: nat)
    requires Disjoint(races, end) && |races| == 5
    ensures end >= 5
  {
    assert 1 <= races[0].until <= races[1].since < races[1].until <= races[2].since < races[2].until;
    assert races[2].until <= races[3].since < races[3].until <= races[4].since < races[4].until;
  }

  /** Distinct numbers below `n` are at most `n`. */
  lemma {:induction false} DistinctBelow(s: seq<nat>, n: nat)
    requires forall i :: 0 <= i < |s| ==> s[i] < n
    requires forall i, j :: 0 <= i < j < |s| ==> s[i] != s[j]
    ensures |s| <= n
    decreases n
  {
    if s != [] {
      assert s[0] < n;
      if i :| 0 <= i < |s| && s[i] == n - 1 {
        DistinctBelow(s[..i] + s[i + 1..], n - 1);
      } else {
        DistinctBelow(s, n - 1);
      }
    }
  }

  // ----------------------------------------------------------------- progress

  /** Calls a writer may still make. */
  function Work(p: Phase): nat {
    match p
    case Ready(tries) => if tries < MAX_RACES then 2 * (MAX_RACES - tries) else 0
    case Holding(tries, _, _) => if tries < MAX_RACES then 2 * (MAX_RACES - tries) - 1 else 0
    case _ => 0
  }

  function TotalWork(phases: seq<Phase>): nat {
    if phases == [] then 0 else TotalWork(phases[..|phases| - 1]) + Work(phases[|phases| - 1])
  }

  lemma {:induction false} WorkDrops(phases: seq<Phase>, w: nat, p: Phase)
    requires w < |phases|
    ensures TotalWork(phases[w := p]) == TotalWork(phases) - Work(phases[w]) + Work(p)
  {
    var n := |phases| - 1;
    if w < n {
      assert phases[w := p][..n] == phases[..n][w := p];
      WorkDrops(phases[..n], w, p);
    } else {
      assert phases[w := p][..n] == phases[..n];
    }
  }

  /** How many events of a run did something. */
  ghost function Effective(jobs: seq<Mutation>, s: System, events: seq<Event>): nat
    requires |s.phases| == |s.windows| == |jobs|
  {
    if events == [] then 0 else
    var before := events[..|events| - 1];
    Effective(jobs, s, before) + if Run(jobs, s, events) == Run(jobs, s, before) then 0 else 1
  }

  lemma StepWorks(jobs: seq<Mutation>, first: Cell, s: System, e: Event)
    requires Consistent(jobs, first, s) && !e.act.Reset? && !e.act.Drop? && Next(jobs, s, e) != s
    ensures TotalWork(Next(jobs, s, e).phases) < TotalWork(s.phases)
  {
    var w, t := e.writer, Next(jobs, s, e);
    assert WriterOk(jobs, first, s.log, w, s.phases[w], s.windows[w]);
    assert t.phases == s.phases[w := t.phases[w]];
    WorkDrops(s.phases, w, t.phases[w]);
  }

  lemma {:induction false} RunWorks(jobs: seq<Mutation>, first: Cell, s: System, events: seq<Event>)
    requires Consistent(jobs, first, s) && LeftAlone(events)
    ensures Effective(jobs, s, events) + TotalWork(Run(jobs, s, events).phases) <= TotalWork(s.phases)
  {
    if events != [] {
      var before := events[..|events| - 1];
      RunWorks(jobs, first, s, before);
      RunKeeps(jobs, first, s, before);
      if Run(jobs, s, events) != Run(jobs, s, before) {
        StepWorks(jobs, first, Run(jobs, s, before), events[|events| - 1]);
      }
    }
  }

  lemma {:induction false} AllReady(n: nat)
    ensures TotalWork(seq(n, _ => Ready(0))) == 10 * n
  {
    if n > 0 {
      AllReady(n - 1);
      var phases := seq(n, _ => Ready(0));
      assert phases[..n - 1] == seq(n - 1, _ => Ready(0));
      assert phases[n - 1] == Ready(0);
    }
  }

  ghost predicate NoFailures(events: seq<Event>) {
    forall i :: 0 <= i < |events| ==> events[i].act.Read? || events[i].act.Swap?
  }

  /** No writer fails when no call does. */
  lemma {:induction false} NobodyFails(jobs: seq<Mutation>, s: System, events: seq<Event>, w: nat)
    requires |s.phases| == |s.windows| == |jobs| && w < |jobs| && NoFailures(events) && !s.phases[w].Failed?
    ensures !Run(jobs, s, events).phases[w].Failed?
  {
    if events != [] {
      NobodyFails(jobs, s, events[..|events| - 1], w);
    }
  }

  /**
   * Every run is over after ten effective calls a writer, a writer that is not through can always take its next call, and
   * five or fewer writers on a live session all succeed: when nobody can move, everybody's push is in the log.
   */
  lemma FiveWritersAllSucceed(jobs: seq<Mutation>, first: Cell, events: seq<Event>, w: nat)
    requires NoFailures(events) && w < |jobs|
    ensures Effective(jobs, Start(jobs, Some(first)), events) <= 10 * |jobs|
    ensures var s := Outcome(jobs, first, events);
            && (s.phases[w].Live() <==> exists act: Act :: (act.Read? || act.Swap?) && Next(jobs, s, Event(w, act)) != s)
            && (|jobs| <= 5 && !s.phases[w].Live() ==> s.phases[w].Done? && w in s.log)
  {
    var start, s := Start(jobs, Some(first)), Outcome(jobs, first, events);
    StartIsConsistent(jobs, first);
    RunWorks(jobs, first, start, events);
    assert start.phases == seq(|jobs|, _ => Ready(0));
    AllReady(|jobs|);
    OutcomeIsConsistent(jobs, first, events);
    assert WriterOk(jobs, first, s.log, w, s.phases[w], s.windows[w]);
    NobodyFails(jobs, start, events, w);
    if |jobs| <= 5 {
      FiveWritersNeverContend(jobs, first, events, w);
    }
    LiveCanMove(jobs, s, w);
  }

  lemma LiveCanMove(jobs: seq<Mutation>, s: System, w: nat)
    requires |s.phases| == |s.windows| == |jobs| && w < |jobs|
    ensures s.phases[w].Live() <==> exists act: Act :: (act.Read? || act.Swap?) && Next(jobs, s, Event(w, act)) != s
  {
    var p := s.phases[w];
    if p.Ready? {
      assert Next(jobs, s, Event(w, Read)).phases[w] != p;
    } else if p.Holding? {
      assert Next(jobs, s, Event(w, Swap)).phases[w] != p;
    }
  }

  /** Setting a session anew restarts its revisions, so a swap begun before can undo it without a conflict. */
  lemma ResetCanBeUndone(data: Json, anew: Json, job: Mutation)
    ensures var s := Run([job], Start([job], Some(Initial(data))), [Event(0, Read), Event(0, Reset(anew)), Event(0, Swap)]);
            s.phases[0] == Done(Cell(job(data), 2)) && s.cell == Some(Cell(job(data), 2))
  {
    var s0 := Start([job], Some(Initial(data)));
    var e := [Event(0, Read), Event(0, Reset(anew)), Event(0, Swap)];
    var s1 := Next([job], s0, e[0]);
    var s2 := Next([job], s1, e[1]);
    assert e[..2][..1] == [e[0]] && e[..2][1] == e[1];
    assert Run([job], s0, []) == s0;
    assert [e[0]][..0] == [];
    assert Run([job], s0, [e[0]]) == s1;
    assert Run([job], s0, e[..2]) == s2;
  }

  // -------------------------------------------------------------- retry loop

  lemma RunOne(jobs: seq<Mutation>, s: System, a: seq<Event>, e: Event)
    requires |s.phases| == |s.windows| == |jobs|
    ensures Run(jobs, s, a + [e]) == Next(jobs, Run(jobs, s, a), e)
  {
    assert (a + [e])[..|a|] == a;
  }

  lemma OthersLeaveMe(jobs: seq<Mutation>, s: System, e: Event, me: nat)
    requires |s.phases| == |s.windows| == |jobs| && me < |jobs| && e.writer != me
    ensures Next(jobs, s, e).phases[me] == s.phases[me]
  {
  }

  /** One session of a store, with everybody who writes to it. */
  class SharedSession {
    const store: RedisWorkingStore
    const session: string
    const pushes: seq<Push>
    const jobs: seq<Mutation> := Pushing(pushes)
    /** No provider call fails. */
    const reliable: bool
    var phases: seq<Phase>
    var log: seq<nat>
    var windows: seq<seq<Window>>

    ghost predicate Valid() reads this { |phases| == |windows| == |jobs| }

    function Now(): System
      reads this, store
    {
      System.System(store.CellOf(session), phases, log, windows)
    }

    constructor (store: RedisWorkingStore, session: string, pushes: seq<Push>, reliable: bool)
      ensures Valid() && this.store == store && this.session == session && this.pushes == pushes
      ensures jobs == Pushing(pushes) && this.reliable == reliable
      ensures Now() == Start(jobs, store.CellOf(session))
    {
      this.store, this.session, this.pushes, this.reliable := store, session, pushes, reliable;
      phases, log, windows := seq(|pushes|, _ => Ready(0)), [], seq(|pushes|, _ => []);
    }

    /** What writer `w` would write over what it has seen. */
    method Edit(w: nat, data: Json) returns (edited: Json)
      requires w < |jobs|
      ensures edited == jobs[w](data)
    {
      var snap := new SessionSnapshot(data);
      snap.Perform(pushes[w]);
      edited := snap.MergeInto(data);
    }

    /** The read of writer `w`, and where it leaves the writer. */
    method DoRead(w: nat) returns (current: Option<Cell>)
      requires Valid() && w < |jobs| && phases[w].Ready?
      modifies this, store
      ensures Valid() && Now() == Next(jobs, old(Now()), Event(w, Read))
      ensures current == old(Now()).cell && store.sessions == old(store.sessions)
    {
      current := store.Get(session);
      phases := phases[w := if current.None? then Missing else Holding(phases[w].tries, current.value, |log|)];
    }

    /**
     * The swap of writer `w`. Its reply may be lost, or the read after a mismatch; what that read finds is not for the
     * protocol to say.
     */
    method DoSwap(w: nat, lost: bool) returns (r: Result<Cell>)
      requires Valid() && w < |jobs| && phases[w].Holding?
      modifies this, store
      ensures Valid() && Now() == Next(jobs, old(Now()), Event(w, if lost then SwapLost else Swap))
      ensures match phases[w]
              case Done(state) => r == Ok(state)
              case Missing => r == Err(SessionNotFound)
              case Failed => lost && r == Err(Storage)
              case _ => r.Err? && r.error.SessionConflict? && !lost
      ensures !lost ==> phases[w].Done? || phases[w].Missing? || phases[w] == Lost(old(phases[w]).tries)
    {
      var p := phases[w];
      var data := Edit(w, p.seen.data);
      var found: Option<Cell> := *;
      r := store.CompareAndSet(session, p.seen.revision, data, Ok(found));
      if r.Ok? {
        phases, log := phases[w := if lost then Failed else Done(r.value)], log + [w];
      } else if r.error.SessionConflict? {
        phases := phases[w := if lost then Failed else Lost(p.tries)];
        windows := windows[w := windows[w] + [Window(p.since, |log|)]];
      } else {
        phases := phases[w := if lost then Failed else Missing];
      }
      if lost {
        r := Err(Storage);
      }
    }

    /** A call of writer `w` that fails without effect. */
    method DoFail(w: nat)
      requires Valid() && w < |jobs| && phases[w].Live()
      modifies this
      ensures Valid() && Now() == Next(jobs, old(Now()), Event(w, Fail))
    {
      phases := phases[w := Failed];
    }

    /** Any one event. */
    method Act(e: Event)
      requires Valid()
      modifies this, store
      ensures Valid() && Now() == Next(jobs, old(Now()), e)
    {
      if e.act.Reset? {
        store.Set(session, Initial(e.act.data));
      } else if e.act.Drop? {
        store.Delete(session);
      } else if e.writer < |jobs| {
        match (phases[e.writer], e.act) {
          case (Ready(_), Read) => var _ := DoRead(e.writer);
          case (Holding(_, _, _), Swap) => var _ := DoSwap(e.writer, false);
          case (Holding(_, _, _), SwapLost) => var _ := DoSwap(e.writer, true);
          case (Ready(_), Fail) => DoFail(e.writer);
          case (Holding(_, _, _), Fail) => DoFail(e.writer);
          case _ =>
        }
      }
    }

    /** Since `s0` exactly `events` happened. */
    ghost predicate Since(s0: System, events: seq<Event>)
      reads this, store
    {
      Valid() && |s0.phases| == |s0.windows| == |jobs| && Now() == Run(jobs, s0, events)
    }

    /** Whatever the other writers, and whoever resets or drops the session, do meanwhile. */
    method Meanwhile(me: nat, ghost s0: System, ghost events: seq<Event>) returns (ghost more: seq<Event>)
      requires me < |jobs| && Since(s0, events)
      modifies this, store
      ensures Since(s0, more) && phases[me] == old(phases[me])
    {
      more := events;
      var rounds: nat :| true;
      for i := 0 to rounds
        invariant Since(s0, more) && phases[me] == old(phases[me])
      {
        more := Another(me, s0, more);
      }
    }

    /** Anything anybody else may do next, or nothing. */
    method Another(me: nat, ghost s0: System, ghost events: seq<Event>) returns (ghost more: seq<Event>)
      requires me < |jobs| && Since(s0, events)
      modifies this, store
      ensures Since(s0, more) && phases[me] == old(phases[me])
    {
      more := events;
      var e: Event := *;
      if e.writer != me {
        RunOne(jobs, s0, events, e);
        OthersLeaveMe(jobs, Now(), e, me);
        more := events + [e];
        Act(e);
      }
    }

    /** The read of one attempt, which may fail. */
    method TryRead(me: nat, ghost s0: System, ghost events: seq<Event>)
      returns (current: Result<Option<Cell>>, ghost more: seq<Event>)
      requires me < |jobs| && Since(s0, events) && phases[me].Ready?
      modifies this, store
      ensures Since(s0, more) && (reliable ==> !phases[me].Failed?)
      ensures match current
              case Err(error) => error == Storage && phases[me] == Failed
              case Ok(None) => phases[me] == Missing
              case Ok(Some(cell)) =>
                phases[me].Holding? && phases[me].tries == old(phases[me]).tries && phases[me].seen == cell
    {
      var up: bool :| reliable ==> up;
      ghost var e := Event(me, if up then Read else Fail);
      RunOne(jobs, s0, events, e);
      more := events + [e];
      if !up {
        DoFail(me);
        return Err(Storage), more;
      }
      var read := DoRead(me);
      current := Ok(read);
    }

    /** The swap of one attempt, which may fail before it takes effect or after. */
    method TrySwap(me: nat, ghost s0: System, ghost events: seq<Event>) returns (r: Result<Cell>, ghost more: seq<Event>)
      requires me < |jobs| && Since(s0, events) && phases[me].Holding?
      modifies this, store
      ensures Since(s0, more) && (reliable ==> !phases[me].Failed?)
      ensures match r
              case Ok(next) => phases[me] == Done(next)
              case Err(SessionConflict(_, _)) => phases[me] == Lost(old(phases[me]).tries)
              case Err(SessionNotFound) => phases[me] == Missing
              case Err(error) => error == Storage && phases[me] == Failed
    {
      var up: bool :| reliable ==> up;
      var lost: bool :| reliable ==> !lost;
      ghost var e := Event(me, if !up then Fail else if lost then SwapLost else Swap);
      RunOne(jobs, s0, events, e);
      more := events + [e];
      if !up {
        DoFail(me);
        return Err(Storage), more;
      }
      r := DoSwap(me, lost);
    }

    /**
     * Read, edit, swap, at most five times. The call is a run of the protocol in which `me` takes exactly the steps that
     * lead to the answer, among whatever anybody else does.
     */
    method WorkingMutate(me: nat) returns (r: Result<Cell>, ghost events: seq<Event>)
      requires Valid() && me < |jobs| && phases[me] == Ready(0)
      modifies this, store
      ensures Valid() && Now() == Run(jobs, old(Now()), events) && (reliable ==> !phases[me].Failed?)
      ensures match phases[me]
              case Done(state) => r == Ok(state)
              case Missing => r == Err(SessionNotFound)
              case Contended => r == Err(Storage)
              case Failed => r == Err(Storage)
              case _ => false
    {
      events := [];
      for race := 0 to MAX_RACES
        invariant Since(old(Now()), events)
        invariant phases[me] == if race < MAX_RACES then Ready(race) else Contended
      {
        events := Meanwhile(me, old(Now()), events);
        var current;
        current, events := TryRead(me, old(Now()), events);
        if current.Err? {
          return Err(Storage), events;
        }
        if current.value.None? {
          return Err(SessionNotFound), events;
        }
        events := Meanwhile(me, old(Now()), events);
        r, events := TrySwap(me, old(Now()), events);
        if r.Ok? || !r.error.SessionConflict? {
          return;
        }
      }
      r := Err(Storage);
    }
  }
}
