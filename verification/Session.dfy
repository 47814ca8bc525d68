/** Session payloads: the typed snapshot kept under well-known keys of an arbitrary JSON value. */
module Session {
  import opened Domain

  datatype Json =
    | Null
    | Bool(b: bool)
    | Number(n: int)
    | Text(text: string)
    | Array(items: seq<Json>)
    | Object(fields: map<string, Json>)

  /** The four lists, in the order they are declared. */
  datatype ListKey = ActiveGoals | RecentObservations | ToolResults | CheckpointRefs

  function Name(k: ListKey): string {
    match k
    case ActiveGoals => "active_goals"
    case RecentObservations => "recent_observations"
    case ToolResults => "tool_results"
    case CheckpointRefs => "checkpoint_refs"
  }

  function Position(k: ListKey): nat {
    match k
    case ActiveGoals => 0
    case RecentObservations => 1
    case ToolResults => 2
    case CheckpointRefs => 3
  }

  const KEYS := [ActiveGoals, RecentObservations, ToolResults, CheckpointRefs]

  ghost predicate Foreign(name: string) { forall k: ListKey :: name != Name(k) }

  datatype Snapshot = Snapshot(goals: seq<string>, observations: seq<string>, results: seq<string>, refs: seq<string>)
  {
    function List(k: ListKey): seq<string> {
      match k
      case ActiveGoals => goals
      case RecentObservations => observations
      case ToolResults => results
      case CheckpointRefs => refs
    }

    function With(k: ListKey, list: seq<string>): Snapshot {
      match k
      case ActiveGoals => this.(goals := list)
      case RecentObservations => this.(observations := list)
      case ToolResults => this.(results := list)
      case CheckpointRefs => this.(refs := list)
    }
  }

  const EMPTY_SNAPSHOT := Snapshot([], [], [], [])

  // ------------------------------------------------------------------ parsing

  /**
   * A payload is read as four lists, whole or not at all: an object by the literal keys, an array of at most four by
   * position, an absent list as empty, and anything ill typed as no lists.
   */
  lemma ReadingIsWholeOrNothing(j: Json)
    ensures var s := FromStateData(j);
            if && j.Object? && TextsUnder(j.fields, "active_goals") && TextsUnder(j.fields, "recent_observations")
               && TextsUnder(j.fields, "tool_results") && TextsUnder(j.fields, "checkpoint_refs") then
              && ReadsFrom(j.fields, "active_goals", s.goals) && ReadsFrom(j.fields, "recent_observations", s.observations)
              && ReadsFrom(j.fields, "tool_results", s.results) && ReadsFrom(j.fields, "checkpoint_refs", s.refs)
            else if j.Array? && |j.items| <= 4 && (forall i :: 0 <= i < |j.items| ==> AreTexts(j.items[i])) then
              && (if |j.items| > 0 then Array(TextsOf(s.goals)) == j.items[0] else s.goals == [])
              && (if |j.items| > 1 then Array(TextsOf(s.observations)) == j.items[1] else s.observations == [])
              && (if |j.items| > 2 then Array(TextsOf(s.results)) == j.items[2] else s.results == [])
              && (if |j.items| > 3 then Array(TextsOf(s.refs)) == j.items[3] else s.refs == [])
            else s == Snapshot([], [], [], [])
  {
    ListIsRead(j, ActiveGoals);
    ListIsRead(j, RecentObservations);
    ListIsRead(j, ToolResults);
    ListIsRead(j, CheckpointRefs);
  }

  ghost predicate AreTexts(j: Json) { j.Array? && forall i :: 0 <= i < |j.items| ==> j.items[i].Text? }

  ghost predicate TextsUnder(fields: map<string, Json>, name: string) { name in fields ==> AreTexts(fields[name]) }

  ghost function TextsOf(list: seq<string>): seq<Json> { seq(|list|, i requires 0 <= i < |list| => Text(list[i])) }

  ghost predicate ReadsFrom(fields: map<string, Json>, name: string, list: seq<string>) {
    if name in fields then fields[name] == Array(TextsOf(list)) else list == []
  }

  lemma ListIsRead(j: Json, k: ListKey)
    ensures Field(j, k).Some? <==>
              if j.Object? then Name(k) in j.fields ==> AreTexts(j.fields[Name(k)])
              else j.Array? && |j.items| <= 4 && (Position(k) < |j.items| ==> AreTexts(j.items[Position(k)]))
    ensures Field(j, k).Some? && j.Object? ==> ReadsFrom(j.fields, Name(k), Field(j, k).value)
    ensures Field(j, k).Some? && j.Array? ==>
              if Position(k) < |j.items| then Array(TextsOf(Field(j, k).value)) == j.items[Position(k)]
              else Field(j, k).value == []
  {
    if j.Object? && Name(k) in j.fields && AreTexts(j.fields[Name(k)]) {
      assert TextsOf(Field(j, k).value) == j.fields[Name(k)].items;
    }
    if j.Array? && |j.items| <= 4 && Position(k) < |j.items| && AreTexts(j.items[Position(k)]) {
      assert TextsOf(Field(j, k).value) == j.items[Position(k)].items;
    }
  }

  /** A JSON array of strings, as a list. */
  function Strings(j: Json): Option<seq<string>> {
    if j.Array? && forall i :: 0 <= i < |j.items| ==> j.items[i].Text?
    then Some(seq(|j.items|, i requires 0 <= i < |j.items| && j.items[i].Text? => j.items[i].text))
    else None
  }

  function Encoded(list: seq<string>): Json {
    Array(seq(|list|, i requires 0 <= i < |list| => Text(list[i])))
  }

  /** A missing list is empty; one that is there must be an array of strings. */
  function Field(j: Json, k: ListKey): Option<seq<string>> {
    if j.Object? then if Name(k) in j.fields then Strings(j.fields[Name(k)]) else Some([])
    else if j.Array? && |j.items| <= 4 then if Position(k) < |j.items| then Strings(j.items[Position(k)]) else Some([])
    else None
  }

  /** The payload reads as a snapshot: an object, or an array of at most four lists, all of them well typed. */
  predicate WellTyped(j: Json) {
    && Field(j, ActiveGoals).Some? && Field(j, RecentObservations).Some?
    && Field(j, ToolResults).Some? && Field(j, CheckpointRefs).Some?
  }

  /** Anything else reads as no lists at all. */
  function FromStateData(j: Json): Snapshot {
    if WellTyped(j)
    then Snapshot(Field(j, ActiveGoals).value, Field(j, RecentObservations).value,
                  Field(j, ToolResults).value, Field(j, CheckpointRefs).value)
    else EMPTY_SNAPSHOT
  }

  function Base(j: Json): map<string, Json> { if j.Object? then j.fields else map[] }

  /** The lists under `keys` inserted over `fields`, one after another. */
  function Merged(s: Snapshot, fields: map<string, Json>, keys: seq<ListKey>): map<string, Json> {
    if keys == [] then fields else
    var last := keys[|keys| - 1];
    Merged(s, fields, keys[..|keys| - 1])[Name(last) := Encoded(s.List(last))]
  }

  /** The lists merged back over the fields of an object; a payload of any other kind is replaced. */
  function ApplyTo(s: Snapshot, j: Json): Json { Object(Merged(s, Base(j), KEYS)) }

  lemma NamesDiffer()
    ensures forall a: ListKey, b: ListKey :: Name(a) == Name(b) ==> a == b
  {
    assert |Name(ActiveGoals)| == 12 && |Name(RecentObservations)| == 19 && |Name(ToolResults)| == 12;
    assert |Name(CheckpointRefs)| == 15;
    assert Name(ActiveGoals)[0] == 'a' && Name(ToolResults)[0] == 't';
  }

  lemma EncodedIsRead(list: seq<string>)
    ensures Strings(Encoded(list)) == Some(list)
  {
    assert Strings(Encoded(list)).value == list;
  }

  /** Each list is where its key says, and foreign fields are as they were. */
  lemma AppliedFields(s: Snapshot, j: Json)
    ensures forall k: ListKey :: Name(k) in ApplyTo(s, j).fields && ApplyTo(s, j).fields[Name(k)] == Encoded(s.List(k))
    ensures forall name :: Foreign(name) ==> (name in ApplyTo(s, j).fields <==> name in Base(j))
    ensures forall name :: Foreign(name) && name in Base(j) ==> ApplyTo(s, j).fields[name] == Base(j)[name]
  {
    MergedFields(s, Base(j), KEYS);
    forall k: ListKey ensures k in KEYS {
      assert KEYS[Position(k)] == k;
    }
  }

  lemma {:induction false} MergedFields(s: Snapshot, fields: map<string, Json>, keys: seq<ListKey>)
    ensures forall k :: k in keys ==>
              Name(k) in Merged(s, fields, keys) && Merged(s, fields, keys)[Name(k)] == Encoded(s.List(k))
    ensures forall name :: (forall k :: k in keys ==> name != Name(k)) ==>
              && (name in Merged(s, fields, keys) <==> name in fields)
              && (name in fields ==> Merged(s, fields, keys)[name] == fields[name])
  {
    if keys != [] {
      var init, last := keys[..|keys| - 1], keys[|keys| - 1];
      assert keys == init + [last];
      MergedFields(s, fields, init);
      NamesDiffer();
    }
  }

  /** What is merged back is what is read next, over every payload. */
  lemma SnapshotRoundTrip(s: Snapshot, j: Json)
    ensures WellTyped(ApplyTo(s, j)) && FromStateData(ApplyTo(s, j)) == s
  {
    AppliedFields(s, j);
    forall k: ListKey ensures Field(ApplyTo(s, j), k) == Some(s.List(k)) {
      EncodedIsRead(s.List(k));
    }
  }

  /** The last merge wins, and only over the well-known keys. */
  lemma LastMergeWins(a: Snapshot, b: Snapshot, j: Json)
    ensures ApplyTo(a, ApplyTo(b, j)) == ApplyTo(a, j)
  {
    AppliedFields(b, j);
    AppliedFields(a, j);
    AppliedFields(a, ApplyTo(b, j));
    var x, y := ApplyTo(a, ApplyTo(b, j)).fields, ApplyTo(a, j).fields;
    forall name ensures (name in x <==> name in y) && (name in x ==> x[name] == y[name]) {
      if !Foreign(name) {
        var k: ListKey :| name == Name(k);
      }
    }
  }

  // ------------------------------------------------------------------- pushing

  /** Cap per list. */
  const CAP: nat := 50

  function Newest(s: seq<string>): seq<string> { if |s| > CAP then s[|s| - CAP..] else s }

  datatype Push = Push(key: ListKey, item: string)

  function Pushed(s: Snapshot, p: Push): Snapshot { s.With(p.key, Newest(s.List(p.key) + [p.item])) }

  /** A well-typed payload is read whole and only the pushed list changes. */
  function Edited(p: Push, j: Json): Json { ApplyTo(Pushed(FromStateData(j), p), j) }

  /** The items pushed onto one list, oldest first. */
  function Items(pushes: seq<Push>, k: ListKey): seq<string> {
    if pushes == [] then [] else
    var last := pushes[|pushes| - 1];
    Items(pushes[..|pushes| - 1], k) + if last.key == k then [last.item] else []
  }

  ghost function Replayed(pushes: seq<Push>, j: Json): Json {
    if pushes == [] then j else Edited(pushes[|pushes| - 1], Replayed(pushes[..|pushes| - 1], j))
  }

  /** Cutting early changes nothing: the tail of a tail and more is the tail of it all. */
  lemma NewestOfNewest(a: seq<string>, b: seq<string>)
    ensures Newest(Newest(a) + b) == Newest(a + b)
  {
  }

  /** A list nothing was pushed onto, or the last fifty of it followed by what was pushed. */
  function Tail(before: seq<string>, items: seq<string>): seq<string> {
    if items == [] then before else Newest(before + items)
  }

  lemma TailIsSuffix(before: seq<string>, items: seq<string>)
    ensures var (list, all) := (Tail(before, items), before + items);
            if items == [] then list == before
            else |list| == (if |all| < 50 then |all| else 50) && list == all[|all| - |list|..]
  {
  }

  /** The same for a list that was within the cap: then it holds with or without items. */
  lemma ListIsSuffix(before: seq<string>, items: seq<string>, list: seq<string>)
    requires list == Tail(before, items)
    ensures IsRecent(before, items, list)
  {
    assert items == [] ==> before + items == before;
  }

  /** The list is the suffix of all there was, as long as that or 50. */
  ghost predicate IsRecent(before: seq<string>, items: seq<string>, list: seq<string>) {
    var all := before + items;
    && (items == [] ==> list == before)
    && (|before| <= 50 || items != [] ==>
          |list| == (if |all| < 50 then |all| else 50) && list == all[|all| - |list|..])
  }

  lemma TailGrows(before: seq<string>, items: seq<string>, item: string)
    ensures Newest(Tail(before, items) + [item]) == Tail(before, items + [item])
  {
    NewestOfNewest(before + items, [item]);
    assert before + items + [item] == before + (items + [item]);
    assert items == [] ==> before + items == before;
  }

  ghost function PushedAll(pushes: seq<Push>, s: Snapshot): Snapshot {
    if pushes == [] then s else Pushed(PushedAll(pushes[..|pushes| - 1], s), pushes[|pushes| - 1])
  }

  /** Read, edited and written back any number of times, a payload is the original under the snapshot of all pushes. */
  lemma {:induction false} ReplayedIsOneMerge(pushes: seq<Push>, j: Json)
    ensures FromStateData(Replayed(pushes, j)) == PushedAll(pushes, FromStateData(j))
    ensures pushes != [] ==> Replayed(pushes, j) == ApplyTo(PushedAll(pushes, FromStateData(j)), j)
  {
    if pushes != [] {
      var prefix := pushes[..|pushes| - 1];
      ReplayedIsOneMerge(prefix, j);
      var s := PushedAll(pushes, FromStateData(j));
      SnapshotRoundTrip(s, Replayed(prefix, j));
      if prefix != [] {
        LastMergeWins(s, PushedAll(prefix, FromStateData(j)), j);
      }
    }
  }

  /**
   * The capped lists refine an append-only log: after any pushes each list is the last fifty of what it was followed by
   * everything pushed onto it, and a list never pushed onto is as it was.
   */
  lemma ListsAreLogTails(pushes: seq<Push>, s: Snapshot, k: ListKey)
    ensures var (list, all) := (PushedAll(pushes, s).List(k), s.List(k) + Items(pushes, k));
            if Items(pushes, k) == [] then list == s.List(k)
            else |list| == (if |all| < 50 then |all| else 50) && list == all[|all| - |list|..]
  {
    ListsAreTails(pushes, s, k);
    TailIsSuffix(s.List(k), Items(pushes, k));
  }

  lemma {:induction false} ListsAreTails(pushes: seq<Push>, s: Snapshot, k: ListKey)
    ensures PushedAll(pushes, s).List(k) == Tail(s.List(k), Items(pushes, k))
  {
    if pushes != [] {
      var prefix := pushes[..|pushes| - 1];
      var p := pushes[|pushes| - 1];
      ListsAreTails(prefix, s, k);
      PushedList(PushedAll(prefix, s), p, k);
      if p.key == k {
        TailGrows(s.List(k), Items(prefix, k), p.item);
      } else {
        assert Items(pushes, k) == Items(prefix, k);
      }
    }
  }

  lemma PushedList(s: Snapshot, p: Push, k: ListKey)
    ensures Pushed(s, p).List(k) == if p.key == k then Newest(s.List(k) + [p.item]) else s.List(k)
  {
  }

  // ------------------------------------------------------------ ill-typed payloads

  /** A stored list reads back as it was stored if and only if the payload is well typed or the list is empty. */
  lemma ReadBackIff(j: Json, k: ListKey)
    requires j.Object? && Name(k) in j.fields
    ensures Encoded(FromStateData(j).List(k)) == j.fields[Name(k)] <==> WellTyped(j) || j.fields[Name(k)] == Encoded([])
  {
    if WellTyped(j) {
      assert Field(j, k).Some? && FromStateData(j).List(k) == Field(j, k).value;
      StringsAreEncoded(j.fields[Name(k)]);
    }
  }

  lemma StringsAreEncoded(j: Json)
    requires Strings(j).Some?
    ensures Encoded(Strings(j).value) == j
  {
    assert Encoded(Strings(j).value).items == j.items;
  }

  /**
   * A push leaves every other stored list as it was if and only if the payload is well typed or those lists are empty.
   * Otherwise one ill-typed list makes all four read as empty, and the push stores them so.
   */
  lemma PushKeepsOtherListsIff(p: Push, j: Json)
    requires j.Object?
    ensures (forall k: ListKey :: k != p.key && Name(k) in j.fields ==>
               Name(k) in Edited(p, j).fields && Edited(p, j).fields[Name(k)] == j.fields[Name(k)])
            <==> WellTyped(j) || forall k: ListKey :: k != p.key && Name(k) in j.fields ==> j.fields[Name(k)] == Encoded([])
  {
    AppliedFields(Pushed(FromStateData(j), p), j);
    forall k: ListKey | k != p.key && Name(k) in j.fields
      ensures Name(k) in Edited(p, j).fields
      ensures Edited(p, j).fields[Name(k)] == j.fields[Name(k)] <==> WellTyped(j) || j.fields[Name(k)] == Encoded([])
    {
      PushedList(FromStateData(j), p, k);
      ReadBackIff(j, k);
    }
  }

  /** Whatever the payload was, after a push the stored list is an array that ends in the pushed item. */
  lemma PushedItemIsLast(p: Push, j: Json)
    ensures var fields := Edited(p, j).fields;
            && Name(p.key) in fields && fields[Name(p.key)].Array?
            && 0 < |fields[Name(p.key)].items| <= 50
            && fields[Name(p.key)].items[|fields[Name(p.key)].items| - 1] == Text(p.item)
  {
    AppliedFields(Pushed(FromStateData(j), p), j);
    PushedList(FromStateData(j), p, p.key);
  }

  /** The same for the pushed list: its old items survive a push if and only if the payload is well typed or had none. */
  lemma PushExtendsOwnListIff(p: Push, j: Json, list: seq<string>)
    requires j.Object? && Name(p.key) in j.fields && j.fields[Name(p.key)] == Encoded(list)
    ensures Name(p.key) in Edited(p, j).fields
    ensures Edited(p, j).fields[Name(p.key)] == Encoded((if |list| < 50 then list else list[|list| - 49..]) + [p.item])
            <==> WellTyped(j) || list == []
  {
    EncodedIsRead(list);
    AppliedFields(Pushed(FromStateData(j), p), j);
    var pushed := Pushed(FromStateData(j), p).List(p.key);
    PushedList(FromStateData(j), p, p.key);
    EncodedIsRead(pushed);
    EncodedIsRead(Newest(list + [p.item]));
    NewestOfPushed(list, p.item);
    if WellTyped(j) {
      assert Field(j, p.key) == Some(list);
    } else {
      assert [] + [p.item] == [p.item];
      assert list != [] ==> |Newest(list + [p.item])| > 1;
    }
  }

  lemma NewestOfPushed(list: seq<string>, item: string)
    ensures Newest(list + [item]) == (if |list| < 50 then list else list[|list| - 49..]) + [item]
  {
  }

  /** A payload that loses: its goals are no list, so pushing a result empties the observations. */
  lemma IllTypedPayloadLoses(observation: string, result: string)
    ensures var j := Object(map[Name(ActiveGoals) := Number(0), Name(RecentObservations) := Encoded([observation])]);
            var after := Edited(Push(ToolResults, result), j);
            Name(RecentObservations) in after.fields && after.fields[Name(RecentObservations)] == Encoded([])
  {
    NamesDiffer();
    var j := Object(map[Name(ActiveGoals) := Number(0), Name(RecentObservations) := Encoded([observation])]);
    assert Field(j, ActiveGoals).None?;
    AppliedFields(Pushed(FromStateData(j), Push(ToolResults, result)), j);
  }

  // -------------------------------------------------------------------- class

  /** Appends and keeps the newest tail. */
  method PushCapped(list: seq<string>, item: string) returns (capped: seq<string>)
    ensures capped == Newest(list + [item])
    ensures capped == (if |list| < 50 then list else list[|list| - 49..]) + [item]
  {
    capped := list + [item];
    if |capped| > CAP {
      var excess := |capped| - CAP;
      capped := capped[excess..];
    }
  }

  class SessionSnapshot {
    var activeGoals: seq<string>
    var recentObservations: seq<string>
    var toolResults: seq<string>
    var checkpointRefs: seq<string>

    function Value(): Snapshot
      reads this
    {
      Snapshot(activeGoals, recentObservations, toolResults, checkpointRefs)
    }

    constructor (data: Json)
      ensures Value() == FromStateData(data)
    {
      var s := FromStateData(data);
      activeGoals, recentObservations, toolResults, checkpointRefs := s.goals, s.observations, s.results, s.refs;
    }

    method PushGoal(goal: string)
      modifies this
      ensures Value() == Pushed(old(Value()), Push(ActiveGoals, goal))
    {
      activeGoals := PushCapped(activeGoals, goal);
    }

    method PushObservation(observation: string)
      modifies this
      ensures Value() == Pushed(old(Value()), Push(RecentObservations, observation))
      ensures var before := old(recentObservations);
              recentObservations == (if |before| < 50 then before else before[|before| - 49..]) + [observation]
      ensures activeGoals == old(activeGoals) && toolResults == old(toolResults) && checkpointRefs == old(checkpointRefs)
    {
      recentObservations := PushCapped(recentObservations, observation);
    }

    method PushToolResult(result: string)
      modifies this
      ensures Value() == Pushed(old(Value()), Push(ToolResults, result))
    {
      toolResults := PushCapped(toolResults, result);
    }

    method AddCheckpointRef(reference: string)
      modifies this
      ensures Value() == Pushed(old(Value()), Push(CheckpointRefs, reference))
      ensures var before := old(checkpointRefs);
              checkpointRefs == (if |before| < 50 then before else before[|before| - 49..]) + [reference]
      ensures activeGoals == old(activeGoals) && toolResults == old(toolResults)
      ensures recentObservations == old(recentObservations)
    {
      checkpointRefs := PushCapped(checkpointRefs, reference);
    }

    method Perform(p: Push)
      modifies this
      ensures Value() == Pushed(old(Value()), p)
    {
      match p.key
      case ActiveGoals => PushGoal(p.item);
      case RecentObservations => PushObservation(p.item);
      case ToolResults => PushToolResult(p.item);
      case CheckpointRefs => AddCheckpointRef(p.item);
    }

    /** Inserts the lists one after another over a payload made an object. */
    method MergeInto(data: Json) returns (merged: Json)
      ensures merged == ApplyTo(Value(), data)
    {
      var fields := if data.Object? then data.fields else map[];
      for i := 0 to |KEYS|
        invariant fields == Merged(Value(), Base(data), KEYS[..i])
      {
        assert KEYS[..i + 1][..i] == KEYS[..i];
        fields := fields[Name(KEYS[i]) := Encoded(Value().List(KEYS[i]))];
      }
      assert KEYS[..|KEYS|] == KEYS;
      merged := Object(fields);
    }
  }
}
