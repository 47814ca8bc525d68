/** Persistent stores sharing one table under namespaced keys, and the separate stores they behave as. */
module LocalStore {
  import opened Domain
  import Stores
  import Sorting

  type Cell = string

  type Cells = map<string, Cell>

  /** How identifiers become key text and records become cells. */
  datatype Codec = Codec(render: Id -> string, encode: Record -> Cell, decode: Cell -> Option<Record>)
  {
    ghost predicate Faithful() {
      && (forall a, b :: render(a) == render(b) ==> a == b)
      && (forall r :: decode(encode(r)) == Some(r))
    }

    function Key(ns: string, id: Id): string { ns + ":" + render(id) }
  }

  predicate NameChar(c: char) { 'a' <= c <= 'z' || 'A' <= c <= 'Z' || '0' <= c <= '9' || c == '-' || c == '_' }

  /** A namespace the configuration accepts. */
  predicate ValidName(ns: string) { ns != "" && forall i :: 0 <= i < |ns| ==> NameChar(ns[i]) }

  // ------------------------------------------------------ operations and replies

  datatype Op =
    | Put(memory: Record)
    | Get(id: Id, scope: Scope)
    | Update(memory: Record)
    | Delete(id: Id, scope: Scope)
    | Search(q: Query, clock: Time)

  datatype Reply =
    | Stored(memory: Record)
    | Found(memo: Result<Option<Record>>)
    | Updated(result: Result<Record>)
    | Removed(failure: Option<Error>)
    | Hits(hits: Result<seq<Record>>)

  /** A store of its own: the rows an operation leaves. */
  function StoreNext(rows: Rows, op: Op): Rows {
    match op
    case Put(r) => rows[r.id := r]
    case Update(r) => if r.id in rows then rows[r.id := r] else rows
    case Delete(id, scope) => if id in rows && scope.Contains(rows[id].scope) then rows - {id} else rows
    case _ => rows
  }

  ghost predicate StoreReplies(kw: Keywords, rows: Rows, op: Op, reply: Reply) {
    match op
    case Put(r) => reply == Stored(r)
    case Get(id, scope) => 
      reply == Found(Ok(if id in rows && scope.Contains(rows[id].scope) then Some(rows[id]) else None))
    case Update(r) => reply == Updated(if r.id in rows then Ok(r) else Err(NotFound))
    case Delete(_, _) => reply == Removed(None)
    case Search(q, clock) =>
      && reply.Hits?
      && (if ValidQuery(kw, q) then reply.hits.Ok? && IsAnswer(kw, rows, q, clock, reply.hits.value)
          else reply.hits == Err(Validation))
  }

  /** The record in a cell that the scope can see; a cell that cannot be decoded is an error. */
  function Seen(codec: Codec, cells: Cells, key: string, scope: Scope): Result<Option<Record>> {
    if key !in cells then Ok(None) else
    match codec.decode(cells[key])
    case Some(r) => Ok(if scope.Contains(r.scope) then Some(r) else None)
    case None => Err(Storage)
  }

  /** Every cell under the prefix decodes. */
  predicate Readable(codec: Codec, cells: Cells, ns: string) {
    forall key :: key in cells && ns + ":" <= key ==> codec.decode(cells[key]).Some?
  }

  /** The shared table: the cells an operation under `ns` leaves. */
  function TableNext(codec: Codec, cells: Cells, ns: string, op: Op): Cells {
    match op
    case Put(r) => cells[codec.Key(ns, r.id) := codec.encode(r)]
    case Update(r) => if codec.Key(ns, r.id) in cells then cells[codec.Key(ns, r.id) := codec.encode(r)] else cells
    case Delete(id, scope) =>
      var seen := Seen(codec, cells, codec.Key(ns, id), scope);
      if seen.Ok? && seen.value.Some? then cells - {codec.Key(ns, id)} else cells
    case _ => cells
  }

  /** Scanning keys in some order: the rows under the prefix that match, decoded. */
  function Scanned(codec: Codec, kw: Keywords, cells: Cells, ns: string, q: Query, clock: Time, order: seq<string>):
    seq<Record>
  {
    if order == [] then [] else
    var key := order[|order| - 1];
    Scanned(codec, kw, cells, ns, q, clock, order[..|order| - 1]) +
    if && key in cells && ns + ":" <= key && codec.decode(cells[key]).Some?
       && Matches(kw, codec.decode(cells[key]).value, q, clock)
    then [codec.decode(cells[key]).value] else []
  }

  ghost predicate IsOrderOf(order: seq<string>, cells: Cells) {
    && (forall key :: key in order <==> key in cells)
    && (forall i, j :: 0 <= i < j < |order| ==> order[i] != order[j])
  }

  ghost predicate TableReplies(codec: Codec, kw: Keywords, cells: Cells, ns: string, op: Op, reply: Reply) {
    match op
    case Put(r) => reply == Stored(r)
    case Get(id, scope) => reply == Found(Seen(codec, cells, codec.Key(ns, id), scope))
    case Update(r) => reply == Updated(if codec.Key(ns, r.id) in cells then Ok(r) else Err(NotFound))
    case Delete(id, scope) =>
      var seen := Seen(codec, cells, codec.Key(ns, id), scope);
      reply == Removed(if seen.Err? then Some(seen.error) else None)
    case Search(q, clock) =>
      if !ValidQuery(kw, q) then reply == Hits(Err(Validation)) else
      if !Readable(codec, cells, ns) then reply == Hits(Err(Storage)) else
      exists order :: IsOrderOf(order, cells)
        && reply == Hits(Ok(Sorting.Top(Newer, Scanned(codec, kw, cells, ns, q, clock, order), q.limit)))
  }

  // ------------------------------------------------------------- key separation

  /** No key has two readings. */
  lemma KeysAreUnique(codec: Codec, a: string, b: string, x: Id, y: Id)
    requires codec.Faithful() && ValidName(a) && ValidName(b)
    requires b + ":" <= codec.Key(a, x) || codec.Key(a, x) == codec.Key(b, y)
    ensures a == b
    ensures codec.Key(a, x) == codec.Key(b, y) ==> x == y
  {
    var k := codec.Key(a, x);
    assert k[|a|] == ':' && k[|b|] == ':' && k[..|a|] == a && k[..|b|] == b;
    assert forall i :: 0 <= i < |a| ==> k[i] == a[i] && a[i] != ':';
    assert forall i :: 0 <= i < |b| ==> k[i] == b[i] && b[i] != ':';
    assert a == b;
    assert k[|a| + 1..] == codec.render(x);
    assert codec.Key(b, y)[|b| + 1..] == codec.render(y);
  }

  /** Every cell holds a record, under the key of its identifier in some namespace. */
  ghost predicate Sane(codec: Codec, cells: Cells) {
    forall key :: key in cells ==> SaneCell(codec, key, cells[key])
  }

  ghost predicate SaneCell(codec: Codec, key: string, cell: Cell) {
    codec.decode(cell).Some? && exists ns :: ValidName(ns) && key == codec.Key(ns, codec.decode(cell).value.id)
  }

  ghost function IdsUnder(codec: Codec, cells: Cells, ns: string): set<Id> {
    set key | key in cells && ns + ":" <= key && codec.decode(cells[key]).Some? :: codec.decode(cells[key]).value.id
  }

  /** What one namespace holds, by identifier. */
  ghost function View(codec: Codec, cells: Cells, ns: string): Rows {
    map id |
      id in IdsUnder(codec, cells, ns) && codec.Key(ns, id) in cells && codec.decode(cells[codec.Key(ns, id)]).Some? ::
      codec.decode(cells[codec.Key(ns, id)]).value
  }

  lemma ViewHas(codec: Codec, cells: Cells, ns: string, id: Id)
    requires codec.Faithful() && Sane(codec, cells) && ValidName(ns)
    ensures id in View(codec, cells, ns) <==> codec.Key(ns, id) in cells
    ensures id in View(codec, cells, ns) ==>
              var r := View(codec, cells, ns)[id]; r.id == id && codec.decode(cells[codec.Key(ns, id)]) == Some(r)
  {
    var key := codec.Key(ns, id);
    if key in cells {
      assert SaneCell(codec, key, cells[key]);
      var r := codec.decode(cells[key]).value;
      var other :| ValidName(other) && key == codec.Key(other, r.id);
      KeysAreUnique(codec, other, ns, r.id, id);
      assert key[..|ns| + 1] == ns + ":";
    }
  }

  lemma ViewIsWellKeyed(codec: Codec, cells: Cells, ns: string)
    requires codec.Faithful() && Sane(codec, cells) && ValidName(ns)
    ensures WellKeyed(View(codec, cells, ns))
  {
    forall id | id in View(codec, cells, ns) ensures View(codec, cells, ns)[id].id == id {
      ViewHas(codec, cells, ns, id);
    }
  }

  lemma PutIsSane(codec: Codec, cells: Cells, ns: string, r: Record)
    requires codec.Faithful() && Sane(codec, cells) && ValidName(ns)
    ensures Sane(codec, cells[codec.Key(ns, r.id) := codec.encode(r)])
  {
    assert SaneCell(codec, codec.Key(ns, r.id), codec.encode(r));
  }

  /** Two tables with the same cell under the key of `id` have the same row of `id`. */
  lemma SameCellSameRow(codec: Codec, cells: Cells, cells': Cells, ns: string, id: Id)
    requires codec.Faithful() && Sane(codec, cells) && Sane(codec, cells') && ValidName(ns)
    requires var key := codec.Key(ns, id);
             (key in cells <==> key in cells') && (key in cells ==> cells[key] == cells'[key])
    ensures id in View(codec, cells, ns) <==> id in View(codec, cells', ns)
    ensures id in View(codec, cells, ns) ==> View(codec, cells, ns)[id] == View(codec, cells', ns)[id]
  {
    ViewHas(codec, cells, ns, id);
    ViewHas(codec, cells', ns, id);
  }

  /** Keys other than that of `id` under `ns` are untouched from `cells` to `cells'`. */
  ghost predicate TouchesOnly(codec: Codec, cells: Cells, cells': Cells, ns: string, id: Id) {
    forall key :: key != codec.Key(ns, id) ==>
      (key in cells <==> key in cells') && (key in cells ==> cells[key] == cells'[key])
  }

  lemma OtherRowsStay(codec: Codec, cells: Cells, cells': Cells, ns: string, id: Id, other: string, x: Id)
    requires codec.Faithful() && Sane(codec, cells) && Sane(codec, cells') && ValidName(ns) && ValidName(other)
    requires TouchesOnly(codec, cells, cells', ns, id) && (other != ns || x != id)
    ensures x in View(codec, cells, other) <==> x in View(codec, cells', other)
    ensures x in View(codec, cells, other) ==> View(codec, cells, other)[x] == View(codec, cells', other)[x]
  {
    if codec.Key(other, x) == codec.Key(ns, id) {
      KeysAreUnique(codec, other, ns, x, id);
      assert false;
    }
    SameCellSameRow(codec, cells, cells', other, x);
  }

  /** Touching one key of `ns` touches that row of its view and no other view. */
  lemma TouchIsLocal(codec: Codec, cells: Cells, cells': Cells, ns: string, id: Id, other: string)
    requires codec.Faithful() && Sane(codec, cells) && Sane(codec, cells') && ValidName(ns) && ValidName(other)
    requires TouchesOnly(codec, cells, cells', ns, id)
    ensures View(codec, cells, other) - {id} == View(codec, cells', other) - {id}
    ensures other != ns ==> View(codec, cells, other) == View(codec, cells', other)
  {
    var v, v' := View(codec, cells, other), View(codec, cells', other);
    forall x | other != ns || x != id ensures (x in v <==> x in v') && (x in v ==> v[x] == v'[x]) {
      OtherRowsStay(codec, cells, cells', ns, id, other, x);
    }
    SameButFor(v, v', id);
  }

  lemma SameButFor(v: Rows, v': Rows, id: Id)
    requires forall x :: x != id ==> (x in v <==> x in v') && (x in v ==> v[x] == v'[x])
    ensures v - {id} == v' - {id}
  {
  }

  /** Writing under one namespace writes that view and no other. */
  lemma PutIsLocal(codec: Codec, cells: Cells, ns: string, r: Record, other: string)
    requires codec.Faithful() && Sane(codec, cells) && ValidName(ns) && ValidName(other)
    ensures View(codec, cells[codec.Key(ns, r.id) := codec.encode(r)], other)
         == if other == ns then View(codec, cells, other)[r.id := r] else View(codec, cells, other)
  {
    var after := cells[codec.Key(ns, r.id) := codec.encode(r)];
    PutIsSane(codec, cells, ns, r);
    TouchIsLocal(codec, cells, after, ns, r.id, other);
    ViewHas(codec, after, ns, r.id);
    WithoutAndWith(View(codec, cells, other), View(codec, after, other), r.id);
  }

  lemma WithoutAndWith(a: Rows, b: Rows, id: Id)
    requires a - {id} == b - {id}
    ensures id in b ==> b == a[id := b[id]]
    ensures id !in b ==> b == a - {id}
  {
    assert forall x :: x != id ==> (x in a <==> x in a - {id}) && (x in b <==> x in b - {id});
    assert forall x :: x != id && x in a ==> a[x] == (a - {id})[x];
    assert forall x :: x != id && x in b ==> b[x] == (b - {id})[x];
  }

  lemma DeleteIsLocal(codec: Codec, cells: Cells, ns: string, gone: Id, other: string)
    requires codec.Faithful() && Sane(codec, cells) && ValidName(ns) && ValidName(other)
    ensures Sane(codec, cells - {codec.Key(ns, gone)})
    ensures View(codec, cells - {codec.Key(ns, gone)}, other)
         == if other == ns then View(codec, cells, other) - {gone} else View(codec, cells, other)
  {
    var after := cells - {codec.Key(ns, gone)};
    TouchIsLocal(codec, cells, after, ns, gone, other);
    ViewHas(codec, after, ns, gone);
    WithoutAndWith(View(codec, cells, other), View(codec, after, other), gone);
  }

  /** One operation under `ns` does to every view what it would do to a store of its own, or nothing. */
  lemma StepIsLocal(codec: Codec, cells: Cells, ns: string, op: Op, other: string)
    requires codec.Faithful() && Sane(codec, cells) && ValidName(ns) && ValidName(other)
    ensures Sane(codec, TableNext(codec, cells, ns, op))
    ensures View(codec, TableNext(codec, cells, ns, op), other)
         == if other == ns then StoreNext(View(codec, cells, other), op) else View(codec, cells, other)
  {
    match op
    case Put(r) =>
      PutIsSane(codec, cells, ns, r);
      PutIsLocal(codec, cells, ns, r, other);
    case Update(r) => UpdateStepIsLocal(codec, cells, ns, r, other);
    case Delete(id, scope) => DeleteStepIsLocal(codec, cells, ns, id, scope, other);
    case _ =>
  }

  lemma UpdateStepIsLocal(codec: Codec, cells: Cells, ns: string, r: Record, other: string)
    requires codec.Faithful() && Sane(codec, cells) && ValidName(ns) && ValidName(other)
    ensures Sane(codec, TableNext(codec, cells, ns, Update(r)))
    ensures View(codec, TableNext(codec, cells, ns, Update(r)), other)
         == if other == ns then StoreNext(View(codec, cells, other), Update(r)) else View(codec, cells, other)
  {
    ViewHas(codec, cells, ns, r.id);
    if codec.Key(ns, r.id) in cells {
      PutIsSane(codec, cells, ns, r);
      PutIsLocal(codec, cells, ns, r, other);
    }
  }

  /** A deletion takes the cell exactly when the view holds a row that the scope sees. */
  lemma DeleteTakesSeen(codec: Codec, cells: Cells, ns: string, id: Id, scope: Scope)
    requires codec.Faithful() && Sane(codec, cells) && ValidName(ns)
    ensures TableNext(codec, cells, ns, Delete(id, scope))
         == if ViewSees(codec, cells, ns, id, scope) then cells - {codec.Key(ns, id)} else cells
  {
    ViewHas(codec, cells, ns, id);
  }

  ghost predicate ViewSees(codec: Codec, cells: Cells, ns: string, id: Id, scope: Scope) {
    id in View(codec, cells, ns) && scope.Contains(View(codec, cells, ns)[id].scope)
  }

  lemma DeleteStepIsLocal(codec: Codec, cells: Cells, ns: string, id: Id, scope: Scope, other: string)
    requires codec.Faithful() && Sane(codec, cells) && ValidName(ns) && ValidName(other)
    ensures Sane(codec, TableNext(codec, cells, ns, Delete(id, scope)))
    ensures View(codec, TableNext(codec, cells, ns, Delete(id, scope)), other)
         == if other == ns then StoreNext(View(codec, cells, other), Delete(id, scope)) else View(codec, cells, other)
  {
    DeleteTakesSeen(codec, cells, ns, id, scope);
    if ViewSees(codec, cells, ns, id, scope) {
      DeleteIsLocal(codec, cells, ns, id, other);
    }
  }

  // ------------------------------------------------------------------- queries

  /** Rows of the view that match and whose key is among those scanned. */
  ghost function Reached(codec: Codec, kw: Keywords, cells: Cells, ns: string, q: Query, clock: Time, order: seq<string>):
    set<Id>
  {
    set id | id in Matching(kw, View(codec, cells, ns), q, clock) && codec.Key(ns, id) in order
  }

  lemma {:induction false} ScanFinds(codec: Codec, kw: Keywords, cells: Cells, ns: string, q: Query, clock: Time,
                                     order: seq<string>)
    requires codec.Faithful() && Sane(codec, cells) && ValidName(ns)
    requires (forall key :: key in order ==> key in cells) && forall i, j :: 0 <= i < j < |order| ==> order[i] != order[j]
    ensures var hits := Scanned(codec, kw, cells, ns, q, clock, order);
            && DistinctIds(hits) && Ids(hits) == Reached(codec, kw, cells, ns, q, clock, order)
            && forall i :: 0 <= i < |hits| ==>
                 hits[i].id in View(codec, cells, ns) && View(codec, cells, ns)[hits[i].id] == hits[i]
  {
    if order != [] {
      var before, key := order[..|order| - 1], order[|order| - 1];
      assert order == before + [key] && key !in before;
      ScanFinds(codec, kw, cells, ns, q, clock, before);
      ScanStep(codec, kw, cells, ns, q, clock, before, key);
      var hits, r := Scanned(codec, kw, cells, ns, q, clock, before), codec.decode(cells[key]).value;
      if ns + ":" <= key && Matches(kw, r, q, clock) {
        AppendId(hits, r);
      } else {
        assert hits + [] == hits;
      }
    }
  }

  /** A cell under the prefix is the row of its identifier. */
  lemma CellIsRow(codec: Codec, cells: Cells, ns: string, key: string)
    requires codec.Faithful() && Sane(codec, cells) && ValidName(ns) && key in cells
    ensures codec.decode(cells[key]).Some?
    ensures var r := codec.decode(cells[key]).value;
            ns + ":" <= key ==>
              key == codec.Key(ns, r.id) && r.id in View(codec, cells, ns) && View(codec, cells, ns)[r.id] == r
    ensures forall id :: key == codec.Key(ns, id) ==> ns + ":" <= key && codec.decode(cells[key]).value.id == id
  {
    assert SaneCell(codec, key, cells[key]);
    var r := codec.decode(cells[key]).value;
    var other :| ValidName(other) && key == codec.Key(other, r.id);
    if ns + ":" <= key {
      KeysAreUnique(codec, other, ns, r.id, r.id);
      ViewHas(codec, cells, ns, r.id);
    }
    forall id | key == codec.Key(ns, id) ensures ns + ":" <= key && r.id == id {
      KeysAreUnique(codec, other, ns, r.id, id);
      assert key[..|ns| + 1] == ns + ":";
    }
  }

  /** Scanning one more cell adds its row when that is under the prefix and matches, and nothing otherwise. */
  lemma ScanStep(codec: Codec, kw: Keywords, cells: Cells, ns: string, q: Query, clock: Time, before: seq<string>,
                 key: string)
    requires codec.Faithful() && Sane(codec, cells) && ValidName(ns) && key in cells && key !in before
    ensures codec.decode(cells[key]).Some?
    ensures var r := codec.decode(cells[key]).value; var kept := ns + ":" <= key && Matches(kw, r, q, clock);
            && Scanned(codec, kw, cells, ns, q, clock, before + [key])
            == Scanned(codec, kw, cells, ns, q, clock, before) + (if kept then [r] else [])
            && (kept ==> r.id in View(codec, cells, ns) && View(codec, cells, ns)[r.id] == r
                         && r.id !in Reached(codec, kw, cells, ns, q, clock, before))
            && Reached(codec, kw, cells, ns, q, clock, before + [key])
            == Reached(codec, kw, cells, ns, q, clock, before) + (if kept then {r.id} else {})
  {
    CellIsRow(codec, cells, ns, key);
    assert (before + [key])[..|before|] == before;
  }

  lemma AppendId(hits: seq<Record>, r: Record)
    requires DistinctIds(hits) && r.id !in Ids(hits)
    ensures DistinctIds(hits + [r]) && Ids(hits + [r]) == Ids(hits) + {r.id}
  {
    var more := hits + [r];
    forall i | 0 <= i < |hits| ensures hits[i].id != r.id && more[i].id in Ids(hits) {
      assert hits[i].id in Ids(hits);
    }
    forall id | id in Ids(hits) ensures id in Ids(more) {
      var i :| 0 <= i < |hits| && hits[i].id == id;
      assert more[i].id == id;
    }
    assert more[|hits|].id == r.id;
  }

  /** Whatever the namespace answers, its own store could answer. */
  lemma ReplyIsLocal(codec: Codec, kw: Keywords, cells: Cells, ns: string, op: Op, reply: Reply)
    requires codec.Faithful() && Sane(codec, cells) && ValidName(ns) && TableReplies(codec, kw, cells, ns, op, reply)
    ensures StoreReplies(kw, View(codec, cells, ns), op, reply)
  {
    match op
    case Put(_) =>
    case Get(id, scope) => ViewHas(codec, cells, ns, id);
    case Update(r) => ViewHas(codec, cells, ns, r.id);
    case Delete(_, _) =>
    case Search(q, clock) =>
      if ValidQuery(kw, q) {
        var order :| IsOrderOf(order, cells)
          && reply == Hits(Ok(Sorting.Top(Newer, Scanned(codec, kw, cells, ns, q, clock, order), q.limit)));
        SearchIsLocal(codec, kw, cells, ns, q, clock, order);
      }
  }

  lemma SearchIsLocal(codec: Codec, kw: Keywords, cells: Cells, ns: string, q: Query, clock: Time, order: seq<string>)
    requires codec.Faithful() && Sane(codec, cells) && ValidName(ns) && IsOrderOf(order, cells)
    ensures IsAnswer(kw, View(codec, cells, ns), q, clock,
                     Sorting.Top(Newer, Scanned(codec, kw, cells, ns, q, clock, order), q.limit))
  {
    ScanFinds(codec, kw, cells, ns, q, clock, order);
    ViewIsWellKeyed(codec, cells, ns);
    var view := View(codec, cells, ns);
    forall id | id in Matching(kw, view, q, clock) ensures codec.Key(ns, id) in order {
      ViewHas(codec, cells, ns, id);
    }
    assert Reached(codec, kw, cells, ns, q, clock, order) == Matching(kw, view, q, clock);
    Stores.TopIsAnswer(kw, view, q, clock, Scanned(codec, kw, cells, ns, q, clock, order));
  }

  // ---------------------------------------------------------------------- runs

  datatype Request = Request(ns: string, op: Op)

  ghost predicate ValidNames(requests: seq<Request>) { forall i :: 0 <= i < |requests| ==> ValidName(requests[i].ns) }

  /** The shared table after all requests. */
  ghost function TableAfter(codec: Codec, requests: seq<Request>): Cells {
    if requests == [] then map[] else
    var last := requests[|requests| - 1];
    TableNext(codec, TableAfter(codec, requests[..|requests| - 1]), last.ns, last.op)
  }

  /** The separate store of `ns`, which only its own requests reach. */
  ghost function StoreAfter(requests: seq<Request>, ns: string): Rows {
    if requests == [] then map[] else
    var last := requests[|requests| - 1];
    var before := StoreAfter(requests[..|requests| - 1], ns);
    if last.ns == ns then StoreNext(before, last.op) else before
  }

  ghost predicate FromTable(codec: Codec, kw: Keywords, requests: seq<Request>, replies: seq<Reply>) {
    |replies| == |requests| && forall i :: 0 <= i < |requests| ==>
      TableReplies(codec, kw, TableAfter(codec, requests[..i]), requests[i].ns, requests[i].op, replies[i])
  }

  ghost predicate FromStores(kw: Keywords, requests: seq<Request>, replies: seq<Reply>) {
    |replies| == |requests| && forall i :: 0 <= i < |requests| ==>
      StoreReplies(kw, StoreAfter(requests[..i], requests[i].ns), requests[i].op, replies[i])
  }

  /** At every point each namespace holds exactly what its separate store would. */
  lemma {:induction false} ViewsAreStores(codec: Codec, requests: seq<Request>, ns: string)
    requires codec.Faithful() && ValidNames(requests) && ValidName(ns)
    ensures Sane(codec, TableAfter(codec, requests))
    ensures View(codec, TableAfter(codec, requests), ns) == StoreAfter(requests, ns)
    decreases |requests|
  {
    if requests == [] {
      assert View(codec, map[], ns) == map[];
    } else {
      var before, last := requests[..|requests| - 1], requests[|requests| - 1];
      ViewsAreStores(codec, before, ns);
      StepIsLocal(codec, TableAfter(codec, before), last.ns, last.op, ns);
    }
  }

  /** Stores sharing a table simulate separate stores, over every sequence of operations. */
  lemma SharedTableSimulatesStores(codec: Codec, kw: Keywords, requests: seq<Request>, replies: seq<Reply>)
    requires codec.Faithful() && ValidNames(requests) && FromTable(codec, kw, requests, replies)
    ensures FromStores(kw, requests, replies)
  {
    forall i | 0 <= i < |requests|
      ensures StoreReplies(kw, StoreAfter(requests[..i], requests[i].ns), requests[i].op, replies[i])
    {
      ViewsAreStores(codec, requests[..i], requests[i].ns);
      ReplyIsLocal(codec, kw, TableAfter(codec, requests[..i]), requests[i].ns, requests[i].op, replies[i]);
    }
  }

  /** With distinct creation times nobody can tell them apart: the replies are the same, one by one. */
  lemma SharedTableIsInvisible(codec: Codec, kw: Keywords, requests: seq<Request>, shared: seq<Reply>, separate: seq<Reply>)
    requires codec.Faithful() && ValidNames(requests)
    requires FromTable(codec, kw, requests, shared) && FromStores(kw, requests, separate)
    requires forall i :: 0 <= i < |requests| ==> DistinctStamps(StoreAfter(requests[..i], requests[i].ns))
    ensures shared == separate
  {
    SharedTableSimulatesStores(codec, kw, requests, shared);
    forall i | 0 <= i < |requests| ensures shared[i] == separate[i] {
      var rows := StoreAfter(requests[..i], requests[i].ns);
      ViewsAreStores(codec, requests[..i], requests[i].ns);
      ViewIsWellKeyed(codec, TableAfter(codec, requests[..i]), requests[i].ns);
      ReplyIsUnique(kw, rows, requests[i].op, shared[i], separate[i]);
    }
  }

  /** Over distinct creation times a store has one reply to each operation. */
  lemma ReplyIsUnique(kw: Keywords, rows: Rows, op: Op, a: Reply, b: Reply)
    requires WellKeyed(rows) && DistinctStamps(rows)
    requires StoreReplies(kw, rows, op, a) && StoreReplies(kw, rows, op, b)
    ensures a == b
  {
    if op.Search? && ValidQuery(kw, op.q) {
      Stores.AnswerIsUnique(kw, rows, op.q, op.clock, a.hits.value, b.hits.value);
    }
  }

  // ------------------------------------------------------------------- classes

  /** The one database file that stores share. */
  class Database {
    var cells: Cells

    constructor ()
      ensures cells == map[]
    {
      cells := map[];
    }
  }

  class LocalStore {
    const database: Database
    const ns: string
    const codec: Codec
    const kw: Keywords

    constructor (database: Database, ns: string, codec: Codec, kw: Keywords)
      ensures this.database == database && this.ns == ns && this.codec == codec && this.kw == kw
    {
      this.database, this.ns, this.codec, this.kw := database, ns, codec, kw;
    }

    method Put(memory: Record) returns (stored: Record)
      modifies database
      ensures database.cells == TableNext(codec, old(database.cells), ns, Op.Put(memory))
      ensures TableReplies(codec, kw, old(database.cells), ns, Op.Put(memory), Stored(stored))
    {
      database.cells := database.cells[codec.Key(ns, memory.id) := codec.encode(memory)];
      stored := memory;
    }

    method Get(id: Id, scope: Scope) returns (found: Result<Option<Record>>)
      ensures TableReplies(codec, kw, database.cells, ns, Op.Get(id, scope), Found(found))
    {
      var key := codec.Key(ns, id);
      if key !in database.cells {
        return Ok(None);
      }
      var record := codec.decode(database.cells[key]);
      if record.None? {
        return Err(Storage);
      }
      found := Ok(if scope.Contains(record.value.scope) then record else None);
    }

    method Update(memory: Record) returns (r: Result<Record>)
      modifies database
      ensures database.cells == TableNext(codec, old(database.cells), ns, Op.Update(memory))
      ensures TableReplies(codec, kw, old(database.cells), ns, Op.Update(memory), Updated(r))
    {
      if codec.Key(ns, memory.id) !in database.cells {
        return Err(NotFound);
      }
      var stored := Put(memory);
      r := Ok(stored);
    }

    /** Deletes what the scope sees; what it does not see, or what is not there, is already gone. */
    method Delete(id: Id, scope: Scope) returns (failure: Option<Error>)
      modifies database
      ensures database.cells == TableNext(codec, old(database.cells), ns, Op.Delete(id, scope))
      ensures TableReplies(codec, kw, old(database.cells), ns, Op.Delete(id, scope), Removed(failure))
    {
      var found := Get(id, scope);
      if found.Err? {
        return Some(found.error);
      }
      if found.value.Some? {
        database.cells := database.cells - {codec.Key(ns, id)};
      }
      failure := None;
    }

    /** Scans the whole table, keeps its own matching rows, sorts and cuts. */
    method Query(q: Domain.Query, clock: Time) returns (r: Result<seq<Record>>)
      ensures TableReplies(codec, kw, database.cells, ns, Search(q, clock), Hits(r))
    {
      if !ValidQuery(kw, q) {
        return Err(Validation);
      }
      var cells := database.cells;
      var order := Sorting.InSomeOrder(cells.Keys);
      assert IsOrderOf(order, cells);
      var hits: seq<Record> := [];
      for i := 0 to |order|
        invariant hits == Scanned(codec, kw, cells, ns, q, clock, order[..i])
        invariant forall k :: 0 <= k < i && ns + ":" <= order[k] ==> codec.decode(cells[order[k]]).Some?
      {
        assert order[..i + 1][..i] == order[..i];
        var key := order[i];
        if ns + ":" <= key {
          var row := codec.decode(cells[key]);
          if row.None? {
            return Err(Storage);
          }
          if Matches(kw, row.value, q, clock) {
            hits := hits + [row.value];
          }
        }
      }
      AllReadable(codec, cells, ns, order);
      assert order[..|order|] == order;
      r := Ok(Sorting.Top(Newer, hits, q.limit));
    }
  }

  lemma AllReadable(codec: Codec, cells: Cells, ns: string, order: seq<string>)
    requires IsOrderOf(order, cells)
    requires forall k :: 0 <= k < |order| && ns + ":" <= order[k] ==> codec.decode(cells[order[k]]).Some?
    ensures Readable(codec, cells, ns)
  {
    forall key | key in cells && ns + ":" <= key ensures codec.decode(cells[key]).Some? {
      assert key in order;
    }
  }

  /** The in-process store is the separate store the simulation speaks of. */
  method Serve(store: Stores.InMemoryStore, op: Op) returns (reply: Reply)
    requires store.Valid()
    modifies store
    ensures store.Valid() && store.records == StoreNext(old(store.records), op)
    ensures StoreReplies(store.kw, old(store.records), op, reply)
  {
    match op
    case Put(r) =>
      store.Put(r);
      reply := Stored(r);
    case Get(id, scope) =>
      var found := store.Get(id, scope);
      reply := Found(Ok(found));
    case Update(r) =>
      var result := store.Update(r);
      reply := Updated(result);
    case Delete(id, scope) =>
      store.Delete(id, scope);
      reply := Removed(None);
    case Search(q, clock) =>
      var hits := store.Query(q, clock);
      reply := Hits(hits);
  }
}
