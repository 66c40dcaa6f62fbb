/** The document store as an abstract state: records by identifier, the
    store's own scan order over them, the graph edges, and the keys it will
    hand out to the next creates. Every gateway call fails with
    `StoreFailure` while the store is offline. */
module Gateway {
  import opened Errors
  import opened Schema
  import opened Text

  /** What the store holds under an identifier. `id` is never part of it. */
  datatype Row =
    | ObjectRow(created: Option<Time>, updated: Option<Time>, body: Body)
    | RecordRow(settings: Settings)
    | Corrupt(fields: map<string, string>)  // a row no schema accepts, with its raw fields

  /** A directed edge `from -[relation]-> to`; relating twice makes two edges. */
  datatype Edge = Edge(from: Id, relation: string, to: Id, data: Metadata)

  datatype Store = Store(
    rows: map<Id, Row>,
    order: seq<Id>,        // the order in which a table scan returns rows
    edges: seq<Edge>,
    keys: seq<string>,     // keys the store assigns to the next creates
    online: bool)

  /** The scan order lists every stored identifier exactly once. */
  ghost predicate Valid(s: Store) {
    && Distinct(s.order)
    && (forall id :: id in s.rows <==> id in s.order)
  }

  /** The table segment of an identifier: the text before its first `:`,
      or the whole identifier when it has none. */
  function TableOf(id: Id): (t: string)
    ensures ':' !in t
    ensures ':' !in id ==> t == id
  {
    if |id| == 0 then ""
    else if id[0] == ':' then ""
    else [id[0]] + TableOf(id[1..])
  }

  /** With a `:` present, the table is exactly the text before the first. */
  lemma {:induction false} TableOfSplits(id: Id)
    requires ':' in id
    ensures |TableOf(id)| < |id| && id[..|TableOf(id)|] == TableOf(id) && id[|TableOf(id)|] == ':'
  {
    if id[0] != ':' {
      assert ':' in id[1..];
      TableOfSplits(id[1..]);
    }
  }

  /** The identifier a create assigns. */
  function MakeId(table: string, key: string): Id {
    table + ":" + key
  }

  /** The identifier a create assigns resolves back to the table it was
      created in. */
  lemma {:induction false} TableOfMakeId(table: string, key: string)
    requires ':' !in table
    ensures TableOf(MakeId(table, key)) == table
  {
    if |table| > 0 {
      TableOfMakeId(table[1..], key);
      assert MakeId(table, key)[1..] == MakeId(table[1..], key);
    }
  }

  // ---------------------------------------------------------------------
  // Gateway calls

  /** `SELECT * FROM <id>`: the row, if there is one. */
  function SelectRecord(s: Store, id: Id): (r: Result<Option<Row>>)
    ensures s.online <==> r.Ok?
    ensures r.Ok? ==> (r.value.Some? <==> id in s.rows)
    ensures r.Ok? && r.value.Some? ==> r.value.value == s.rows[id]
  {
    if !s.online then Err(StoreFailure)
    else if id in s.rows then Ok(Some(s.rows[id]))
    else Ok(None)
  }

  /** The identifiers of `order` that are stored in table `table`. */
  function TableIds(order: seq<Id>, rows: map<Id, Row>, table: string): (ids: seq<Id>)
    ensures forall id <- ids :: id in order && id in rows && TableOf(id) == table
    ensures forall id <- order :: id in rows && TableOf(id) == table ==> id in ids
    ensures |ids| <= |order|
    ensures IsSubsequence(ids, order)
  {
    if |order| == 0 then []
    else
      var rest := TableIds(order[1..], rows, table);
      if order[0] in rows && TableOf(order[0]) == table then
        assert ([order[0]] + rest)[1..] == rest;
        [order[0]] + rest
      else
        SubsequenceSkip(rest, order);
        rest
  }

  /** `CREATE <table> CONTENT <row>`: the store takes the next key of its
      oracle. With no key left it answers with nothing and stores nothing;
      creating an identifier that already exists is refused. */
  function CreateRecord(s: Store, table: string, row: Row): (r: Result<(Store, Option<Id>)>)
    ensures !s.online ==> r.Err?
    ensures r.Ok? && r.value.1.None? ==> r.value.0 == s
    ensures r.Ok? && r.value.1.Some? ==>
      var id := r.value.1.value;
      && id !in s.rows
      && |s.keys| > 0
      && id == MakeId(table, s.keys[0])
      && r.value.0 == s.(rows := s.rows[id := row], order := s.order + [id], keys := s.keys[1..])
  {
    if !s.online then Err(StoreFailure)
    else if |s.keys| == 0 then Ok((s, None))
    else
      var id := MakeId(table, s.keys[0]);
      if id in s.rows then Err(StoreFailure)
      else Ok((s.(rows := s.rows[id := row], order := s.order + [id], keys := s.keys[1..]), Some(id)))
  }

  /** `UPDATE <id> CONTENT <row>`: replaces an existing row, ignores an
      absent one. */
  function UpdateRecord(s: Store, id: Id, row: Row): (r: Result<Store>)
    ensures s.online <==> r.Ok?
    ensures r.Ok? && id in s.rows ==> r.value == s.(rows := s.rows[id := row])
    ensures r.Ok? && id !in s.rows ==> r.value == s
  {
    if !s.online then Err(StoreFailure)
    else if id in s.rows then Ok(s.(rows := s.rows[id := row]))
    else Ok(s)
  }

  /** `UPSERT <id> CONTENT <row>`: create or replace under a fixed id. */
  function UpsertRecord(s: Store, id: Id, row: Row): (r: Result<Store>)
    ensures s.online <==> r.Ok?
    ensures r.Ok? ==> r.value.rows == s.rows[id := row] && r.value.edges == s.edges
  {
    if !s.online then Err(StoreFailure)
    else if id in s.rows then Ok(s.(rows := s.rows[id := row]))
    else Ok(s.(rows := s.rows[id := row], order := s.order + [id]))
  }

  function Without(order: seq<Id>, id: Id): (r: seq<Id>)
    ensures forall x :: x in r <==> x in order && x != id
    ensures Distinct(order) ==> Distinct(r)
  {
    if |order| == 0 then []
    else if order[0] == id then Without(order[1..], id)
    else
      var rest := Without(order[1..], id);
      assert Distinct(order) ==> order[0] !in order[1..] && Distinct(order[1..]);
      [order[0]] + rest
  }

  /** `DELETE <id>`: removes the row; edges touching it stay. */
  function DeleteRecord(s: Store, id: Id): (r: Result<Store>)
    ensures s.online <==> r.Ok?
    ensures r.Ok? ==> r.value.rows == s.rows - {id} && r.value.edges == s.edges
  {
    if !s.online then Err(StoreFailure)
    else Ok(s.(rows := s.rows - {id}, order := Without(s.order, id)))
  }

  /** `RELATE <from>-><relation>-><to> CONTENT <data>`: appends one edge. */
  function RelateRecords(s: Store, from: Id, relation: string, to: Id, data: Metadata): (r: Result<Store>)
    ensures s.online <==> r.Ok?
    ensures r.Err? ==> r.error == StoreFailure
    ensures r.Ok? ==> r.value.edges == s.edges + [Edge(from, relation, to, data)]
    ensures r.Ok? ==> r.value.rows == s.rows
  {
    if !s.online then Err(StoreFailure)
    else Ok(s.(edges := s.edges + [Edge(from, relation, to, data)]))
  }

  predicate Joins(e: Edge, relation: string, from: Id, to: Id) {
    e.relation == relation && e.from == from && e.to == to
  }

  function DropEdges(edges: seq<Edge>, relation: string, from: Id, to: Id): (r: seq<Edge>)
    ensures forall e :: e in r <==> e in edges && !Joins(e, relation, from, to)
    ensures |r| <= |edges|
  {
    if |edges| == 0 then []
    else
      var rest := DropEdges(edges[1..], relation, from, to);
      if Joins(edges[0], relation, from, to) then rest else [edges[0]] + rest
  }

  /** `DELETE FROM <relation> WHERE in = <from> AND out = <to>`. */
  function DeleteEdges(s: Store, relation: string, from: Id, to: Id): (r: Result<Store>)
    ensures s.online <==> r.Ok?
    ensures r.Ok? ==> r.value.rows == s.rows
    ensures r.Ok? ==> forall e :: e in r.value.edges <==> e in s.edges && !Joins(e, relation, from, to)
  {
    if !s.online then Err(StoreFailure)
    else Ok(s.(edges := DropEdges(s.edges, relation, from, to)))
  }

  // ---------------------------------------------------------------------
  // Every write keeps the scan order in step with the stored rows

  lemma CreateKeepsValid(s: Store, table: string, row: Row)
    requires Valid(s)
    requires CreateRecord(s, table, row).Ok?
    ensures Valid(CreateRecord(s, table, row).value.0)
  {
  }

  lemma UpsertKeepsValid(s: Store, id: Id, row: Row)
    requires Valid(s) && s.online
    ensures Valid(UpsertRecord(s, id, row).value)
  {
  }

  lemma DeleteKeepsValid(s: Store, id: Id)
    requires Valid(s) && s.online
    ensures Valid(DeleteRecord(s, id).value)
  {
  }
}
