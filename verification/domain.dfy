/** The domain entities' own operations: notebook-source membership kept as
    `notebook_source` edges, note containment kept as foreign-key fields,
    the append-only chat log with its context notes, and the settings'
    API-key accessors. */
module Domain {
  import opened Errors
  import opened Schema
  import opened Gateway
  import opened Base
  import opened Text

  /** The edge table recording that a source belongs to a notebook. */
  const NotebookSourceEdge := "notebook_source"

  // ---------------------------------------------------------------------
  // Notebook-source membership

  /** Targets of the membership edges leaving `nb`, in edge order. */
  function SourceIdsOf(edges: seq<Edge>, nb: Option<Id>): (ids: seq<Id>)
    ensures |ids| <= |edges|
    ensures forall x :: x in ids <==>
      exists e <- edges :: e.relation == NotebookSourceEdge && Some(e.from) == nb && e.to == x
  {
    if |edges| == 0 then []
    else
      var e := edges[0];
      var rest := SourceIdsOf(edges[1..], nb);
      assert forall x :: x in rest <==>
        exists e' <- edges[1..] :: e'.relation == NotebookSourceEdge && Some(e'.from) == nb && e'.to == x;
      if e.relation == NotebookSourceEdge && Some(e.from) == nb then [e.to] + rest else rest
  }

  /** Origins of the membership edges arriving at `src`, in edge order. */
  function NotebookIdsOf(edges: seq<Edge>, src: Option<Id>): (ids: seq<Id>)
    ensures |ids| <= |edges|
    ensures forall x :: x in ids <==>
      exists e <- edges :: e.relation == NotebookSourceEdge && Some(e.to) == src && e.from == x
  {
    if |edges| == 0 then []
    else
      var e := edges[0];
      var rest := NotebookIdsOf(edges[1..], src);
      assert forall x :: x in rest <==>
        exists e' <- edges[1..] :: e'.relation == NotebookSourceEdge && Some(e'.to) == src && e'.from == x;
      if e.relation == NotebookSourceEdge && Some(e.to) == src then [e.from] + rest else rest
  }

  /** The two traversals read the same edges from opposite ends. */
  lemma MembershipIsSymmetric(edges: seq<Edge>, nb: Id, src: Id)
    ensures src in SourceIdsOf(edges, Some(nb)) <==> nb in NotebookIdsOf(edges, Some(src))
  {
    if src in SourceIdsOf(edges, Some(nb)) {
      var e :| e in edges && e.relation == NotebookSourceEdge && Some(e.from) == Some(nb) && e.to == src;
      assert Some(e.to) == Some(src) && e.from == nb;
    }
    if nb in NotebookIdsOf(edges, Some(src)) {
      var e :| e in edges && e.relation == NotebookSourceEdge && Some(e.to) == Some(src) && e.from == nb;
      assert Some(e.from) == Some(nb) && e.to == src;
    }
  }

  /** `[cls.get(id) for id in ids]`: the first failing `get` ends the list. */
  function GetEach(s: Store, cls: Class, ids: seq<Id>): (r: Result<seq<Object>>)
    ensures r.Ok? <==> forall id <- ids :: Get(s, cls, id).Ok?
    ensures r.Ok? ==> |r.value| == |ids| && forall i :: 0 <= i < |ids| ==> Ok(r.value[i]) == Get(s, cls, ids[i])
    ensures r.Err? ==> exists id <- ids :: Get(s, cls, id) == Err(r.error)
  {
    if |ids| == 0 then Ok([])
    else match Get(s, cls, ids[0])
      case Err(e) => Err(e)
      case Ok(o) =>
        match GetEach(s, cls, ids[1..])
        case Err(e) => Err(e)
        case Ok(os) => Ok([o] + os)
  }

  lemma GetEachSingle(s: Store, cls: Class, id: Id)
    requires Get(s, cls, id).Ok?
    ensures GetEach(s, cls, [id]) == Ok([Get(s, cls, id).value])
  {
    var ids := [id];
    assert forall x <- ids :: Get(s, cls, x).Ok?;
    var r := GetEach(s, cls, ids);
    assert |r.value| == 1 && Ok(r.value[0]) == Get(s, cls, id);
    assert r.value == [Get(s, cls, id).value];
  }

  /** Resolving a list through a class without subclasses yields objects of
      that type, one per identifier, in order. */
  lemma GetEachFromLeaf(s: Store, k: Kind, ids: seq<Id>)
    requires GetEach(s, ClassOf(k), ids).Ok?
    ensures var os := GetEach(s, ClassOf(k), ids).value;
      |os| == |ids| && forall i :: 0 <= i < |ids| ==> os[i].id == Some(ids[i]) && KindOf(os[i].body) == k
  {
    var os := GetEach(s, ClassOf(k), ids).value;
    forall i | 0 <= i < |ids| ensures os[i].id == Some(ids[i]) && KindOf(os[i].body) == k {
      GetFromLeaf(s, k, ids[i]);
    }
  }

  /** `Notebook.get_sources()`: every source joined to this notebook by a
      membership edge, resolved through `Source.get`; a failing lookup is
      wrapped once more. */
  function GetSources(s: Store, nb: Object): (r: Result<seq<Object>>)
    ensures !s.online ==> r == Err(DatabaseOperation(StoreFailure))
    ensures s.online ==> (r.Ok? <==> forall id <- SourceIdsOf(s.edges, nb.id) :: Get(s, SourceClass, id).Ok?)
    ensures r.Ok? ==> |r.value| == |SourceIdsOf(s.edges, nb.id)|
    ensures r.Ok? ==> forall i :: 0 <= i < |r.value| ==>
      && Ok(r.value[i]) == Get(s, SourceClass, SourceIdsOf(s.edges, nb.id)[i])
      && r.value[i].id == Some(SourceIdsOf(s.edges, nb.id)[i]) && r.value[i].body.SourceBody?
    ensures r.Err? && s.online ==> exists id <- SourceIdsOf(s.edges, nb.id) ::
      Get(s, SourceClass, id).Err? && r.error == DatabaseOperation(Get(s, SourceClass, id).error)
  {
    if !s.online then Err(DatabaseOperation(StoreFailure))
    else match GetEach(s, SourceClass, SourceIdsOf(s.edges, nb.id))
      case Err(e) => Err(DatabaseOperation(e))
      case Ok(xs) =>
        GetEachFromLeaf(s, SourceKind, SourceIdsOf(s.edges, nb.id));
        Ok(xs)
  }

  /** `Source.get_notebooks()`: the inverse traversal. */
  function GetNotebooks(s: Store, src: Object): (r: Result<seq<Object>>)
    ensures !s.online ==> r == Err(DatabaseOperation(StoreFailure))
    ensures s.online ==> (r.Ok? <==> forall id <- NotebookIdsOf(s.edges, src.id) :: Get(s, NotebookClass, id).Ok?)
    ensures r.Ok? ==> |r.value| == |NotebookIdsOf(s.edges, src.id)|
    ensures r.Ok? ==> forall i :: 0 <= i < |r.value| ==>
      && Ok(r.value[i]) == Get(s, NotebookClass, NotebookIdsOf(s.edges, src.id)[i])
      && r.value[i].id == Some(NotebookIdsOf(s.edges, src.id)[i]) && r.value[i].body.NotebookBody?
    ensures r.Err? && s.online ==> exists id <- NotebookIdsOf(s.edges, src.id) ::
      Get(s, NotebookClass, id).Err? && r.error == DatabaseOperation(Get(s, NotebookClass, id).error)
  {
    if !s.online then Err(DatabaseOperation(StoreFailure))
    else match GetEach(s, NotebookClass, NotebookIdsOf(s.edges, src.id))
      case Err(e) => Err(DatabaseOperation(e))
      case Ok(xs) =>
        GetEachFromLeaf(s, NotebookKind, NotebookIdsOf(s.edges, src.id));
        Ok(xs)
  }

  /** `Notebook.add_source(source)`: an unsaved source is saved first (and
      a failed save stops there); then one membership edge from the notebook
      to the source is related. */
  function AddSource(s: Store, nb: Object, src: Object, now: Time): (r: Saved)
    ensures Truthy(src.id) ==> r.obj == src
    ensures !Truthy(src.id) ==> r.obj == Save(s, src, now).obj
    ensures !Truthy(src.id) && Save(s, src, now).error.Some? ==> r == Save(s, src, now)
    ensures r.error.None? <==>
      && (Truthy(src.id) || Save(s, src, now).error.None?)
      && s.online && Truthy(nb.id) && Truthy(r.obj.id)
    ensures r.error.Some? && (Truthy(src.id) || Save(s, src, now).error.None?) ==>
      r.error == Some(if !Truthy(nb.id) || !Truthy(r.obj.id) then InvalidInput(MissingRelateArgument)
                      else DatabaseOperation(StoreFailure))
    ensures r.error.None? ==>
      && Truthy(nb.id) && Truthy(r.obj.id)
      && r.store.edges == s.edges + [Edge(nb.id.value, NotebookSourceEdge, r.obj.id.value, map[])]
    ensures r.error.None? && Truthy(src.id) ==> r.store == s.(edges := r.store.edges)
    ensures r.error.None? && !Truthy(src.id) ==> r.store.rows == Save(s, src, now).store.rows
  {
    var saved := if Truthy(src.id) then Saved(s, src, None) else Save(s, src, now);
    if saved.error.Some? then saved
    else
      var linked := Relate(saved.store, nb, NotebookSourceEdge, saved.obj.id, map[]);
      Saved(linked.store, saved.obj, if linked.result.Err? then Some(linked.result.error) else None)
  }

  /** After adding a source, the notebook lists it last, and the source
      lists the notebook last. */
  lemma AddSourceThenList(s: Store, nb: Object, src: Object, now: Time)
    requires AddSource(s, nb, src, now).error.None?
    ensures var r := AddSource(s, nb, src, now);
      && SourceIdsOf(r.store.edges, nb.id) == SourceIdsOf(s.edges, nb.id) + [r.obj.id.value]
      && NotebookIdsOf(r.store.edges, r.obj.id) == NotebookIdsOf(s.edges, r.obj.id) + [nb.id.value]
  {
    var r := AddSource(s, nb, src, now);
    var e := Edge(nb.id.value, NotebookSourceEdge, r.obj.id.value, map[]);
    SourceIdsAppend(s.edges, e, nb.id);
    NotebookIdsAppend(s.edges, e, r.obj.id);
  }

  lemma {:induction false} SourceIdsAppend(edges: seq<Edge>, e: Edge, nb: Option<Id>)
    ensures SourceIdsOf(edges + [e], nb)
      == SourceIdsOf(edges, nb) + (if e.relation == NotebookSourceEdge && Some(e.from) == nb then [e.to] else [])
  {
    if |edges| > 0 {
      SourceIdsAppend(edges[1..], e, nb);
      assert (edges + [e])[1..] == edges[1..] + [e];
    } else {
      assert SourceIdsOf([e], nb) == (if e.relation == NotebookSourceEdge && Some(e.from) == nb then [e.to] else []);
    }
  }

  lemma {:induction false} NotebookIdsAppend(edges: seq<Edge>, e: Edge, src: Option<Id>)
    ensures NotebookIdsOf(edges + [e], src)
      == NotebookIdsOf(edges, src) + (if e.relation == NotebookSourceEdge && Some(e.to) == src then [e.from] else [])
  {
    if |edges| > 0 {
      NotebookIdsAppend(edges[1..], e, src);
      assert (edges + [e])[1..] == edges[1..] + [e];
    } else {
      assert NotebookIdsOf([e], src) == (if e.relation == NotebookSourceEdge && Some(e.to) == src then [e.from] else []);
    }
  }

  /** The scenario of a fresh notebook and a fresh source: after linking,
      each lists exactly the other. */
  lemma LinkFreshPair(s: Store, nb: Object, src: Object, now: Time)
    requires s.edges == []
    requires AddSource(s, nb, src, now).error.None?
    requires var r := AddSource(s, nb, src, now);
      Get(r.store, SourceClass, r.obj.id.value).Ok? && Get(r.store, NotebookClass, nb.id.value).Ok?
    ensures var r := AddSource(s, nb, src, now);
      && GetSources(r.store, nb) == Ok([Get(r.store, SourceClass, r.obj.id.value).value])
      && GetNotebooks(r.store, r.obj) == Ok([Get(r.store, NotebookClass, nb.id.value).value])
  {
    var r := AddSource(s, nb, src, now);
    AddSourceThenList(s, nb, src, now);
    var sid, nid := r.obj.id.value, nb.id.value;
    assert SourceIdsOf(r.store.edges, nb.id) == [sid];
    assert NotebookIdsOf(r.store.edges, r.obj.id) == [nid];
    GetEachSingle(r.store, SourceClass, sid);
    GetEachSingle(r.store, NotebookClass, nid);
  }

  /** `Notebook.remove_source(source)`: deletes only the membership edges
      between the two; no record changes. */
  function RemoveSource(s: Store, nb: Object, src: Object): (r: Effect<()>)
    ensures r.result.Ok? <==> s.online
    ensures r.result.Err? ==> r.result.error == DatabaseOperation(StoreFailure) && r.store == s
    ensures r.store.rows == s.rows
    ensures r.result.Ok? && src.id.Some? ==> src.id.value !in SourceIdsOf(r.store.edges, nb.id)
    ensures forall e <- r.store.edges :: e in s.edges
    ensures forall e <- s.edges :: e !in r.store.edges ==>
      e.relation == NotebookSourceEdge && Some(e.from) == nb.id && Some(e.to) == src.id
  {
    if !s.online then Effect(s, Err(DatabaseOperation(StoreFailure)))
    else if nb.id.None? || src.id.None? then Effect(s, Ok(()))
    else match DeleteEdges(s, NotebookSourceEdge, nb.id.value, src.id.value)
      case Err(e) => Effect(s, Err(DatabaseOperation(e)))
      case Ok(s1) => Effect(s1, Ok(()))
  }

  // ---------------------------------------------------------------------
  // Note containment through foreign-key fields

  /** Which notes a query selects: by owning notebook or by referenced
      source. */
  datatype NoteLink = ByNotebook(notebook: Option<Id>) | BySource(source: Option<Id>)

  /** The foreign-key field a query compares, and the id it compares with. */
  function LinkField(link: NoteLink): string {
    match link
    case ByNotebook(_) => "notebook"
    case BySource(_) => "source"
  }

  function LinkTarget(link: NoteLink): Option<Id> {
    match link
    case ByNotebook(nb) => nb
    case BySource(src) => src
  }

  /** What a note object holds in the field the query compares. */
  predicate Matches(link: NoteLink, b: Body) {
    && b.NoteBody?
    && match link
       case ByNotebook(nb) => Some(b.noteData.notebook) == nb
       case BySource(src) => b.noteData.source == src && src.Some?
  }

  /** The raw value a stored row holds in a field, read without validating
      the row against any schema: what a `WHERE` clause compares. */
  function RawField(row: Row, field: string): Option<string> {
    match row
    case ObjectRow(_, _, NoteBody(n)) =>
      if field == "notebook" then Some(n.notebook) else if field == "source" then n.source else None
    case ObjectRow(_, _, ChatBody(c)) => if field == "notebook" then Some(c.notebook) else None
    case ObjectRow(_, _, _) => None
    case RecordRow(_) => None
    case Corrupt(fields) => if field in fields then Some(fields[field]) else None
  }

  /** The `WHERE <field> = <id>` clause, on the row as stored. */
  predicate Selects(link: NoteLink, row: Row) {
    LinkTarget(link).Some? && RawField(row, LinkField(link)) == LinkTarget(link)
  }

  /** On a row that validates as a note, selecting the row and matching the
      decoded note agree. */
  lemma SelectsDecoded(link: NoteLink, id: Id, row: Row)
    requires Decode(NoteKind, id, row).Some?
    ensures Selects(link, row) <==> Matches(link, Decode(NoteKind, id, row).value.body)
  {
  }

  /** `WHERE <field> = <id>` over the listed rows: the ids of the rows it
      selects, in the order listed. */
  function SelectedIds(rows: map<Id, Row>, ids: seq<Id>, link: NoteLink): (r: seq<Id>)
    requires forall id <- ids :: id in rows
    ensures forall id <- r :: id in ids && Selects(link, rows[id])
    ensures forall id <- ids :: Selects(link, rows[id]) ==> id in r
    ensures IsSubsequence(r, ids)
  {
    if |ids| == 0 then []
    else
      var rest := SelectedIds(rows, ids[1..], link);
      if Selects(link, rows[ids[0]]) then
        assert ([ids[0]] + rest)[1..] == rest;
        [ids[0]] + rest
      else
        SubsequenceSkip(rest, ids);
        rest
  }

  /** `[Note(**note) for note in result]` over the rows a query returned:
      their decodings, in order, or nothing when one of them does not
      validate. */
  function DecodeNotes(rows: map<Id, Row>, ids: seq<Id>): (r: Option<seq<Object>>)
    requires forall id <- ids :: id in rows
    ensures r.Some? <==> forall id <- ids :: Decode(NoteKind, id, rows[id]).Some?
    ensures r.Some? ==> |r.value| == |ids|
    ensures r.Some? ==> forall i :: 0 <= i < |ids| ==> r.value[i] == Decode(NoteKind, ids[i], rows[ids[i]]).value
  {
    if |ids| == 0 then Some([])
    else
      match Decode(NoteKind, ids[0], rows[ids[0]])
      case None => None
      case Some(o) =>
        match DecodeNotes(rows, ids[1..])
        case None => None
        case Some(os) => Some([o] + os)
  }

  /** Decoded notes carry the ids they were read under: each is the
      decoding of one listed id, and every listed id's decoding is among
      them. */
  lemma DecodedIds(rows: map<Id, Row>, ids: seq<Id>)
    requires forall id <- ids :: id in rows
    requires DecodeNotes(rows, ids).Some?
    ensures forall o <- DecodeNotes(rows, ids).value :: o.id.Some?
    ensures IdsOf(DecodeNotes(rows, ids).value) == ids
    ensures forall o <- DecodeNotes(rows, ids).value ::
      o.id.value in ids && Decode(NoteKind, o.id.value, rows[o.id.value]) == Some(o)
    ensures forall id <- ids :: Decode(NoteKind, id, rows[id]).value in DecodeNotes(rows, ids).value
  {
    var os := DecodeNotes(rows, ids).value;
    forall o <- os ensures o.id.Some? && o.id.value in ids && Decode(NoteKind, o.id.value, rows[o.id.value]) == Some(o) {
      var i :| 0 <= i < |os| && os[i] == o;
    }
    forall id <- ids ensures Decode(NoteKind, id, rows[id]).value in os {
      var i :| 0 <= i < |ids| && ids[i] == id;
      assert os[i] == Decode(NoteKind, id, rows[id]).value;
    }
  }

  /** Decoded rows that a link selects are notes matching it. */
  lemma DecodedMatch(rows: map<Id, Row>, ids: seq<Id>, link: NoteLink)
    requires forall id <- ids :: id in rows && Selects(link, rows[id])
    requires DecodeNotes(rows, ids).Some?
    ensures forall o <- DecodeNotes(rows, ids).value :: Matches(link, o.body)
  {
    var os := DecodeNotes(rows, ids).value;
    forall o <- os ensures Matches(link, o.body) {
      var i :| 0 <= i < |os| && os[i] == o;
      SelectsDecoded(link, ids[i], rows[ids[i]]);
    }
  }

  /** A `get_notes` query over the listed rows: one selected row that does
      not validate aborts the whole list. */
  function CollectNotes(rows: map<Id, Row>, ids: seq<Id>, link: NoteLink): (r: Result<seq<Object>>)
    requires forall id <- ids :: id in rows
    ensures r.Ok? <==> forall id <- ids :: Selects(link, rows[id]) ==> Decode(NoteKind, id, rows[id]).Some?
    ensures r.Err? ==> r.error == DecodeFailure
    ensures r.Ok? ==> forall o <- r.value ::
      o.id.Some? && o.id.value in ids && Selects(link, rows[o.id.value]) && Matches(link, o.body)
      && Decode(NoteKind, o.id.value, rows[o.id.value]) == Some(o)
    ensures r.Ok? ==> forall id <- ids :: Selects(link, rows[id]) ==> Decode(NoteKind, id, rows[id]).value in r.value
    ensures r.Ok? ==> IsSubsequence(IdsOf(r.value), ids)
  {
    var sel := SelectedIds(rows, ids, link);
    match DecodeNotes(rows, sel)
    case None => Err(DecodeFailure)
    case Some(os) =>
      DecodedIds(rows, sel);
      DecodedMatch(rows, sel, link);
      Ok(os)
  }

  /** The ids of the note-table rows `link` selects, in scan order. */
  function NoteQuery(s: Store, link: NoteLink): (r: seq<Id>)
    ensures forall id <- r :: id in s.rows && TableOf(id) == TableName(NoteKind) && Selects(link, s.rows[id])
    ensures forall id <- s.order ::
      id in s.rows && TableOf(id) == TableName(NoteKind) && Selects(link, s.rows[id]) ==> id in r
    ensures IsSubsequence(r, s.order)
  {
    var ids := TableIds(s.order, s.rows, TableName(NoteKind));
    var r := SelectedIds(s.rows, ids, link);
    SubsequenceTrans(r, ids, s.order);
    r
  }

  /** Every note row the scan reaches that `link` selects validates. */
  predicate SelectedRowsValidate(s: Store, link: NoteLink) {
    forall id <- s.order ::
      id in s.rows && TableOf(id) == TableName(NoteKind) && Selects(link, s.rows[id])
      ==> Decode(NoteKind, id, s.rows[id]).Some?
  }

  /** Every note the scan order reaches in the note table that `link`
      selects is among `notes`, as it decodes. */
  predicate ListsEvery(s: Store, link: NoteLink, notes: seq<Object>) {
    forall id <- s.order ::
      id in s.rows && TableOf(id) == TableName(NoteKind) && Selects(link, s.rows[id])
      ==> Decode(NoteKind, id, s.rows[id]).Some? && Decode(NoteKind, id, s.rows[id]).value in notes
  }

  /** `SELECT * FROM note WHERE <field> = <id>`, decoded in scan order; the
      query, or a selected row that does not validate, raises inside the
      `try` and is wrapped. */
  function LinkedNotes(s: Store, link: NoteLink): (r: Result<seq<Object>>)
    ensures !s.online ==> r == Err(DatabaseOperation(StoreFailure))
    ensures s.online ==> (r.Ok? <==> SelectedRowsValidate(s, link))
    ensures s.online && r.Err? ==> r.error == DatabaseOperation(DecodeFailure)
    ensures r.Ok? ==> forall o <- r.value ::
      && o.id.Some? && o.id.value in s.rows && TableOf(o.id.value) == TableName(NoteKind)
      && Selects(link, s.rows[o.id.value]) && Matches(link, o.body)
      && Decode(NoteKind, o.id.value, s.rows[o.id.value]) == Some(o)
    ensures r.Ok? ==> ListsEvery(s, link, r.value)
    ensures r.Ok? ==> IsSubsequence(IdsOf(r.value), s.order)
  {
    if !s.online then Err(DatabaseOperation(StoreFailure))
    else
      var ids := TableIds(s.order, s.rows, TableName(NoteKind));
      match CollectNotes(s.rows, ids, link)
      case Err(e) => Err(DatabaseOperation(e))
      case Ok(notes) =>
        SubsequenceTrans(IdsOf(notes), ids, s.order);
        Ok(notes)
  }

  /** A successful query returns the decodings of exactly the ids it
      selects, in order. */
  lemma LinkedNotesDecodeQuery(s: Store, link: NoteLink)
    requires LinkedNotes(s, link).Ok?
    ensures DecodeNotes(s.rows, NoteQuery(s, link)) == Some(LinkedNotes(s, link).value)
  {
  }

  /** Every note a query returns is what `Note.get` reads for its id. */
  lemma LinkedNotesAgreeWithGet(s: Store, link: NoteLink)
    requires LinkedNotes(s, link).Ok?
    ensures forall o <- LinkedNotes(s, link).value :: Get(s, NoteClass, o.id.value) == Ok(o)
  {
  }

  /** `Notebook.get_notes()`: exactly the notes whose `notebook` is this
      id; a store failure, or one such row that does not validate, fails
      the whole call. */
  function NotebookNotes(s: Store, nb: Object): (r: Result<seq<Object>>)
    ensures r.Ok? <==> s.online && SelectedRowsValidate(s, ByNotebook(nb.id))
    ensures r.Err? ==> r.error.DatabaseOperation?
    ensures r.Ok? ==> forall o <- r.value :: o.body.NoteBody? && Some(o.body.noteData.notebook) == nb.id
    ensures r.Ok? ==> ListsEvery(s, ByNotebook(nb.id), r.value)
  {
    LinkedNotes(s, ByNotebook(nb.id))
  }

  /** `Source.get_notes()`: exactly the notes whose `source` is this id,
      failing as `get_notes` of a notebook does. */
  function SourceNotes(s: Store, src: Object): (r: Result<seq<Object>>)
    ensures r.Ok? <==> s.online && SelectedRowsValidate(s, BySource(src.id))
    ensures r.Err? ==> r.error.DatabaseOperation?
    ensures r.Ok? ==> forall o <- r.value :: o.body.NoteBody? && o.body.noteData.source == src.id && src.id.Some?
    ensures r.Ok? ==> ListsEvery(s, BySource(src.id), r.value)
  {
    LinkedNotes(s, BySource(src.id))
  }

  /** `Note.get_notebook()` and `ChatSession.get_notebook()`: the owning
      notebook, resolved through `Notebook.get`. */
  function OwningNotebook(s: Store, notebook: Id): (r: Result<Object>)
    ensures r == Get(s, NotebookClass, notebook)
    ensures r.Ok? ==> r.value.body.NotebookBody? && r.value.id == Some(notebook)
    ensures notebook == "" ==> r == Err(InvalidInput(EmptyId))
    ensures r.Err? && notebook != "" ==> r.error.DatabaseOperation?
  {
    var r := Get(s, NotebookClass, notebook);
    if r.Ok? then GetFromLeaf(s, NotebookKind, notebook); r else r
  }

  /** A note naming a freshly saved notebook finds it as saved. */
  lemma OwningNotebookAfterSave(s: Store, nb: Object, now: Time)
    requires nb.body.NotebookBody? && !Truthy(nb.id) && s.online && |s.keys| > 0
    requires MakeId(TableName(NotebookKind), s.keys[0]) !in s.rows
    ensures var r := Save(s, nb, now);
      r.obj.id.Some? && OwningNotebook(r.store, r.obj.id.value) == Ok(r.obj)
  {
    SaveThenGet(s, nb, now);
  }

  /** Deleting a notebook does not cascade: its notes still name it, and
      looking it up from them fails with a wrapped `NotFound`. */
  lemma OrphanedNote(s: Store, nb: Object, note: NoteData)
    requires Delete(s, nb).result.Ok?
    requires note.notebook == nb.id.value
    requires TableOf(note.notebook) == TableName(NotebookKind)
    ensures OwningNotebook(Delete(s, nb).store, note.notebook) == Err(DatabaseOperation(NotFound(note.notebook)))
  {
  }

  /** `Note.get_source()`: nothing when the note references no source,
      otherwise the source resolved through `Source.get`. */
  function NoteSource(s: Store, note: NoteData): (r: Result<Option<Object>>)
    ensures r == Ok(None) <==> !Truthy(note.source)
    ensures Truthy(note.source) ==> (r.Ok? <==> Get(s, SourceClass, note.source.value).Ok?)
    ensures Truthy(note.source) && r.Ok? ==> r.value == Some(Get(s, SourceClass, note.source.value).value)
    ensures Truthy(note.source) && r.Err? ==> r.error == Get(s, SourceClass, note.source.value).error
    ensures r.Ok? && r.value.Some? ==> r.value.value.body.SourceBody? && r.value.value.id == note.source
  {
    if !Truthy(note.source) then Ok(None)
    else
      var got := Get(s, SourceClass, note.source.value);
      if got.Err? then Err(got.error)
      else
        GetFromLeaf(s, SourceKind, note.source.value);
        Ok(Some(got.value))
  }

  // ---------------------------------------------------------------------
  // Chat sessions

  /** `add_message(role, content)`: appends one entry stamped with the
      current time; the earlier log and every other field are unchanged. */
  function AddMessage(c: ChatData, role: string, content: string, stamp: string): (r: ChatData)
    ensures |r.messages| == |c.messages| + 1
    ensures r.messages[..|c.messages|] == c.messages
    ensures var m := r.messages[|c.messages|];
      && m.Keys == {"role", "content", "timestamp"}
      && m["role"] == role && m["content"] == content && m["timestamp"] == stamp
    ensures r.(messages := c.messages) == c
  {
    c.(messages := c.messages + [map["role" := role, "content" := content, "timestamp" := stamp]])
  }

  /** The entries a chat log gains, in order. */
  datatype Entry = Entry(role: string, content: string, stamp: string)

  function AddMessages(c: ChatData, es: seq<Entry>): ChatData
    decreases |es|
  {
    if |es| == 0 then c
    else AddMessages(AddMessage(c, es[0].role, es[0].content, es[0].stamp), es[1..])
  }

  /** The log is append-only: any run of additions keeps the earlier log as
      a prefix and grows it by exactly the number of additions. */
  lemma {:induction false} LogIsAppendOnly(c: ChatData, es: seq<Entry>)
    ensures |AddMessages(c, es).messages| == |c.messages| + |es|
    ensures c.messages <= AddMessages(c, es).messages
    decreases |es|
  {
    if |es| > 0 {
      var c1 := AddMessage(c, es[0].role, es[0].content, es[0].stamp);
      LogIsAppendOnly(c1, es[1..]);
      assert c.messages <= c1.messages;
    }
  }

  /** `ORDER BY created DESC` compares timestamps: a value is not older
      than another when that one is missing or no later; a row without a
      timestamp sorts as the oldest. */
  predicate NotOlderStamp(a: Option<Time>, b: Option<Time>) {
    b.None? || (a.Some? && a.value >= b.value)
  }

  /** The `created` value a stored row holds, read as the store sorts it,
      without validating the row. */
  function Stamp(rows: map<Id, Row>, id: Id): (r: Option<Time>)
    ensures id in rows && Decode(NoteKind, id, rows[id]).Some? ==> r == Decode(NoteKind, id, rows[id]).value.created
  {
    if id in rows && rows[id].ObjectRow? then rows[id].created else None
  }

  predicate NotOlder(rows: map<Id, Row>, a: Id, b: Id) {
    NotOlderStamp(Stamp(rows, a), Stamp(rows, b))
  }

  predicate NewestFirst(rows: map<Id, Row>, xs: seq<Id>) {
    forall i, j :: 0 <= i < j < |xs| ==> NotOlder(rows, xs[i], xs[j])
  }

  /** An id whose row is not older than `x`'s nor than any of `xs`'s is
      not older than any rearrangement of them. */
  lemma StillNotOlder(rows: map<Id, Row>, h: Id, x: Id, xs: seq<Id>, ys: seq<Id>)
    requires NotOlder(rows, h, x) && forall y <- xs :: NotOlder(rows, h, y)
    requires multiset(ys) == multiset(xs) + multiset{x}
    ensures forall y <- ys :: NotOlder(rows, h, y)
  {
    forall y <- ys ensures NotOlder(rows, h, y) {
      assert y in multiset(ys);
      if y != x {
        assert y in multiset(xs);
      }
    }
  }

  function InsertByCreated(rows: map<Id, Row>, x: Id, xs: seq<Id>): (r: seq<Id>)
    requires NewestFirst(rows, xs)
    ensures NewestFirst(rows, r)
    ensures multiset(r) == multiset(xs) + multiset{x}
    ensures |r| == |xs| + 1
  {
    if |xs| == 0 then [x]
    else if NotOlder(rows, x, xs[0]) then [x] + xs
    else
      var rest := InsertByCreated(rows, x, xs[1..]);
      assert xs == [xs[0]] + xs[1..];
      assert forall y <- xs[1..] :: NotOlder(rows, xs[0], y) by {
        forall k | 1 <= k < |xs| ensures NotOlder(rows, xs[0], xs[k]) { }
      }
      StillNotOlder(rows, xs[0], x, xs[1..], rest);
      NewestOnTop(rows, xs[0], rest);
      [xs[0]] + rest
  }

  /** An id not older than any of a newest-first list can go in front. */
  lemma NewestOnTop(rows: map<Id, Row>, h: Id, xs: seq<Id>)
    requires NewestFirst(rows, xs) && forall y <- xs :: NotOlder(rows, h, y)
    ensures NewestFirst(rows, [h] + xs)
  {
    forall i, j | 0 <= i < j < |xs| + 1 ensures NotOlder(rows, ([h] + xs)[i], ([h] + xs)[j]) {
      if i == 0 {
        assert xs[j - 1] in xs;
      }
    }
  }

  function SortByCreated(rows: map<Id, Row>, xs: seq<Id>): (r: seq<Id>)
    ensures NewestFirst(rows, r)
    ensures multiset(r) == multiset(xs)
  {
    if |xs| == 0 then []
    else
      assert xs == [xs[0]] + xs[1..];
      InsertByCreated(rows, xs[0], SortByCreated(rows, xs[1..]))
  }

  /** `r` and `rest` split `xs` between them, and nothing in `rest` is
      newer than anything in `r`. */
  predicate SplitsNewest(rows: map<Id, Row>, r: seq<Id>, rest: seq<Id>, xs: seq<Id>) {
    && multiset(r) + multiset(rest) == multiset(xs)
    && forall p <- r, o <- rest :: NotOlder(rows, p, o)
  }

  lemma NewestFirstSplit(rows: map<Id, Row>, sorted: seq<Id>, k: nat)
    requires NewestFirst(rows, sorted) && k <= |sorted|
    ensures forall p <- sorted[..k], o <- sorted[k..] :: NotOlder(rows, p, o)
  {
    forall p <- sorted[..k], o <- sorted[k..] ensures NotOlder(rows, p, o) {
      var i :| 0 <= i < k && sorted[..k][i] == p;
      var j :| 0 <= j < |sorted| - k && sorted[k..][j] == o;
      assert sorted[i] == p && sorted[k + j] == o;
    }
  }

  /** The first `k` of the sorted ids: newest first, drawn from `xs`, and
      not older than the `|xs| - k` left behind. */
  lemma SortedPrefix(rows: map<Id, Row>, xs: seq<Id>, k: nat)
    requires k <= |xs|
    ensures var sorted := SortByCreated(rows, xs);
      && |sorted| == |xs|
      && NewestFirst(rows, sorted[..k])
      && (forall o <- sorted[..k] :: o in xs)
      && SplitsNewest(rows, sorted[..k], sorted[k..], xs)
  {
    var sorted := SortByCreated(rows, xs);
    assert |sorted| == |multiset(sorted)| == |multiset(xs)| == |xs|;
    var r, rest := sorted[..k], sorted[k..];
    assert sorted == r + rest;
    assert forall o <- r :: o in xs by {
      forall o <- r ensures o in xs {
        assert o in multiset(sorted);
      }
    }
    NewestFirstSplit(rows, sorted, k);
  }

  /** `ORDER BY created DESC LIMIT n`: the `n` newest of `xs`, newest
      first; nothing left out is newer than anything kept. */
  function Newest(rows: map<Id, Row>, xs: seq<Id>, n: nat): (r: seq<Id>)
    ensures NewestFirst(rows, r)
    ensures |r| == Min(n, |xs|)
    ensures forall o <- r :: o in xs
    ensures exists rest :: SplitsNewest(rows, r, rest, xs)
  {
    var k := Min(n, |xs|);
    SortedPrefix(rows, xs, k);
    SortByCreated(rows, xs)[..k]
  }

  /** The rows `SELECT * FROM note WHERE notebook = <id> ORDER BY created
      DESC LIMIT <limit>` returns, by id; a limit below one returns none. */
  function ContextIds(s: Store, c: ChatData, limit: int): (r: seq<Id>)
    ensures forall id <- r :: id in NoteQuery(s, ByNotebook(Some(c.notebook)))
    ensures forall id <- r :: id in s.rows && Selects(ByNotebook(Some(c.notebook)), s.rows[id])
    ensures |r| == if limit <= 0 then 0 else Min(limit, |NoteQuery(s, ByNotebook(Some(c.notebook)))|)
    ensures NewestFirst(s.rows, r)
    ensures exists rest :: SplitsNewest(s.rows, r, rest, NoteQuery(s, ByNotebook(Some(c.notebook))))
  {
    var q := NoteQuery(s, ByNotebook(Some(c.notebook)));
    if limit <= 0 then
      assert SplitsNewest(s.rows, [], q, q);
      []
    else Newest(s.rows, q, limit)
  }

  /** `get_context_notes(query, limit)`: the rows of the ordered, limited
      query, validated as notes; any failure, including one returned row
      that does not validate, yields the empty list rather than an error.
      Rows the limit leaves out are never validated. The query text is not
      used. */
  function ContextNotes(s: Store, c: ChatData, limit: int): (r: seq<Object>)
    ensures |r| <= if limit < 0 then 0 else limit
    ensures !s.online ==> r == []
    ensures forall o <- r :: o.body.NoteBody? && o.body.noteData.notebook == c.notebook
    ensures forall i, j :: 0 <= i < j < |r| ==> NotOlderStamp(r[i].created, r[j].created)
    ensures (exists id <- ContextIds(s, c, limit) :: Decode(NoteKind, id, s.rows[id]).None?) ==> r == []
    ensures s.online && (forall id <- ContextIds(s, c, limit) :: Decode(NoteKind, id, s.rows[id]).Some?) ==>
      Some(r) == DecodeNotes(s.rows, ContextIds(s, c, limit))
  {
    var top := ContextIds(s, c, limit);
    if !s.online then []
    else match DecodeNotes(s.rows, top)
      case None => []
      case Some(notes) =>
        DecodedInOrder(s.rows, top);
        DecodedMatch(s.rows, top, ByNotebook(Some(c.notebook)));
        notes
  }

  /** Decoding keeps a newest-first order of ids newest first. */
  lemma DecodedInOrder(rows: map<Id, Row>, ids: seq<Id>)
    requires forall id <- ids :: id in rows
    requires DecodeNotes(rows, ids).Some? && NewestFirst(rows, ids)
    ensures var os := DecodeNotes(rows, ids).value;
      forall i, j :: 0 <= i < j < |os| ==> NotOlderStamp(os[i].created, os[j].created)
  {
    var os := DecodeNotes(rows, ids).value;
    forall i, j | 0 <= i < j < |os| ensures NotOlderStamp(os[i].created, os[j].created) {
      assert NotOlder(rows, ids[i], ids[j]);
    }
  }

  /** When every selected row validates, the context notes are a newest
      `limit` of the notebook's notes: drawn from them, as many as the
      limit allows, and no note left out is newer than one kept. */
  lemma ContextNotesAreNewestLinked(s: Store, c: ChatData, limit: int)
    requires LinkedNotes(s, ByNotebook(Some(c.notebook))).Ok? && limit > 0
    ensures var r, all := ContextNotes(s, c, limit), LinkedNotes(s, ByNotebook(Some(c.notebook))).value;
      && |r| == Min(limit, |all|)
      && (forall o <- r :: o in all)
      && (forall n <- all :: n in r || forall p <- r :: NotOlderStamp(p.created, n.created))
  {
    var q := NoteQuery(s, ByNotebook(Some(c.notebook)));
    LinkedNotesDecodeQuery(s, ByNotebook(Some(c.notebook)));
    var top := ContextIds(s, c, limit);
    var rest :| SplitsNewest(s.rows, top, rest, q);
    DecodeNewestDrawn(s.rows, q, top);
    assert ContextNotes(s, c, limit) == DecodeNotes(s.rows, top).value;
    DecodeNewestKept(s.rows, q, top, rest);
  }

  /** Ids drawn from a list that decodes decode to notes of that list. */
  lemma DecodeNewestDrawn(rows: map<Id, Row>, q: seq<Id>, top: seq<Id>)
    requires forall id <- q :: id in rows
    requires forall id <- top :: id in q
    requires DecodeNotes(rows, q).Some?
    ensures DecodeNotes(rows, top).Some?
    ensures forall o <- DecodeNotes(rows, top).value :: o in DecodeNotes(rows, q).value
  {
    var all := DecodeNotes(rows, q).value;
    forall id <- top ensures Decode(NoteKind, id, rows[id]).Some? {
      var j :| 0 <= j < |q| && q[j] == id;
    }
    var r := DecodeNotes(rows, top).value;
    forall o <- r ensures o in all {
      var i :| 0 <= i < |r| && r[i] == o;
      assert top[i] in top;
      var j :| 0 <= j < |q| && q[j] == top[i];
      assert all[j] == o;
    }
  }

  /** Every decoding of a list is kept in the decodings of its newest part
      or is no newer than any of them. */
  lemma DecodeNewestKept(rows: map<Id, Row>, q: seq<Id>, top: seq<Id>, rest: seq<Id>)
    requires forall id <- q :: id in rows
    requires forall id <- top :: id in q
    requires SplitsNewest(rows, top, rest, q)
    requires DecodeNotes(rows, q).Some? && DecodeNotes(rows, top).Some?
    ensures var r, all := DecodeNotes(rows, top).value, DecodeNotes(rows, q).value;
      forall n <- all :: n in r || forall p <- r :: NotOlderStamp(p.created, n.created)
  {
    var all := DecodeNotes(rows, q).value;
    var r := DecodeNotes(rows, top).value;
    forall n <- all ensures n in r || forall p <- r :: NotOlderStamp(p.created, n.created) {
      var j :| 0 <= j < |all| && all[j] == n;
      assert q[j] in multiset(q);
      if q[j] in top {
        var i :| 0 <= i < |top| && top[i] == q[j];
        assert r[i] == n;
      } else {
        assert q[j] in multiset(rest);
        forall p <- r ensures NotOlderStamp(p.created, n.created) {
          var i :| 0 <= i < |r| && r[i] == p;
          assert NotOlder(rows, top[i], q[j]);
        }
      }
    }
  }

  /** Only the rows the limit keeps are validated: a newer valid note is
      returned even though an older row of the same notebook is not a
      note. */
  lemma InvalidRowBeyondLimit(kb: string, kg: string, c: ChatData)
    requires kb != kg
    ensures var good := ObjectRow(Some(5), None, NoteBody(NoteData("c", c.notebook, None, map[], None)));
      var bad := ObjectRow(Some(1), None, ChatBody(ChatData("n", c.notebook, "m", [], map[])));
      var b, g := MakeId("note", kb), MakeId("note", kg);
      var s := Store(map[g := good, b := bad], [b, g], [], [], true);
      && LinkedNotes(s, ByNotebook(Some(c.notebook))).Err?
      && ContextNotes(s, c, 1) == [Object(Some(g), Some(5), None, good.body)]
  {
    var good := ObjectRow(Some(5), None, NoteBody(NoteData("c", c.notebook, None, map[], None)));
    var bad := ObjectRow(Some(1), None, ChatBody(ChatData("n", c.notebook, "m", [], map[])));
    var b, g := MakeId("note", kb), MakeId("note", kg);
    assert b != g by {
      assert b[5..] == kb && g[5..] == kg;
    }
    TableOfMakeId("note", kb);
    TableOfMakeId("note", kg);
    var s := Store(map[g := good, b := bad], [b, g], [], [], true);
    assert s.rows[b] == bad && s.rows[g] == good;
    ContextLimitOne(s, c, b, g);
  }

  /** With one valid note newer than an invalid row of the same notebook, a
      limit of one returns that note while `get_notes` fails. */
  lemma ContextLimitOne(s: Store, c: ChatData, b: Id, g: Id)
    requires s.online && s.order == [b, g] && b in s.rows && g in s.rows
    requires TableOf(b) == TableName(NoteKind) && TableOf(g) == TableName(NoteKind)
    requires Selects(ByNotebook(Some(c.notebook)), s.rows[b]) && Selects(ByNotebook(Some(c.notebook)), s.rows[g])
    requires Decode(NoteKind, b, s.rows[b]).None? && Decode(NoteKind, g, s.rows[g]).Some?
    requires !NotOlder(s.rows, b, g)
    ensures LinkedNotes(s, ByNotebook(Some(c.notebook))).Err?
    ensures ContextNotes(s, c, 1) == [Decode(NoteKind, g, s.rows[g]).value]
  {
    QueryOfTwo(s, ByNotebook(Some(c.notebook)), b, g);
    SortTwo(s.rows, b, g);
    DecodeOne(s.rows, g);
    assert ContextIds(s, c, 1) == [g];
  }

  lemma QueryOfTwo(s: Store, link: NoteLink, b: Id, g: Id)
    requires s.order == [b, g] && b in s.rows && g in s.rows
    requires TableOf(b) == TableName(NoteKind) && TableOf(g) == TableName(NoteKind)
    requires Selects(link, s.rows[b]) && Selects(link, s.rows[g])
    ensures NoteQuery(s, link) == [b, g]
  {
    assert [b, g][1..] == [g];
    assert TableIds([g], s.rows, TableName(NoteKind)) == [g];
    assert SelectedIds(s.rows, [g], link) == [g];
  }

  lemma SortTwo(rows: map<Id, Row>, b: Id, g: Id)
    requires !NotOlder(rows, b, g)
    ensures SortByCreated(rows, [b, g]) == [g, b]
  {
    assert [b, g][1..] == [g];
    assert SortByCreated(rows, [g]) == [g];
    assert InsertByCreated(rows, b, [g]) == [g] + InsertByCreated(rows, b, []);
  }

  lemma DecodeOne(rows: map<Id, Row>, g: Id)
    requires g in rows && Decode(NoteKind, g, rows[g]).Some?
    ensures DecodeNotes(rows, [g]) == Some([Decode(NoteKind, g, rows[g]).value])
  {
    assert [g][1..] == [];
    assert DecodeNotes(rows, []) == Some([]);
    assert [Decode(NoteKind, g, rows[g]).value] + [] == [Decode(NoteKind, g, rows[g]).value];
  }

  // ---------------------------------------------------------------------
  // Settings accessors

  /** `get_api_key(provider)`: the Gemini key for any capitalisation of
      "gemini", nothing for every other provider. */
  function GetApiKey(st: Settings, provider: string): (r: Option<string>)
    ensures Lower(provider) == "gemini" ==> r == KeyOf(st, Gemini)
    ensures Lower(provider) != "gemini" ==> r == None
  {
    if Lower(provider) == "gemini" then KeyOf(st, Gemini) else None
  }

  /** `has_api_key(provider)`: the truthiness of `get_api_key`. */
  function HasApiKey(st: Settings, provider: string): (r: bool)
    ensures r <==> Lower(provider) == "gemini" && Gemini in st.apiKeys && st.apiKeys[Gemini] != ""
  {
    Truthy(GetApiKey(st, provider))
  }

  /** The provider name is compared case-insensitively: asking under any
      capitalisation gives what asking in lower case gives. */
  lemma ApiKeyIgnoresCase(st: Settings, provider: string)
    ensures GetApiKey(st, provider) == GetApiKey(st, Lower(provider))
    ensures HasApiKey(st, provider) == HasApiKey(st, Lower(provider))
  {
    LowerIdempotent(provider);
  }

  /** The defaults carry a Gemini key, whatever the capitalisation asked. */
  lemma DefaultsHaveGeminiKey()
    ensures HasApiKey(DefaultSettings, "gemini") && HasApiKey(DefaultSettings, "GEMINI")
    ensures !HasApiKey(DefaultSettings, "openai")
  {
    assert Lower("GEMINI") == "gemini";
    assert Lower("openai") == "openai";
  }
}
