/** The generic persistent-object layer: polymorphic lookup by table name,
    typed reads, the save lifecycle with its timestamps, delete, relate, the
    embedding probe, and the singleton settings record. Every operation
    threads the store through and reports a raised exception as `Err`. */
module Base {
  import opened Errors
  import opened Schema
  import opened Gateway
  import opened Text

  /** The store after an operation, and what the operation returned. */
  datatype Effect<+T> = Effect(store: Store, result: Result<T>)

  /** The store after a save, the object as the caller holds it afterwards
      (its timestamps are set even when the store call then fails), and the
      error raised, if any. */
  datatype Saved = Saved(store: Store, obj: Object, error: Option<Error>)

  // ---------------------------------------------------------------------
  // Type resolution

  /** `_get_class_by_table_name`: depth-first over the subclasses of `c`, each
      subclass tested before its own subclasses, siblings in declaration
      order; `c` itself is never a candidate. */
  function FindSubclass(c: Class, table: string): Option<Class>
    decreases c
  {
    FindAmong(c.subclasses, table)
  }

  function FindAmong(cs: seq<Class>, table: string): Option<Class>
    decreases cs
  {
    if |cs| == 0 then None
    else if cs[0].table == table then Some(cs[0])
    else match FindSubclass(cs[0], table)
      case Some(d) => Some(d)
      case None => FindAmong(cs[1..], table)
  }

  /** The proper descendants of `c` in pre-order. */
  function Descendants(c: Class): seq<Class>
    decreases c
  {
    DescendantsOf(c.subclasses)
  }

  function DescendantsOf(cs: seq<Class>): seq<Class>
    decreases cs
  {
    if |cs| == 0 then [] else [cs[0]] + Descendants(cs[0]) + DescendantsOf(cs[1..])
  }

  /** Position of the first class of a list whose table is `table`, or
      the list's length when there is none. */
  function FirstIndex(cs: seq<Class>, table: string): (i: nat)
    ensures i <= |cs|
    ensures forall j :: 0 <= j < i ==> cs[j].table != table
    ensures i < |cs| ==> cs[i].table == table
  {
    if |cs| == 0 || cs[0].table == table then 0 else 1 + FirstIndex(cs[1..], table)
  }

  function FirstWithTable(cs: seq<Class>, table: string): Option<Class> {
    var i := FirstIndex(cs, table);
    if i < |cs| then Some(cs[i]) else None
  }

  lemma {:induction false} FirstWithTableAppend(a: seq<Class>, b: seq<Class>, table: string)
    ensures FirstWithTable(a + b, table)
      == if FirstWithTable(a, table).Some? then FirstWithTable(a, table) else FirstWithTable(b, table)
  {
    if |a| > 0 {
      FirstWithTableAppend(a[1..], b, table);
      assert (a + b)[1..] == a[1..] + b;
    } else {
      assert a + b == b;
    }
  }

  /** The subclass search is the first match of a pre-order walk of the
      calling class's descendants. */
  lemma {:induction false} FindIsPreOrderFirstMatch(c: Class, table: string)
    ensures FindSubclass(c, table) == FirstWithTable(Descendants(c), table)
    decreases c, 1
  {
    FindAmongIsPreOrderFirstMatch(c.subclasses, table);
  }

  lemma {:induction false} FindAmongIsPreOrderFirstMatch(cs: seq<Class>, table: string)
    ensures FindAmong(cs, table) == FirstWithTable(DescendantsOf(cs), table)
    decreases cs, 0
  {
    if |cs| > 0 {
      FindIsPreOrderFirstMatch(cs[0], table);
      FindAmongIsPreOrderFirstMatch(cs[1..], table);
      FirstWithTableAppend([cs[0]] + Descendants(cs[0]), DescendantsOf(cs[1..]), table);
      FirstWithTableAppend([cs[0]], Descendants(cs[0]), table);
    }
  }

  /** What the search promises: a found class is a descendant declaring the
      table; no result means no descendant declares it. */
  lemma FindSubclassSound(c: Class, table: string)
    ensures FindSubclass(c, table).Some? ==>
      FindSubclass(c, table).value in Descendants(c) && FindSubclass(c, table).value.table == table
    ensures FindSubclass(c, table).None? <==> forall d <- Descendants(c) :: d.table != table
  {
    FindIsPreOrderFirstMatch(c, table);
    var ds := Descendants(c);
    var i := FirstIndex(ds, table);
    if i == |ds| {
      assert forall d <- ds :: d.table != table by {
        forall d <- ds ensures d.table != table {
          var j :| 0 <= j < |ds| && ds[j] == d;
        }
      }
    }
  }

  /** From the untyped base, every concrete type's table resolves to that
      type's class. */
  lemma BaseResolvesEveryType(k: Kind)
    requires k != BaseKind
    ensures ResolveClass(ObjectModelClass, TableName(k)) == Some(ClassOf(k))
  {
    var cs := ObjectModelClass.subclasses;
    var t := TableName(k);
    assert FindSubclass(cs[0], t) == None;
    assert FindSubclass(cs[1], t) == None;
    assert FindSubclass(cs[2], t) == None;
    assert FindSubclass(cs[3], t) == None;
    var c1, c2, c3 := cs[1..], cs[2..], cs[3..];
    assert c1[1..] == c2 && c2[1..] == c3;
    assert FindAmong(c3, t) == (if k == ChatSessionKind then Some(ChatSessionClass) else None);
    assert FindAmong(c2, t) == (if k == NoteKind then Some(NoteClass) else FindAmong(c3, t));
    assert FindAmong(c1, t) == (if k == SourceKind then Some(SourceClass) else FindAmong(c2, t));
    assert FindAmong(cs, t) == (if k == NotebookKind then Some(NotebookClass) else FindAmong(c1, t));
  }

  /** The class `get` decodes into: the calling class when its table is
      non-empty and equals the identifier's table, else the subclass found. */
  function ResolveClass(cls: Class, table: string): (r: Option<Class>)
    ensures cls.table != "" && cls.table == table ==> r == Some(cls)
    ensures r.Some? ==> r.value.table == table
    ensures r.None? ==> forall d <- Descendants(cls) :: d.table != table
  {
    FindSubclassSound(cls, table);
    if cls.table != "" && cls.table == table then Some(cls) else FindSubclass(cls, table)
  }

  // ---------------------------------------------------------------------
  // Reads

  /** Validating a stored row against a type: only an object row of that
      very type decodes, and the identifier it was stored under becomes its
      `id`. */
  function Decode(kind: Kind, id: Id, row: Row): (r: Option<Object>)
    ensures r.Some? <==> row.ObjectRow? && KindOf(row.body) == kind
    ensures r.Some? ==> r.value == Object(Some(id), row.created, row.updated, row.body)
  {
    match row
    case ObjectRow(c, u, b) => if KindOf(b) == kind then Some(Object(Some(id), c, u, b)) else None
    case _ => None
  }

  /** `get(id)`: the empty identifier is refused before anything else;
      every later failure, an unknown table included, is raised inside the
      `try` and so reaches the caller as a `DatabaseOperation`. */
  function Get(s: Store, cls: Class, id: Id): (r: Result<Object>)
    ensures id == "" <==> r == Err(InvalidInput(EmptyId))
    ensures id != "" && r.Err? ==> r.error.DatabaseOperation?
    ensures r.Ok? ==> && s.online && id in s.rows && r.value.id == Some(id)
                      && ResolveClass(cls, TableOf(id)).Some?
                      && KindOf(r.value.body) == ResolveClass(cls, TableOf(id)).value.kind
                      && Decode(KindOf(r.value.body), id, s.rows[id]) == Some(r.value)
  {
    if id == "" then Err(InvalidInput(EmptyId))
    else
      var table := TableOf(id);
      match ResolveClass(cls, table)
      case None => Err(DatabaseOperation(InvalidInput(NoClassForTable(table))))
      case Some(target) =>
        match SelectRecord(s, id)
        case Err(e) => Err(DatabaseOperation(e))
        case Ok(None) => Err(DatabaseOperation(NotFound(id)))
        case Ok(Some(row)) =>
          match Decode(target.kind, id, row)
          case None => Err(DatabaseOperation(DecodeFailure))
          case Some(o) => Ok(o)
  }

  /** A class without subclasses only ever reads objects of its own type. */
  lemma GetFromLeaf(s: Store, k: Kind, id: Id)
    requires Get(s, ClassOf(k), id).Ok?
    ensures Get(s, ClassOf(k), id).value.id == Some(id)
    ensures KindOf(Get(s, ClassOf(k), id).value.body) == k
  {
    assert FindSubclass(ClassOf(k), TableOf(id)) == None;
  }

  /** An identifier whose table no class answers to is a wrapped
      "no class found" error, whatever the store holds. */
  lemma GetUnknownTable(s: Store, cls: Class, id: Id)
    requires id != ""
    requires !(cls.table != "" && cls.table == TableOf(id))
    requires forall d <- Descendants(cls) :: d.table != TableOf(id)
    ensures Get(s, cls, id) == Err(DatabaseOperation(InvalidInput(NoClassForTable(TableOf(id)))))
  {
    FindSubclassSound(cls, TableOf(id));
  }

  /** A well-formed identifier with no row is a wrapped `NotFound`. */
  lemma GetMissingRow(s: Store, cls: Class, id: Id)
    requires id != "" && s.online && id !in s.rows
    requires ResolveClass(cls, TableOf(id)).Some?
    ensures Get(s, cls, id) == Err(DatabaseOperation(NotFound(id)))
  {
  }

  /** `get` reads one row: stores that agree on reachability and on that
      row answer alike. */
  lemma GetIgnoresOtherRows(s: Store, t: Store, cls: Class, id: Id)
    requires s.online == t.online
    requires id in s.rows <==> id in t.rows
    requires id in s.rows ==> s.rows[id] == t.rows[id]
    ensures Get(s, cls, id) == Get(t, cls, id)
  {
  }

  /** The identifiers of objects that all have one, in order. */
  function IdsOf(os: seq<Object>): (ids: seq<Id>)
    requires forall o <- os :: o.id.Some?
    ensures |ids| == |os|
    ensures forall i :: 0 <= i < |os| ==> os[i].id == Some(ids[i])
  {
    seq(|os|, i requires 0 <= i < |os| => os[i].id.value)
  }

  /** Decode every listed row, skipping the ones that do not validate:
      one object per decodable identifier, in the order listed. */
  function DecodeEach(rows: map<Id, Row>, kind: Kind, ids: seq<Id>): (r: seq<Object>)
    requires forall id <- ids :: id in rows
    ensures |r| <= |ids|
    ensures forall o <- r :: o.id.Some? && o.id.value in ids && Decode(kind, o.id.value, rows[o.id.value]) == Some(o)
    ensures forall id <- ids :: Decode(kind, id, rows[id]).Some? ==> Decode(kind, id, rows[id]).value in r
    ensures IsSubsequence(IdsOf(r), ids)
  {
    if |ids| == 0 then []
    else
      var rest := DecodeEach(rows, kind, ids[1..]);
      match Decode(kind, ids[0], rows[ids[0]])
      case Some(o) =>
        assert IdsOf([o] + rest) == [ids[0]] + IdsOf(rest);
        [o] + rest
      case None =>
        SubsequenceSkip(IdsOf(rest), ids);
        rest
  }

  /** `get_all()`: refused on the untyped base; otherwise every row of the
      calling class's table that validates, in scan order, bad rows skipped. */
  function GetAll(s: Store, cls: Class): (r: Result<seq<Object>>)
    ensures cls.table == "" ==> r == Err(DatabaseOperation(InvalidInput(UntypedScan)))
    ensures cls.table != "" ==> (r.Ok? <==> s.online)
    ensures r.Err? ==> r.error.DatabaseOperation?
    ensures r.Ok? ==> |r.value| <= |s.order|
    ensures r.Ok? ==> forall o <- r.value ::
      o.id.Some? && o.id.value in s.rows && TableOf(o.id.value) == cls.table
      && Decode(cls.kind, o.id.value, s.rows[o.id.value]) == Some(o)
    ensures r.Ok? ==> forall id <- s.order ::
      id in s.rows && TableOf(id) == cls.table && Decode(cls.kind, id, s.rows[id]).Some?
      ==> Decode(cls.kind, id, s.rows[id]).value in r.value
    ensures r.Ok? ==> IsSubsequence(IdsOf(r.value), s.order)
    ensures r.Ok? && Valid(s) ==> Distinct(IdsOf(r.value))
  {
    if cls.table == "" then Err(DatabaseOperation(InvalidInput(UntypedScan)))
    else if !s.online then Err(DatabaseOperation(StoreFailure))
    else
      var ids := TableIds(s.order, s.rows, cls.table);
      var os := DecodeEach(s.rows, cls.kind, ids);
      SubsequenceTrans(IdsOf(os), ids, s.order);
      SubsequenceDistinct(IdsOf(os), s.order);
      Ok(os)
  }

  /** Everything a scan returns is what `get` returns for its identifier. */
  lemma GetAllAgreesWithGet(s: Store, cls: Class)
    requires GetAll(s, cls).Ok?
    ensures forall o <- GetAll(s, cls).value :: Get(s, cls, o.id.value) == Ok(o)
  {
  }

  // ---------------------------------------------------------------------
  // Writes

  /** `_prepare_save_data`: every field but `id`. A note whose `full_text`
      is empty or unset is written with its `content` there instead; the
      object itself keeps its own `full_text`. */
  function SaveData(o: Object): (row: Row)
    ensures row.ObjectRow? && row.created == o.created && row.updated == o.updated
    ensures KindOf(row.body) == KindOf(o.body)
    ensures !o.body.NoteBody? ==> row.body == o.body
    ensures o.body.NoteBody? ==>
      var n := o.body.noteData;
      && row.body.noteData.(fullText := n.fullText) == n
      && row.body.noteData.fullText == (if Truthy(n.fullText) then n.fullText else Some(n.content))
  {
    match o.body
    case NoteBody(n) =>
      var mirrored := if Truthy(n.fullText) then n else n.(fullText := Some(n.content));
      ObjectRow(o.created, o.updated, NoteBody(mirrored))
    case _ => ObjectRow(o.created, o.updated, o.body)
  }

  /** `save()`. Without an id (unset or empty) both timestamps become `now`
      and the store creates the row, whose id the object adopts when the
      store answers with one. With an id only `updated` changes and the row
      is rewritten. Any store failure is a `DatabaseOperation`. */
  function Save(s: Store, o: Object, now: Time): (r: Saved)
    ensures r.obj.body == o.body && r.obj.updated == Some(now)
    ensures !Truthy(o.id) ==> r.obj.created == Some(now)
    ensures !Truthy(o.id) && r.obj.id != o.id ==>
      && r.error.None?
      && r.obj.id.Some? && r.obj.id.value !in s.rows
      && TableOf(r.obj.id.value) == TableName(KindOf(o.body))
      && r.store.rows == s.rows[r.obj.id.value := SaveData(r.obj)]
    ensures Truthy(o.id) ==> r.obj == o.(updated := Some(now))
    ensures Truthy(o.id) && r.error.None? ==>
      r.store.rows == if o.id.value in s.rows then s.rows[o.id.value := SaveData(r.obj)] else s.rows
    ensures !Truthy(o.id) && r.obj.id != o.id ==>
      |s.keys| > 0 && r.obj.id == Some(MakeId(TableName(KindOf(o.body)), s.keys[0]))
    ensures !s.online ==> r.error == Some(DatabaseOperation(StoreFailure))
    ensures s.online && Truthy(o.id) ==> r.error.None?
    ensures s.online && !Truthy(o.id) && |s.keys| == 0 ==>
      r == Saved(s, o.(created := Some(now), updated := Some(now)), None)
    ensures s.online && !Truthy(o.id) && |s.keys| > 0 ==>
      var id := MakeId(TableName(KindOf(o.body)), s.keys[0]);
      && (r.error.Some? <==> id in s.rows)
      && (id !in s.rows ==> r.obj.id == Some(id))
    ensures r.error.Some? ==> r.error.value.DatabaseOperation? && r.store == s
    ensures r.store.edges == s.edges
  {
    if !Truthy(o.id) then
      var o1 := o.(created := Some(now), updated := Some(now));
      TableNamesAreTags(KindOf(o.body), KindOf(o.body));
      match CreateRecord(s, TableName(KindOf(o.body)), SaveData(o1))
      case Err(e) => Saved(s, o1, Some(DatabaseOperation(e)))
      case Ok((s1, None)) => Saved(s1, o1, None)
      case Ok((s1, Some(id))) =>
        TableOfMakeId(TableName(KindOf(o.body)), s.keys[0]);
        Saved(s1, o1.(id := Some(id)), None)
    else
      var o1 := o.(updated := Some(now));
      match UpdateRecord(s, o.id.value, SaveData(o1))
      case Err(e) => Saved(s, o1, Some(DatabaseOperation(e)))
      case Ok(s1) => Saved(s1, o1, None)
  }

  /** Saving a new object and reading it back, through its own class or
      through the untyped base, gives the object as saved: same fields, both
      timestamps set, and for a note the mirrored `full_text`. */
  lemma SaveThenGet(s: Store, o: Object, now: Time)
    requires !Truthy(o.id) && s.online && |s.keys| > 0
    requires MakeId(TableName(KindOf(o.body)), s.keys[0]) !in s.rows
    ensures var r := Save(s, o, now);
      && r.error.None? && r.obj.id.Some?
      && Get(r.store, ClassOf(KindOf(o.body)), r.obj.id.value) == Ok(r.obj.(body := SaveData(r.obj).body))
      && Get(r.store, ObjectModelClass, r.obj.id.value) == Ok(r.obj.(body := SaveData(r.obj).body))
  {
    var r := Save(s, o, now);
    var id := r.obj.id.value;
    TableOfMakeId(TableName(KindOf(o.body)), s.keys[0]);
    assert TableOf(id) == TableName(KindOf(o.body));
    BaseResolvesEveryType(KindOf(o.body));
  }

  /** `delete()`: refused without an id before the store is touched; a
      successful delete answers true and removes only that row. */
  function Delete(s: Store, o: Object): (r: Effect<bool>)
    ensures !Truthy(o.id) ==> r == Effect(s, Err(InvalidInput(DeleteWithoutId)))
    ensures Truthy(o.id) ==> (r.result.Ok? <==> s.online)
    ensures r.result.Ok? ==> r.result.value && r.store.rows == s.rows - {o.id.value}
    ensures r.result.Err? ==> r.store == s
    ensures r.store.edges == s.edges
  {
    if !Truthy(o.id) then Effect(s, Err(InvalidInput(DeleteWithoutId)))
    else match DeleteRecord(s, o.id.value)
      case Err(e) => Effect(s, Err(DatabaseOperation(e)))
      case Ok(s1) => Effect(s1, Ok(true))
  }

  /** After a delete the object's id no longer resolves. */
  lemma DeleteThenGet(s: Store, o: Object, cls: Class)
    requires Delete(s, o).result.Ok?
    requires ResolveClass(cls, TableOf(o.id.value)).Some?
    ensures Get(Delete(s, o).store, cls, o.id.value) == Err(DatabaseOperation(NotFound(o.id.value)))
  {
  }

  /** `relate(relation, target, data)`: an empty relation, a missing target
      or an unsaved source object is refused before the store is touched;
      otherwise exactly one edge from this object is added. */
  function Relate(s: Store, o: Object, relation: string, target: Option<Id>, data: Metadata): (r: Effect<Edge>)
    ensures relation == "" || !Truthy(target) || !Truthy(o.id) ==>
      r == Effect(s, Err(InvalidInput(MissingRelateArgument)))
    ensures r.result.Ok? ==>
      && r.result.value == Edge(o.id.value, relation, target.value, data)
      && r.store == s.(edges := s.edges + [r.result.value])
    ensures relation != "" && Truthy(target) && Truthy(o.id) ==> (r.result.Ok? <==> s.online)
    ensures r.result.Err? && relation != "" && Truthy(target) && Truthy(o.id) ==>
      r.result.error == DatabaseOperation(StoreFailure)
    ensures r.result.Err? ==> r.store == s
  {
    if relation == "" || !Truthy(target) || !Truthy(o.id) then
      Effect(s, Err(InvalidInput(MissingRelateArgument)))
    else match RelateRecords(s, o.id.value, relation, target.value, data)
      case Err(e) => Effect(s, Err(DatabaseOperation(e)))
      case Ok(s1) => Effect(s1, Ok(Edge(o.id.value, relation, target.value, data)))
  }

  // ---------------------------------------------------------------------
  // Embedding probe: only types with a `full_text` field take part

  function EmbeddingContent(o: Object): (r: Option<string>)
    ensures r.Some? ==> o.body.SourceBody? || o.body.NoteBody?
    ensures o.body.SourceBody? ==> r == o.body.sourceData.fullText
    ensures o.body.NoteBody? ==> r == o.body.noteData.fullText
  {
    match o.body
    case SourceBody(src) => src.fullText
    case NoteBody(n) => n.fullText
    case _ => None
  }

  predicate NeedsEmbedding(o: Object) {
    match o.body
    case SourceBody(src) => src.fullText.Some?
    case NoteBody(n) => n.fullText.Some?
    case _ => false
  }

  /** An object needs embedding exactly when it has content to embed; an
      empty `full_text` still counts, since only its absence is tested. */
  lemma NeedsEmbeddingIffContent(o: Object)
    ensures NeedsEmbedding(o) <==> EmbeddingContent(o).Some?
    ensures NeedsEmbedding(o) ==> o.body.SourceBody? || o.body.NoteBody?
  {
  }

  /** A note read back after its first save always needs embedding, since
      its stored `full_text` is mirrored from `content` when unset. */
  lemma SavedNoteNeedsEmbedding(s: Store, o: Object, now: Time)
    requires o.body.NoteBody?
    requires !Truthy(o.id) && s.online && |s.keys| > 0
    requires MakeId(TableName(KindOf(o.body)), s.keys[0]) !in s.rows
    ensures var r := Save(s, o, now);
      && Get(r.store, NoteClass, r.obj.id.value).Ok?
      && NeedsEmbedding(Get(r.store, NoteClass, r.obj.id.value).value)
  {
    SaveThenGet(s, o, now);
  }

  // ---------------------------------------------------------------------
  // The singleton settings record

  /** `load()` never fails: the stored settings when the row is there and
      validates, the defaults on absence or on any error. */
  function LoadRecord(s: Store): (r: Settings)
    ensures s.online && SettingsRecordId in s.rows && s.rows[SettingsRecordId].RecordRow?
      ==> r == s.rows[SettingsRecordId].settings
    ensures !s.online || SettingsRecordId !in s.rows || !s.rows[SettingsRecordId].RecordRow?
      ==> r == DefaultSettings
  {
    match SelectRecord(s, SettingsRecordId)
    case Ok(Some(RecordRow(st))) => st
    case _ => DefaultSettings
  }

  /** `save()` and `update()`: an upsert under the fixed record id. */
  function SaveRecord(s: Store, st: Settings): (r: Result<Store>)
    ensures r.Ok? <==> s.online
    ensures r.Err? ==> r.error == DatabaseOperation(StoreFailure)
    ensures r.Ok? ==> r.value.rows == s.rows[SettingsRecordId := RecordRow(st)]
    ensures r.Ok? ==> r.value.edges == s.edges && r.value.online
  {
    match UpsertRecord(s, SettingsRecordId, RecordRow(st))
    case Err(e) => Err(DatabaseOperation(e))
    case Ok(s1) => Ok(s1)
  }

  /** What was saved is what loads, and saving twice keeps one record. */
  lemma SaveRecordThenLoad(s: Store, st: Settings, st2: Settings)
    requires s.online
    ensures LoadRecord(SaveRecord(s, st).value) == st
    ensures SaveRecord(SaveRecord(s, st).value, st2).value.rows == s.rows[SettingsRecordId := RecordRow(st2)]
  {
  }
}
