/** Ingestion: turning a URL, an uploaded file or pasted text into a saved
    source linked to a notebook, and the request guard of the external
    document service. The HTTP exchange is an input: the model receives the
    reply the client would have produced. */
module Content {
  import opened Errors
  import opened Schema
  import opened Gateway
  import opened Base
  import opened Domain
  import opened Text

  /** How much of the text a source keeps as its preview `content`. */
  const PreviewLimit: nat := 10000

  /** `url` is non-empty and starts with one of the two web schemes. */
  predicate ValidUrl(url: string) {
    url != "" && (StartsWith(url, "http://") || StartsWith(url, "https://"))
  }

  /** What the HTTP client produced: a response, or a raised client error. */
  datatype Reply = Response(text: string, contentType: Option<string>, status: int) | RequestFailed

  /** The reply survives `raise_for_status()`: no client error and no 4xx
      or 5xx status. */
  predicate Fetched(reply: Reply) {
    reply.Response? && !(400 <= reply.status < 600)
  }

  /** A fresh, unsaved source. */
  function NewSource(title: string, url: Option<string>, content: string, fullText: Option<string>,
                     metadata: Metadata, hasDocument: bool, isProcessed: bool): (o: Object)
    ensures o.id.None? && o.created.None? && o.updated.None? && o.body.SourceBody?
    ensures var d := o.body.sourceData;
      && d.title == title && d.url == url && d.content == Some(content) && d.fullText == fullText
      && d.metadata == metadata && d.hasDocument == hasDocument && d.isProcessed == isProcessed
      && d.description.None?
  {
    Object(None, None, None, SourceBody(SourceData(title, None, url, Some(content), fullText, metadata, hasDocument, isProcessed)))
  }

  /** The shared tail of every ingestion: save the source, look the notebook
      up, link the two. Whatever is raised on the way is caught and re-raised
      as a processing failure carrying it; a step that already changed the
      store is not undone. */
  function Ingest(s: Store, src: Object, notebookId: Id, now: Time): (r: Effect<Object>)
    ensures r.result.Err? ==> r.result.error.Processing? && r.result.error.reason == ProcessFailed
    ensures r.result.Err? ==> r.result.error.caught.Some?
    ensures Save(s, src, now).error.Some? ==>
      r == Effect(s, Err(Processing(ProcessFailed, Save(s, src, now).error)))
    ensures var saved := Save(s, src, now);
      saved.error.None? && Get(saved.store, NotebookClass, notebookId).Err? ==>
      r == Effect(saved.store, Err(Processing(ProcessFailed, Some(Get(saved.store, NotebookClass, notebookId).error))))
    ensures var saved := Save(s, src, now);
      saved.error.None? && Get(saved.store, NotebookClass, notebookId).Ok? ==>
      var linked := AddSource(saved.store, Get(saved.store, NotebookClass, notebookId).value, saved.obj, now);
      && r.store == linked.store
      && (linked.error.None? ==> r.result == Ok(linked.obj))
      && (linked.error.Some? ==> r.result == Err(Processing(ProcessFailed, linked.error)))
    ensures r.result.Ok? ==>
      && Truthy(r.result.value.id)
      && r.result.value.body == src.body
      && r.store.edges == s.edges + [Edge(notebookId, NotebookSourceEdge, r.result.value.id.value, map[])]
  {
    var saved := Save(s, src, now);
    if saved.error.Some? then Effect(s, Err(Processing(ProcessFailed, saved.error)))
    else match Get(saved.store, NotebookClass, notebookId)
      case Err(e) => Effect(saved.store, Err(Processing(ProcessFailed, Some(e))))
      case Ok(nb) =>
        GetFromLeaf(saved.store, NotebookKind, notebookId);
        var linked := AddSource(saved.store, nb, saved.obj, now);
        if linked.error.Some? then Effect(linked.store, Err(Processing(ProcessFailed, linked.error)))
        else Effect(linked.store, Ok(linked.obj))
  }

  /** A source that was created before the notebook lookup failed stays in
      the store, unlinked. */
  lemma FailedLinkKeepsSource(s: Store, src: Object, notebookId: Id, now: Time)
    requires !Truthy(src.id) && s.online && |s.keys| > 0
    requires MakeId(TableName(KindOf(src.body)), s.keys[0]) !in s.rows
    requires Get(Save(s, src, now).store, NotebookClass, notebookId).Err?
    ensures var saved := Save(s, src, now);
      && Ingest(s, src, notebookId, now).result.Err?
      && saved.obj.id.Some?
      && Get(Ingest(s, src, notebookId, now).store, ClassOf(KindOf(src.body)), saved.obj.id.value).Ok?
      && Ingest(s, src, notebookId, now).store.edges == s.edges
  {
    SaveThenGet(s, src, now);
  }

  /** On a reachable store with a free key, a new source bound for an
      existing notebook is ingested: it is saved under the key the store
      assigns and the notebook lists it last. */
  lemma IngestLinksFreshSource(s: Store, src: Object, notebookId: Id, now: Time)
    requires s.online && !Truthy(src.id) && |s.keys| > 0
    requires MakeId(TableName(KindOf(src.body)), s.keys[0]) !in s.rows
    requires Get(s, NotebookClass, notebookId).Ok?
    ensures var r, id := Ingest(s, src, notebookId, now), MakeId(TableName(KindOf(src.body)), s.keys[0]);
      && r.result.Ok?
      && r.result.value.id == Some(id)
      && SourceIdsOf(r.store.edges, Some(notebookId)) == SourceIdsOf(s.edges, Some(notebookId)) + [id]
  {
    var saved := Save(s, src, now);
    var id := MakeId(TableName(KindOf(src.body)), s.keys[0]);
    assert saved.error.None? && saved.obj.id == Some(id);
    assert notebookId in s.rows && notebookId != id;
    GetIgnoresOtherRows(s, saved.store, NotebookClass, notebookId);
    var nb := Get(saved.store, NotebookClass, notebookId).value;
    GetFromLeaf(saved.store, NotebookKind, notebookId);
    AddSourceThenList(saved.store, nb, saved.obj, now);
  }

  // ---------------------------------------------------------------------
  // URLs

  /** The source a fetched page becomes: the title falls back to the URL,
      the preview is the first characters of the page and the full text is
      all of it. */
  function UrlSource(url: string, title: Option<string>, reply: Reply): (o: Object)
    requires reply.Response?
    ensures o.id.None? && o.body.SourceBody?
    ensures var d := o.body.sourceData;
      && d.title == (if Truthy(title) then title.value else url)
      && d.url == Some(url)
      && d.fullText == Some(reply.text)
      && d.content.Some? && d.content.value <= reply.text
      && |d.content.value| == Min(PreviewLimit, |reply.text|)
      && d.isProcessed && !d.hasDocument
      && d.metadata.Keys == {"content_type", "status_code", "url"}
      && d.metadata["content_type"] == Str(if reply.contentType.Some? then reply.contentType.value else "")
      && d.metadata["status_code"] == Num(reply.status)
      && d.metadata["url"] == Str(url)
  {
    var contentType := if reply.contentType.Some? then reply.contentType.value else "";
    NewSource(
      if Truthy(title) then title.value else url,
      Some(url),
      Take(reply.text, PreviewLimit),
      Some(reply.text),
      map["content_type" := Str(contentType), "status_code" := Num(reply.status), "url" := Str(url)],
      false, true)
  }

  /** `process_url()`: a URL that is empty or not a web address is refused
      before anything is fetched; a fetch failure is a processing failure
      that touches nothing; a page is ingested. */
  function ProcessUrl(s: Store, url: string, notebookId: Id, title: Option<string>, reply: Reply, now: Time): (r: Effect<Object>)
    ensures !ValidUrl(url) ==> r == Effect(s, Err(InvalidInput(InvalidUrl)))
    ensures ValidUrl(url) && !Fetched(reply) ==> r == Effect(s, Err(Processing(FetchFailed, None)))
    ensures r.result.Err? && ValidUrl(url) ==> r.result.error.Processing?
    ensures ValidUrl(url) && Fetched(reply) ==> r == Ingest(s, UrlSource(url, title, reply), notebookId, now)
    ensures r.result.Ok? ==>
      ValidUrl(url) && Fetched(reply) && r.result.value.body == UrlSource(url, title, reply).body
  {
    if !ValidUrl(url) then Effect(s, Err(InvalidInput(InvalidUrl)))
    else if !Fetched(reply) then Effect(s, Err(Processing(FetchFailed, None)))
    else Ingest(s, UrlSource(url, title, reply), notebookId, now)
  }

  /** A refused URL does not depend on what a fetch would have returned:
      none is made. */
  lemma InvalidUrlFetchesNothing(s: Store, url: string, notebookId: Id, title: Option<string>, a: Reply, b: Reply, now: Time)
    requires !ValidUrl(url)
    ensures ProcessUrl(s, url, notebookId, title, a, now) == ProcessUrl(s, url, notebookId, title, b, now)
    ensures ProcessUrl(s, url, notebookId, title, a, now).store == s
  {
  }

  /** A fetched page from a valid URL, bound for an existing notebook on a
      reachable store with a free key, becomes a new source that the
      notebook lists last. */
  lemma ProcessUrlIngests(s: Store, url: string, notebookId: Id, title: Option<string>, reply: Reply, now: Time)
    requires ValidUrl(url) && Fetched(reply) && s.online && |s.keys| > 0
    requires MakeId(TableName(SourceKind), s.keys[0]) !in s.rows
    requires Get(s, NotebookClass, notebookId).Ok?
    ensures var r, id := ProcessUrl(s, url, notebookId, title, reply, now), MakeId(TableName(SourceKind), s.keys[0]);
      && r.result.Ok?
      && r.result.value.id == Some(id)
      && r.result.value.body == UrlSource(url, title, reply).body
      && SourceIdsOf(r.store.edges, Some(notebookId)) == SourceIdsOf(s.edges, Some(notebookId)) + [id]
  {
    IngestLinksFreshSource(s, UrlSource(url, title, reply), notebookId, now);
  }

  // ---------------------------------------------------------------------
  // Uploaded files

  /** An upload: its name, its size in bytes and its decoded text (the
      decoding itself is not modelled). */
  datatype Upload = Upload(name: string, size: nat, text: string)

  datatype FileType = TextFile | DocumentFile | BinaryFile

  predicate EndsWithAny(s: string, suffixes: seq<string>) {
    exists i :: 0 <= i < |suffixes| && EndsWith(s, suffixes[i])
  }

  const TextSuffixes: seq<string> := [".txt", ".md", ".py", ".js", ".html", ".css"]
  const DocumentSuffixes: seq<string> := [".pdf", ".doc", ".docx"]

  /** Classification by the lower-cased name; text suffixes are tested
      first. */
  function Classify(name: string): (t: FileType)
    ensures t == TextFile <==> EndsWithAny(Lower(name), TextSuffixes)
    ensures t == DocumentFile <==> !EndsWithAny(Lower(name), TextSuffixes) && EndsWithAny(Lower(name), DocumentSuffixes)
    ensures t == BinaryFile <==> !EndsWithAny(Lower(name), TextSuffixes) && !EndsWithAny(Lower(name), DocumentSuffixes)
  {
    if EndsWithAny(Lower(name), TextSuffixes) then TextFile
    else if EndsWithAny(Lower(name), DocumentSuffixes) then DocumentFile
    else BinaryFile
  }

  /** Classification ignores case: a name and its lower-cased form are
      classified alike. */
  lemma ClassifyIgnoresCase(name: string)
    ensures Classify(Lower(name)) == Classify(name)
  {
    assert Lower(Lower(name)) == Lower(name);
  }

  /** An upper-case document extension is still a document. */
  lemma UpperCaseDocument(stem: string)
    ensures Classify(stem + ".PDF") == DocumentFile
  {
    var n := Lower(stem + ".PDF");
    assert n[|n| - 4..] == ".pdf";
    assert EndsWith(n, DocumentSuffixes[0]);
    forall i | 0 <= i < |TextSuffixes| ensures !EndsWith(n, TextSuffixes[i]) {
      var suffix := TextSuffixes[i];
      assert n[|n| - 1] == 'f';
      assert suffix[|suffix| - 1] != 'f';
    }
  }

  function FileTypeName(t: FileType): string {
    match t
    case TextFile => "text"
    case DocumentFile => "document"
    case BinaryFile => "binary"
  }

  /** The source an upload becomes. Only a text file keeps its text and
      counts as processed; the other kinds carry a one-line stand-in. Every
      upload has a document and records its name, size and kind. */
  function FileSource(f: Upload, title: Option<string>): (o: Object)
    ensures o.id.None? && o.body.SourceBody?
    ensures var d := o.body.sourceData;
      && d.title == (if Truthy(title) then title.value else f.name)
      && d.hasDocument
      && d.url.None?
      && (d.isProcessed <==> Classify(f.name) == TextFile)
      && (Classify(f.name) == TextFile ==>
            d.fullText == Some(f.text) && d.content.Some? && d.content.value <= f.text
            && |d.content.value| == Min(PreviewLimit, |f.text|))
      && (Classify(f.name) == DocumentFile ==> d.fullText.None? && d.content == Some("Document: " + f.name))
      && (Classify(f.name) == BinaryFile ==> d.fullText.None? && d.content == Some("File: " + f.name))
      && d.metadata == map["filename" := Str(f.name), "file_size" := Num(f.size),
                           "file_type" := Str(FileTypeName(Classify(f.name)))]
  {
    var t := Classify(f.name);
    var md := map["filename" := Str(f.name), "file_size" := Num(f.size), "file_type" := Str(FileTypeName(t))];
    var fileTitle := if Truthy(title) then title.value else f.name;
    match t
    case TextFile => NewSource(fileTitle, None, Take(f.text, PreviewLimit), Some(f.text), md, true, true)
    case DocumentFile => NewSource(fileTitle, None, "Document: " + f.name, None, md, true, false)
    case BinaryFile => NewSource(fileTitle, None, "File: " + f.name, None, md, true, false)
  }

  /** `process_file()`: every failure, whatever raised it, becomes a
      processing failure. */
  function ProcessFile(s: Store, f: Upload, notebookId: Id, title: Option<string>, now: Time): (r: Effect<Object>)
    ensures r.result.Err? ==> r.result.error.Processing? && r.result.error.reason == ProcessFailed
    ensures r.result.Ok? ==> r.result.value.body == FileSource(f, title).body
    ensures r == Ingest(s, FileSource(f, title), notebookId, now)
  {
    Ingest(s, FileSource(f, title), notebookId, now)
  }

  /** An upload of any kind, bound for an existing notebook on a reachable
      store with a free key, becomes a new source that the notebook lists
      last. */
  lemma ProcessFileIngests(s: Store, f: Upload, notebookId: Id, title: Option<string>, now: Time)
    requires s.online && |s.keys| > 0
    requires MakeId(TableName(SourceKind), s.keys[0]) !in s.rows
    requires Get(s, NotebookClass, notebookId).Ok?
    ensures var r, id := ProcessFile(s, f, notebookId, title, now), MakeId(TableName(SourceKind), s.keys[0]);
      && r.result.Ok?
      && r.result.value.id == Some(id)
      && r.result.value.body == FileSource(f, title).body
      && SourceIdsOf(r.store.edges, Some(notebookId)) == SourceIdsOf(s.edges, Some(notebookId)) + [id]
  {
    IngestLinksFreshSource(s, FileSource(f, title), notebookId, now);
  }

  // ---------------------------------------------------------------------
  // Pasted text

  /** The source pasted text becomes. */
  function TextSource(text: string, title: string): (o: Object)
    ensures o.id.None? && o.body.SourceBody?
    ensures var d := o.body.sourceData;
      && d.title == title && d.fullText == Some(text)
      && d.content.Some? && d.content.value <= text && |d.content.value| == Min(PreviewLimit, |text|)
      && d.metadata == map["content_length" := Num(|text|), "content_type" := Str("text/plain")]
      && d.isProcessed && !d.hasDocument
  {
    NewSource(title, None, Take(text, PreviewLimit), Some(text),
      map["content_length" := Num(|text|), "content_type" := Str("text/plain")], false, true)
  }

  /** `process_text()`: text that is nothing but whitespace is refused
      before the store is touched. */
  function ProcessText(s: Store, text: string, notebookId: Id, title: string, now: Time): (r: Effect<Object>)
    ensures Blank(text) ==> r == Effect(s, Err(InvalidInput(EmptyText)))
    ensures !Blank(text) && r.result.Err? ==> r.result.error.Processing? && r.result.error.reason == ProcessFailed
    ensures r.result.Ok? ==> !Blank(text) && r.result.value.body == TextSource(text, title).body
    ensures !Blank(text) ==> r == Ingest(s, TextSource(text, title), notebookId, now)
  {
    if Blank(text) then Effect(s, Err(InvalidInput(EmptyText)))
    else Ingest(s, TextSource(text, title), notebookId, now)
  }

  /** Non-blank text bound for an existing notebook, on a reachable store
      with a free key, becomes a new source that the notebook lists last. */
  lemma ProcessTextIngests(s: Store, text: string, notebookId: Id, title: string, now: Time)
    requires !Blank(text) && s.online && |s.keys| > 0
    requires MakeId(TableName(SourceKind), s.keys[0]) !in s.rows
    requires Get(s, NotebookClass, notebookId).Ok?
    ensures var r, id := ProcessText(s, text, notebookId, title, now), MakeId(TableName(SourceKind), s.keys[0]);
      && r.result.Ok?
      && r.result.value.id == Some(id)
      && r.result.value.body == TextSource(text, title).body
      && SourceIdsOf(r.store.edges, Some(notebookId)) == SourceIdsOf(s.edges, Some(notebookId)) + [id]
  {
    IngestLinksFreshSource(s, TextSource(text, title), notebookId, now);
  }

  // ---------------------------------------------------------------------
  // The external document service

  /** The service client: the base URL and the key it was built with. */
  datatype Service = Service(baseUrl: Option<string>, apiKey: Option<string>)

  /** The constructor: each argument falls back to the configured value
      when it is not truthy. */
  function NewService(baseUrl: Option<string>, apiKey: Option<string>,
                      configuredUrl: Option<string>, configuredKey: Option<string>): (e: Service)
    ensures Truthy(baseUrl) ==> e.baseUrl == baseUrl
    ensures !Truthy(baseUrl) ==> e.baseUrl == configuredUrl
    ensures Truthy(apiKey) ==> e.apiKey == apiKey
    ensures !Truthy(apiKey) ==> e.apiKey == configuredKey
  {
    Service(OrElse(baseUrl, configuredUrl), OrElse(apiKey, configuredKey))
  }

  /** `is_available()`. */
  predicate IsAvailable(e: Service) {
    Truthy(e.baseUrl)
  }

  /** With the constructor's fallbacks, the service is usable exactly when
      the caller or the settings give a base URL, and its requests
      authenticate exactly when the caller or the settings give a key. */
  lemma ServiceFallback(baseUrl: Option<string>, apiKey: Option<string>,
                        configuredUrl: Option<string>, configuredKey: Option<string>, path: string)
    ensures var e := NewService(baseUrl, apiKey, configuredUrl, configuredKey);
      && (IsAvailable(e) <==> Truthy(baseUrl) || Truthy(configuredUrl))
      && (ServiceRequest(e, path).Ok? ==>
            ("Authorization" in ServiceRequest(e, path).value.headers <==> Truthy(apiKey) || Truthy(configuredKey)))
  {
  }

  /** A request to the service: where it goes and its headers. */
  datatype Post = Post(endpoint: string, headers: map<string, string>)

  /** The request `process_url` / `process_file` would send to `path`: only
      a configured service sends one, and it carries a bearer token exactly
      when a key is set. */
  function ServiceRequest(e: Service, path: string): (r: Result<Post>)
    ensures r.Err? <==> !IsAvailable(e)
    ensures r.Err? ==> r.error == Processing(ServiceNotConfigured, None)
    ensures r.Ok? ==> r.value.endpoint == e.baseUrl.value + path
    ensures r.Ok? ==> ("Authorization" in r.value.headers <==> Truthy(e.apiKey))
    ensures r.Ok? ==> r.value.headers.Keys <= {"Authorization"}
    ensures r.Ok? && Truthy(e.apiKey) ==> r.value.headers["Authorization"] == "Bearer " + e.apiKey.value
  {
    if !IsAvailable(e) then Err(Processing(ServiceNotConfigured, None))
    else
      var headers := if Truthy(e.apiKey) then map["Authorization" := "Bearer " + e.apiKey.value] else map[];
      Ok(Post(e.baseUrl.value + path, headers))
  }

  /** A call to the service: the guard, then the reply's body, a client
      error or bad status being a processing failure. Decoding the body as
      JSON is not modelled. */
  function ServiceCall(e: Service, path: string, reply: Reply): (r: Result<string>)
    ensures !IsAvailable(e) ==> r == Err(Processing(ServiceNotConfigured, None))
    ensures IsAvailable(e) && !Fetched(reply) ==> r == Err(Processing(FetchFailed, None))
    ensures r.Ok? <==> IsAvailable(e) && Fetched(reply)
    ensures r.Ok? ==> r.value == reply.text
  {
    var _ :- ServiceRequest(e, path);
    if !Fetched(reply) then Err(Processing(FetchFailed, None)) else Ok(reply.text)
  }

  /** An unconfigured service refuses without a request: its answer does
      not depend on any reply. */
  lemma UnconfiguredServiceSendsNothing(e: Service, path: string, a: Reply, b: Reply)
    requires !IsAvailable(e)
    ensures ServiceCall(e, path, a) == ServiceCall(e, path, b)
  {
  }
}
