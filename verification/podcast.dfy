/** Podcast assembly: which sources and notes become items of the script,
    in what order, the word budget, the default output file names and the
    configuration handed to the generator. The generator itself is outside
    the model: whether it can be loaded and whether it succeeds are inputs. */
module Podcast {
  import opened Errors
  import opened Schema
  import opened Gateway
  import opened Domain
  import opened Text

  /** One entry of the content list. Keys a given flow does not set are
      `None`. */
  datatype Item = Item(
    title: string,
    content: string,
    url: Option<string>,
    metadata: Option<Metadata>,
    kind: Option<string>)

  datatype Config = Config(style: string, wordCount: int, name: string, tagline: string)

  /** Everything handed to the generator, and where it writes. */
  datatype Job = Job(output: string, items: seq<Item>, config: Config)

  /** The generator: whether it can be imported, and whether the call
      succeeds. */
  datatype Engine = Engine(installed: bool, succeeds: bool)

  const SourcesWordCap := 2000
  const NotesWordCap := 1500
  const NotebookWordCap := 3000
  const DefaultTagline := "AI-generated insights from your research"

  // ---------------------------------------------------------------------
  // Items

  /** The item of a source in the plain source flow. */
  function SourceItem(d: SourceData): (it: Item)
    requires Truthy(d.fullText)
  {
    Item(d.title, d.fullText.value, d.url, None, None)
  }

  /** Sources without a truthy `full_text` are skipped; the rest keep
      their order. */
  function SourceItems(sources: seq<SourceData>): (r: seq<Item>)
    ensures |r| <= |sources|
    ensures forall i :: 0 <= i < |r| ==> r[i].content != [] && r[i].metadata.None? && r[i].kind.None?
  {
    if |sources| == 0 then []
    else
      var rest := SourceItems(sources[1..]);
      if Truthy(sources[0].fullText) then [SourceItem(sources[0])] + rest else rest
  }

  /** An item comes from a source with text, and every source with text
      gives one. */
  lemma {:induction false} SourceItemsMembers(sources: seq<SourceData>)
    ensures forall it <- SourceItems(sources) :: exists d <- sources :: Truthy(d.fullText) && it == SourceItem(d)
    ensures forall d <- sources :: Truthy(d.fullText) ==> SourceItem(d) in SourceItems(sources)
  {
    if |sources| > 0 {
      SourceItemsMembers(sources[1..]);
      assert forall d <- sources[1..] :: d in sources;
      assert sources == [sources[0]] + sources[1..];
    }
  }

  /** Filtering distributes over concatenation, so the input order is kept. */
  lemma {:induction false} SourceItemsAppend(a: seq<SourceData>, b: seq<SourceData>)
    ensures SourceItems(a + b) == SourceItems(a) + SourceItems(b)
  {
    if |a| > 0 {
      SourceItemsAppend(a[1..], b);
      assert (a + b)[1..] == a[1..] + b;
    } else {
      assert a + b == b;
    }
  }

  /** `f"Note: {note.id}"`: an unset id renders as `None`. */
  function NoteTitle(id: Option<Id>): string {
    "Note: " + (if id.Some? then id.value else "None")
  }

  /** Every note becomes an item, whatever its content. */
  function NoteItems(notes: seq<Object>): (r: seq<Item>)
    requires forall o <- notes :: o.body.NoteBody?
    ensures |r| == |notes|
    ensures forall i :: 0 <= i < |notes| ==>
      r[i] == Item(NoteTitle(notes[i].id), notes[i].body.noteData.content, None, Some(notes[i].body.noteData.metadata), None)
  {
    seq(|notes|, i requires 0 <= i < |notes| =>
      Item(NoteTitle(notes[i].id), notes[i].body.noteData.content, None, Some(notes[i].body.noteData.metadata), None))
  }

  /** The item of a source in the notebook flow. */
  function TaggedSourceItem(d: SourceData): (it: Item)
    requires Truthy(d.fullText)
  {
    Item("Source: " + d.title, d.fullText.value, d.url, None, Some("source"))
  }

  function TaggedSourceItems(sources: seq<Object>): (r: seq<Item>)
    requires forall o <- sources :: o.body.SourceBody?
    ensures |r| <= |sources|
    ensures forall i :: 0 <= i < |r| ==> r[i].content != [] && r[i].kind == Some("source")
  {
    if |sources| == 0 then []
    else
      assert forall o <- sources[1..] :: o in sources;
      var rest := TaggedSourceItems(sources[1..]);
      var d := sources[0].body.sourceData;
      if Truthy(d.fullText) then [TaggedSourceItem(d)] + rest else rest
  }

  /** The notebook flow keeps the same sources, in the same order, as the
      plain source flow; only titles and the kind tag differ. */
  lemma {:induction false} TaggedSourceItemsAgree(sources: seq<Object>)
    requires forall o <- sources :: o.body.SourceBody?
    ensures |TaggedSourceItems(sources)| == |SourceItems(SourceDataOf(sources))|
    ensures forall i :: 0 <= i < |TaggedSourceItems(sources)| ==>
      var t, p := TaggedSourceItems(sources)[i], SourceItems(SourceDataOf(sources))[i];
      t == p.(title := "Source: " + p.title, kind := Some("source"))
  {
    if |sources| > 0 {
      assert forall o <- sources[1..] :: o in sources;
      TaggedSourceItemsAgree(sources[1..]);
      assert SourceDataOf(sources)[1..] == SourceDataOf(sources[1..]);
    }
  }

  /** The records behind a list of source objects. */
  function SourceDataOf(sources: seq<Object>): (r: seq<SourceData>)
    requires forall o <- sources :: o.body.SourceBody?
    ensures |r| == |sources|
    ensures forall i :: 0 <= i < |r| ==> r[i] == sources[i].body.sourceData
  {
    seq(|sources|, i requires 0 <= i < |sources| => sources[i].body.sourceData)
  }

  function TaggedNoteItems(notes: seq<Object>): (r: seq<Item>)
    requires forall o <- notes :: o.body.NoteBody?
    ensures |r| == |notes|
    ensures forall i :: 0 <= i < |notes| ==>
      r[i] == Item(NoteTitle(notes[i].id), notes[i].body.noteData.content, None, None, Some("note"))
  {
    seq(|notes|, i requires 0 <= i < |notes| =>
      Item(NoteTitle(notes[i].id), notes[i].body.noteData.content, None, None, Some("note")))
  }

  function Contents(items: seq<Item>): (r: seq<string>)
    ensures |r| == |items|
    ensures forall i :: 0 <= i < |items| ==> r[i] == items[i].content
  {
    seq(|items|, i requires 0 <= i < |items| => items[i].content)
  }

  /** `min(cap, total words)`: never above the cap nor above the words
      available, and equal to one of them. */
  function WordCount(cap: int, items: seq<Item>): (n: int)
    ensures n <= cap && n <= WordTotal(Contents(items))
    ensures n == cap || n == WordTotal(Contents(items))
  {
    Min(cap, WordTotal(Contents(items)))
  }

  /** The word total of a list is the sum of its parts. */
  lemma {:induction false} WordTotalAppend(a: seq<string>, b: seq<string>)
    ensures WordTotal(a + b) == WordTotal(a) + WordTotal(b)
  {
    if |a| > 0 {
      assert (a + b)[0] == a[0];
      assert (a + b)[1..] == a[1..] + b;
      WordTotalAppend(a[1..], b);
    } else {
      assert a + b == b;
    }
  }

  // ---------------------------------------------------------------------
  // Output names

  /** `str(temp_dir / name)`. */
  function Join(dir: string, name: string): string {
    dir + "/" + name
  }

  function SourcesFileName(n: nat): string {
    "podcast_" + Decimal(n) + "_sources.mp3"
  }

  function NotesFileName(n: nat): string {
    "podcast_" + Decimal(n) + "_notes.mp3"
  }

  /** The default names tell item counts apart, and a source podcast's
      default name never collides with a note podcast's. */
  lemma DefaultNamesDistinct(m: nat, n: nat)
    ensures SourcesFileName(m) == SourcesFileName(n) ==> m == n
    ensures NotesFileName(m) == NotesFileName(n) ==> m == n
    ensures SourcesFileName(m) != NotesFileName(n)
  {
    if SourcesFileName(m) == SourcesFileName(n) {
      var a, b := SourcesFileName(m), SourcesFileName(n);
      assert a[8..|a| - 12] == Decimal(m);
      assert b[8..|b| - 12] == Decimal(n);
      DecimalInjective(m, n);
    }
    if NotesFileName(m) == NotesFileName(n) {
      var a, b := NotesFileName(m), NotesFileName(n);
      assert a[8..|a| - 10] == Decimal(m);
      assert b[8..|b| - 10] == Decimal(n);
      DecimalInjective(m, n);
    }
    var a, b := SourcesFileName(m), NotesFileName(n);
    assert a[|a| - 10] == 'o';
    assert b[|b| - 10] == '_';
  }

  /** The characters `safe_name` keeps. Letters and digits are the ASCII
      ones. */
  predicate Kept(c: char) {
    ('a' <= c <= 'z') || ('A' <= c <= 'Z') || ('0' <= c <= '9') || c == ' ' || c == '-' || c == '_'
  }

  /** The kept characters of `s`, in order. */
  function KeepSafe(s: string): (r: string)
    ensures forall c <- r :: Kept(c)
    ensures |r| <= |s|
  {
    if |s| == 0 then [] else (if Kept(s[0]) then [s[0]] else []) + KeepSafe(s[1..])
  }

  lemma {:induction false} KeepSafeAppend(a: string, b: string)
    ensures KeepSafe(a + b) == KeepSafe(a) + KeepSafe(b)
  {
    if |a| > 0 {
      KeepSafeAppend(a[1..], b);
      assert (a + b)[1..] == a[1..] + b;
    } else {
      assert a + b == b;
    }
  }

  /** A string of kept characters passes through unchanged. */
  lemma {:induction false} KeepSafeOfKept(s: string)
    requires forall c <- s :: Kept(c)
    ensures KeepSafe(s) == s
  {
    if |s| > 0 {
      assert forall c <- s[1..] :: c in s;
      KeepSafeOfKept(s[1..]);
    }
  }

  /** `s.rstrip()`: drop trailing whitespace. */
  function RStrip(s: string): (r: string)
    ensures r <= s
    ensures forall i :: |r| <= i < |s| ==> IsSpace(s[i])
    ensures |r| == 0 || !IsSpace(r[|r| - 1])
  {
    if |s| == 0 || !IsSpace(s[|s| - 1]) then s else RStrip(s[..|s| - 1])
  }

  /** The file-name stem derived from a notebook name: only kept
      characters, in their order, and no trailing space. */
  function SafeName(name: string): (r: string)
    ensures forall c <- r :: Kept(c)
    ensures r <= KeepSafe(name)
    ensures forall i :: |r| <= i < |KeepSafe(name)| ==> KeepSafe(name)[i] == ' '
    ensures |r| == 0 || r[|r| - 1] != ' '
  {
    var kept := KeepSafe(name);
    var r := RStrip(kept);
    assert forall i :: |r| <= i < |kept| ==> kept[i] == ' ' by {
      forall i | |r| <= i < |kept| ensures kept[i] == ' ' {
        assert Kept(kept[i]) && IsSpace(kept[i]);
      }
    }
    assert forall c <- r :: Kept(c) by {
      forall c <- r ensures Kept(c) {
        var j :| 0 <= j < |r| && r[j] == c;
        assert kept[j] == c;
      }
    }
    r
  }

  /** Sanitising a sanitised name changes nothing. */
  lemma SafeNameIdempotent(name: string)
    ensures SafeName(SafeName(name)) == SafeName(name)
  {
    var r := SafeName(name);
    KeepSafeOfKept(r);
  }

  /** The kept characters are drawn from the input, in order. */
  lemma {:induction false} KeepSafeIsSubsequence(s: string)
    ensures IsSubsequence(KeepSafe(s), s)
  {
    if |s| > 0 {
      KeepSafeIsSubsequence(s[1..]);
      if Kept(s[0]) {
        assert KeepSafe(s)[1..] == KeepSafe(s[1..]);
      } else {
        assert KeepSafe(s) == KeepSafe(s[1..]);
        if |KeepSafe(s)| > 0 {
          assert Kept(KeepSafe(s)[0]);
        }
      }
    }
  }

  /** The safe name only drops characters of the notebook name. */
  lemma SafeNameIsSubsequence(name: string)
    ensures IsSubsequence(SafeName(name), name)
  {
    KeepSafeIsSubsequence(name);
    SubsequencePrefix(SafeName(name), KeepSafe(name), name);
  }

  /** The default file of a notebook podcast. */
  function NotebookFileName(notebookName: string): string {
    "podcast_" + SafeName(notebookName) + ".mp3"
  }

  /** `if not output_path`: the caller's path when truthy, else the
      default name under the temporary directory. */
  function OutputPath(given: Option<string>, tempDir: string, default: string): (p: string)
    ensures Truthy(given) ==> p == given.value
    ensures !Truthy(given) ==> p == Join(tempDir, default)
  {
    if Truthy(given) then given.value else Join(tempDir, default)
  }

  // ---------------------------------------------------------------------
  // The three generation flows

  /** The generator call: a failure it raises is caught and re-raised as a
      processing failure. */
  function Generate(engine: Engine, job: Job): (r: Result<Job>)
    ensures r.Ok? <==> engine.succeeds
    ensures r.Ok? ==> r.value == job
    ensures r.Err? ==> r.error == Processing(GenerateFailed, None)
  {
    if engine.succeeds then Ok(job) else Err(Processing(GenerateFailed, None))
  }

  /** `generate_from_sources()`: the generator is imported first; then the
      sources with text become items; an empty list is a processing failure
      that the surrounding `try` wraps once more. */
  function FromSources(sources: seq<SourceData>, output: Option<string>, tempDir: string, engine: Engine): (r: Result<Job>)
    ensures !engine.installed ==> r == Err(Processing(LibraryMissing, None))
    ensures engine.installed && SourceItems(sources) == [] ==>
      r == Err(Processing(GenerateFailed, Some(Processing(NoSourceContent, None))))
    ensures engine.installed && SourceItems(sources) != [] ==> (r.Ok? <==> engine.succeeds)
    ensures engine.installed && SourceItems(sources) != [] && !engine.succeeds ==> r == Err(Processing(GenerateFailed, None))
    ensures r.Ok? ==> r.value.items == SourceItems(sources) && r.value.items != []
    ensures r.Ok? ==> r.value.output == OutputPath(output, tempDir, SourcesFileName(|r.value.items|))
    ensures r.Ok? ==>
      r.value.config == Config("educational", WordCount(SourcesWordCap, r.value.items), "Open Notebook Podcast", DefaultTagline)
  {
    if !engine.installed then Err(Processing(LibraryMissing, None))
    else
      var items := SourceItems(sources);
      if items == [] then Err(Processing(GenerateFailed, Some(Processing(NoSourceContent, None))))
      else
        var path := OutputPath(output, tempDir, SourcesFileName(|items|));
        Generate(engine, Job(path, items, Config("educational", WordCount(SourcesWordCap, items), "Open Notebook Podcast", DefaultTagline)))
  }

  /** `generate_from_notes()`: every note becomes an item. */
  function FromNotes(notes: seq<Object>, output: Option<string>, tempDir: string, engine: Engine): (r: Result<Job>)
    requires forall o <- notes :: o.body.NoteBody?
    ensures !engine.installed ==> r == Err(Processing(LibraryMissing, None))
    ensures engine.installed && notes == [] ==>
      r == Err(Processing(GenerateFailed, Some(Processing(NoNoteContent, None))))
    ensures engine.installed && notes != [] ==> (r.Ok? <==> engine.succeeds)
    ensures engine.installed && notes != [] && !engine.succeeds ==> r == Err(Processing(GenerateFailed, None))
    ensures r.Ok? ==> r.value.items == NoteItems(notes) && |r.value.items| == |notes|
    ensures r.Ok? ==> r.value.output == OutputPath(output, tempDir, NotesFileName(|notes|))
    ensures r.Ok? ==>
      r.value.config == Config("conversational", WordCount(NotesWordCap, r.value.items), "Open Notebook Notes", "Your notes in podcast form")
  {
    if !engine.installed then Err(Processing(LibraryMissing, None))
    else
      var items := NoteItems(notes);
      if items == [] then Err(Processing(GenerateFailed, Some(Processing(NoNoteContent, None))))
      else
        var path := OutputPath(output, tempDir, NotesFileName(|items|));
        Generate(engine, Job(path, items, Config("conversational", WordCount(NotesWordCap, items), "Open Notebook Notes", "Your notes in podcast form")))
  }

  /** The notebook's items: its sources with text, then all its notes,
      each part only when asked for. A failing lookup is re-raised as a
      processing failure. */
  function NotebookItems(s: Store, nb: Object, includeSources: bool, includeNotes: bool): (r: Result<seq<Item>>)
    ensures !includeSources && !includeNotes ==> r.Ok? && r.value == []
    ensures r.Ok? <==> (includeSources ==> GetSources(s, nb).Ok?) && (includeNotes ==> NotebookNotes(s, nb).Ok?)
    ensures includeSources && GetSources(s, nb).Err? ==>
      r == Err(Processing(GenerateFailed, Some(GetSources(s, nb).error)))
    ensures (includeSources ==> GetSources(s, nb).Ok?) && includeNotes && NotebookNotes(s, nb).Err? ==>
      r == Err(Processing(GenerateFailed, Some(NotebookNotes(s, nb).error)))
    ensures r.Ok? ==>
      && (includeSources ==> GetSources(s, nb).Ok?)
      && (includeNotes ==> NotebookNotes(s, nb).Ok?)
      && r.value ==
         (if includeSources then TaggedSourceItems(GetSources(s, nb).value) else []) +
         (if includeNotes then TaggedNoteItems(NotebookNotes(s, nb).value) else [])
    ensures r.Err? ==> r.error.Processing? && r.error.reason == GenerateFailed
  {
    var sources := if includeSources then GetSources(s, nb) else Ok([]);
    var notes := if includeNotes then NotebookNotes(s, nb) else Ok([]);
    if sources.Err? then Err(Processing(GenerateFailed, Some(sources.error)))
    else if notes.Err? then Err(Processing(GenerateFailed, Some(notes.error)))
    else Ok(TaggedSourceItems(sources.value) + TaggedNoteItems(notes.value))
  }

  /** `generate_from_notebook()`: the items are gathered before the
      generator is imported, so a lookup failure or an empty notebook is
      reported even without it; the tagline falls back to a fixed line. */
  function FromNotebook(s: Store, nb: Object, includeSources: bool, includeNotes: bool,
                        output: Option<string>, tempDir: string, engine: Engine): (r: Result<Job>)
    requires nb.body.NotebookBody?
    ensures NotebookItems(s, nb, includeSources, includeNotes).Err? ==>
      r == Err(NotebookItems(s, nb, includeSources, includeNotes).error)
    ensures NotebookItems(s, nb, includeSources, includeNotes) == Ok([]) ==>
      r == Err(Processing(GenerateFailed, Some(Processing(NoNotebookContent, None))))
    ensures NotebookItems(s, nb, includeSources, includeNotes).Ok? && NotebookItems(s, nb, includeSources, includeNotes).value != [] ==>
      && (!engine.installed ==> r == Err(Processing(LibraryMissing, None)))
      && (engine.installed ==> (r.Ok? <==> engine.succeeds))
      && (engine.installed && !engine.succeeds ==> r == Err(Processing(GenerateFailed, None)))
    ensures r.Ok? ==> NotebookItems(s, nb, includeSources, includeNotes) == Ok(r.value.items) && r.value.items != []
    ensures r.Ok? ==> var d := nb.body.notebookData;
      && r.value.output == OutputPath(output, tempDir, NotebookFileName(d.name))
      && r.value.config == Config("educational", WordCount(NotebookWordCap, r.value.items),
                                  "Open Notebook: " + d.name,
                                  if Truthy(d.description) then d.description.value else DefaultTagline)
  {
    var items :- NotebookItems(s, nb, includeSources, includeNotes);
    if items == [] then Err(Processing(GenerateFailed, Some(Processing(NoNotebookContent, None))))
    else
      var d := nb.body.notebookData;
      var path := OutputPath(output, tempDir, NotebookFileName(d.name));
      if !engine.installed then Err(Processing(LibraryMissing, None))
      else
        var tagline := if Truthy(d.description) then d.description.value else DefaultTagline;
        Generate(engine, Job(path, items, Config("educational", WordCount(NotebookWordCap, items), "Open Notebook: " + d.name, tagline)))
  }

  /** Asking for neither part always fails for lack of content, even when
      the store is unreachable. */
  lemma NothingRequestedIsEmpty(s: Store, nb: Object, output: Option<string>, tempDir: string, engine: Engine)
    requires nb.body.NotebookBody?
    ensures FromNotebook(s, nb, false, false, output, tempDir, engine)
      == Err(Processing(GenerateFailed, Some(Processing(NoNotebookContent, None))))
  {
  }
}
