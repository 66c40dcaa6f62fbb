# Open Notebook core, modelled in Dafny

This project models the core of Open Notebook, a research-notebook application. The application keeps notebooks, sources, notes, chat sessions and a settings singleton in a graph-oriented document store. The model covers five parts:

- **The generic persistent-object layer** (`Base`):
  - resolving a concrete type from an identifier's table segment, by depth-first search over the calling class's subclass tree;
  - typed reads (`get`, `get_all`);
  - the save lifecycle with its `created`/`updated` timestamps;
  - delete, relate and the embedding probe;
  - the singleton settings record, whose `load` never fails.
- **The domain entities** (`Domain`):
  - notebook–source membership, kept as `notebook_source` edges;
  - notes, contained through their `notebook`/`source` fields;
  - a note's `full_text`, mirrored from `content` when it is saved;
  - the append-only chat log and its context notes;
  - the settings' API-key accessors.
- **The language-model provider registry** (`Providers`):
  - registration from configured keys;
  - first-match lookup from a model name to its provider;
  - availability checks and client-request errors;
  - the chat role mapping and `refresh_settings`.
- **Ingestion** (`Content`):
  - the URL guard, the 10000-character preview and file-type classification by extension;
  - save before link;
  - the request guard of the external document service.
- **Podcast assembly** (`Podcast`):
  - which sources and notes become items, and in what order;
  - the word-count caps, the default output names and notebook-name sanitising;
  - where the generator call sits relative to the error handling.

The store is an abstract state (`Gateway`). It holds:

- the rows by identifier;
- the store's own scan order;
- the list of graph edges;
- an oracle of the keys its next creates will assign;
- an `online` flag. While it is off, every store call raises.

Every operation threads the store through and returns a `Result`. An exception that a `try` block catches and re-raises as another class keeps the caught error inside it (`DatabaseOperation(cause)`, `Processing(reason, caught)`). The model therefore reproduces the source's nesting of errors exactly.

Modules, one per file: `Errors` (errors.dfy), `Text` (text.dfy), `Schema` (schema.dfy), `Gateway` (gateway.dfy), `Base` (base.dfy), `Domain` (domain.dfy), `Providers` (providers.dfy), `Content` (content.dfy), `Podcast` (podcast.dfy).

Three places where a `try` block changes which error a caller sees:

- **`get` errors.** `get` raises `InvalidInputError` for an unknown table and `NotFoundError` for a missing row inside its own `try` (open_notebook/domain/base.py:66-88). Callers therefore see `DatabaseOperationError` wrapping them. `Base.Get`, `Base.GetUnknownTable` and `Base.GetMissingRow` state this wrapped form. Only the empty id is refused unwrapped, before the `try`.
- **`get_sources`.** It resolves every source through `Source.get` inside its own `try` (open_notebook/domain/models.py:21-28). A failing lookup is therefore wrapped twice: `DatabaseOperation(DatabaseOperation(...))`.
- **Podcast "no content" errors.** They are raised inside the same `try` that re-raises every exception as a processing error (open_notebook/processing/podcast.py:34-35, 58-60). They therefore arrive wrapped once more: `Processing(GenerateFailed, Some(Processing(NoSourceContent, None)))`.

## Model

| member | source | states |
|---|---|---|
| Gateway.TableOf | open_notebook/domain/base.py:68 | The table segment never contains `:`, and is the whole identifier when the identifier has no `:` |
| Gateway.TableOfSplits | open_notebook/domain/base.py:68 | When a `:` is present, the table segment is exactly the text before the first `:` |
| Base.FindIsPreOrderFirstMatch | open_notebook/domain/base.py:91-100 | The recursive subclass search returns the first class, in a pre-order walk of the calling class's proper descendants, whose table matches |
| Base.FindSubclassSound | open_notebook/domain/base.py:91-100 | A found class is a descendant declaring the table; no result happens exactly when no descendant declares it |
| Base.ResolveClass | open_notebook/domain/base.py:70-78 | The calling class is used when its table is non-empty and equal to the segment; otherwise the result declares the segment, and no result means no descendant declares it |
| Base.BaseResolvesEveryType | open_notebook/domain/base.py:70-100 | From the untyped base, each concrete type's table resolves to that type's class |
| Base.Get | open_notebook/domain/base.py:63-88 | The empty id, and only the empty id, gives a bare `InvalidInput` before any store call; every other failure is a `DatabaseOperation`; a success means the store was reachable, the row exists, it decodes into the resolved type, and the object's id is the id asked for |
| Base.GetFromLeaf | open_notebook/domain/base.py:70-78 | Reading through a class without subclasses yields an object of that class's own type, carrying the id asked for |
| Base.GetUnknownTable | open_notebook/domain/base.py:74-88 | When neither the calling class nor any descendant declares the table, `get` fails with `DatabaseOperation(InvalidInput(no class for table))`, whatever the store holds |
| Base.GetMissingRow | open_notebook/domain/base.py:80-88 | A resolvable id without a row fails with `DatabaseOperation(NotFound(id))` |
| Base.GetIgnoresOtherRows | open_notebook/domain/base.py:80-88 | `get` depends only on reachability and the one row it reads: stores that agree on those answer alike |
| Base.DecodeEach | open_notebook/domain/base.py:49-56 | Rows that fail to decode are skipped without aborting; every decodable listed row is kept, as it decodes; the result's ids are a subsequence of the listed ids, so the listed order is kept |
| Base.GetAll | open_notebook/domain/base.py:31-60 | On the untyped base it fails with a wrapped `InvalidInput`; otherwise it succeeds exactly when the store is reachable; it returns exactly the decodable rows of the calling class's table, as they decode, with ids in scan order; in a store whose scan order lists each row once, no object repeats |
| Base.GetAllAgreesWithGet | open_notebook/domain/base.py:31-88 | Every object a scan returns is what `get` returns for its id |
| Base.SaveData | open_notebook/domain/models.py:108-113 | The payload carries every field but the id; a note with an empty or unset `full_text` is written with its `content` there; otherwise the body is unchanged |
| Base.Save | open_notebook/domain/base.py:110-128 | A new object gets `created == updated == now`; when create answers nothing (no key left) the object keeps no id and the store is unchanged; otherwise it adopts exactly the id the store assigned, in its own table, and the stored row is the save payload, unless that id was taken, which fails; an existing object changes only `updated` and its row is rewritten; a store failure is a `DatabaseOperation` that leaves the store as it was; edges never change |
| Base.SaveThenGet | open_notebook/domain/base.py:110-128 | Reading back a freshly created object, through its class or through the base, returns it as saved |
| Base.Delete | open_notebook/domain/base.py:134-143 | Without an id, it raises `InvalidInput` with no store call; a success answers true and removes only that row; edges stay |
| Base.DeleteThenGet | open_notebook/domain/base.py:134-143 | After a delete, the id reads as a wrapped `NotFound` |
| Base.Relate | open_notebook/domain/base.py:145-157 | An empty relation, a missing target or an unsaved object raises `InvalidInput` with no store call; otherwise it succeeds exactly when the store is reachable, adding exactly one edge from this object, and fails with `DatabaseOperation(StoreFailure)` |
| Base.NeedsEmbeddingIffContent | open_notebook/domain/base.py:102-108 | An object needs embedding exactly when it has embedding content |
| Base.SavedNoteNeedsEmbedding | open_notebook/domain/models.py:108-113 | A note read back after its first save always needs embedding, because the mirrored `full_text` is set |
| Base.LoadRecord | open_notebook/domain/base.py:183-193 | `load` never fails: it returns the stored settings when the row is present and valid, and the defaults otherwise |
| Base.SaveRecord | open_notebook/domain/base.py:171-181 | `save`/`update` upsert the record under its fixed id and change nothing else; a failure is a `DatabaseOperation` |
| Base.SaveRecordThenLoad | open_notebook/domain/base.py:171-193 | What is saved is what loads, and saving twice keeps a single record |
| Domain.SourceIdsOf | open_notebook/domain/models.py:22-24 | Exactly the targets of the `notebook_source` edges leaving the notebook |
| Domain.NotebookIdsOf | open_notebook/domain/models.py:80-82 | Exactly the origins of the `notebook_source` edges arriving at the source |
| Domain.MembershipIsSymmetric | open_notebook/domain/models.py:19-86 | A notebook lists a source exactly when that source lists the notebook |
| Domain.GetEach | open_notebook/domain/models.py:25 | The list comprehension succeeds exactly when every `get` does; it keeps order and length, and an error is the error of some element's `get` |
| Domain.GetSources | open_notebook/domain/models.py:19-28 | An unreachable store fails with a wrapped store error; otherwise the call succeeds exactly when `Source.get` succeeds for every membership edge's target, and then element `i` is what `Source.get` returns for the `i`-th target, in edge order; a failing lookup's error is returned wrapped once more |
| Domain.GetNotebooks | open_notebook/domain/models.py:77-86 | The inverse traversal, with the same guarantees, through `Notebook.get` |
| Domain.AddSource | open_notebook/domain/models.py:39-43 | An unsaved source is saved first, and a failed save is returned as it is; the call succeeds exactly when the save (if any) succeeded, the store is reachable and both the notebook and the source have an id; then exactly one edge from the notebook to the source is appended; a missing id fails with `InvalidInput`, an unreachable store with `DatabaseOperation(StoreFailure)` |
| Domain.AddSourceThenList | open_notebook/domain/models.py:39-43 | After adding, the notebook lists the source last and the source lists the notebook last |
| Domain.LinkFreshPair | open_notebook/domain/models.py:19-86 | For a fresh notebook and source, after linking, each lists exactly the other |
| Domain.RemoveSource | open_notebook/domain/models.py:45-53 | Only membership edges between the two are removed; no record changes; afterwards the source is not listed |
| Domain.SelectedIds | open_notebook/domain/models.py:33 | The `WHERE` clause keeps exactly the listed rows whose raw field equals the target, in the order listed |
| Domain.DecodeNotes | open_notebook/domain/models.py:34 | The comprehension over the returned rows succeeds exactly when every one validates as a note, and then yields one note per row, in order, as it decodes |
| Domain.CollectNotes | open_notebook/domain/models.py:33-34 | Succeeds exactly when every row the `WHERE` clause selects validates as a note, and otherwise fails with a decode error; a success lists exactly the selected rows, as they decode, in the order scanned |
| Domain.SelectsDecoded | open_notebook/domain/models.py:33-34 | On a row that validates, the `WHERE` clause on the stored row and the foreign key of the decoded note agree |
| Domain.LinkedNotes | open_notebook/domain/models.py:30-37 | An unreachable store fails with a wrapped store error; otherwise the call succeeds exactly when every selected row of the note table validates, and otherwise fails with `DatabaseOperation(DecodeFailure)`; a success returns only notes of the note table matching the link, every such note, in scan order |
| Domain.LinkedNotesAgreeWithGet | open_notebook/domain/models.py:30-37 | Every note a query returns is what `Note.get` reads for its id |
| Domain.NotebookNotes | open_notebook/domain/models.py:30-37 | Succeeds exactly when the store is reachable and every note row naming this notebook validates; then exactly the notes whose `notebook` field is this notebook's id |
| Domain.SourceNotes | open_notebook/domain/models.py:68-75 | Succeeds exactly when the store is reachable and every note row naming this source validates; then exactly the notes whose `source` field is this source's id |
| Domain.OwningNotebook | open_notebook/domain/models.py:98-100 | Exactly what `Notebook.get` answers for the note's `notebook` id: a notebook under that id, or its error |
| Domain.OwningNotebookAfterSave | open_notebook/domain/models.py:98-100 | A note naming a freshly created notebook finds that notebook as saved |
| Domain.OrphanedNote | open_notebook/domain/models.py:98-100 | Deleting a notebook does not cascade: its notes' lookup then fails with a wrapped `NotFound` |
| Domain.NoteSource | open_notebook/domain/models.py:102-106 | The result is `None` exactly when `source` is unset or empty; otherwise it is `Source.get` of that id, success and error alike |
| Domain.AddMessage | open_notebook/domain/models.py:129-135 | Exactly one entry, with the given role, content and stamp, is appended; earlier messages and every other field are unchanged |
| Domain.LogIsAppendOnly | open_notebook/domain/models.py:129-135 | Any run of additions keeps the earlier log as a prefix and grows it by the number of additions |
| Domain.InsertByCreated | open_notebook/domain/models.py:143 | Inserting a row id keeps the list newest first by stored `created`, and is a permutation of the list plus the new id |
| Domain.SortByCreated | open_notebook/domain/models.py:143 | `ORDER BY created DESC` gives a newest-first permutation of the row ids, comparing the rows' stored timestamps |
| Domain.SortedPrefix | open_notebook/domain/models.py:143 | The first `k` sorted ids are newest first, drawn from the input, and not older than those left behind |
| Domain.Newest | open_notebook/domain/models.py:143 | `LIMIT n` after the sort: `min(n, count)` row ids, newest first, none older than any id left out |
| Domain.ContextIds | open_notebook/domain/models.py:142-144 | The ordered, limited query returns `min(limit, count)` of the notebook's selected note rows, newest first, none older than a row left out; a limit below one returns none |
| Domain.ContextNotes | open_notebook/domain/models.py:137-148 | At most `limit` notes, all from the session's notebook, newest first; an unreachable store, or one returned row that does not validate, gives `[]` rather than raising; when every returned row validates, exactly their decodings in query order. Rows beyond the limit are never validated |
| Domain.ContextNotesAreNewestLinked | open_notebook/domain/models.py:137-148 | When `get_notes` succeeds, the context notes are as many of its notes as the limit allows, drawn from them, and no note left out is newer than one returned |
| Domain.InvalidRowBeyondLimit | open_notebook/domain/models.py:137-148 | With a valid note newer than a non-note row of the same notebook, `get_notes` fails while a limit of one returns that note |
| Domain.ApiKeyIgnoresCase | open_notebook/domain/models.py:166-172 | Asking for a provider's key under any capitalisation gives what asking in lower case gives, for both `get_api_key` and `has_api_key` |
| Domain.HasApiKey | open_notebook/domain/models.py:171-172 | True exactly when the name lower-cases to "gemini" and a non-empty Gemini key is set |
| Domain.DefaultsHaveGeminiKey | open_notebook/domain/models.py:153-172 | The default settings report a Gemini key when asked as "gemini" or "GEMINI", and none for "openai" |
| Providers.ProviderNamesDistinct | open_notebook/ai/models.py:181-194 | The registry keys of distinct providers differ |
| Providers.CataloguesDisjoint | open_notebook/ai/models.py:51-165 | No model name is in two providers' catalogues |
| Providers.MakerOwns | open_notebook/ai/models.py:51-165 | Each catalogued name's leading letters identify its provider |
| Providers.Register | open_notebook/ai/models.py:179-194 | Of the providers tried, exactly those with a truthy key are registered, each with that key and configured |
| Providers.InitializeProviders | open_notebook/ai/models.py:179-194 | A provider is registered exactly when its key is truthy, with that key |
| Providers.GeminiRegisteredIffKeyed | open_notebook/ai/models.py:187-188 | The settings report a Gemini key (`has_api_key("gemini")`) exactly when the registry registers Gemini |
| Providers.RegisterKeepsOrder | open_notebook/ai/models.py:179-194 | Registration follows the fixed provider order and never registers a provider twice |
| Providers.NewManager | open_notebook/ai/models.py:174-177 | A new manager holds the loaded settings and the providers registered from them |
| Providers.Refresh | open_notebook/ai/models.py:270-274 | A refresh reloads the settings and registers providers afresh from them |
| Providers.RefreshForgetsOldProviders | open_notebook/ai/models.py:270-274 | A refresh yields the same registry whatever was registered before, namely the one a fresh manager builds |
| Providers.OwnerIndex | open_notebook/ai/models.py:222-227 | The first registered provider whose catalogue lists the name; none before it lists the name |
| Providers.ProviderForModel | open_notebook/ai/models.py:222-227 | The result is `None` exactly when no registered provider lists the name; otherwise it is the first registered provider that lists it |
| Providers.OwnerIsUnique | open_notebook/ai/models.py:222-227 | Since the catalogues are disjoint, any registered provider listing the name is the one found |
| Providers.IsModelAvailable | open_notebook/ai/models.py:233-238 | Available implies some registered, configured provider lists the name; when all registered providers are configured, availability is exactly that some provider lists it |
| Providers.AvailableIffKeyed | open_notebook/ai/models.py:179-238 | For a manager built from settings, a model is available exactly when a provider with a truthy key offers it |
| Providers.GetAvailableModels | open_notebook/ai/models.py:196-202 | Exactly the configured registered providers, each with its catalogue, in registration order |
| Providers.GetConfiguredProviders | open_notebook/ai/models.py:229-231 | Exactly the names of the configured registered providers |
| Providers.ConfiguredAreRegistered | open_notebook/ai/models.py:229-231 | When every registered provider is configured, the configured names are all the registered names, in order |
| Providers.GetModelClient | open_notebook/ai/models.py:204-220 | A name no provider owns gives `Configuration(no provider)`; an unconfigured owner gives `Configuration(not configured)`; success happens exactly when the model is available; the token limit is the argument when given, else the settings' limit |
| Providers.ConvertMessages | open_notebook/ai/models.py:248-261 | One message per entry, in order: system and assistant map to their kinds and anything else, a missing role included, to a user message; missing content is "" |
| Providers.ChatRequest | open_notebook/ai/models.py:240-245 | The model is the argument when truthy, else the default model; the request succeeds exactly when that model is available, and failures are configuration errors |
| Providers.DefaultKeys | open_notebook/domain/models.py:153 | Of the default settings' keys, only Gemini's is set |
| Providers.DefaultsOfferGeminiOnly | open_notebook/ai/models.py:179-238 | When the store is unreachable, `load` falls back to the defaults, and then exactly the Gemini models are available |
| Providers.DefaultsAcceptChat | open_notebook/ai/models.py:240-245 | When the store is unreachable, a chat with no model named is accepted, since the default model is a Gemini model |
| Content.Ingest | open_notebook/processing/content.py:44-57 | Save, then the notebook lookup, then the link: after both succeed the result is `add_source`'s, its failure re-raised as a processing error; any failure is a processing error carrying what was raised, and earlier store changes are not undone |
| Content.IngestLinksFreshSource | open_notebook/processing/content.py:44-50 | On a reachable store with a free key, a new source bound for an existing notebook is saved under the assigned id and listed last by that notebook |
| Content.FailedLinkKeepsSource | open_notebook/processing/content.py:44-48 | When the notebook lookup fails, the new source stays saved and unlinked |
| Content.UrlSource | open_notebook/processing/content.py:31-42 | The title falls back to the URL; the preview is the first `min(10000, length)` characters; `full_text` is the whole page; the metadata holds the content type (empty when the reply has none), the status and the URL |
| Content.ProcessUrl | open_notebook/processing/content.py:18-57 | An empty or non-web URL is refused with `InvalidInput` before any fetch; a failed fetch is a processing error that changes nothing; after a fetch the outcome is ingestion's, whose failures are `Processing(ProcessFailed, caught)` keeping earlier store changes; a success is the page's source |
| Content.ProcessUrlIngests | open_notebook/processing/content.py:18-50 | A fetched page from a valid URL, for an existing notebook on a reachable store with a free key, is ingested under the assigned id and listed last by the notebook |
| Content.InvalidUrlFetchesNothing | open_notebook/processing/content.py:20-21 | A refused URL's outcome does not depend on any reply, and the store is unchanged |
| Content.ClassifyIgnoresCase | open_notebook/processing/content.py:71-91 | A name and its lower-cased form are classified alike |
| Content.UpperCaseDocument | open_notebook/processing/content.py:91 | A name ending in `.PDF` is a document |
| Content.FileSource | open_notebook/processing/content.py:64-117 | Every upload has a document and records its name, byte size and kind; only text files keep their text (10000-character preview) and count as processed |
| Content.ProcessFile | open_notebook/processing/content.py:60-129 | The outcome is ingestion of the classified source: every failure is `Processing(ProcessFailed, caught)` keeping earlier store changes; a success is the classified source |
| Content.ProcessFileIngests | open_notebook/processing/content.py:60-129 | An upload of any kind, for an existing notebook on a reachable store with a free key, is ingested under the assigned id and listed last by the notebook |
| Content.TextSource | open_notebook/processing/content.py:138-147 | Preview prefix, full text, and `content_length` equal to the text's length |
| Content.ProcessText | open_notebook/processing/content.py:132-159 | Whitespace-only text is refused with `InvalidInput` before the store is touched; other text has ingestion's outcome, failures being `Processing(ProcessFailed, caught)` |
| Content.ProcessTextIngests | open_notebook/processing/content.py:132-159 | Non-blank text, for an existing notebook on a reachable store with a free key, is ingested under the assigned id and listed last by the notebook |
| Content.ServiceFallback | open_notebook/processing/content.py:165-187 | With the constructor's fallbacks, the service is available exactly when the caller or the settings give a truthy base URL, and a request carries the bearer header exactly when the caller or the settings give a truthy key |
| Content.ServiceRequest | open_notebook/processing/content.py:179-221 | Only a service with a truthy base URL sends a request; it carries a bearer header exactly when the key is truthy |
| Content.UnconfiguredServiceSendsNothing | open_notebook/processing/content.py:181-182 | An unconfigured service's answer does not depend on any reply |
| Text.Words | open_notebook/processing/podcast.py:47 | `split()` yields non-empty, whitespace-free words that together hold exactly the non-whitespace characters, in order |
| Text.WordCountIsRunCount | open_notebook/processing/podcast.py:47 | The number of words is the number of maximal non-whitespace runs |
| Text.Take | open_notebook/processing/content.py:34 | `text[:10000]` is a prefix of the text whose length is the smaller of the limit and the text's length |
| Text.DecimalInjective | open_notebook/processing/podcast.py:39 | Different counts render differently |
| Podcast.SourceItems | open_notebook/processing/podcast.py:25-32 | Source items are at most as many as the sources, each with non-empty content |
| Podcast.SourceItemsMembers | open_notebook/processing/podcast.py:25-32 | Every item comes from a source with truthy `full_text`, and every such source gives one |
| Podcast.SourceItemsAppend | open_notebook/processing/podcast.py:26-32 | Filtering distributes over concatenation, so the input order is kept |
| Podcast.NoteItems | open_notebook/processing/podcast.py:68-74 | Every note becomes an item, in order, titled with its id (or `None`), with its content and metadata |
| Podcast.TaggedSourceItems | open_notebook/processing/podcast.py:110-119 | Notebook source items are at most as many as the sources, each tagged `source` and with non-empty content |
| Podcast.TaggedSourceItemsAgree | open_notebook/processing/podcast.py:110-119 | The notebook flow keeps the same sources, in the same order, as the source flow; only the title prefix and the tag differ |
| Podcast.TaggedNoteItems | open_notebook/processing/podcast.py:122-129 | Every note becomes an item tagged `note`, in order |
| Podcast.WordCount | open_notebook/processing/podcast.py:47 | The word budget is at most the cap and at most the total word count, and equals one of them |
| Podcast.WordTotalAppend | open_notebook/processing/podcast.py:47 | The word total of a concatenation is the sum of the parts' totals |
| Podcast.DefaultNamesDistinct | open_notebook/processing/podcast.py:38-39 | Default names tell item counts apart, and a sources name never equals a notes name |
| Podcast.KeepSafe | open_notebook/processing/podcast.py:136 | Only kept characters remain |
| Podcast.KeepSafeAppend | open_notebook/processing/podcast.py:136 | The character filter distributes over concatenation |
| Podcast.KeepSafeOfKept | open_notebook/processing/podcast.py:136 | A string of kept characters passes the filter unchanged |
| Podcast.KeepSafeIsSubsequence | open_notebook/processing/podcast.py:136 | The filter only drops characters, keeping the rest in order |
| Podcast.RStrip | open_notebook/processing/podcast.py:136 | `rstrip()` gives a prefix without trailing whitespace, having dropped only whitespace |
| Podcast.SafeName | open_notebook/processing/podcast.py:136 | The safe name has only kept characters, is a prefix of the filtered name differing from it by trailing spaces only, and has no trailing space |
| Podcast.SafeNameIdempotent | open_notebook/processing/podcast.py:136 | Sanitising a safe name changes nothing |
| Podcast.SafeNameIsSubsequence | open_notebook/processing/podcast.py:136 | The safe name only drops characters of the notebook name |
| Podcast.FromSources | open_notebook/processing/podcast.py:19-60 | A missing library fails first; no items gives a wrapped "no content" error; a success carries the filtered items, the count-based default name, and the educational configuration with the word budget capped at 2000 |
| Podcast.FromNotes | open_notebook/processing/podcast.py:62-102 | A missing library fails first; no notes gives a wrapped error; a success carries one item per note and the conversational configuration capped at 1500 |
| Podcast.NotebookItems | open_notebook/processing/podcast.py:106-129 | Succeeds exactly when each requested lookup succeeds, giving the filtered sources when asked for followed by all notes when asked for; a failing source lookup, else a failing notes lookup, is re-raised as a processing error carrying it |
| Podcast.FromNotebook | open_notebook/processing/podcast.py:104-160 | Items are gathered before the library is imported; an empty list gives a wrapped "no content" error; with items and the library, it succeeds exactly when the generator does, and a generator failure is a processing error; the default name is the sanitised notebook name; the cap is 3000; the tagline falls back to a fixed line when the description is not truthy |
| Podcast.NothingRequestedIsEmpty | open_notebook/processing/podcast.py:107-132 | Asking for neither part always fails for lack of content, even with the store unreachable |

## Left out

- The document store itself (`open_notebook/database/repository.py`) is not part of this model. `Gateway` stands in for it: a row map, a scan order, an edge list, a key oracle and an `online` flag. Query strings are not modelled. Three choices were made for that abstract store:
  - creating an identifier that already exists fails;
  - updating an absent identifier changes nothing;
  - deleting a row leaves its edges in place.
- The `online` flag stands for any fault of a store call. Per-call faults, such as one call failing while the next succeeds, are not modelled.
- Base.GetAll: the `order_by` argument is not modelled; the scan returns rows in the store's own order.
- Base.Get: an identifier without `:` is looked up as a key, and fails with a wrapped `NotFound` when no row is stored under it. In the source its query then names a whole table and returns that table's first row, under the row's own id. Identifiers the store assigns always contain `:`, so the model keeps the key lookup.
- Error messages are abstracted into the `Why` tags. Logging is not modelled.
- The text of caught exceptions inside `Processing` is kept as an error value where the model has one, and as `None` for foreign failures.
- Pydantic validation becomes `Base.Decode`: a row decodes exactly when it is an object row of the requested type. A row no schema accepts (`Gateway.Corrupt`) keeps its raw fields, which a `WHERE` clause still compares. Field-level validation and `parse_datetime` (open_notebook/domain/base.py:159-164) are not modelled.
- Timestamps are opaque integers passed in as `now`. A chat message's ISO timestamp is passed in as a string.
- Settings: the class declares only a Gemini key, while the registry and the document-service constructor read further key and URL attributes. The model gives every provider a key through an abstract provider-to-key map. The document service's configured URL and key are parameters of `Content.NewService`.
- Settings: the built-in Gemini key literal and the store credentials are not modelled. `default_temperature` is not modelled.
- `table_name` and `record_id` are per-type constants.
- Providers.GetModelClient: temperature, and all other floats, are not modelled.
- The language-model clients, `client.invoke` and the completion's answer are not modelled. `Providers.ChatRequest` stops at the request the call would make.
- The global `model_manager` instance, created at import time, is not modelled.
- The factory functions `get_content_processor`, `get_esperanto_processor` and `get_podcast_generator` only construct objects and are not modelled.
- HTTP (`requests`): the reply is an input of the model (`Content.Reply`), and no request is made. Timeouts and the `User-Agent` header are not modelled.
- Content.ServiceCall: JSON decoding of the reply is not modelled. Neither is opening the local file in `process_file`, whose failure would propagate unwrapped.
- UTF-8 and latin-1 decoding of uploads is not modelled. An upload carries its decoded text and its byte size.
- Text.Lower: only ASCII letters are lower-cased. This is exact for the comparisons made, with "gemini" and the file extensions.
- Podcast.KeepSafe: `isalnum` is modelled for ASCII letters and digits only. Non-ASCII letters and digits, which Python keeps, are dropped here.
- Podcast.RStrip: after the filter, only the space can be trailing whitespace. `RStrip` is the general whitespace version, so nothing is lost.
- Podcast.Join: joining the temporary directory and the file name is string concatenation with `/`. Path normalisation is not modelled.
- The temporary-directory creation in `PodcastGenerator.__init__` and `cleanup_temp_files` (file ages, deletion) are file-system I/O and are not modelled.
- Podcast.Generate: what `podcastfy` produces, and whether it can be imported, are inputs (`Podcast.Engine`).
- Domain.ContextNotes: a negative `limit` yields the empty list. The order among rows with equal `created` is the model's insertion-sort order, whereas in the source the store decides. A row that no schema accepts sorts as if it had no `created` value. The `query` argument is unused in the source and is left out.
- The `ProcessingError` and `ConfigurationError` classes are raised and imported but not defined in `open_notebook/exceptions.py`. They are modelled as error kinds anyway.
- Concurrency is not modelled; the source has none.
