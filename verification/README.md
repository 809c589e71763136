# DeepSource workspace core in Dafny

DeepSource is a browser workspace for investigators. The user uploads case documents. An extraction service reads each document and returns the people, organizations, locations, dates and events it mentions, plus a summary. The workspace merges those mentions into one entity store, deduplicated across documents. It shows the store in two views: a document–entity graph, filtered per category, and a chronological timeline of the DATE entities. When the user asks a question, the chat assistant receives a context built from the analyzed documents and the entities that cite them.

This project models that core:

- `types.dfy`, module `Types`: the records, namely entity, case file, mention, analysis result and the five categories. It also defines `Truthy`, which is JavaScript truthiness of an optional string.
- `text.dfy`, module `Text`: `toLowerCase` and the id slug `name.toLowerCase().replace(/\s+/g, '-')`.
- `merge.dfy`, module `Merge`: the merge engine. It folds one document's mentions into the store.
  - `MergeOne` is one `forEach` step. `MergeAll` is the whole updater.
  - `MergeExtraction` is the imperative loop, proved equal to `MergeAll`.
- `filters.dfy`, module `Filters`: the per-category visibility flags and their toggle.
- `registry.dfy`, module `Registry`: file registration and the status updates `SetStatus` and `MarkAnalyzed`. `Settle` is a file once it has been processed.
- `pipeline.dfy`, module `Pipeline`: the sequential upload pipeline.
  - `MergeUploads` is the store after a whole upload batch.
  - `Midway` is the registry part way through a batch.
  - `Consistent` is the store invariant. A batch preserves it.
- `workspace.dfy`, module `Workspace`: the `App` component's state as a class with fields `files`, `entities` and `filters`.
  - The handlers `HandleFilterChange` and `HandleFileUpload` update that state in place.
  - The upload handler processes its uploads one at a time, in order. Its loop is proved against `Settled` and `MergeUploads`.
- `graph.dfy`, module `Graph`: the graph projection.
  - A node for each analyzed document.
  - A node for each entity whose category is shown and which has an analyzed source document.
  - A link from each of those documents to the entity.
- `timeline.dfy`, module `Timeline`: the timeline.
  - The DATE entities, each annotated with a sort key and a display date.
  - Sorted ascending by key with a stable sort.
- `chat.dfy`, module `Chat`: the chat context. It has one record per analyzed file. Each record lists the entities citing that file as `name (TYPE)`, joined with `", "`.

The model has three parameters for behaviour it does not see:

- The extraction service and the browser file reader together are one function, `analyze: Upload -> Extraction`. It returns the analysis result, or `Failed` when reading or extraction throws.
- `Date.parse` is a function `parse: string -> Option<int>`. `None` stands for `NaN`.
- File ids and upload timestamps (`Math.random`, `Date.now`) come with each `Upload`. `FreshIds` requires the new ids to be distinct from each other and from existing files.

Two consequences of the code are worth stating because they are easy to misread:

- **Timeline position of unparsable dates.** An unparsable date gets the key `0` (components/Timeline.tsx:15-21). So a pre-1970 date, whose key is negative, sorts before it. Unparsable dates are not placed first. `Timeline.UnparsableBetween` states this.
- **Context of a merged entity.** The hit branch never touches `context` (App.tsx:91-97). So the first mention's context stays even when it is empty, and a later non-empty context does not replace it. `Merge.Grows` keeps `context` unchanged.

## Model

| member | source | states |
|---|---|---|
| Text.Lower | App.tsx:89 | lower-casing keeps the length and maps each character on its own (`toLowerCase` on ASCII letters) |
| Text.DropSpaces | App.tsx:100 | removes exactly a leading run of `\s` characters: everything removed is whitespace, and the result is a suffix of the input that does not start with whitespace |
| Text.IsSpace | App.tsx:100 | definition: the characters of the regular-expression class `\s` |
| Text.CollapseSpaces | App.tsx:100 | definition: `replace(/\s+/g, '-')`, which turns each maximal whitespace run into one dash |
| Text.Slug | App.tsx:100 | the id of a new entity is the lower-cased name with whitespace runs replaced by dashes, and it contains no whitespace |
| Text.CollapseSpacesHasNoSpace | App.tsx:100 | the id slug produced by `replace(/\s+/g, '-')` contains no whitespace |
| Text.CollapseSpacesKeepsWords | App.tsx:100 | a name without whitespace is unchanged by the replacement |
| Text.LowerIdempotent | App.tsx:89 | lower-casing twice equals lower-casing once, so the dedup key is stable |
| Merge.FindFrom | App.tsx:89 | the result is the first index at or after `from` whose key matches; `None` means no such index |
| Merge.Find | App.tsx:89 | `find` returns the first entity with the same lower-cased name and category; `None` exactly when none matches |
| Merge.GrowsTransitive | App.tsx:91-97 | the allowed evolution of an entity under merges for one document composes |
| Merge.Absorb | App.tsx:91-97 | the hit branch appends the document id only if it is absent and keeps id, name, category and context; a date changes only from empty, to the incoming non-empty one |
| Merge.Create | App.tsx:99-106 | the miss branch creates an entity with the mention's key whose only source is the current document |
| Merge.MergeOne | App.tsx:87-108 | one mention either absorbs into the first entity with its key or appends a new entity, and the new entity is added exactly when no key matches; other entities are untouched; afterwards the mention is reflected; unique keys and duplicate-free source lists are preserved |
| Merge.MergeAll | App.tsx:84-110 | definition: the updater, which folds the mentions into the store in their order; the `Merge.MergeAll…` lemmas state its properties |
| Merge.MergeExtraction | App.tsx:84-110 | the in-place loop over the copied list computes exactly the fold of `MergeOne` over the mentions in order |
| Merge.FindEntity | App.tsx:89 | the linear search returns the same index as `Find` |
| Merge.MergeAllKeysUnique | App.tsx:84-110 | after a merge no two entities share a dedup key, even when one document mentions a name twice |
| Merge.MergeAllSourcesDistinct | App.tsx:92-94 | no source-document list gains a duplicate |
| Merge.AbsorbedStays | App.tsx:87-108 | a later mention never undoes what an earlier mention recorded |
| Merge.MergeAllAbsorbs | App.tsx:84-110 | after the merge, every mention's entity lists the document, and has a date when the mention brought one |
| Merge.MergeAllKeepsAbsorbed | App.tsx:84-110 | a mention that is already reflected stays reflected through any merge for the same document |
| Merge.MergeAllOfAbsorbed | App.tsx:84-110 | a store that already reflects every mention is returned unchanged |
| Merge.MergeAllIdempotent | App.tsx:84-110 | merging the same extraction for the same document a second time changes nothing |
| Merge.MergeAllGrows | App.tsx:84-110 | a merge never deletes or reorders entities; each existing entity keeps its identity and context, gains the document at most once and keeps a set date; at most one entity is added per mention |
| Merge.MergeAllUntouched | App.tsx:84-110 | an entity whose key no mention carries is left exactly as it was |
| Merge.MergeAllDateOrigin | App.tsx:95-97 | a normalized date changes only when it was empty, and only to the date of a mention with the same key |
| Merge.MergeAllNewEntities | App.tsx:99-106 | every added entity lists only the current document and is the entity created from one of the mentions |
| Merge.MergeAllKeepsSources | App.tsx:92-103 | a merge keeps each existing source list as a prefix of its new one, and each added entity lists only the current document |
| Merge.MergeAllOnlyAddsDoc | App.tsx:92-94 | the only document id a merge introduces is the current document's |
| Merge.HoldsStays | App.tsx:87-108 | the first entity of a key keeps listing a document through one more mention |
| Merge.MergeAllKeepsHolds | App.tsx:84-110 | a recorded document reference survives any later merge |
| Merge.DedupAcrossDocuments | App.tsx:84-110 | two documents mentioning the same key give one entity that lists both documents and keeps the first mention's casing, id and context |
| Merge.CaseInsensitiveKey | App.tsx:89 | "Jane Doe" and "jane doe" of one category share a dedup key |
| Merge.DateBackfillOnce | App.tsx:95-97 | a date arriving later fills an empty date once, and a third date does not replace it |
| Filters.FilterState.Toggle | App.tsx:25-27 | toggling flips the flag of that category and leaves every other flag as it was |
| Filters.AllVisible | App.tsx:17-23 | the initial state shows every category |
| Filters.FilterStateExtensional | types.ts:11 | two filter states that agree on every category are equal |
| Filters.ToggleTwice | App.tsx:25-27 | toggling a category twice restores the original state |
| Registry.Register | App.tsx:48-56 | a new file record takes the upload's id, name, MIME type and time, with status pending and no content |
| Registry.Registered | App.tsx:48-58 | one pending record per upload, in order |
| Registry.SetStatus | App.tsx:66 | every file with the id gets the new status, and every other file and field is unchanged |
| Registry.MarkAnalyzed | App.tsx:112-114 | the file with the id becomes analyzed and holds the summary, and every other file is unchanged |
| Registry.Settle | App.tsx:61-119 | once processed, a file is analyzed and holds the summary exactly when extraction succeeded, and is in error with no content exactly when it failed |
| Registry.Settled | App.tsx:61-120 | every upload of the batch ends settled, in order |
| Registry.AnalyzedFiles | App.tsx:126 | the filter keeps exactly the analyzed files |
| Pipeline.Step | App.tsx:61-120 | definition: one upload's effect on the store, which is the merge of its mentions on success and nothing on failure |
| Pipeline.MergeUploads | App.tsx:44-121 | definition: the store after a batch, with the uploads' steps applied in order; the `Pipeline.MergeUploads…` lemmas state its properties |
| Pipeline.StepSources | App.tsx:61-119 | one upload keeps every entity and its sources, adds only non-empty source lists, and adds only its own id, and only when extraction succeeded |
| Pipeline.MergeUploadsSources | App.tsx:44-121 | a batch keeps every entity and its sources, and only adds references to uploads of the batch whose extraction succeeded |
| Pipeline.UploadErrorIsolation | App.tsx:116-119 | a document whose reading or extraction failed is cited by no entity after the batch |
| Pipeline.MergeUploadsKeysUnique | App.tsx:44-121 | a batch keeps dedup keys unique |
| Pipeline.MergeUploadsSourcesDistinct | App.tsx:44-121 | a batch keeps source lists duplicate-free |
| Pipeline.UploadPreservesConsistency | App.tsx:44-121 | a batch keeps the store invariants: unique keys, non-empty duplicate-free source lists, and every source id names an analyzed file of the extended registry |
| Pipeline.MergeUploadsKeepsHolds | App.tsx:44-121 | a recorded reference survives a whole batch |
| Pipeline.MergeUploadsReflects | App.tsx:61-120 | every mention of a successfully extracted upload ends up in the entity with its key, which lists that upload, whatever failed before or after it |
| Registry.SetStatusAt | App.tsx:66 | with a unique id, the status update rewrites exactly one record |
| Registry.MarkAnalyzedAt | App.tsx:112-114 | with a unique id, the success update rewrites exactly one record |
| Pipeline.MidwayAt | App.tsx:58-63 | during the batch the next upload is pending, and is the only record with its id |
| Pipeline.MidwayNext | App.tsx:61-120 | settling the next upload advances the batch by one |
| Pipeline.Lifecycle | App.tsx:62-119 | in one loop iteration, the upload's record goes from pending to analyzing; it then becomes analyzed with its summary on success, or error on failure; each move is an allowed transition, and the registry reaches the next midway state |
| Workspace.App.constructor | App.tsx:11-23 | a session starts with no files, no entities, every category visible, and the store invariants holding |
| Workspace.App.HandleFilterChange | App.tsx:25-27 | only the filter flags change, by toggling one category |
| Workspace.App.HandleFileUpload | App.tsx:44-121 | the files become the old files followed by every upload settled in order; the entities become the batch merge of the successful extractions; the filters are unchanged; the store invariants are kept |
| Graph.DocNode | App.tsx:149-156 | definition: the node of an analyzed document, with group 1, size 20 and the summary as context |
| Graph.NodeOf | App.tsx:169-177 | definition: the node of a shown entity, with group 2, size 10, its context and its source ids |
| Graph.DocNodes | App.tsx:147-158 | a document node is emitted exactly for each analyzed file |
| Graph.ActiveDocs | App.tsx:166 | an entity's active documents are exactly its source ids that name an analyzed file |
| Graph.LinksOf | App.tsx:179-185 | a shown entity gets one link of value 1 from each active document |
| Graph.EntityNodes | App.tsx:161-177 | an entity node is in the list exactly when its entity is shown, meaning its category is shown and it has an active document; `Graph.EntityNodesCount` proves there is one node per shown entity |
| Graph.EntityLinks | App.tsx:161-187 | a link exists exactly from each analyzed source document of a shown entity to that entity |
| Graph.ProjectGraph | App.tsx:142-190 | the imperative projection yields the document nodes followed by the entity nodes, and the entity links |
| Graph.PushLinks | App.tsx:179-185 | the `forEach` appends exactly one link per active document, in order |
| Graph.NoDanglingLinks | App.tsx:142-190 | every link joins an emitted document node to an emitted entity node; a file that is not analyzed has no node and no link |
| Graph.DocNodesInFileOrder | App.tsx:147-158 | document nodes are the analyzed files in file order |
| Graph.ConsistentStoreShown | App.tsx:161-168 | under the store invariants, every source document of an entity is active, and the entity is shown exactly when its category is |
| Graph.AllActive | App.tsx:166 | when every source id names an analyzed file, the filter keeps them all |
| Graph.WithoutCategory | App.tsx:163 | keeps exactly the entities of other categories |
| Graph.ActiveLinkCount | App.tsx:161-187 | definition: the number of analyzed source documents, summed over the shown entities |
| Graph.SourceCount | App.tsx:161-187 | definition: the number of source documents, summed over the entities of shown categories |
| Graph.EntityLinksCount | App.tsx:161-187 | the projection has exactly as many links as the shown entities have analyzed source documents |
| Graph.AnalyzedSourcesCount | App.tsx:166 | when every source id names an analyzed file, the two counts agree |
| Graph.ConsistentLinkCount | App.tsx:161-187 | under the store invariants, the number of links is the number of source documents of the entities whose category is shown |
| Graph.ShownCount | App.tsx:161-177 | definition: the number of shown entities |
| Graph.ShowsCount | App.tsx:163 | definition: the number of entities whose category is shown |
| Graph.EntityNodesCount | App.tsx:168-177 | the projection has exactly as many entity nodes as there are shown entities, one per shown entity |
| Graph.ConsistentShownCount | App.tsx:161-168 | under the store invariants, the shown entities are exactly those of shown categories |
| Graph.ConsistentNodeCount | App.tsx:161-177 | under the store invariants, the number of entity nodes is the number of entities whose category is shown |
| Graph.FilterOffRemovesCategory | App.tsx:161-187 | switching a category off leaves the projection of the store without that category's entities |
| Timeline.Annotate | components/Timeline.tsx:14-23 | the shown date is the normalized date when it is non-empty, otherwise the name; the key is the parsed instant, or 0 when parsing fails; the entity itself is unchanged |
| Timeline.DateEntities | components/Timeline.tsx:13 | keeps exactly the DATE entities and never duplicates one |
| Timeline.AnnotateAll | components/Timeline.tsx:14-23 | annotates each entity in order |
| Timeline.WithTime | components/Timeline.tsx:24 | holds exactly the items with the given key |
| Timeline.Insert | components/Timeline.tsx:24 | insertion adds exactly the one item and keeps a sorted sequence sorted |
| Timeline.SortByTime | components/Timeline.tsx:24 | the sort is a permutation and ascending by key |
| Timeline.InsertWithTime | components/Timeline.tsx:24 | insertion keeps the relative order of items with equal keys |
| Timeline.SortByTimeStable | components/Timeline.tsx:24 | the sort is stable: items with equal keys keep their input order |
| Timeline.StableSortUnique | components/Timeline.tsx:24 | two ascending sequences with the same items per key in the same order are equal, so every stable ascending sort gives the same result |
| Timeline.SameKeysBothEmpty | components/Timeline.tsx:24 | sequences with the same items per key are empty together |
| Timeline.SameKeysSameHead | components/Timeline.tsx:24 | two sorted sequences with the same items per key start with the same item |
| Timeline.DateTimeline | components/Timeline.tsx:12-24 | definition: filter, annotate and sort; `Timeline.DateTimelineSpec` states its properties |
| Timeline.DateTimelineSpec | components/Timeline.tsx:12-24 | the timeline is a permutation of the annotated DATE entities, sorted ascending and stable on ties, and each item is its own entity's annotation |
| Timeline.TimelineIsTheStableSort | components/Timeline.tsx:12-24 | any stable ascending order of the annotated DATE entities is the timeline |
| Timeline.UnparsableBetween | components/Timeline.tsx:15-24 | an unparsable date comes after every negative (pre-1970) key and before every positive one |
| Timeline.ThreeDatesScenario | components/Timeline.tsx:12-24 | a later date, an earlier date and an unparsable one (both dates after 1970) come out as unparsable, earlier, later |
| Timeline.SortThree | components/Timeline.tsx:24 | three items with keys in descending order are sorted into ascending order |
| Timeline.SortTwo | components/Timeline.tsx:24 | two items with keys in descending order are swapped |
| Timeline.InsertPastTwo | components/Timeline.tsx:24 | an item with the largest key is inserted last |
| Timeline.DateEntitiesOfDates | components/Timeline.tsx:13 | a list of DATE entities passes the filter whole |
| Timeline.InsertStep | components/Timeline.tsx:24 | insertion puts the item before the first item whose key is not smaller |
| Chat.CategoryName | types.ts:3-9 | definition: each category's string value; `Chat.CategoryNameInjective` proves distinct categories get distinct values |
| Chat.Describe | App.tsx:132 | an entity's description starts with its name, followed by more text |
| Chat.CategoryNameInjective | types.ts:3-9 | distinct categories have distinct names |
| Chat.DescribeTellsCategories | App.tsx:132 | two entities of one name get the same description exactly when they have the same category |
| Chat.Mentioning | App.tsx:131 | keeps exactly the entities that cite the file |
| Chat.Descriptions | App.tsx:132 | describes each entity in order |
| Chat.ContextDocs | App.tsx:125-134 | one record per analyzed file, in order, with the file's name and summary |
| Chat.Join | App.tsx:133 | definition: `Array.prototype.join`, which puts the separator between consecutive parts |
| Chat.JoinContainsParts | App.tsx:133 | every part of a `join` occurs in the joined string |
| Chat.ContextListsCitingEntities | App.tsx:125-134 | each entity that cites an analyzed file is described in that file's record |
| Chat.ExtractedDataEmpty | App.tsx:130-133 | a file's entity data is empty exactly when no entity cites it |

## Left out

- The React rendering, the D3 force layout of `components/Board.tsx`, and the sidebars are not modelled. They are presentation only. The node layout coordinates `x`, `y`, `fx` and `fy` are left out for the same reason.
- The export handler (App.tsx:29-42) is not modelled. It only serialises the state to a downloaded JSON file with the current time.
- The extraction service (`services/geminiService.ts`) and the chat call `askAssistant` are not modelled. Extraction is the `analyze` parameter. For chat, only the context passed to the call is modelled.
- The `FileReader` base64 conversion and the `base64` field stored on a file are not modelled, since they are browser I/O. A reader error is one of the outcomes folded into `Failed`.
- Id generation with `Math.random` and timestamps with `Date.now` are inputs. Distinct ids are a precondition (`Registry.FreshIds`). The source does not guarantee this; a collision would make the `id ===` updates touch two files.
- Workspace.App.HandleFileUpload: runs each batch to completion. Two batches uploaded at once, interleaving at the `await`s, and React's deferred state updates are not modelled.
- The merge copies the list shallowly (App.tsx:85), and then `push`es into and assigns to the previous state's entity objects. The model is on values: it does not capture that the old state's entity objects are changed too.
- The `type` field of a case file duplicates `mimeType` (App.tsx:51) and is left out.
- Text.Lower: lower-cases ASCII letters only. The full Unicode case mapping of `toLowerCase` is not modelled.
- Timeline.Annotate: the meaning of `Date.parse` is the `parse` parameter. The sort key is an unbounded integer, so the floating-point subtraction in the comparator is modelled as an exact integer comparison.
- Filters: commutation of two toggles of different categories is not stated as a lemma.
- Chat.ContextDocs: the `extractedData` field is covered by `Chat.ContextListsCitingEntities` and `Chat.ExtractedDataEmpty`. No lemma states that the field holds nothing besides the descriptions of citing entities.
