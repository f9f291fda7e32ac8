# Block-based document editor: a Dafny model of its core

The application is a Notion-like editor. A **document** has a title, an icon, a cover image,
tags, visibility flags and an ordered list of **blocks**. Each block has a type: paragraph,
one of three headings, a bulleted, numbered or to-do list, quote, code, divider, image or
table. Documents are stored in a hosted relational store as three tables: `documents`,
`blocks` and `tags`. The UI is made of four parts:

- a **block editor** that edits one block;
- a **document editor** that edits the block list, the tags and the metadata;
- a **sidebar** and a **document list** that show filtered views of the loaded documents;
- a **dashboard** that switches between the list and the editor.

This project models these pieces as pure Dafny functions over immutable values and proves
what they promise. Modules:

- `Types`: the data shapes.
- `BlockEditor`: per-block edits, the table grid operations, the key classifier and the
  block-type menu with its search.
- `DocumentEditor`: inserting, deleting and replacing blocks, with `order` re-derived from
  position; tag normalisation; the state seeded when a document is opened; the save payload.
- `Persistence`: the document repository over an in-memory store. It covers load,
  create, partial update with replace-all child rows, delete, the owner and public views and
  the edit rule. Round-trip lemmas say what a reload returns after a write.
- `DocumentList` and `Sidebar`: the filter tabs, the search and the five most recent
  documents.
- `Dashboard`: the editor state machine and what a save asks of the repository.
- `Seqs`, `Sorting`, `Text`: helper modules. They provide filtering and subsequences, a sort
  by an integer key (the order of equal keys is left open), JavaScript's `trim` whitespace set and substring search.

Outside inputs become parameters:

- the clock is `now`;
- the id the store issues for a new document is `newId`;
- a freshly generated block id is `freshId`;
- `String.prototype.toLowerCase` is `lower`;
- the user's answer to a confirmation dialog is `confirmed`.

The store hands out child-row keys from a counter (`RowKey`).

Three behaviours of the code that a reader may not expect:

- A save replaces only the empty title with `Untitled`, not a whitespace-only one
  (src/components/DocumentEditor.tsx:118, `title || 'Untitled'`).
- The icon shown in the editor falls back to the page glyph for an empty icon as well as a
  missing one (src/components/DocumentEditor.tsx:40, `document.icon || '📄'`).
- The `favorites` tab keeps a document only when `isFavorite` is set and true
  (src/components/DocumentList.tsx:29).

## Model

| member | source | states |
|---|---|---|
| Types.AllBlockTypes | src/types.ts:9 | the closed set of block types has exactly twelve members, each listed once |
| BlockEditor.SetContent | src/components/BlockEditor.tsx:70-73 | typing replaces the block's content and leaves id, type, properties and order alone |
| BlockEditor.ClassifyKey | src/components/BlockEditor.tsx:75-89 | for each intent, the exact key condition that triggers it: Enter without Shift outside code adds a block, `/` on empty content opens the menu, Backspace on an empty paragraph deletes, Escape closes an open menu |
| BlockEditor.ChangeBlockType | src/components/BlockEditor.tsx:91-114 | retyping clears the content; a table gets a 3x3 grid of empty cells, an image gets exactly an empty url, and other types keep the old properties |
| BlockEditor.ToggleTodo | src/components/BlockEditor.tsx:131-139 | the checked flag is negated (absent counts as unchecked) and every other property is kept |
| BlockEditor.AddTableRow | src/components/BlockEditor.tsx:141-152 | one empty row is appended, as wide as the first row or 3 when there is none; old rows are untouched |
| BlockEditor.AddTableColumn | src/components/BlockEditor.tsx:154-164 | every row gains one empty cell at its end and `rows` is always written, as an empty list on a table that had none; nothing else changes |
| BlockEditor.DeleteTableRow | src/components/BlockEditor.tsx:166-177 | a table with at most one row is left unchanged; otherwise exactly the chosen row is removed and the rest keep their order |
| BlockEditor.DeleteTableColumn | src/components/BlockEditor.tsx:179-190 | when the first row has at most one cell, nothing changes; otherwise the chosen cell is removed from every row |
| BlockEditor.EditCell | src/components/BlockEditor.tsx:418-424 | editing a cell changes that cell only, keeping every row's width and every other property |
| BlockEditor.GridOperationsPreserveWellFormed | src/components/BlockEditor.tsx:141-190 | every grid operation keeps a table with at least one row and one column rectangular |
| BlockEditor.BlockMenuListsEveryType | src/components/BlockEditor.tsx:192-215 | the type menu has exactly one entry per block type, in declaration order |
| BlockEditor.BlockMenuHasNoEmptyCategory | src/components/BlockEditor.tsx:192-215 | no category of the type menu is empty |
| BlockEditor.FilterMenuOffers | src/components/BlockEditor.tsx:217-228 | after narrowing, an entry is listed if and only if the full menu lists it and it matches |
| BlockEditor.FilterMenuKeepsAll | src/components/BlockEditor.tsx:217-228 | a filter that keeps every item leaves a menu with no empty category unchanged |
| BlockEditor.FilteredBlockTypes | src/components/BlockEditor.tsx:217-228 | the filtered menu keeps, in menu order, exactly the categories left with a matching item, each under its own name with its matching items; it never shows an empty category, and an empty search shows the whole menu |
| BlockEditor.FilterMenu | src/components/BlockEditor.tsx:217-228 | narrowing a menu keeps, in order and with their multiplicities, exactly those narrowed categories that still hold an item |
| BlockEditor.NarrowCategory | src/components/BlockEditor.tsx:217-227 | a narrowed category keeps its name and exactly its matching items, in order and with their multiplicities |
| BlockEditor.FilteredBlockTypesOffers | src/components/BlockEditor.tsx:219-227 | a block type is offered under a search exactly when its entry's label, description or a keyword contains the search |
| DocumentEditor.NewBlock | src/components/DocumentEditor.tsx:65-70 | a new block is an empty paragraph with the given id and order and no properties, which a save would drop |
| DocumentEditor.Renumber | src/components/DocumentEditor.tsx:84 | renumbering keeps every block and sets each `order` to its position |
| DocumentEditor.OpenEditor | src/components/DocumentEditor.tsx:37-57 | the seeded editor always has at least one block; it shows the document's fields with their defaults, or a blank public page |
| DocumentEditor.UpdateBlock | src/components/DocumentEditor.tsx:72-76 | only the chosen position changes; order stays consistent when the new block keeps its order |
| DocumentEditor.DeleteBlock | src/components/DocumentEditor.tsx:78-85 | the block list never becomes empty; otherwise exactly the chosen block goes, the others keep their order, and every `order` equals the position |
| DocumentEditor.AddBlockBelow | src/components/DocumentEditor.tsx:87-91 | an empty paragraph appears right after the chosen position, with JavaScript `splice` clamping; old blocks keep their order and every `order` equals the position |
| DocumentEditor.AddTag | src/components/DocumentEditor.tsx:105-110 | the trimmed draft is appended and the draft cleared exactly when it is non-empty and new; otherwise nothing changes |
| DocumentEditor.AddTagKeepsTagsWellFormed | src/components/DocumentEditor.tsx:105-110 | adding a tag keeps the tags trimmed, non-empty and free of duplicates |
| DocumentEditor.RemoveTag | src/components/DocumentEditor.tsx:112-114 | every occurrence of the tag goes; every other tag stays with its multiplicity and order |
| DocumentEditor.RemoveTagKeepsTagsWellFormed | src/components/DocumentEditor.tsx:112-114 | removing a tag keeps the tag list well formed |
| DocumentEditor.SaveTitle | src/components/DocumentEditor.tsx:118 | the saved title is never empty and differs from the typed title only when that was empty |
| DocumentEditor.SavedBlocks | src/components/DocumentEditor.tsx:121 | the save keeps exactly the blocks with text and the dividers, images and tables, in order |
| DocumentEditor.HandleSave | src/components/DocumentEditor.tsx:116-133 | the payload carries every editable field, plus the id of an open document or the current user as creator of a new one |
| DocumentEditor.HandleDelete | src/components/DocumentEditor.tsx:135-140 | a delete is requested, with the open document's id, exactly when a document is open and the user confirmed |
| Persistence.BlockOfRow | src/hooks/useDocuments.ts:47-53 | a loaded block takes its id from the row, copies type and content, always has properties, and takes `order` from `block_order` |
| Persistence.LoadBlocks | src/hooks/useDocuments.ts:31-53 | a document's blocks are a permutation of its own block rows, each read back as a block, ordered by `block_order` |
| Persistence.LoadTags | src/hooks/useDocuments.ts:37-60 | a document's tags are the texts of its own tag rows |
| Persistence.AssembleDocument | src/hooks/useDocuments.ts:42-61 | a loaded document copies its row's columns, its blocks are its block rows converted and arranged in `block_order` order, and it always carries a tag list holding the tag rows' texts in row order |
| Persistence.AssembleAll | src/hooks/useDocuments.ts:29-63 | each row is assembled into a document, in the same order, keeping its recency |
| Persistence.LoadDocuments | src/hooks/useDocuments.ts:17-63 | the load returns a permutation of the assembled rows, one document per row, newest edit first |
| Persistence.DocumentRow | src/hooks/useDocuments.ts:79-87 | the inserted row carries the new document's fields; `is_favorite` is true only when the flag is set and true |
| Persistence.BlockRows | src/hooks/useDocuments.ts:104-110 | block row k has `block_order = k`, the parent document id, the block's type and content, and `{}` for absent properties |
| Persistence.TagRows | src/hooks/useDocuments.ts:127-130 | one tag row per tag, in order, under the parent document id |
| Persistence.CreateDocument | src/hooks/useDocuments.ts:73-139 | a create appends exactly one document row and writes the blocks, numbered by position, and the tags under the new id; existing rows are kept |
| Persistence.MakePatch | src/hooks/useDocuments.ts:154-162 | the patch always sets `last_edited_at` and sets each other column exactly when the update supplies it |
| Persistence.ApplyPatch | src/hooks/useDocuments.ts:164-167 | a patch changes exactly the columns it sets and nothing else in the row |
| Persistence.PatchRows | src/hooks/useDocuments.ts:164-167 | the rows with the id are patched; every other row is unchanged |
| Persistence.ReplaceRows | src/hooks/useDocuments.ts:179-201 | replace-all: a document's child rows become the new rows; other documents' rows are untouched |
| Persistence.UpdateBlockRows | src/hooks/useDocuments.ts:176-201 | a supplied block list replaces the document's block rows; an absent one leaves them |
| Persistence.UpdateTagRows | src/hooks/useDocuments.ts:203-225 | a supplied tag list replaces the document's tag rows; an absent one leaves them |
| Persistence.UpdateDocument | src/hooks/useDocuments.ts:150-225 | an update patches the document row, replaces the supplied child lists wholesale, and leaves absent lists and other documents alone |
| Persistence.DeleteDocument | src/hooks/useDocuments.ts:235-255 | a delete removes the document row and, by cascade, its block and tag rows; every other row is kept |
| Persistence.PublicDocuments | src/hooks/useDocuments.ts:257-259 | the public view is exactly the public documents, in order and with their multiplicities |
| Persistence.UserDocuments | src/hooks/useDocuments.ts:261-264 | the owner view is empty without a user and otherwise is exactly the user's documents, in order and with their multiplicities |
| Persistence.CanEdit | src/hooks/useDocuments.ts:266-269 | without a user (or with an empty id) nothing is editable; otherwise exactly the public documents and the user's own |
| Persistence.CanEditMatchesViews | src/hooks/useDocuments.ts:257-269 | the edit rule agrees with the union of the owner view and the public view |
| Persistence.LoadBlocksAfterWrite | src/hooks/useDocuments.ts:185-191 | block rows written by position read back as the same blocks, with properties defaulted to `{}`, order equal to position and row ids drawn from the store's key counter |
| Persistence.UpdateThenLoad | src/hooks/useDocuments.ts:150-227 | after an update that supplies blocks and tags, the document's block rows read back as those blocks (with new row ids, `{}` properties and order equal to position) and its tag rows as those tags, in order |
| Persistence.CreateThenLoad | src/hooks/useDocuments.ts:73-141 | after a create under a fresh id, the reload lists the new document, and it reads back with the fields that were written |
| Persistence.CreateDocumentKeepsConsistent | src/hooks/useDocuments.ts:73-139 | a create leaves no block or tag row without its document |
| Persistence.UpdateDocumentKeepsConsistent | src/hooks/useDocuments.ts:150-225 | an update of an existing document leaves no orphan child rows |
| Persistence.DeleteDocumentKeepsConsistent | src/hooks/useDocuments.ts:235-255 | a delete with its cascade leaves no orphan child rows |
| Persistence.FindById | src/hooks/useDocuments.ts:142 | the lookup returns the first document with the id, and nothing exactly when none has it |
| Persistence.CreateDocumentResultAsWrittenIsNone | src/hooks/useDocuments.ts:141-142 | as written, the created document is looked up in the list captured before the insert, so the result is always empty |
| Persistence.CreateDocumentResult | src/hooks/useDocuments.ts:141-142 | looked up in the reloaded list, the result is the created document as written |
| DocumentList.FilterDocuments | src/components/DocumentList.tsx:20-32 | the list shows exactly the documents whose title or block text contains the query and that pass the tab, in order and with their multiplicities |
| DocumentList.EmptySearchShowsEverything | src/components/DocumentList.tsx:20-32 | an empty search on the `all` tab shows every document |
| DocumentList.PublicAndPrivateSplitAll | src/components/DocumentList.tsx:25-29 | the `public` and `private` tabs partition the `all` tab |
| Sidebar.FavoriteDocs | src/components/Sidebar.tsx:24 | the favorites are exactly the documents flagged favorite, in order and with their multiplicities |
| Sidebar.PrivateDocs | src/components/Sidebar.tsx:26 | the private view is exactly the user's own non-public documents, in order and with their multiplicities |
| Sidebar.PrivateIsOwnNonPublic | src/components/Sidebar.tsx:24-26 | private is own minus public; private and public never overlap, and together they are what the user may edit |
| Sidebar.RecentDocs | src/components/Sidebar.tsx:100-102 | at most five documents, newest edit first, taken from the list, and none left out is newer than one shown |
| Dashboard.NewDocument | src/components/Dashboard.tsx:22-25 | a new page opens a blank editor with no document selected |
| Dashboard.Select | src/components/Dashboard.tsx:46-49 | selecting opens the editor on that document and leaves the creating mode |
| Dashboard.Close | src/components/Dashboard.tsx:51-54 | closing returns to the list |
| Dashboard.NewDocumentFrom | src/components/Dashboard.tsx:32-41 | the created document defaults the title, visibility (public) and blocks, and carries the signed-in user as creator |
| Dashboard.Save | src/components/Dashboard.tsx:27-44 | with a document open, the save updates it by id and deselects it; otherwise it creates a document and leaves the creating mode |
| Dashboard.EditorMayEdit | src/components/Dashboard.tsx:73 | a new page is always editable; an open document follows the edit rule |
| Dashboard.TransitionsKeepValid | src/components/Dashboard.tsx:19-54 | no transition turns on both editor modes at once |
| Dashboard.SaveClosesEditor | src/components/Dashboard.tsx:27-44 | from a valid state, a save always returns to the list |
| Dashboard.NewPageSavesEditorContents | src/components/Dashboard.tsx:27-44 | saving a new page creates a document carrying what the editor showed |
| Dashboard.OpenPageSavesById | src/components/Dashboard.tsx:28-30 | saving an open page updates that document by its id |

## Left out

- Network failures, rejected promises, `alert` and console logging. Every request succeeds in
  the model.
- Persistence.CreateDocument and Persistence.UpdateDocument: the source issues several awaited
  requests in a row; the model performs them as one atomic store transition. Overlapping saves
  and reloads, and other clients writing in between, are not modelled.
- Image and cover uploads through `FileReader`: they are asynchronous browser I/O.
- The emoji picker, focus handling, textarea auto-resize and every other rendering detail.
- Block ids from `Date.now() + Math.random()`, server-generated document ids and the clock.
  They are parameters (`freshId`, `newId`, `now`). Row keys come from a store counter.
- `String.prototype.toLowerCase`: Unicode case folding is the abstract `lower` parameter.
- The sorts of the document list (src/components/DocumentList.tsx:33-43). The title sort uses
  `localeCompare`, a locale-dependent collation outside the model. Only the filter is modelled.
- Sidebar.RecentDocs: the source sorts the `documents` array in place, which also reorders the
  caller's list. The model returns a new list and leaves the input alone.
- Sidebar.RecentDocs: timestamps are integers compared directly. The ISO strings the source
  parses with `new Date` are not modelled.
- The unsaved-changes flag (src/components/DocumentEditor.tsx:59-63) and the close
  confirmation. They only drive a dialog.
- BlockEditor.EditCell: the source copies the row list but writes into a shared inner row, so
  the old block's grid is mutated too. The model returns a new grid and leaves the old one
  alone. It also requires the cell to exist in `rows`: on a table with no `rows` the source
  renders a default 3 by 3 grid (src/components/BlockEditor.tsx:411), and editing one of its
  cells throws, since the copied row list is empty (src/components/BlockEditor.tsx:419-420).
- DocumentEditor.UpdateBlock: requires an index inside the list. The source calls it only from
  rendered blocks, and an index past the end would leave holes in a JavaScript array.
- The `type` column of a block row is typed as a block type. The source casts an untyped
  string with `as any`, and no other value is modelled.
- Persistence.DeleteDocument: the source deletes only the `documents` row. The removal of
  block and tag rows is the store's foreign-key cascade, modelled as part of the delete.
- Persistence.LoadTags: the order of tag rows is the relation order. The source asks for no
  ordering, so the store may return them in any order.
- Persistence.LoadBlocksAfterWrite: block ids are not preserved across a save. The rows get
  new keys from the store, as in the source.
- Sidebar display fallbacks (src/components/Sidebar.tsx:109-110) are rendering only.
- Sign-in, the user session, the landing page and the database client setup are not part of
  this model.

## Findings

| source | as written | input that shows it | evidently intended | confidence | as-written member | corrected member |
|---|---|---|---|---|---|---|
| src/hooks/useDocuments.ts:141-142 | after `await loadDocuments()`, `createDocument` returns `documents.find(d => d.id === newDoc.id)`. `documents` is the state captured when the hook last rendered, so it cannot hold the row just inserted. | any create with a new id: the promise resolves to `undefined` | resolve to the created document as the reload returns it | not executed | Persistence.CreateDocumentResultAsWritten (shown empty by Persistence.CreateDocumentResultAsWrittenIsNone) | Persistence.CreateDocumentResult |
