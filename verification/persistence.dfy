/** The persistence mapping of the document repository (src/hooks/useDocuments.ts): documents
    to and from the rows of the `documents`, `blocks` and `tags` tables, the partial-update
    patch, replace-all child rows, and the access rule with the owner and public views.
    The hosted store is an in-memory value: three relations and the counter it draws row keys
    from. Requests always succeed here; the clock is the `now` parameter and the id the store
    generates for a new document is the `newId` parameter. */
module Persistence {
  import opened Types
  import opened Seqs
  import opened Sorting
  import opened Text
  import DocumentEditor

  datatype Store = Store(
    documents: seq<DBDocument>,
    blocks: seq<DBBlock>,
    tags: seq<DBTag>,
    nextKey: nat)

  /** The key the store gives to the `n`-th child row it inserts. */
  function RowKey(n: nat): Id {
    "row-" + Digits(n)
  }

  /** The `document_id` column of a block row and of a tag row. */
  function BlockDoc(row: DBBlock): Id { row.documentId }
  function TagDoc(row: DBTag): Id { row.documentId }

  /** `.eq('document_id', id)`: the child rows of document `id`, in relation order. */
  function RowsOf<R(!new)>(rows: seq<R>, docOf: R -> Id, id: Id): (r: seq<R>)
    ensures forall x :: x in r <==> x in rows && docOf(x) == id
  {
    Filter(rows, x => docOf(x) == id)
  }

  /** `.delete().eq('document_id', id)`: every child row of document `id` removed. */
  function WithoutRowsOf<R(!new)>(rows: seq<R>, docOf: R -> Id, id: Id): (r: seq<R>)
    ensures forall x :: x in r <==> x in rows && docOf(x) != id
  {
    Filter(rows, x => docOf(x) != id)
  }

  /** Deleting the rows of `id` leaves no row of `id` and every other document's rows as they were. */
  lemma {:induction false} RowsOfWithout<R(!new)>(rows: seq<R>, docOf: R -> Id, id: Id, other: Id)
    ensures RowsOf(WithoutRowsOf(rows, docOf, id), docOf, other) == if other == id then [] else RowsOf(rows, docOf, other)
  {
    if |rows| > 0 {
      var rest := WithoutRowsOf(rows[1..], docOf, id);
      RowsOfWithout(rows[1..], docOf, id, other);
      if docOf(rows[0]) != id {
        assert WithoutRowsOf(rows, docOf, id) == [rows[0]] + rest;
        assert ([rows[0]] + rest)[1..] == rest;
      } else {
        assert WithoutRowsOf(rows, docOf, id) == rest;
      }
    }
  }

  /** Appending rows that all belong to `id` extends the rows of `id` and no others. */
  lemma {:induction false} RowsOfAppend<R(!new)>(rows: seq<R>, added: seq<R>, docOf: R -> Id, id: Id, other: Id)
    requires forall k :: 0 <= k < |added| ==> docOf(added[k]) == id
    ensures RowsOf(rows + added, docOf, other) ==
      if other == id then RowsOf(rows, docOf, other) + added else RowsOf(rows, docOf, other)
  {
    FilterConcat(rows, added, x => docOf(x) == other);
    if other == id {
      FilterKeepsAll(added, x => docOf(x) == other);
    } else {
      FilterKeepsNone(added, x => docOf(x) == other);
    }
  }

  /** The row written for block `b` at position `index` of its document. */
  function BlockRow(b: Block, documentId: Id, index: nat, key: Id): DBBlock {
    DBBlock(key, documentId, b.kind, b.content, b.properties.GetOr(NoProperties), index)
  }

  /** The counter after `count` keys were drawn from `firstKey`. A named sum, so that the
      round-trip proofs match key arguments by name rather than by arithmetic. */
  function NextKeyAfter(firstKey: nat, count: nat): nat {
    firstKey + count
  }

  /** The block rows inserted for a block list: row `k` gets `block_order = k` and the parent
      id, copies `type` and `content`, and turns absent `properties` into `{}`. The block's own
      `id` and `order` are not written. */
  function BlockRows(blocks: seq<Block>, documentId: Id, firstKey: nat): (r: seq<DBBlock>)
    ensures |r| == |blocks|
    ensures forall k :: 0 <= k < |r| ==>
      && r[k].id == RowKey(firstKey + k) && r[k].documentId == documentId && r[k].blockOrder == k
      && r[k].kind == blocks[k].kind && r[k].content == blocks[k].content
      && r[k].properties == blocks[k].properties.GetOr(NoProperties)
  {
    seq(|blocks|, k requires 0 <= k < |blocks| => BlockRow(blocks[k], documentId, k, RowKey(firstKey + k)))
  }

  /** The tag rows inserted for a tag list, one per tag, in order. */
  function TagRows(tags: seq<string>, documentId: Id, firstKey: nat): (r: seq<DBTag>)
    ensures |r| == |tags|
    ensures forall k :: 0 <= k < |r| ==>
      r[k].id == RowKey(firstKey + k) && r[k].documentId == documentId && r[k].tag == tags[k]
  {
    seq(|tags|, k requires 0 <= k < |tags| => DBTag(RowKey(firstKey + k), documentId, tags[k]))
  }

  /** `.order('block_order', { ascending: true })`. */
  function BlockOrderKey(row: DBBlock): int { row.blockOrder }

  /** The block read back from a row: `order := block_order`, `id` is the row's id. */
  function BlockOfRow(row: DBBlock): (b: Block)
    ensures b.id == row.id && b.kind == row.kind && b.content == row.content
    ensures b.properties == Some(row.properties) && b.order == row.blockOrder
  {
    Block(row.id, row.kind, row.content, Some(row.properties), row.blockOrder)
  }

  /** The blocks of document `id` as `loadDocuments` reads them: one per row of the document,
      sorted by `block_order` ascending. */
  function LoadBlocks(rows: seq<DBBlock>, id: Id): (r: seq<Block>)
    ensures |r| == |RowsOf(rows, BlockDoc, id)|
    ensures forall i, j :: 0 <= i < j < |r| ==> r[i].order <= r[j].order
    ensures forall b :: b in r ==> exists row :: row in RowsOf(rows, BlockDoc, id) && b == BlockOfRow(row)
    ensures forall row :: row in RowsOf(rows, BlockDoc, id) ==> BlockOfRow(row) in r
    ensures multiset(r) == multiset(Map(RowsOf(rows, BlockDoc, id), BlockOfRow))
  {
    var mine := RowsOf(rows, BlockDoc, id);
    var sorted := SortBy(mine, BlockOrderKey);
    SortByMembers(mine, BlockOrderKey);
    MapMembers(sorted, BlockOfRow);
    MapPermutation(sorted, mine, BlockOfRow);
    Map(sorted, BlockOfRow)
  }

  function TagText(row: DBTag): string { row.tag }

  /** The tags of document `id`: `tags.map(t => t.tag)`. */
  function LoadTags(rows: seq<DBTag>, id: Id): (r: seq<string>)
    ensures |r| == |RowsOf(rows, TagDoc, id)|
    ensures forall k :: 0 <= k < |r| ==> r[k] == RowsOf(rows, TagDoc, id)[k].tag
  {
    Map(RowsOf(rows, TagDoc, id), TagText)
  }

  /** One loaded document: the row's columns, `is_favorite` as a present flag, the document's
      block rows sorted by `block_order` and the texts of its tag rows. */
  function AssembleDocument(store: Store, row: DBDocument): (d: Document)
    ensures d.id == row.id && d.title == row.title && d.icon == row.icon && d.coverImage == row.coverImage
    ensures d.isPublic == row.isPublic && d.isFavorite == Some(row.isFavorite) && d.createdBy == row.createdBy
    ensures d.createdAt == row.createdAt && d.lastEditedAt == row.lastEditedAt && d.parentId == row.parentId
    ensures |d.blocks| == |RowsOf(store.blocks, BlockDoc, row.id)|
    ensures forall i, j :: 0 <= i < j < |d.blocks| ==> d.blocks[i].order <= d.blocks[j].order
    ensures d.tags.Some? && |d.tags.value| == |RowsOf(store.tags, TagDoc, row.id)|
    ensures multiset(d.blocks) == multiset(Map(RowsOf(store.blocks, BlockDoc, row.id), BlockOfRow))
    ensures forall k :: 0 <= k < |d.tags.value| ==> d.tags.value[k] == RowsOf(store.tags, TagDoc, row.id)[k].tag
  {
    Document(
      row.id, row.title, row.icon, row.coverImage, LoadBlocks(store.blocks, row.id),
      row.isPublic, row.createdBy, row.createdAt, row.lastEditedAt, row.parentId,
      Some(row.isFavorite), Some(LoadTags(store.tags, row.id)))
  }

  /** `.order('last_edited_at', { ascending: false })`. */
  function RecencyKey(row: DBDocument): int { -row.lastEditedAt }

  /** Each row assembled into its document, in the order of the rows. */
  function AssembleAll(store: Store, rows: seq<DBDocument>): (r: seq<Document>)
    ensures |r| == |rows|
    ensures forall k :: 0 <= k < |rows| ==> r[k] == AssembleDocument(store, rows[k])
    ensures forall k :: 0 <= k < |rows| ==> r[k].lastEditedAt == rows[k].lastEditedAt
    ensures forall d :: d in r ==> exists row :: row in rows && d == AssembleDocument(store, row)
    ensures forall row :: row in rows ==> AssembleDocument(store, row) in r
  {
    var assemble := (row: DBDocument) => AssembleDocument(store, row);
    MapMembers(rows, assemble);
    Map(rows, assemble)
  }

  /** Assembling a permutation of the rows yields a permutation of the documents. */
  lemma AssembledPermutation(store: Store, s: seq<DBDocument>, t: seq<DBDocument>)
    requires multiset(s) == multiset(t)
    ensures multiset(AssembleAll(store, s)) == multiset(AssembleAll(store, t))
  {
    var assemble := (row: DBDocument) => AssembleDocument(store, row);
    MapPermutation(s, t, assemble);
    assert AssembleAll(store, s) == Map(s, assemble);
    assert AssembleAll(store, t) == Map(t, assemble);
  }

  /** `loadDocuments`: one document per row of `documents` (none scoped out by owner), newest
      edit first, each with its blocks and tags. */
  function LoadDocuments(store: Store): (r: seq<Document>)
    ensures |r| == |store.documents|
    ensures forall i, j :: 0 <= i < j < |r| ==> r[i].lastEditedAt >= r[j].lastEditedAt
    ensures forall d :: d in r ==> exists row :: row in store.documents && d == AssembleDocument(store, row)
    ensures forall row :: row in store.documents ==> AssembleDocument(store, row) in r
    ensures multiset(r) == multiset(AssembleAll(store, store.documents))
  {
    var sorted := SortBy(store.documents, RecencyKey);
    SortByMembers(store.documents, RecencyKey);
    AssembledPermutation(store, sorted, store.documents);
    AssembleAll(store, sorted)
  }

  /** What `createDocument` receives: a document without id and timestamps. */
  datatype NewDocument = NewDocument(
    title: string,
    icon: Option<string>,
    coverImage: Option<string>,
    blocks: seq<Block>,
    isPublic: bool,
    isFavorite: Option<bool>,
    tags: Option<seq<string>>,
    createdBy: Id,
    parentId: Option<Id>)

  /** The `documents` row inserted for `doc`: `is_favorite` is `doc.isFavorite || false`, the
      store issues the id and stamps both timestamps. */
  function DocumentRow(doc: NewDocument, newId: Id, now: Timestamp): (row: DBDocument)
    ensures row.id == newId && row.title == doc.title && row.icon == doc.icon
    ensures row.coverImage == doc.coverImage && row.isPublic == doc.isPublic
    ensures row.isFavorite <==> doc.isFavorite == Some(true)
    ensures row.createdBy == doc.createdBy && row.parentId == doc.parentId
    ensures row.createdAt == now && row.lastEditedAt == now
  {
    DBDocument(newId, doc.title, doc.icon, doc.coverImage, doc.isPublic,
               doc.isFavorite.GetOr(false), doc.createdBy, now, now, doc.parentId)
  }

  /** `createDocument`: the document row, then block rows and tag rows for the new id, each
      inserted only when the list is non-empty. Other documents' rows are untouched. */
  function CreateDocument(store: Store, doc: NewDocument, newId: Id, now: Timestamp): (r: Store)
    ensures r.documents == store.documents + [DocumentRow(doc, newId, now)]
    ensures |doc.blocks| == 0 ==> r.blocks == store.blocks
    ensures |doc.tags.GetOr([])| == 0 ==> r.tags == store.tags
    ensures forall other :: other != newId ==>
      RowsOf(r.blocks, BlockDoc, other) == RowsOf(store.blocks, BlockDoc, other) &&
      RowsOf(r.tags, TagDoc, other) == RowsOf(store.tags, TagDoc, other)
    ensures RowsOf(r.blocks, BlockDoc, newId) == RowsOf(store.blocks, BlockDoc, newId) + BlockRows(doc.blocks, newId, store.nextKey)
    ensures RowsOf(r.tags, TagDoc, newId) ==
      RowsOf(store.tags, TagDoc, newId) + TagRows(doc.tags.GetOr([]), newId, NextKeyAfter(store.nextKey, |doc.blocks|))
  {
    var row := DocumentRow(doc, newId, now);
    var tags := doc.tags.GetOr([]);
    var blockRows := if |doc.blocks| > 0 then BlockRows(doc.blocks, newId, store.nextKey) else [];
    var tagRows := if |tags| > 0 then TagRows(tags, newId, NextKeyAfter(store.nextKey, |doc.blocks|)) else [];
    assert store.blocks + [] == store.blocks && store.tags + [] == store.tags;
    forall other
      ensures RowsOf(store.blocks + blockRows, BlockDoc, other) ==
        if other == newId then RowsOf(store.blocks, BlockDoc, other) + BlockRows(doc.blocks, newId, store.nextKey)
        else RowsOf(store.blocks, BlockDoc, other)
      ensures RowsOf(store.tags + tagRows, TagDoc, other) ==
        if other == newId then RowsOf(store.tags, TagDoc, other) + TagRows(tags, newId, NextKeyAfter(store.nextKey, |doc.blocks|))
        else RowsOf(store.tags, TagDoc, other)
    {
      RowsOfAppend(store.blocks, blockRows, BlockDoc, newId, other);
      RowsOfAppend(store.tags, tagRows, TagDoc, newId, other);
    }
    Store(store.documents + [row], store.blocks + blockRows, store.tags + tagRows,
          store.nextKey + |blockRows| + |tagRows|)
  }

  /** The patch `updateDocument` sends to the `documents` row. */
  datatype DocPatch = DocPatch(
    lastEditedAt: Timestamp,
    title: Option<string>,
    icon: Option<string>,
    coverImage: Option<string>,
    isPublic: Option<bool>,
    isFavorite: Option<bool>)

  /** `dbUpdates`: `last_edited_at` always, and each scalar column exactly when the update
      defines the corresponding field, with that field's value. */
  function MakePatch(updates: PartialDocument, now: Timestamp): (p: DocPatch)
    ensures p.lastEditedAt == now
    ensures p.title.Some? <==> updates.title.Some?
    ensures p.icon.Some? <==> updates.icon.Some?
    ensures p.coverImage.Some? <==> updates.coverImage.Some?
    ensures p.isPublic.Some? <==> updates.isPublic.Some?
    ensures p.isFavorite.Some? <==> updates.isFavorite.Some?
    ensures p.title.Some? ==> p.title == updates.title
    ensures p.icon.Some? ==> p.icon == updates.icon
    ensures p.coverImage.Some? ==> p.coverImage == updates.coverImage
    ensures p.isPublic.Some? ==> p.isPublic == updates.isPublic
    ensures p.isFavorite.Some? ==> p.isFavorite == updates.isFavorite
  {
    DocPatch(now, updates.title, updates.icon, updates.coverImage, updates.isPublic, updates.isFavorite)
  }

  /** The store's `update`: columns named by the patch take its values, the others stay. */
  function ApplyPatch(row: DBDocument, p: DocPatch): (r: DBDocument)
    ensures r.id == row.id && r.createdBy == row.createdBy && r.createdAt == row.createdAt
    ensures r.parentId == row.parentId && r.lastEditedAt == p.lastEditedAt
    ensures r.title == p.title.GetOr(row.title)
    ensures r.icon == (if p.icon.Some? then p.icon else row.icon)
    ensures r.coverImage == (if p.coverImage.Some? then p.coverImage else row.coverImage)
    ensures r.isPublic == p.isPublic.GetOr(row.isPublic)
    ensures r.isFavorite == p.isFavorite.GetOr(row.isFavorite)
  {
    row.(
      lastEditedAt := p.lastEditedAt,
      title := p.title.GetOr(row.title),
      icon := if p.icon.Some? then p.icon else row.icon,
      coverImage := if p.coverImage.Some? then p.coverImage else row.coverImage,
      isPublic := p.isPublic.GetOr(row.isPublic),
      isFavorite := p.isFavorite.GetOr(row.isFavorite))
  }

  /** Replace-all for one document's child rows: when a new list is given, the rows of `id` are
      deleted and the new ones appended (none for an empty list); otherwise nothing changes. */
  function ReplaceRows<R(!new)>(rows: seq<R>, docOf: R -> Id, id: Id, replacement: Option<seq<R>>): (r: seq<R>)
    requires replacement.Some? ==> forall k :: 0 <= k < |replacement.value| ==> docOf(replacement.value[k]) == id
    ensures replacement.None? ==> r == rows
    ensures replacement.Some? ==> RowsOf(r, docOf, id) == replacement.value
    ensures forall other :: other != id ==> RowsOf(r, docOf, other) == RowsOf(rows, docOf, other)
  {
    match replacement
    case None => rows
    case Some(added) =>
      var r := WithoutRowsOf(rows, docOf, id) + added;
      assert [] + added == added;
      forall other
        ensures RowsOf(r, docOf, other) == if other == id then added else RowsOf(rows, docOf, other)
      {
        RowsOfAppend(WithoutRowsOf(rows, docOf, id), added, docOf, id, other);
        RowsOfWithout(rows, docOf, id, other);
      }
      r
  }

  /** `.update(patch).eq('id', id)`: every row with that id is patched, every other row stays. */
  function PatchRows(documents: seq<DBDocument>, id: Id, patch: DocPatch): (r: seq<DBDocument>)
    ensures |r| == |documents|
    ensures forall k :: 0 <= k < |r| && documents[k].id != id ==> r[k] == documents[k]
    ensures forall k :: 0 <= k < |r| && documents[k].id == id ==> r[k] == ApplyPatch(documents[k], patch)
  {
    seq(|documents|, k requires 0 <= k < |documents| =>
      if documents[k].id == id then ApplyPatch(documents[k], patch) else documents[k])
  }

  /** The block rows after `updateDocument`: replaced by the rows of the new list when one is
      given, untouched otherwise. */
  function UpdateBlockRows(rows: seq<DBBlock>, id: Id, blocks: Option<seq<Block>>, firstKey: nat): (r: seq<DBBlock>)
    ensures blocks.None? ==> r == rows
    ensures blocks.Some? ==> RowsOf(r, BlockDoc, id) == BlockRows(blocks.value, id, firstKey)
    ensures forall other :: other != id ==> RowsOf(r, BlockDoc, other) == RowsOf(rows, BlockDoc, other)
  {
    match blocks
    case None => rows
    case Some(bs) => ReplaceRows(rows, BlockDoc, id, Some(BlockRows(bs, id, firstKey)))
  }

  /** The tag rows after `updateDocument`, likewise. */
  function UpdateTagRows(rows: seq<DBTag>, id: Id, tags: Option<seq<string>>, firstKey: nat): (r: seq<DBTag>)
    ensures tags.None? ==> r == rows
    ensures tags.Some? ==> RowsOf(r, TagDoc, id) == TagRows(tags.value, id, firstKey)
    ensures forall other :: other != id ==> RowsOf(r, TagDoc, other) == RowsOf(rows, TagDoc, other)
  {
    match tags
    case None => rows
    case Some(ts) => ReplaceRows(rows, TagDoc, id, Some(TagRows(ts, id, firstKey)))
  }

  /** The number of rows a present list inserts; none for an absent one. */
  function RowCount<T>(list: Option<seq<T>>): nat {
    if list.Some? then |list.value| else 0
  }

  /** `updateDocument(id, updates)`: the row of `id` gets the patch; when `blocks` (or `tags`)
      is present, that document's block (tag) rows become exactly the new list, an empty list
      meaning no rows; when absent they are untouched; other documents' rows never change. */
  function UpdateDocument(store: Store, id: Id, updates: PartialDocument, now: Timestamp): (r: Store)
    ensures r.documents == PatchRows(store.documents, id, MakePatch(updates, now))
    ensures updates.blocks.None? ==> r.blocks == store.blocks
    ensures updates.tags.None? ==> r.tags == store.tags
    ensures updates.blocks.Some? ==> RowsOf(r.blocks, BlockDoc, id) == BlockRows(updates.blocks.value, id, store.nextKey)
    ensures updates.tags.Some? ==>
      RowsOf(r.tags, TagDoc, id) == TagRows(updates.tags.value, id, NextKeyAfter(store.nextKey, RowCount(updates.blocks)))
    ensures forall other :: other != id ==>
      RowsOf(r.blocks, BlockDoc, other) == RowsOf(store.blocks, BlockDoc, other) &&
      RowsOf(r.tags, TagDoc, other) == RowsOf(store.tags, TagDoc, other)
  {
    Store(PatchRows(store.documents, id, MakePatch(updates, now)),
          UpdateBlockRows(store.blocks, id, updates.blocks, store.nextKey),
          UpdateTagRows(store.tags, id, updates.tags, NextKeyAfter(store.nextKey, RowCount(updates.blocks))),
          NextKeyAfter(store.nextKey, RowCount(updates.blocks)) + RowCount(updates.tags))
  }

  /** `deleteDocument`: the row of `id` goes; its child rows go with it through the store's
      cascading foreign keys. */
  function DeleteDocument(store: Store, id: Id): (r: Store)
    ensures forall row :: row in r.documents <==> row in store.documents && row.id != id
    ensures RowsOf(r.blocks, BlockDoc, id) == [] && RowsOf(r.tags, TagDoc, id) == []
    ensures forall other :: other != id ==>
      RowsOf(r.blocks, BlockDoc, other) == RowsOf(store.blocks, BlockDoc, other) &&
      RowsOf(r.tags, TagDoc, other) == RowsOf(store.tags, TagDoc, other)
  {
    forall other
      ensures RowsOf(WithoutRowsOf(store.blocks, BlockDoc, id), BlockDoc, other) ==
        if other == id then [] else RowsOf(store.blocks, BlockDoc, other)
      ensures RowsOf(WithoutRowsOf(store.tags, TagDoc, id), TagDoc, other) ==
        if other == id then [] else RowsOf(store.tags, TagDoc, other)
    {
      RowsOfWithout(store.blocks, BlockDoc, id, other);
      RowsOfWithout(store.tags, TagDoc, id, other);
    }
    Store(Filter(store.documents, (row: DBDocument) => row.id != id),
          WithoutRowsOf(store.blocks, BlockDoc, id),
          WithoutRowsOf(store.tags, TagDoc, id),
          store.nextKey)
  }

  /** `canEdit`: nobody without a signed-in user (`!userId` also rejects the empty id);
      otherwise public documents and the user's own. */
  function CanEdit(userId: Option<Id>, doc: Document): (r: bool)
    ensures userId.None? || userId == Some("") ==> !r
    ensures userId.Some? && userId.value != "" ==> (r <==> doc.isPublic || doc.createdBy == userId.value)
  {
    match userId
    case None => false
    case Some(u) => u != "" && (doc.isPublic || doc.createdBy == u)
  }

  /** `getPublicDocuments`: exactly the public documents, in order. */
  function PublicDocuments(docs: seq<Document>): (r: seq<Document>)
    ensures forall d :: d in r <==> d in docs && d.isPublic
    ensures IsSubsequence(r, docs)
    ensures forall d: Document :: d.isPublic ==> multiset(r)[d] == multiset(docs)[d]
  {
    Filter(docs, (d: Document) => d.isPublic)
  }

  /** `getUserDocuments`: nothing without a user, otherwise exactly the user's own documents,
      in order. */
  function UserDocuments(userId: Option<Id>, docs: seq<Document>): (r: seq<Document>)
    ensures userId.None? || userId == Some("") ==> r == []
    ensures userId.Some? && userId.value != "" ==>
      (forall d :: d in r <==> d in docs && d.createdBy == userId.value) && IsSubsequence(r, docs)
    ensures userId.Some? && userId.value != "" ==>
      forall d: Document :: d.createdBy == userId.value ==> multiset(r)[d] == multiset(docs)[d]
  {
    match userId
    case None => []
    case Some(u) => if u == "" then [] else Filter(docs, (d: Document) => d.createdBy == u)
  }

  /** A block list as it reads back after being written from `bs` with row keys from
      `firstKey`: same length, each block keeps its type, content and properties (absent ones
      become `{}`), its `order` is its position and its id is the row key. */
  ghost predicate BlocksReadBack(loaded: seq<Block>, bs: seq<Block>, firstKey: nat) {
    && |loaded| == |bs|
    && forall k :: 0 <= k < |bs| ==>
      loaded[k] == Block(RowKey(firstKey + k), bs[k].kind, bs[k].content,
                         Some(bs[k].properties.GetOr(NoProperties)), k)
  }

  /** Reading back the rows written for a block list: they are already in `block_order` order,
      so the load returns them as written, renumbered from zero. */
  lemma LoadBlocksAfterWrite(rows: seq<DBBlock>, id: Id, bs: seq<Block>, firstKey: nat)
    requires RowsOf(rows, BlockDoc, id) == BlockRows(bs, id, firstKey)
    ensures BlocksReadBack(LoadBlocks(rows, id), bs, firstKey)
    ensures DocumentEditor.OrdersMatchPositions(LoadBlocks(rows, id))
  {
    var written := BlockRows(bs, id, firstKey);
    assert SortedBy(written, BlockOrderKey) by {
      assert forall i :: 0 <= i < |written| ==> BlockOrderKey(written[i]) == i;
    }
    SortBySortedIsIdentity(written, BlockOrderKey);
    var loaded := Map(written, BlockOfRow);
    assert LoadBlocks(rows, id) == loaded;
    forall k | 0 <= k < |bs|
      ensures loaded[k] == Block(RowKey(firstKey + k), bs[k].kind, bs[k].content,
                                 Some(bs[k].properties.GetOr(NoProperties)), k)
    {
      assert loaded[k] == BlockOfRow(written[k]);
    }
  }

  /** Saving then reloading through `updateDocument`: the document's tags read back as sent and
      its blocks as sent, renumbered, with fresh row ids in place of the editor's ids. */
  lemma UpdateThenLoad(store: Store, id: Id, updates: PartialDocument, now: Timestamp)
    requires updates.blocks.Some? && updates.tags.Some?
    ensures var after := UpdateDocument(store, id, updates, now);
      && BlocksReadBack(LoadBlocks(after.blocks, id), updates.blocks.value, store.nextKey)
      && LoadTags(after.tags, id) == updates.tags.value
  {
    var after := UpdateDocument(store, id, updates, now);
    LoadBlocksAfterWrite(after.blocks, id, updates.blocks.value, store.nextKey);
    var tags := LoadTags(after.tags, id);
    assert |tags| == |updates.tags.value|;
    assert forall k :: 0 <= k < |tags| ==> tags[k] == updates.tags.value[k];
  }

  /** The store holds a row of `documents` with this id. */
  ghost predicate HasDocument(store: Store, id: Id) {
    exists row :: row in store.documents && row.id == id
  }

  /** Referential integrity, which the store's foreign keys enforce: every block row and every
      tag row belongs to an existing document. */
  ghost predicate Consistent(store: Store) {
    && (forall row :: row in store.blocks ==> HasDocument(store, row.documentId))
    && (forall row :: row in store.tags ==> HasDocument(store, row.documentId))
  }

  /** A document id the store has never issued owns no child rows. */
  lemma FreshIdHasNoRows(store: Store, id: Id)
    requires Consistent(store) && !HasDocument(store, id)
    ensures RowsOf(store.blocks, BlockDoc, id) == [] && RowsOf(store.tags, TagDoc, id) == []
  {
  }

  /** Creating a document under a fresh id keeps every child row attached to a document. */
  lemma CreateDocumentKeepsConsistent(store: Store, doc: NewDocument, newId: Id, now: Timestamp)
    requires Consistent(store)
    ensures Consistent(CreateDocument(store, doc, newId, now))
  {
    var after := CreateDocument(store, doc, newId, now);
    assert DocumentRow(doc, newId, now) in after.documents;
    forall row | row in after.blocks
      ensures HasDocument(after, row.documentId)
    {
      if row.documentId != newId {
        assert row in RowsOf(after.blocks, BlockDoc, row.documentId);
      }
    }
    forall row | row in after.tags
      ensures HasDocument(after, row.documentId)
    {
      if row.documentId != newId {
        assert row in RowsOf(after.tags, TagDoc, row.documentId);
      }
    }
  }

  /** Updating an existing document keeps every child row attached to a document. */
  lemma UpdateDocumentKeepsConsistent(store: Store, id: Id, updates: PartialDocument, now: Timestamp)
    requires Consistent(store) && HasDocument(store, id)
    ensures Consistent(UpdateDocument(store, id, updates, now))
  {
    var after := UpdateDocument(store, id, updates, now);
    forall other | HasDocument(store, other)
      ensures HasDocument(after, other)
    {
      var row :| row in store.documents && row.id == other;
      var k :| 0 <= k < |store.documents| && store.documents[k] == row;
      assert after.documents[k].id == other;
      assert after.documents[k] in after.documents;
    }
    forall row | row in after.blocks
      ensures HasDocument(after, row.documentId)
    {
      if row.documentId != id {
        assert row in RowsOf(after.blocks, BlockDoc, row.documentId);
        assert row in store.blocks;
      }
    }
    forall row | row in after.tags
      ensures HasDocument(after, row.documentId)
    {
      if row.documentId != id {
        assert row in RowsOf(after.tags, TagDoc, row.documentId);
        assert row in store.tags;
      }
    }
  }

  /** Deleting a document (with the cascade) keeps every child row attached to a document. */
  lemma DeleteDocumentKeepsConsistent(store: Store, id: Id)
    requires Consistent(store)
    ensures Consistent(DeleteDocument(store, id))
  {
    var after := DeleteDocument(store, id);
    forall row | row in after.blocks
      ensures HasDocument(after, row.documentId)
    {
      assert row in RowsOf(after.blocks, BlockDoc, row.documentId);
      var parent :| parent in store.documents && parent.id == row.documentId;
      assert parent in after.documents;
    }
    forall row | row in after.tags
      ensures HasDocument(after, row.documentId)
    {
      assert row in RowsOf(after.tags, TagDoc, row.documentId);
      var parent :| parent in store.documents && parent.id == row.documentId;
      assert parent in after.documents;
    }
  }

  /** What a reload shows for a document just created from `doc` with the blocks written from
      `firstKey`. */
  ghost predicate ReadsBackAs(d: Document, doc: NewDocument, newId: Id, now: Timestamp, firstKey: nat) {
    && d.id == newId && d.title == doc.title && d.icon == doc.icon && d.coverImage == doc.coverImage
    && d.isPublic == doc.isPublic && d.isFavorite == Some(doc.isFavorite == Some(true))
    && d.createdBy == doc.createdBy && d.createdAt == now && d.lastEditedAt == now
    && d.parentId == doc.parentId && d.tags == Some(doc.tags.GetOr([]))
    && BlocksReadBack(d.blocks, doc.blocks, firstKey)
  }

  /** The row inserted for `doc` under `id`, assembled with child rows that are exactly the rows
      written for `doc`, reads back as `doc`. */
  lemma AssembleReadsBack(store: Store, doc: NewDocument, id: Id, now: Timestamp, firstKey: nat)
    requires RowsOf(store.blocks, BlockDoc, id) == BlockRows(doc.blocks, id, firstKey)
    requires RowsOf(store.tags, TagDoc, id) == TagRows(doc.tags.GetOr([]), id, NextKeyAfter(firstKey, |doc.blocks|))
    ensures ReadsBackAs(AssembleDocument(store, DocumentRow(doc, id, now)), doc, id, now, firstKey)
  {
    LoadBlocksAfterWrite(store.blocks, id, doc.blocks, firstKey);
    var tags := LoadTags(store.tags, id);
    assert tags == doc.tags.GetOr([]);
  }

  /** Appending to an empty prefix leaves the appended rows; a separate step of the create
      round trip, so that the proof below need not unfold the concatenation itself. */
  lemma AppendToNothing<T>(whole: seq<T>, prefix: seq<T>, rest: seq<T>)
    requires prefix == [] && whole == prefix + rest
    ensures whole == rest
  {
    assert prefix + rest == rest;
  }

  /** Under a fresh id, the child rows of the new document are exactly the rows written for it. */
  lemma CreatedChildRows(store: Store, doc: NewDocument, newId: Id, now: Timestamp)
    requires Consistent(store) && !HasDocument(store, newId)
    ensures var after := CreateDocument(store, doc, newId, now);
      && RowsOf(after.blocks, BlockDoc, newId) == BlockRows(doc.blocks, newId, store.nextKey)
      && RowsOf(after.tags, TagDoc, newId) == TagRows(doc.tags.GetOr([]), newId, NextKeyAfter(store.nextKey, |doc.blocks|))
  {
    var after := CreateDocument(store, doc, newId, now);
    FreshIdHasNoRows(store, newId);
    AppendToNothing(RowsOf(after.blocks, BlockDoc, newId), RowsOf(store.blocks, BlockDoc, newId),
                    BlockRows(doc.blocks, newId, store.nextKey));
    AppendToNothing(RowsOf(after.tags, TagDoc, newId), RowsOf(store.tags, TagDoc, newId),
                    TagRows(doc.tags.GetOr([]), newId, NextKeyAfter(store.nextKey, |doc.blocks|)));
  }

  /** The row `createDocument` appends, assembled with its child rows, reads back as created
      when the id is fresh. */
  lemma CreatedRowReadsBack(store: Store, doc: NewDocument, newId: Id, now: Timestamp)
    requires Consistent(store) && !HasDocument(store, newId)
    ensures ReadsBackAs(AssembleDocument(CreateDocument(store, doc, newId, now), DocumentRow(doc, newId, now)),
                        doc, newId, now, store.nextKey)
  {
    CreatedChildRows(store, doc, newId, now);
    AssembleReadsBack(CreateDocument(store, doc, newId, now), doc, newId, now, store.nextKey);
  }

  /** A row that is the only one with its id shows up in the load, and is the only source of
      a loaded document with that id. */
  lemma LoadedById(store: Store, row: DBDocument)
    requires row in store.documents
    requires forall other :: other in store.documents && other.id == row.id ==> other == row
    ensures AssembleDocument(store, row) in LoadDocuments(store)
    ensures forall d :: d in LoadDocuments(store) && d.id == row.id ==> d == AssembleDocument(store, row)
  {
    forall d | d in LoadDocuments(store) && d.id == row.id
      ensures d == AssembleDocument(store, row)
    {
      var source :| source in store.documents && d == AssembleDocument(store, source);
    }
  }

  /** The row `createDocument` appends is the only row with the new id when the id is fresh. */
  lemma CreatedRowIsOnlyOne(store: Store, doc: NewDocument, newId: Id, now: Timestamp)
    requires !HasDocument(store, newId)
    ensures var after := CreateDocument(store, doc, newId, now);
      && DocumentRow(doc, newId, now) in after.documents
      && forall other :: other in after.documents && other.id == newId ==> other == DocumentRow(doc, newId, now)
  {
    var after := CreateDocument(store, doc, newId, now);
    forall other | other in after.documents && other.id == newId
      ensures other == DocumentRow(doc, newId, now)
    {
      assert other !in store.documents;
    }
  }

  /** Creating then reloading: under a fresh id, the reload lists the new document, and every
      document it lists with that id reads back as created. */
  lemma CreateThenLoad(store: Store, doc: NewDocument, newId: Id, now: Timestamp)
    requires Consistent(store) && !HasDocument(store, newId)
    ensures var loaded := LoadDocuments(CreateDocument(store, doc, newId, now));
      && (exists d :: d in loaded && d.id == newId)
      && forall d :: d in loaded && d.id == newId ==> ReadsBackAs(d, doc, newId, now, store.nextKey)
  {
    var after := CreateDocument(store, doc, newId, now);
    CreatedRowIsOnlyOne(store, doc, newId, now);
    CreatedRowReadsBack(store, doc, newId, now);
    LoadedById(after, DocumentRow(doc, newId, now));
    var created := AssembleDocument(after, DocumentRow(doc, newId, now));
    assert created in LoadDocuments(after) && created.id == newId;
  }

  /** `d` stands at some position of `docs` with no document of id `id` before it. */
  ghost predicate FirstWithId(docs: seq<Document>, id: Id, d: Document) {
    exists k :: 0 <= k < |docs| && docs[k] == d && forall j :: 0 <= j < k ==> docs[j].id != id
  }

  /** A first match after a head that does not match is a first match of the whole list. */
  lemma FirstWithIdAfterHead(docs: seq<Document>, id: Id, d: Document)
    requires |docs| > 0 && docs[0].id != id && FirstWithId(docs[1..], id, d)
    ensures FirstWithId(docs, id, d)
  {
    var tail := docs[1..];
    var k :| 0 <= k < |tail| && tail[k] == d && forall j :: 0 <= j < k ==> tail[j].id != id;
    assert docs[k + 1] == d;
    forall j | 0 <= j < k + 1
      ensures docs[j].id != id
    {
      if j > 0 {
        assert docs[j] == tail[j - 1];
      }
    }
  }

  /** `documents.find(d => d.id === id)`: the first document with that id. */
  function FindById(docs: seq<Document>, id: Id): (r: Option<Document>)
    ensures r.Some? ==> r.value in docs && r.value.id == id
    ensures r.Some? ==> FirstWithId(docs, id, r.value)
    ensures r.None? <==> forall d :: d in docs ==> d.id != id
  {
    if |docs| == 0 then None
    else if docs[0].id == id then Some(docs[0])
    else
      var rest := FindById(docs[1..], id);
      assert forall d :: d in docs ==> d == docs[0] || d in docs[1..];
      if rest.Some? then
        FirstWithIdAfterHead(docs, id, rest.value);
        rest
      else rest
  }

  /** What `createDocument` resolves to as written: the lookup runs over `documents` as the
      caller last saw them, a list captured before the insert and the reload. */
  function CreateDocumentResultAsWritten(before: Store, newId: Id): Option<Document> {
    FindById(LoadDocuments(before), newId)
  }

  /** The captured list cannot hold a document the store has only now issued, so the promise
      always resolves to nothing. */
  lemma CreateDocumentResultAsWrittenIsNone(store: Store, newId: Id)
    requires !HasDocument(store, newId)
    ensures CreateDocumentResultAsWritten(store, newId) == None
  {
    var loaded := LoadDocuments(store);
    forall d | d in loaded
      ensures d.id != newId
    {
      var row :| row in store.documents && d == AssembleDocument(store, row);
    }
  }

  /** The evidently intended result: the lookup over the reloaded list. */
  function CreateDocumentResult(store: Store, doc: NewDocument, newId: Id, now: Timestamp): (r: Option<Document>)
    requires Consistent(store) && !HasDocument(store, newId)
    ensures r.Some? && ReadsBackAs(r.value, doc, newId, now, store.nextKey)
  {
    CreateThenLoad(store, doc, newId, now);
    FindById(LoadDocuments(CreateDocument(store, doc, newId, now)), newId)
  }

  /** The access rule agrees with the two views: a signed-in user may edit exactly the
      documents listed as public or as theirs; nobody else may edit anything. */
  lemma CanEditMatchesViews(userId: Option<Id>, docs: seq<Document>, d: Document)
    requires d in docs
    ensures CanEdit(userId, d) <==>
      (d in UserDocuments(userId, docs) || (userId.Some? && userId.value != "" && d in PublicDocuments(docs)))
  {
  }
}
