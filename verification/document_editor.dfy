/** The block-sequence editing of the document editor (src/components/DocumentEditor.tsx):
    insertion, deletion and replacement of blocks with `order` re-derived from position, tag
    normalisation, the state seeded when a document is opened, and the save projection. */
module DocumentEditor {
  import opened Types
  import opened Seqs
  import opened Text

  /** `createNewBlock(order)`: an empty paragraph. `id` stands for the time-and-random id. */
  function NewBlock(id: Id, order: int): (b: Block)
    ensures b.id == id && b.order == order && b.kind == Paragraph
    ensures b.content == "" && b.properties.None?
    ensures !KeptOnSave(b)
  {
    Block(id, Paragraph, "", None, order)
  }

  /** Every block's `order` equals its position. */
  ghost predicate OrdersMatchPositions(blocks: seq<Block>) {
    forall k :: 0 <= k < |blocks| ==> blocks[k].order == k
  }

  /** `map((block, i) => ({ ...block, order: i }))`. */
  function Renumber(blocks: seq<Block>): (r: seq<Block>)
    ensures |r| == |blocks| && OrdersMatchPositions(r)
    ensures forall k :: 0 <= k < |r| ==> r[k] == blocks[k].(order := k)
  {
    seq(|blocks|, k requires 0 <= k < |blocks| => blocks[k].(order := k))
  }

  /** `updateBlock`: position `index` is replaced, every other position and the length stay;
      `order` is not re-derived, so it stays consistent when the new block keeps its order. */
  function UpdateBlock(blocks: seq<Block>, index: nat, b: Block): (r: seq<Block>)
    requires index < |blocks|
    ensures |r| == |blocks| && r[index] == b
    ensures forall k :: 0 <= k < |blocks| && k != index ==> r[k] == blocks[k]
    ensures OrdersMatchPositions(blocks) && b.order == blocks[index].order ==> OrdersMatchPositions(r)
  {
    blocks[index := b]
  }

  /** `deleteBlock`: the last remaining block is replaced by a fresh empty paragraph at order 0,
      so the sequence never becomes empty; otherwise position `index` is dropped (nothing when it
      is out of range) and the others keep their relative order with `order` re-derived. */
  function DeleteBlock(blocks: seq<Block>, index: int, freshId: Id): (r: seq<Block>)
    ensures |blocks| == 1 ==> r == [NewBlock(freshId, 0)]
    ensures |blocks| != 1 ==> OrdersMatchPositions(r)
    ensures |blocks| > 1 && 0 <= index < |blocks| ==>
      && |r| == |blocks| - 1
      && (forall k :: 0 <= k < index ==> r[k] == blocks[k].(order := k))
      && (forall k :: index <= k < |r| ==> r[k] == blocks[k + 1].(order := k))
    ensures |blocks| != 1 && !(0 <= index < |blocks|) ==>
      |r| == |blocks| && forall k :: 0 <= k < |r| ==> r[k] == blocks[k].(order := k)
    ensures |blocks| > 0 ==> |r| > 0
  {
    if |blocks| == 1 then [NewBlock(freshId, 0)]
    else Renumber(RemoveIndex(blocks, index))
  }

  /** Where `Array.prototype.splice(start, 0, x)` inserts into an array of length `len`:
      a negative start counts from the end, and the result is clamped to `[0, len]`. */
  function SpliceStart(len: nat, start: int): (p: nat)
    ensures p <= len
    ensures 0 <= start <= len ==> p == start
  {
    if start < 0 then (if len + start < 0 then 0 else len + start)
    else if start > len then len
    else start
  }

  /** `addBlockBelow`: a fresh empty paragraph is inserted right after position `index` (at the
      head of an empty sequence), the old blocks keep their relative order, and every block's
      `order` is re-derived from its position. */
  function AddBlockBelow(blocks: seq<Block>, index: int, freshId: Id): (r: seq<Block>)
    ensures |r| == |blocks| + 1
    ensures OrdersMatchPositions(r)
    ensures var p := SpliceStart(|blocks|, index + 1);
      && r[p] == NewBlock(freshId, p)
      && (forall k :: 0 <= k < p ==> r[k] == blocks[k].(order := k))
      && (forall k :: p <= k < |blocks| ==> r[k + 1] == blocks[k].(order := k + 1))
    ensures -1 <= index < |blocks| ==> r[index + 1] == NewBlock(freshId, index + 1)
  {
    var p := SpliceStart(|blocks|, index + 1);
    Renumber(blocks[..p] + [NewBlock(freshId, index + 1)] + blocks[p..])
  }

  /** The tag list the editor keeps: trimmed, non-empty tags without duplicates. */
  ghost predicate WellFormedTags(tags: seq<string>) {
    NoDuplicates(tags) && TagsTrimmed(tags)
  }

  /** Every tag is non-empty and has nothing to trim. */
  ghost predicate TagsTrimmed(tags: seq<string>) {
    forall k :: 0 <= k < |tags| ==> tags[k] != "" && Trim(tags[k]) == tags[k]
  }

  lemma AppendKeepsTagsTrimmed(tags: seq<string>, t: string)
    requires TagsTrimmed(tags) && t != "" && Trim(t) == t
    ensures TagsTrimmed(tags + [t])
  {
    var r := tags + [t];
    forall k | 0 <= k < |r|
      ensures r[k] != "" && Trim(r[k]) == r[k]
    {
      if k < |tags| {
        assert r[k] == tags[k];
      }
    }
  }

  /** `addTag`: the trimmed draft is appended, and the draft cleared, only when it is non-empty
      and not yet present; otherwise tags and draft stay as they were. So no empty, untrimmed or
      duplicate tag is ever introduced. Returns the new tags and the new draft. */
  function AddTag(tags: seq<string>, draft: string): (r: (seq<string>, string))
    ensures r.0 != tags <==> Trim(draft) != "" && Trim(draft) !in tags
    ensures r.0 != tags ==> r.0 == tags + [Trim(draft)] && r.1 == ""
    ensures r.0 == tags ==> r.1 == draft
  {
    var t := Trim(draft);
    if t != "" && t !in tags then (tags + [t], "") else (tags, draft)
  }

  /** Adding a tag keeps the tag list trimmed, free of empty tags and free of duplicates. */
  lemma AddTagKeepsTagsWellFormed(tags: seq<string>, draft: string)
    requires WellFormedTags(tags)
    ensures WellFormedTags(AddTag(tags, draft).0)
  {
    var t := Trim(draft);
    if t != "" && t !in tags {
      NoDuplicatesAppend(tags, t);
      TrimIdempotent(draft);
      AppendKeepsTagsTrimmed(tags, t);
    }
  }

  /** `removeTag`: every occurrence of `tag` goes, every other tag stays, in order. */
  function RemoveTag(tags: seq<string>, tag: string): (r: seq<string>)
    ensures tag !in r
    ensures IsSubsequence(r, tags)
    ensures forall x :: x != tag ==> multiset(r)[x] == multiset(tags)[x]
  {
    Filter(tags, x => x != tag)
  }

  /** Removing a tag keeps the tag list well formed. */
  lemma RemoveTagKeepsTagsWellFormed(tags: seq<string>, tag: string)
    requires WellFormedTags(tags)
    ensures WellFormedTags(RemoveTag(tags, tag))
  {
    var r := RemoveTag(tags, tag);
    assert forall x :: multiset(r)[x] <= multiset(tags)[x];
    forall k | 0 <= k < |r|
      ensures r[k] != "" && Trim(r[k]) == r[k]
    {
      assert r[k] in tags;
    }
  }

  /** `handleDelete`: the id handed to the delete callback, only when a stored document is open
      and the user confirmed; the editor then closes. */
  function HandleDelete(doc: Option<Document>, confirmed: bool): (r: Option<Id>)
    ensures r.Some? <==> doc.Some? && confirmed
    ensures r.Some? ==> r.value == doc.value.id
  {
    if doc.Some? && confirmed then Some(doc.value.id) else None
  }

  /** The editor's local state. */
  datatype EditorState = EditorState(
    title: string,
    icon: string,
    coverImage: string,
    blocks: seq<Block>,
    isPublic: bool,
    isFavorite: bool,
    tags: seq<string>)

  /** The page glyph shown when a document has none. */
  const DefaultIcon: string := "\U{1F4C4}"

  /** `value || fallback` for an optional string: absent and empty both fall back. */
  function OrDefault(value: Option<string>, fallback: string): string {
    if value.Some? && value.value != "" then value.value else fallback
  }

  /** The state seeded when the editor opens `doc` (or a blank page when there is none): a
      document without blocks gets exactly one fresh block, so the editor never starts empty. */
  function OpenEditor(doc: Option<Document>, freshId: Id): (st: EditorState)
    ensures |st.blocks| >= 1
    ensures doc.Some? && |doc.value.blocks| > 0 ==> st.blocks == doc.value.blocks
    ensures doc.None? || |doc.value.blocks| == 0 ==> st.blocks == [NewBlock(freshId, 0)]
    ensures doc.Some? ==>
      && st.title == doc.value.title && st.isPublic == doc.value.isPublic
      && st.icon == (if doc.value.icon.Some? && doc.value.icon.value != "" then doc.value.icon.value else DefaultIcon)
      && st.coverImage == doc.value.coverImage.GetOr("")
      && st.isFavorite == doc.value.isFavorite.GetOr(false)
      && st.tags == doc.value.tags.GetOr([])
    ensures doc.None? ==> st == EditorState("", DefaultIcon, "", [NewBlock(freshId, 0)], true, false, [])
  {
    match doc
    case Some(d) =>
      EditorState(
        d.title, OrDefault(d.icon, DefaultIcon), d.coverImage.GetOr(""),
        if |d.blocks| > 0 then d.blocks else [NewBlock(freshId, 0)],
        d.isPublic, d.isFavorite.GetOr(false), d.tags.GetOr([]))
    case None =>
      EditorState("", DefaultIcon, "", [NewBlock(freshId, 0)], true, false, [])
  }

  /** `title || 'Untitled'`: only the empty title is replaced. */
  function SaveTitle(title: string): (r: string)
    ensures r != ""
    ensures title != "" ==> r == title
    ensures title == "" ==> r == "Untitled"
  {
    if title == "" then "Untitled" else title
  }

  /** A block survives the save when it has text or is a divider, image or table. */
  predicate KeptOnSave(b: Block) {
    b.content != "" || b.kind == Divider || b.kind == Image || b.kind == Table
  }

  /** The save filter: the kept blocks, in their order. */
  function SavedBlocks(blocks: seq<Block>): (r: seq<Block>)
    ensures forall b :: b in r <==> b in blocks && KeptOnSave(b)
    ensures IsSubsequence(r, blocks)
    ensures forall b :: KeptOnSave(b) ==> multiset(r)[b] == multiset(blocks)[b]
  {
    Filter(blocks, KeptOnSave)
  }

  /** `handleSave`: the payload handed to the save callback. It always carries every editable
      field, with the title defaulted and the blocks filtered; it names the document's id when an
      existing document is open and the current user as creator otherwise. */
  function HandleSave(st: EditorState, doc: Option<Document>, currentUserId: Id): (p: PartialDocument)
    ensures p.title == Some(SaveTitle(st.title))
    ensures p.blocks == Some(SavedBlocks(st.blocks))
    ensures p.icon == Some(st.icon) && p.coverImage == Some(st.coverImage)
    ensures p.isPublic == Some(st.isPublic) && p.isFavorite == Some(st.isFavorite) && p.tags == Some(st.tags)
    ensures doc.Some? ==> p.id == Some(doc.value.id) && p.createdBy == None
    ensures doc.None? ==> p.id == None && p.createdBy == Some(currentUserId)
  {
    var data := PartialDocument(
      None, Some(SaveTitle(st.title)), Some(st.icon), Some(st.coverImage), Some(SavedBlocks(st.blocks)),
      Some(st.isPublic), Some(st.isFavorite), Some(st.tags), None);
    match doc
    case Some(d) => data.(id := Some(d.id))
    case None => data.(createdBy := Some(currentUserId))
  }
}
