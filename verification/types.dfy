/** The data shapes of the editor (src/types.ts): blocks, documents, and the rows of the
    `documents`, `blocks` and `tags` tables. */
module Types {

  /** An optional field of a TypeScript interface (`field?: T`). */
  datatype Option<+T> = None | Some(value: T) {
    function GetOr(default: T): T {
      match this
      case Some(v) => v
      case None => default
    }
  }

  /** Identifiers of documents, blocks, rows and users are opaque strings. */
  type Id = string

  /** Timestamps are modelled as integers (milliseconds); only their order matters. */
  type Timestamp = int

  /** The closed set of block type tags. */
  datatype BlockType =
    | Paragraph | Heading1 | Heading2 | Heading3 | BulletList | NumberedList
    | Todo | Quote | Code | Divider | Image | Table

  /** The position of a tag in the declaration of `Block.type`. */
  function Ordinal(t: BlockType): nat {
    match t
    case Paragraph => 0 case Heading1 => 1 case Heading2 => 2 case Heading3 => 3
    case BulletList => 4 case NumberedList => 5 case Todo => 6 case Quote => 7
    case Code => 8 case Divider => 9 case Image => 10 case Table => 11
  }

  /** Every block type, each exactly once. */
  function AllBlockTypes(): (r: seq<BlockType>)
    ensures |r| == 12
    ensures forall t: BlockType :: t in r
    ensures forall i, j :: 0 <= i < j < |r| ==> r[i] != r[j]
  {
    var r := [Paragraph, Heading1, Heading2, Heading3, BulletList, NumberedList,
              Todo, Quote, Code, Divider, Image, Table];
    assert forall t: BlockType :: Ordinal(t) < 12 && r[Ordinal(t)] == t && t in r;
    r
  }

  /** The optional property bag of a block; every key may be absent. */
  datatype Properties = Properties(
    checked: Option<bool>,
    language: Option<string>,
    url: Option<string>,
    level: Option<int>,
    rows: Option<seq<seq<string>>>)

  /** The object literal `{}`. */
  const NoProperties := Properties(None, None, None, None, None)

  /** `Block`; its `type` field is called `kind` here, `type` being a keyword. */
  datatype Block = Block(
    id: Id,
    kind: BlockType,
    content: string,
    properties: Option<Properties>,
    order: int)

  datatype Document = Document(
    id: Id,
    title: string,
    icon: Option<string>,
    coverImage: Option<string>,
    blocks: seq<Block>,
    isPublic: bool,
    createdBy: Id,
    createdAt: Timestamp,
    lastEditedAt: Timestamp,
    parentId: Option<Id>,
    isFavorite: Option<bool>,
    tags: Option<seq<string>>)

  /** `Partial<Document>` restricted to the keys the editor and the repository read or write. */
  datatype PartialDocument = PartialDocument(
    id: Option<Id>,
    title: Option<string>,
    icon: Option<string>,
    coverImage: Option<string>,
    blocks: Option<seq<Block>>,
    isPublic: Option<bool>,
    isFavorite: Option<bool>,
    tags: Option<seq<string>>,
    createdBy: Option<Id>)

  /** A row of the `documents` table. */
  datatype DBDocument = DBDocument(
    id: Id,
    title: string,
    icon: Option<string>,
    coverImage: Option<string>,
    isPublic: bool,
    isFavorite: bool,
    createdBy: Id,
    createdAt: Timestamp,
    lastEditedAt: Timestamp,
    parentId: Option<Id>)

  /** A row of the `blocks` table. */
  datatype DBBlock = DBBlock(
    id: Id,
    documentId: Id,
    kind: BlockType,
    content: string,
    properties: Properties,
    blockOrder: int)

  /** A row of the `tags` table. */
  datatype DBTag = DBTag(
    id: Id,
    documentId: Id,
    tag: string)
}
