/** Per-block transformations of the block editor (src/components/BlockEditor.tsx): retyping,
    the to-do toggle, the table grid operations, the keystroke classifier and the type menu. */
module BlockEditor {
  import opened Types
  import opened Seqs
  import opened Text

  /** `block.properties`, an absent bag read as `{}` (what spreading `undefined` yields). */
  function PropsOf(b: Block): Properties {
    b.properties.GetOr(NoProperties)
  }

  /** `block.properties?.rows || []`. */
  function GridOf(b: Block): seq<seq<string>> {
    PropsOf(b).rows.GetOr([])
  }

  /** `block.properties?.checked`, absent read as false. */
  function Checked(b: Block): bool {
    PropsOf(b).checked.GetOr(false)
  }

  /** `r` agrees with `b` on everything except, possibly, the `rows` key of its properties. */
  ghost predicate OnlyRowsChanged(b: Block, r: Block) {
    && r.id == b.id && r.kind == b.kind && r.content == b.content && r.order == b.order
    && PropsOf(r).(rows := None) == PropsOf(b).(rows := None)
  }

  /** The floor invariant of a table at rest: at least one row, at least one column, rectangular. */
  ghost predicate WellFormedGrid(rows: seq<seq<string>>) {
    && |rows| >= 1 && |rows[0]| >= 1
    && forall i :: 0 <= i < |rows| ==> |rows[i]| == |rows[0]|
  }

  /** `{ ...block, properties: { ...block.properties, rows } }`. */
  function WithRows(b: Block, rows: seq<seq<string>>): (r: Block)
    ensures GridOf(r) == rows
    ensures OnlyRowsChanged(b, r)
  {
    b.(properties := Some(PropsOf(b).(rows := Some(rows))))
  }

  /** `Array(n).fill('')`. */
  function EmptyRow(n: nat): (r: seq<string>)
    ensures |r| == n
    ensures forall k :: 0 <= k < n ==> r[k] == ""
  {
    seq(n, _ => "")
  }

  /** The grid a block gets when it is retyped to `table`. */
  const DefaultGrid: seq<seq<string>> := [["", "", ""], ["", "", ""], ["", "", ""]]

  /** `handleContentChange`: the typed text replaces the content and nothing else. */
  function SetContent(b: Block, text: string): (r: Block)
    ensures r.content == text
    ensures r.id == b.id && r.kind == b.kind && r.properties == b.properties && r.order == b.order
  {
    b.(content := text)
  }

  /** `changeBlockType`: the content is always cleared; a table gets a fresh 3x3 grid of empty
      cells and nothing else, an image gets exactly `{url: ''}`, every other type keeps the old
      property bag. */
  function ChangeBlockType(b: Block, t: BlockType): (r: Block)
    ensures r.id == b.id && r.order == b.order && r.kind == t && r.content == ""
    ensures t == Table ==>
      && r.properties.Some? && PropsOf(r).(rows := None) == NoProperties
      && WellFormedGrid(GridOf(r)) && |GridOf(r)| == 3 && |GridOf(r)[0]| == 3
      && forall i, j :: 0 <= i < 3 && 0 <= j < 3 ==> GridOf(r)[i][j] == ""
    ensures t == Image ==> r.properties == Some(NoProperties.(url := Some("")))
    ensures t != Table && t != Image ==> r.properties == b.properties
  {
    if t == Table then
      b.(kind := t, content := "", properties := Some(NoProperties.(rows := Some(DefaultGrid))))
    else if t == Image then
      b.(kind := t, content := "", properties := Some(NoProperties.(url := Some(""))))
    else
      b.(kind := t, content := "")
  }

  /** `toggleTodo`: negates `checked` (absent counts as false) and keeps every other key. */
  function ToggleTodo(b: Block): (r: Block)
    ensures Checked(r) == !Checked(b)
    ensures r.properties.Some? && PropsOf(r).checked.Some?
    ensures PropsOf(r).(checked := None) == PropsOf(b).(checked := None)
    ensures r.id == b.id && r.kind == b.kind && r.content == b.content && r.order == b.order
  {
    b.(properties := Some(PropsOf(b).(checked := Some(!Checked(b)))))
  }

  /** `currentRows[0]?.length || 3`: the width of a new row. */
  function NewRowWidth(rows: seq<seq<string>>): nat {
    if |rows| == 0 || |rows[0]| == 0 then 3 else |rows[0]|
  }

  /** `addTableRow`: appends one row of empty cells, as wide as the first row (3 when there is
      no row or the first row is empty); the existing rows are untouched. */
  function AddTableRow(b: Block): (r: Block)
    ensures |GridOf(r)| == |GridOf(b)| + 1
    ensures GridOf(r)[..|GridOf(b)|] == GridOf(b)
    ensures |GridOf(r)[|GridOf(b)|]| == NewRowWidth(GridOf(b))
    ensures forall k :: 0 <= k < |GridOf(r)[|GridOf(b)|]| ==> GridOf(r)[|GridOf(b)|][k] == ""
    ensures OnlyRowsChanged(b, r)
  {
    var rows := GridOf(b);
    var r := WithRows(b, rows + [EmptyRow(NewRowWidth(rows))]);
    assert GridOf(r)[..|rows|] == rows;
    r
  }

  /** `addTableColumn`: the same rows, each with one more empty cell at its end (a table without
      rows ends up with an explicit empty `rows`). */
  function AddTableColumn(b: Block): (r: Block)
    ensures r.properties.Some? && PropsOf(r).rows.Some?
    ensures |GridOf(r)| == |GridOf(b)|
    ensures forall i :: 0 <= i < |GridOf(b)| ==> GridOf(r)[i] == GridOf(b)[i] + [""]
    ensures OnlyRowsChanged(b, r)
  {
    var rows := GridOf(b);
    WithRows(b, seq(|rows|, i requires 0 <= i < |rows| => rows[i] + [""]))
  }

  /** `deleteTableRow`: refuses (returns the block unchanged) when there is at most one row;
      otherwise drops row `i`, keeping the others in order. */
  function DeleteTableRow(b: Block, i: int): (r: Block)
    ensures |GridOf(b)| <= 1 ==> r == b
    ensures |GridOf(b)| > 1 ==> OnlyRowsChanged(b, r) && RemovedAt(GridOf(b), GridOf(r), i)
    ensures !(0 <= i < |GridOf(b)|) ==> r == b
  {
    var rows := GridOf(b);
    if |rows| <= 1 then b
    else
      assert b.properties == Some(PropsOf(b).(rows := Some(rows)));
      WithRows(b, RemoveIndex(rows, i))
  }

  /** The guard `currentRows[0]?.length <= 1`; with no rows it compares `undefined` and is false. */
  predicate SingleColumn(rows: seq<seq<string>>) {
    |rows| > 0 && |rows[0]| <= 1
  }

  /** `deleteTableColumn`: refuses when the first row has at most one cell; otherwise drops cell
      `j` of every row, keeping the other cells in order (a table without rows ends up with an
      explicit empty `rows`). */
  function DeleteTableColumn(b: Block, j: int): (r: Block)
    ensures SingleColumn(GridOf(b)) ==> r == b
    ensures !SingleColumn(GridOf(b)) ==>
      && OnlyRowsChanged(b, r) && r.properties.Some? && PropsOf(r).rows.Some?
      && |GridOf(r)| == |GridOf(b)|
      && forall k :: 0 <= k < |GridOf(b)| ==> RemovedAt(GridOf(b)[k], GridOf(r)[k], j)
  {
    var rows := GridOf(b);
    if SingleColumn(rows) then b
    else WithRows(b, seq(|rows|, k requires 0 <= k < |rows| => RemoveIndex(rows[k], j)))
  }

  /** The cell input's change handler, as a pure update of cell (i, j). */
  function EditCell(b: Block, i: nat, j: nat, text: string): (r: Block)
    requires i < |GridOf(b)| && j < |GridOf(b)[i]|
    ensures OnlyRowsChanged(b, r)
    ensures |GridOf(r)| == |GridOf(b)|
    ensures forall k :: 0 <= k < |GridOf(b)| ==> |GridOf(r)[k]| == |GridOf(b)[k]|
    ensures GridOf(r)[i][j] == text
    ensures forall k, l :: 0 <= k < |GridOf(b)| && 0 <= l < |GridOf(b)[k]| && (k, l) != (i, j) ==>
      GridOf(r)[k][l] == GridOf(b)[k][l]
  {
    var rows := GridOf(b);
    WithRows(b, rows[i := rows[i][j := text]])
  }

  /** Every grid operation keeps a well-formed table well formed: the floors of one row and one
      column hold and the grid stays rectangular. */
  lemma GridOperationsPreserveWellFormed(b: Block, i: int, j: int, k: nat, l: nat, text: string)
    requires WellFormedGrid(GridOf(b))
    ensures WellFormedGrid(GridOf(AddTableRow(b)))
    ensures WellFormedGrid(GridOf(AddTableColumn(b)))
    ensures WellFormedGrid(GridOf(DeleteTableRow(b, i)))
    ensures WellFormedGrid(GridOf(DeleteTableColumn(b, j)))
    ensures k < |GridOf(b)| && l < |GridOf(b)[k]| ==> WellFormedGrid(GridOf(EditCell(b, k, l, text)))
  {
    var rows := GridOf(b);
    var deleted := GridOf(DeleteTableColumn(b, j));
    if !SingleColumn(rows) && 0 <= j < |rows[0]| {
      assert forall m :: 0 <= m < |rows| ==> |deleted[m]| == |rows[0]| - 1;
    }
  }

  /** What a key press in a block's text area asks for. */
  datatype KeyIntent = AddBelow | OpenMenu | DeleteBlock | CloseMenu | NoIntent

  /** `handleKeyDown`: the first matching case wins. Enter without Shift outside a `code` block
      adds a block below; `/` on empty content opens the type menu; Backspace on an empty
      paragraph deletes it; Escape closes an open menu; anything else is left to the text area. */
  function ClassifyKey(key: string, shift: bool, kind: BlockType, content: string, menuOpen: bool): (r: KeyIntent)
    ensures r == AddBelow <==> key == "Enter" && !shift && kind != Code
    ensures r == OpenMenu <==> key == "/" && content == ""
    ensures r == DeleteBlock <==> key == "Backspace" && content == "" && kind == Paragraph
    ensures r == CloseMenu <==> key == "Escape" && menuOpen
  {
    if key == "Enter" && !shift && kind != Code then AddBelow
    else if key == "/" && content == "" then OpenMenu
    else if key == "Backspace" && content == "" && kind == Paragraph then DeleteBlock
    else if key == "Escape" && menuOpen then CloseMenu
    else NoIntent
  }

  /** One entry of the block-type menu (`caption` is the entry's `label`). */
  datatype MenuItem = MenuItem(kind: BlockType, caption: string, desc: string, keywords: seq<string>)

  datatype MenuCategory = MenuCategory(name: string, items: seq<MenuItem>)

  /** The `blockTypes` table of the menu. */
  const BlockMenu: seq<MenuCategory> := [
    MenuCategory("BASIC BLOCKS", [
      MenuItem(Paragraph, "Text", "Just start writing with plain text", ["text", "paragraph", "plain"]),
      MenuItem(Heading1, "Heading 1", "Big section heading", ["h1", "heading", "title", "large"]),
      MenuItem(Heading2, "Heading 2", "Medium section heading", ["h2", "heading", "subtitle", "medium"]),
      MenuItem(Heading3, "Heading 3", "Small section heading", ["h3", "heading", "small"]),
      MenuItem(BulletList, "Bulleted list", "Create a simple bulleted list", ["bullet", "list", "unordered", "ul"]),
      MenuItem(NumberedList, "Numbered list", "Create a list with numbering", ["number", "list", "ordered", "ol"]),
      MenuItem(Todo, "To-do list", "Track tasks with a to-do list", ["todo", "task", "checkbox", "check"]),
      MenuItem(Quote, "Quote", "Capture a quote", ["quote", "blockquote", "citation"]),
      MenuItem(Code, "Code", "Capture a code snippet", ["code", "snippet", "programming"]),
      MenuItem(Divider, "Divider", "Visually divide blocks", ["divider", "separator", "line", "hr"])
    ]),
    MenuCategory("MEDIA", [
      MenuItem(Image, "Image", "Upload or embed with a link", ["image", "picture", "photo", "upload"]),
      MenuItem(Table, "Table", "Add a table to organize data", ["table", "grid", "spreadsheet", "data"])
    ])
  ]

  lemma BlockMenuHasNoEmptyCategory()
    ensures forall k :: 0 <= k < |BlockMenu| ==> |BlockMenu[k].items| > 0
  {
  }

  /** Every block type has exactly one entry in the menu, in declaration order. */
  lemma BlockMenuListsEveryType()
    ensures var items := BlockMenu[0].items + BlockMenu[1].items;
      seq(|items|, k requires 0 <= k < |items| => items[k].kind) == AllBlockTypes()
  {
  }

  /** The item filter of the menu search: an empty search keeps everything; otherwise the
      lower-cased search must occur in the lower-cased label or description, or (as typed, not
      lower-cased) in a keyword. `lower` stands for `String.prototype.toLowerCase`. */
  predicate ItemMatches(item: MenuItem, menuSearch: string, lower: string -> string) {
    menuSearch == "" ||
      var search := lower(menuSearch);
      || Contains(lower(item.caption), search)
      || Contains(lower(item.desc), search)
      || exists k | k in item.keywords :: Contains(k, search)
  }

  /** `item` is listed under some category of `menu`. */
  ghost predicate Offered(menu: seq<MenuCategory>, item: MenuItem) {
    exists c :: c in menu && item in c.items
  }

  /** One category with only its items that satisfy `matches`, in order. */
  function NarrowCategory(c: MenuCategory, matches: MenuItem -> bool): (r: MenuCategory)
    ensures r.name == c.name
    ensures forall item :: item in r.items <==> item in c.items && matches(item)
    ensures IsSubsequence(r.items, c.items)
    ensures forall item :: matches(item) ==> multiset(r.items)[item] == multiset(c.items)[item]
  {
    c.(items := Filter(c.items, matches))
  }

  /** Every category of `menu` narrowed by `matches`, empty ones included. */
  function NarrowAll(menu: seq<MenuCategory>, matches: MenuItem -> bool): (r: seq<MenuCategory>)
    ensures |r| == |menu|
    ensures forall k :: 0 <= k < |menu| ==> r[k] == NarrowCategory(menu[k], matches)
  {
    seq(|menu|, k requires 0 <= k < |menu| => NarrowCategory(menu[k], matches))
  }

  /** Each narrowed category comes from a category of the full menu. */
  lemma NarrowAllFrom(menu: seq<MenuCategory>, matches: MenuItem -> bool, c: MenuCategory)
    requires c in NarrowAll(menu, matches)
    ensures exists m :: m in menu && c == NarrowCategory(m, matches)
  {
    var narrowed := NarrowAll(menu, matches);
    var k :| 0 <= k < |narrowed| && narrowed[k] == c;
    assert menu[k] in menu;
  }

  predicate NonEmpty(c: MenuCategory) { |c.items| > 0 }

  /** Narrows `menu` by an item filter: each category keeps its matching items in order and the
      categories left empty are dropped; the others stay in menu order. */
  function FilterMenu(menu: seq<MenuCategory>, matches: MenuItem -> bool): (r: seq<MenuCategory>)
    ensures forall c :: c in r ==> |c.items| > 0
    ensures IsSubsequence(r, NarrowAll(menu, matches))
    ensures forall c :: c in NarrowAll(menu, matches) && NonEmpty(c) ==> c in r
    ensures forall c :: NonEmpty(c) ==> multiset(r)[c] == multiset(NarrowAll(menu, matches))[c]
  {
    Filter(NarrowAll(menu, matches), NonEmpty)
  }

  /** Whatever the narrowed menu lists, the full menu lists and `matches` accepts. */
  lemma FilterMenuOffersOnlyMatches(menu: seq<MenuCategory>, matches: MenuItem -> bool, item: MenuItem)
    requires Offered(FilterMenu(menu, matches), item)
    ensures Offered(menu, item) && matches(item)
  {
    var c :| c in FilterMenu(menu, matches) && item in c.items;
    NarrowAllFrom(menu, matches, c);
    var m :| m in menu && c == NarrowCategory(m, matches);
    assert item in m.items && matches(item);
  }

  /** Every entry of the full menu that `matches` accepts stays listed. */
  lemma FilterMenuOffersAllMatches(menu: seq<MenuCategory>, matches: MenuItem -> bool, item: MenuItem)
    requires Offered(menu, item) && matches(item)
    ensures Offered(FilterMenu(menu, matches), item)
  {
    var narrowed := NarrowAll(menu, matches);
    var c :| c in menu && item in c.items;
    var k :| 0 <= k < |menu| && menu[k] == c;
    var n := narrowed[k];
    assert item in n.items;
    assert n in narrowed && NonEmpty(n);
    assert n in FilterMenu(menu, matches);
  }

  /** An entry survives the narrowing exactly when the full menu lists it and it matches. */
  lemma FilterMenuOffers(menu: seq<MenuCategory>, matches: MenuItem -> bool, item: MenuItem)
    ensures Offered(FilterMenu(menu, matches), item) <==> Offered(menu, item) && matches(item)
  {
    if Offered(FilterMenu(menu, matches), item) {
      FilterMenuOffersOnlyMatches(menu, matches, item);
    }
    if Offered(menu, item) && matches(item) {
      FilterMenuOffersAllMatches(menu, matches, item);
    }
  }

  /** A filter that keeps every item shows a menu without empty categories unchanged. */
  lemma FilterMenuKeepsAll(menu: seq<MenuCategory>, matches: MenuItem -> bool)
    requires forall k :: 0 <= k < |menu| ==> |menu[k].items| > 0
    requires forall item :: matches(item)
    ensures FilterMenu(menu, matches) == menu
  {
    var narrowed := NarrowAll(menu, matches);
    forall k | 0 <= k < |menu|
      ensures narrowed[k] == menu[k]
    {
      FilterKeepsAll(menu[k].items, matches);
    }
    assert narrowed == menu;
    FilterKeepsAll(narrowed, NonEmpty);
  }

  /** The item filter of the menu search as a predicate on items. */
  function SearchFilter(menuSearch: string, lower: string -> string): MenuItem -> bool {
    item => ItemMatches(item, menuSearch, lower)
  }

  /** `filteredBlockTypes`: the block-type menu narrowed to the search, without empty
      categories: every category that keeps an item stays, under its own name and in menu
      order, with its matching items in order; an empty search shows the whole menu. */
  function FilteredBlockTypes(menuSearch: string, lower: string -> string): (r: seq<MenuCategory>)
    ensures forall c :: c in r ==> |c.items| > 0
    ensures IsSubsequence(r, NarrowAll(BlockMenu, SearchFilter(menuSearch, lower)))
    ensures forall c :: c in NarrowAll(BlockMenu, SearchFilter(menuSearch, lower)) && NonEmpty(c) ==> c in r
    ensures menuSearch == "" ==> r == BlockMenu
  {
    var matches := SearchFilter(menuSearch, lower);
    if menuSearch == "" then
      BlockMenuHasNoEmptyCategory();
      FilterMenuKeepsAll(BlockMenu, matches);
      FilterMenu(BlockMenu, matches)
    else
      FilterMenu(BlockMenu, matches)
  }

  /** A block type is offered under the search exactly when its menu entry matches it. */
  lemma FilteredBlockTypesOffers(menuSearch: string, lower: string -> string, item: MenuItem)
    ensures Offered(FilteredBlockTypes(menuSearch, lower), item) <==> Offered(BlockMenu, item) && ItemMatches(item, menuSearch, lower)
  {
    FilterMenuOffers(BlockMenu, SearchFilter(menuSearch, lower), item);
  }
}
