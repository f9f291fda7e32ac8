/** The dashboard's editor state machine (src/components/Dashboard.tsx): which document is open,
    whether a new one is being written, and what a save asks of the repository. The signed-in
    user's id is a parameter: the dashboard is only shown to a signed-in user. */
module Dashboard {
  import opened Types
  import DocumentEditor
  import Persistence

  /** `selectedDocument` and `isCreatingNew`. */
  datatype State = State(selected: Option<Document>, creating: bool)

  const Initial: State := State(None, false)

  /** At most one of the two editor modes is on. */
  ghost predicate Valid(st: State) {
    !(st.selected.Some? && st.creating)
  }

  /** The editor is shown while a document is selected or a new one is being written. */
  predicate ShowsEditor(st: State) {
    st.selected.Some? || st.creating
  }

  /** `handleNewDocument`: a blank editor. */
  function NewDocument(st: State): (r: State)
    ensures ShowsEditor(r) && r.selected.None? && r.creating
  {
    State(None, true)
  }

  /** `handleSelectDocument`: the editor on `doc`. */
  function Select(st: State, doc: Document): (r: State)
    ensures ShowsEditor(r) && r.selected == Some(doc) && !r.creating
  {
    State(Some(doc), false)
  }

  /** `handleCloseEditor`: back to the list. */
  function Close(st: State): (r: State)
    ensures !ShowsEditor(r) && r == Initial
  {
    State(None, false)
  }

  /** The repository call a save makes. */
  datatype SaveAction =
    | Update(id: Id, data: PartialDocument)
    | Create(doc: Persistence.NewDocument)

  /** The document `handleSaveDocument` creates from the editor's payload: `title || 'Untitled'`,
      `isPublic ?? true`, `blocks || []`, the signed-in user as creator and no parent. */
  function NewDocumentFrom(data: PartialDocument, userId: Id): (d: Persistence.NewDocument)
    ensures d.title != ""
    ensures data.title.Some? && data.title.value != "" ==> d.title == data.title.value
    ensures data.title.None? || data.title == Some("") ==> d.title == "Untitled"
    ensures d.isPublic == (data.isPublic != Some(false))
    ensures d.blocks == (if data.blocks.Some? then data.blocks.value else [])
    ensures d.icon == data.icon && d.coverImage == data.coverImage
    ensures d.isFavorite == data.isFavorite && d.tags == data.tags
    ensures d.createdBy == userId && d.parentId.None?
  {
    Persistence.NewDocument(
      DocumentEditor.SaveTitle(data.title.GetOr("")), data.icon, data.coverImage,
      data.blocks.GetOr([]), data.isPublic.GetOr(true), data.isFavorite, data.tags, userId, None)
  }

  /** `handleSaveDocument`: with a document open, update it and deselect it; otherwise create a
      new document and leave the creating mode. */
  function Save(st: State, data: PartialDocument, userId: Id): (result: (State, SaveAction))
    ensures st.selected.Some? ==>
      && result.1 == Update(st.selected.value.id, data)
      && result.0 == st.(selected := None)
    ensures st.selected.None? ==>
      && result.1 == Create(NewDocumentFrom(data, userId))
      && result.0 == st.(creating := false)
  {
    match st.selected
    case Some(doc) => (State(None, st.creating), Update(doc.id, data))
    case None => (State(None, false), Create(NewDocumentFrom(data, userId)))
  }

  /** The editor's edit permission: the access rule for an open document, always for a new one. */
  function EditorMayEdit(st: State, userId: Option<Id>): (r: bool)
    ensures st.selected.None? ==> r
    ensures st.selected.Some? ==> (r <==> Persistence.CanEdit(userId, st.selected.value))
  {
    match st.selected
    case Some(doc) => Persistence.CanEdit(userId, doc)
    case None => true
  }

  /** Every transition keeps the two editor modes exclusive. */
  lemma TransitionsKeepValid(st: State, doc: Document, data: PartialDocument, userId: Id)
    requires Valid(st)
    ensures Valid(Initial)
    ensures Valid(NewDocument(st)) && Valid(Select(st, doc)) && Valid(Close(st))
    ensures Valid(Save(st, data, userId).0)
  {
  }

  /** From a valid state, a save always returns to the list. */
  lemma SaveClosesEditor(st: State, data: PartialDocument, userId: Id)
    requires Valid(st)
    ensures !ShowsEditor(Save(st, data, userId).0)
  {
  }

  /** Saving a new page from the editor: the document created carries what the editor showed,
      with the title defaulted and the empty non-structural blocks dropped. */
  lemma NewPageSavesEditorContents(st: State, editor: DocumentEditor.EditorState, userId: Id)
    requires st.selected.None?
    ensures var data := DocumentEditor.HandleSave(editor, None, userId);
      var d := Save(st, data, userId).1.doc;
      && Save(st, data, userId).1.Create?
      && d.title == DocumentEditor.SaveTitle(editor.title)
      && d.blocks == DocumentEditor.SavedBlocks(editor.blocks)
      && d.isPublic == editor.isPublic && d.isFavorite == Some(editor.isFavorite)
      && d.tags == Some(editor.tags) && d.icon == Some(editor.icon)
      && d.coverImage == Some(editor.coverImage) && d.createdBy == userId
  {
  }

  /** Saving an open document from the editor asks to update that document by its id. */
  lemma OpenPageSavesById(doc: Document, editor: DocumentEditor.EditorState, userId: Id)
    ensures var st := State(Some(doc), false);
      var data := DocumentEditor.HandleSave(editor, Some(doc), userId);
      Save(st, data, userId).1 == Update(doc.id, data) && data.id == Some(doc.id)
  {
  }
}
