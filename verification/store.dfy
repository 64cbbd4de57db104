/** Reading and writing the configuration, above the JSON layer: what the
    launcher makes of a load at startup and in the three editor paths, and
    what each editor path writes back. Parsing and printing JSON are not
    modelled; a document is the parsed top-level object. */
module Store {
  import opened Wrappers
  import opened Text
  import opened Seqs
  import opened Buttons

  /** The parsed top-level object of config.json as far as the launcher
      reads it: the `"buttons"` array, or None when that key is absent. */
  datatype Document = Document(buttons: Option<seq<Entry>>)

  /** The three ways reading config.json can end. */
  datatype LoadOutcome = Found(doc: Document) | NotFound | Malformed

  /** The document written when the user chooses to reset: `{"buttons": []}`. */
  const EmptyConfig := Document(Some([]))

  /** The button list an editor path works on (`open_settings`,
      `edit_button`, `delete_button`): a missing `"buttons"` key, a missing
      file and a malformed file all give the empty list. */
  function EditorList(o: LoadOutcome): (buttons: seq<Entry>)
    ensures o.Found? && o.doc.buttons.Some? ==> buttons == o.doc.buttons.value
    ensures buttons != [] ==> o.Found? && o.doc.buttons == Some(buttons)
  {
    match o
    case Found(Document(Some(bs))) => bs
    case _ => []
  }

  /** What the main window does with a load at startup and after every
      save: show the buttons, or, when the file is missing or malformed,
      ask; a yes writes the empty configuration, a no closes the window. */
  datatype StartupAction = Display(entries: seq<Entry>) | Reset(written: Document) | Quit

  function Startup(o: LoadOutcome, resetChosen: bool): (r: StartupAction)
    ensures r.Display? <==> o.Found?
    ensures r.Display? ==> r.entries == EditorList(o)
    ensures r.Reset? <==> !o.Found? && resetChosen
    ensures r.Reset? ==> r.written == EmptyConfig
  {
    match o
    case Found(doc) => Display(if doc.buttons.Some? then doc.buttons.value else [])
    case _ => if resetChosen then Reset(EmptyConfig) else Quit
  }

  /** The main window shows exactly the list the editors work on. */
  lemma StartupShowsEditorList(o: LoadOutcome, resetChosen: bool)
    requires o.Found?
    ensures Startup(o, resetChosen) == Display(EditorList(o))
  {
  }

  /** After a reset, reading the file back gives an empty button list in
      the main window and in every editor. */
  lemma ResetThenLoadIsEmpty(o: LoadOutcome, later: bool)
    requires Startup(o, true).Reset?
    ensures var written := Startup(o, true).written;
              && Startup(Found(written), later) == Display([])
              && EditorList(Found(written)) == []
  {
  }

  /** An editor opened on a missing or malformed file works on the same
      list as one opened after a reset. */
  lemma UnreadableActsAsReset(o: LoadOutcome)
    requires !o.Found?
    ensures EditorList(o) == EditorList(Found(EmptyConfig))
  {
  }

  /** `confirm_add` in the settings window: the document saved, the entry
      appended to the list the window holds. `o` is that held document: the
      one the window read when it opened, or, after an earlier add from the
      same window, the document that add saved (the window keeps appending
      to the same object). */
  function SaveAdd(o: LoadOutcome, name: string, command: string): (r: Result<Document, ValidationError>)
    ensures r.Failure? <==> AllSpace(name) || AllSpace(command)
    ensures r.Success? ==> r.value.buttons == Some(EditorList(o) + [Entry(Strip(name), Strip(command))])
  {
    match Add(EditorList(o), name, command)
    case Failure(err) => Failure(err)
    case Success(bs) => Success(Document(Some(bs)))
  }

  /** `edit_button` with `confirm_edit`: the document saved, if any. */
  function SaveEdit(o: LoadOutcome, current: Entry, name: string, command: string): (r: Result<Document, EditError>)
    ensures r == Failure(EntryNotFound) <==> current !in EditorList(o)
    ensures r.Success? <==> current in EditorList(o) && !AllSpace(name) && !AllSpace(command)
    ensures r.Success? ==> r.value.buttons.Some?
    ensures r.Success? ==> forall i | IsFirst(EditorList(o), i, ByEntry(current)) ::
              ReplacedAt(EditorList(o), r.value.buttons.value, i, Entry(Strip(name), Strip(command)))
  {
    match Edit(EditorList(o), current, name, command)
    case Failure(err) => Failure(err)
    case Success(bs) => Success(Document(Some(bs)))
  }

  /** `delete_button`: a declined confirmation returns before the file is
      read, saving nothing; a confirmed delete reads the file and saves it
      whether or not an entry carried the name, with the first such entry
      removed. */
  function SaveDelete(o: LoadOutcome, name: string, confirmed: bool): (r: Option<Document>)
    ensures r.Some? <==> confirmed
    ensures r.Some? ==> r.value.buttons.Some?
    ensures r.Some? ==> |r.value.buttons.value| <= |EditorList(o)| <= |r.value.buttons.value| + 1
    ensures r.Some? && (forall j | 0 <= j < |EditorList(o)| :: EditorList(o)[j].name != name) ==>
              r.value.buttons.value == EditorList(o)
    ensures r.Some? ==> forall i | IsFirst(EditorList(o), i, ByName(name)) ::
              r.value.buttons.value == RemoveAt(EditorList(o), i)
  {
    if confirmed then Some(Document(Some(Delete(EditorList(o), name)))) else None
  }

  /** Two adds from one settings window: the second appends to what the
      first saved, so both new entries are kept, in the order added. */
  lemma SecondAddKeepsFirst(o: LoadOutcome, name1: string, command1: string, name2: string, command2: string)
    requires !AllSpace(name1) && !AllSpace(command1)
    requires !AllSpace(name2) && !AllSpace(command2)
    ensures SaveAdd(o, name1, command1).Success?
    ensures var second := SaveAdd(Found(SaveAdd(o, name1, command1).value), name2, command2);
              && second.Success?
              && second.value.buttons
                 == Some(EditorList(o) + [Entry(Strip(name1), Strip(command1)), Entry(Strip(name2), Strip(command2))])
  {
    var e1 := Entry(Strip(name1), Strip(command1));
    var e2 := Entry(Strip(name2), Strip(command2));
    assert EditorList(o) + [e1] + [e2] == EditorList(o) + [e1, e2];
  }

  /** Adding and reloading shows the old buttons in their old order with the
      new one, stripped, at the end. */
  lemma AddThenReload(o: LoadOutcome, name: string, command: string, resetChosen: bool)
    requires !AllSpace(name) && !AllSpace(command)
    ensures SaveAdd(o, name, command).Success?
    ensures var shown := Startup(Found(SaveAdd(o, name, command).value), resetChosen);
              && shown.Display?
              && |shown.entries| == |EditorList(o)| + 1
              && shown.entries[..|EditorList(o)|] == EditorList(o)
              && shown.entries[|EditorList(o)|] == Entry(Strip(name), Strip(command))
  {
  }

  /** Deleting and reloading shows one button fewer exactly when some
      button carried the name. */
  lemma DeleteThenReload(o: LoadOutcome, name: string, resetChosen: bool)
    ensures var shown := Startup(Found(SaveDelete(o, name, true).value), resetChosen);
              && shown.Display?
              && (|shown.entries| == |EditorList(o)| - 1 <==>
                    exists j | 0 <= j < |EditorList(o)| :: EditorList(o)[j].name == name)
  {
    var bs := EditorList(o);
    if exists j | 0 <= j < |bs| :: bs[j].name == name {
      DeleteRemovesOne(bs, name);
    }
  }

  /** A delete on a file that has gone missing or malformed since the
      window was drawn overwrites it with the empty configuration. */
  lemma DeleteOnUnreadableWritesEmpty(o: LoadOutcome, name: string)
    requires !o.Found?
    ensures SaveDelete(o, name, true) == Some(EmptyConfig)
  {
  }

  /** A file whose object lacks the `"buttons"` key is written back with
      the key present. */
  lemma SaveAddsButtonsKey(name: string, command: string)
    requires !AllSpace(name) && !AllSpace(command)
    ensures SaveAdd(Found(Document(None)), name, command)
            == Success(Document(Some([Entry(Strip(name), Strip(command))])))
  {
  }
}
