/** The button list and the three ways the launcher changes it: add, from
    the settings window (`confirm_add`), and edit (`edit_button` then
    `confirm_edit`) and delete (`delete_button`), from the controls beside
    each button in the main window. The list is the `"buttons"` array of config.json, in
    display order; entries need not have distinct labels. */
module Buttons {
  import opened Wrappers
  import opened Seqs
  import opened Text

  /** One button: its name (the `"label"` field, the text shown on it) and
      the shell command it runs. */
  datatype Entry = Entry(name: string, command: string)

  /** An entry as the dialogs store it: both fields non-empty and stripped. */
  predicate WellFormed(e: Entry) {
    e.name != [] && e.command != [] && Trimmed(e.name) && Trimmed(e.command)
  }

  /** Why a dialog refused its input; the dialog stays open and nothing is saved. */
  datatype ValidationError = EmptyName | EmptyCommand

  /** The dialogs' check of the two text fields: both are stripped, then an
      empty name is refused first and an empty command second. */
  function Validate(name: string, command: string): (r: Result<Entry, ValidationError>)
    ensures r == Failure(EmptyName) <==> AllSpace(name)
    ensures r == Failure(EmptyCommand) <==> !AllSpace(name) && AllSpace(command)
    ensures r.Success? ==> WellFormed(r.value)
    ensures r.Success? ==> r.value == Entry(Strip(name), Strip(command))
  {
    var n := Strip(name);
    var c := Strip(command);
    if n == [] then Failure(EmptyName)
    else if c == [] then Failure(EmptyCommand)
    else Success(Entry(n, c))
  }

  /** A stored entry passes the dialog check unchanged, so opening it in
      the edit dialog and saving without typing keeps it as it is. */
  lemma ValidateWellFormed(e: Entry)
    requires WellFormed(e)
    ensures Validate(e.name, e.command) == Success(e)
  {
    StripTrimmed(e.name);
    StripTrimmed(e.command);
    assert !AllSpace(e.name) by { assert !IsSpace(e.name[0]); }
    assert !AllSpace(e.command) by { assert !IsSpace(e.command[0]); }
  }

  /** `confirm_add`: the validated entry goes at the end of the list. */
  function Add(buttons: seq<Entry>, name: string, command: string): (r: Result<seq<Entry>, ValidationError>)
    ensures r.Failure? <==> AllSpace(name) || AllSpace(command)
    ensures r.Failure? ==> r.error == (if AllSpace(name) then EmptyName else EmptyCommand)
    ensures r.Success? ==> |r.value| == |buttons| + 1
    ensures r.Success? ==> r.value[..|buttons|] == buttons
    ensures r.Success? ==> r.value[|buttons|] == Entry(Strip(name), Strip(command))
  {
    match Validate(name, command)
    case Failure(err) => Failure(err)
    case Success(e) => Success(buttons + [e])
  }

  /** How an entry is looked up: the edit control names the whole entry,
      the delete control only its name. */
  datatype Key = ByEntry(entry: Entry) | ByName(name: string) {
    predicate Matches(e: Entry) {
      match this
      case ByEntry(x) => e == x
      case ByName(n) => e.name == n
    }
  }

  /** `i` is the first index of `buttons` whose entry matches `key`. */
  predicate IsFirst(buttons: seq<Entry>, i: nat, key: Key) {
    && i < |buttons|
    && key.Matches(buttons[i])
    && forall j | 0 <= j < i :: !key.Matches(buttons[j])
  }

  /** The search loop of `edit_button` and `delete_button`. */
  function Find(buttons: seq<Entry>, key: Key): (r: Option<nat>)
    ensures r.Some? ==> IsFirst(buttons, r.value, key)
    ensures r.None? <==> forall j | 0 <= j < |buttons| :: !key.Matches(buttons[j])
  {
    var r := FirstIndex(buttons, e => key.Matches(e));
    assert forall j | 0 <= j < |buttons| :: (e => key.Matches(e))(buttons[j]) == key.Matches(buttons[j]);
    r
  }

  /** Why an edit did not happen. */
  datatype EditError = EntryNotFound | Invalid(error: ValidationError)

  /** `edit_button`: the index the dialog will overwrite, the first entry
      equal to the one whose edit control was used. */
  function EditTarget(buttons: seq<Entry>, current: Entry): (r: Result<nat, EditError>)
    ensures r.Failure? <==> current !in buttons
    ensures r.Failure? ==> r.error == EntryNotFound
    ensures r.Success? ==> r.value < |buttons| && buttons[r.value] == current
    ensures r.Success? ==> current !in buttons[..r.value]
  {
    match Find(buttons, ByEntry(current))
    case None => Failure(EntryNotFound)
    case Some(i) => Success(i)
  }

  /** `after` is `before` with the entry at `i` replaced by `e`. */
  predicate ReplacedAt(before: seq<Entry>, after: seq<Entry>, i: nat, e: Entry) {
    && |after| == |before|
    && i < |after|
    && after[i] == e
    && forall j | 0 <= j < |before| && j != i :: after[j] == before[j]
  }

  /** `confirm_edit`: the validated entry replaces the one at `index`. */
  function ConfirmEdit(buttons: seq<Entry>, index: nat, name: string, command: string): (r: Result<seq<Entry>, ValidationError>)
    requires index < |buttons|
    ensures r.Failure? <==> AllSpace(name) || AllSpace(command)
    ensures r.Failure? ==> r.error == (if AllSpace(name) then EmptyName else EmptyCommand)
    ensures r.Success? ==> ReplacedAt(buttons, r.value, index, Entry(Strip(name), Strip(command)))
  {
    match Validate(name, command)
    case Failure(err) => Failure(err)
    case Success(e) => Success(buttons[index := e])
  }

  /** A whole edit: look the entry up when its edit control is used, then
      validate the dialog's fields and replace it. An entry no longer in
      the list is reported before any dialog opens. */
  function Edit(buttons: seq<Entry>, current: Entry, name: string, command: string): (r: Result<seq<Entry>, EditError>)
    ensures r == Failure(EntryNotFound) <==> current !in buttons
    ensures r.Failure? && current in buttons ==>
              r.error == Invalid(if AllSpace(name) then EmptyName else EmptyCommand)
    ensures r.Success? <==> current in buttons && !AllSpace(name) && !AllSpace(command)
    ensures r.Success? ==> forall i | IsFirst(buttons, i, ByEntry(current)) ::
              ReplacedAt(buttons, r.value, i, Entry(Strip(name), Strip(command)))
  {
    match EditTarget(buttons, current)
    case Failure(err) => Failure(err)
    case Success(i) =>
      match ConfirmEdit(buttons, i, name, command)
      case Failure(err) => Failure(Invalid(err))
      case Success(after) => Success(after)
  }

  /** `delete_button`: the first entry carrying `name` is removed; without
      one the list is written back unchanged. */
  function Delete(buttons: seq<Entry>, name: string): (r: seq<Entry>)
    ensures (forall j | 0 <= j < |buttons| :: buttons[j].name != name) ==> r == buttons
    ensures forall i | IsFirst(buttons, i, ByName(name)) :: r == RemoveAt(buttons, i)
  {
    match Find(buttons, ByName(name))
    case None => buttons
    case Some(i) => RemoveAt(buttons, i)
  }

  /** The entries the delete control of a row called `name` can hit. */
  function HasName(name: string): Entry -> bool {
    (e: Entry) => e.name == name
  }

  /** Deleting a present name removes exactly one entry, the first with
      that name: later entries with the same name survive, and nothing
      else is lost. */
  lemma DeleteRemovesOne(buttons: seq<Entry>, name: string)
    requires exists j | 0 <= j < |buttons| :: buttons[j].name == name
    ensures var r := Delete(buttons, name);
              && |r| == |buttons| - 1
              && Count(r, HasName(name)) == Count(buttons, HasName(name)) - 1
              && var i := Find(buttons, ByName(name)).value;
                 multiset(r) + multiset{buttons[i]} == multiset(buttons)
  {
    var i := Find(buttons, ByName(name)).value;
    assert HasName(name)(buttons[i]);
    RemoveAtCount(buttons, i, HasName(name));
    RemoveAtMultiset(buttons, i);
  }

  /** The delete control of row `i` removes the first row with the same
      name, which is row `i` itself exactly when no earlier row shares it. */
  lemma DeleteFromRow(buttons: seq<Entry>, i: nat)
    requires i < |buttons|
    ensures var k := Find(buttons, ByName(buttons[i].name)).value;
              && k <= i
              && buttons[k].name == buttons[i].name
              && Delete(buttons, buttons[i].name) == RemoveAt(buttons, k)
              && (k == i <==> forall j | 0 <= j < i :: buttons[j].name != buttons[i].name)
  {
  }

  /** With two buttons labelled alike, the second row's delete control
      removes the first row and the clicked row stays. */
  lemma DeleteSharedLabelExample(a: Entry, b: Entry)
    requires a.name == b.name && a != b
    ensures Delete([a, b], b.name) == [b]
  {
  }

  /** The edit control of row `i` always finds an entry: the first one equal
      to row `i`, at or before it. */
  lemma EditFromRow(buttons: seq<Entry>, i: nat)
    requires i < |buttons|
    ensures EditTarget(buttons, buttons[i]).Success?
    ensures var k := EditTarget(buttons, buttons[i]).value;
              k <= i && buttons[k] == buttons[i]
  {
  }
}
