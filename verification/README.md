# sudo command launcher — a Dafny model of its decisions

The launcher is a small Tkinter desktop tool. It shows one button per
`(label, command)` pair stored under the `"buttons"` key of `config.json`.
Clicking a button runs the command with `sudo` in a new terminal window. A
settings window adds entries; an edit and a delete control beside each
button in the main window change or remove that entry. Almost all of the program is
widget wiring and I/O. This project models the decisions buried in it as pure
functions over strings and sequences, and proves what they promise:

- **Launch** (`launch.dfy`, with `text.dfy` and `paths.dfy`): how a command
  is elevated with `sudo `; the six-line bash script written around it and
  its location; which terminal emulator is chosen; and the argument vector
  that emulator is started with; and how a missing terminal or a failing OS
  call ends in the error dialog. Which emulators resolve on the search path,
  which OS call raises, and the launcher's own directory are inputs.
- **Button list** (`buttons.dfy`): the dialogs' check of the two fields,
  appending an entry, replacing the first entry equal to the edited one, and
  removing the first entry that carries a name.
- **Store** (`store.dfy`): what a load becomes at startup and in the editor
  paths, the reset to `{"buttons": []}`, and the document each editor path
  writes back.

`wrappers.dfy` holds `Option` and `Result`. `seqs.dfy` holds the
front-to-back search shared by emulator selection, edit and delete, plus
removal at an index.

Naming: `label` is a Dafny keyword, so an entry's `"label"` field is called
`name` here, after the dialog's own caption for it ("button name").

Three points of the code worth knowing:

- Delete matches on the name alone (launcher.py:568), while edit matches
  on the (name, command) pair (launcher.py:458). With two buttons sharing a name, the second row's
  delete control removes the first row (`Buttons.DeleteSharedLabelExample`).
- The script is written before an emulator is looked for (launcher.py:248-269).
  So when no emulator is found, the script has still been written, and no
  deletion is scheduled (`Launch.LaunchOutcome.NoTerminalFound` carries it).
- The lxterminal/x-terminal-emulator branch and the fallback branch build the
  same argument vector (launcher.py:274-277). The model has one rule for both.

## Model

| member | source | states |
|---|---|---|
| Text.Strip | launcher.py:396-397 | `str.strip()`: the result has no whitespace at either end; it is empty exactly when the input is all whitespace; and it is the input minus a whitespace-only prefix and suffix |
| Text.StripIdempotent | launcher.py:503-504 | stripping twice is stripping once |
| Text.SplitJoinLines | launcher.py:248-254 | a text written one newline-terminated line at a time reads back as the same lines, when no line holds a newline |
| Paths.DirnameJoin | launcher.py:238-247 | `dirname(join(dir, name))` is `dir` for a directory as `abspath`/`dirname` produce it and a plain file name |
| Launch.Elevate | launcher.py:241-244 | the command is left as typed exactly when its stripped form starts with `sudo `; otherwise the untrimmed command gets `sudo ` in front |
| Launch.ElevateRunsUnderSudo | launcher.py:241-244 | every command with non-blank text ends up, stripped, starting with `sudo ` |
| Launch.ElevateIdempotent | launcher.py:241-244 | elevating an already elevated non-blank command changes nothing |
| Launch.ElevateBlankNotIdempotent | launcher.py:241-244 | a blank command becomes `sudo `, and elevating that again gives `sudo sudo ` |
| Launch.ElevateBareSudo | launcher.py:241-242 | `sudo` alone becomes `sudo sudo`, because the test needs a space after `sudo` |
| Launch.ElevateIndentedSudo | launcher.py:241-244 | ` sudo x` is left unchanged, leading space included |
| Launch.ElevateAbsolutePath | launcher.py:241-242 | a command given by absolute path, as the dialogs ask for, always gets `sudo ` in front |
| Launch.ScriptPath | launcher.py:247 | the script path is the launcher's directory, at most one separator, then `temp_command.sh` |
| Launch.ScriptPathName | launcher.py:247 | everything after the script path's last separator is exactly `temp_command.sh` |
| Launch.ScriptPathInDir | launcher.py:238-247 | the script sits directly in the launcher's directory |
| Launch.ScriptText | launcher.py:248-254 | the script text ends with a newline |
| Launch.ScriptRoundTrip | launcher.py:248-254 | the script reads back as exactly the six lines in order (shebang, `cd "<dir>"`, the command, `echo ""`, the completion notice, `read`), and parsing it recovers the directory and the command |
| Launch.SelectEmulator | launcher.py:260-269 | the chosen emulator is available and no available emulator precedes it in the preference order; there is none exactly when none is available |
| Launch.Argv | launcher.py:272-277 | the argument vector starts with the emulator's name; it has four items exactly for gnome-terminal; read back in either calling convention, it runs the script under bash |
| Launch.Execute | launcher.py:236-277 | the script written is the six-line text for the elevated command at the script path; a launch fails with no terminal exactly when no emulator is available; otherwise it starts the most preferred available one with that emulator's argument vector on the script |
| Launch.Run | launcher.py:236-297 | a terminal is started exactly when one is available and no OS call raised; it is then the one `Execute` selects, with its argument vector on the written script; every other launch ends in the error dialog naming the command as stored |
| Launch.LaunchWritesScript | launcher.py:238-254 | whatever the emulators, the written script lies in the launcher's directory, enters it, and runs the elevated command |
| Launch.AptUpdateExample | launcher.py:236-277 | `/usr/bin/apt update` launched from `/opt/menu` with only xterm available starts `xterm -e "/bin/bash /opt/menu/temp_command.sh"`, and that script runs `sudo /usr/bin/apt update` in `/opt/menu` |
| Buttons.Validate | launcher.py:396-405 | an all-whitespace name is refused first; otherwise an all-whitespace command is refused; otherwise the entry is the two stripped fields, both non-empty and trimmed |
| Buttons.ValidateWellFormed | launcher.py:503-515 | a stored, well-formed entry passes the check unchanged |
| Buttons.Add | launcher.py:395-408 | a refused input gives the field's error and nothing is added; an accepted one gives a list one longer, with the old entries unchanged and in order and the stripped entry last |
| Buttons.Find | launcher.py:457-461 | the index found is the first entry matching the key; there is none exactly when no entry matches |
| Buttons.EditTarget | launcher.py:457-465 | the edit reports not found exactly when the entry is absent; otherwise its index is the first one holding that exact entry |
| Buttons.ConfirmEdit | launcher.py:502-515 | a refused input gives the field's error; an accepted one replaces only the entry at the index, keeping the length |
| Buttons.Edit | launcher.py:438-515 | not found is decided before any validation; an edit succeeds exactly when the entry is present and both fields are non-blank, and then replaces the first equal entry with the stripped fields and nothing else |
| Buttons.Delete | launcher.py:566-571 | without an entry of that name the list is unchanged; otherwise the first entry of that name is removed and the rest keep their order |
| Buttons.DeleteRemovesOne | launcher.py:566-571 | deleting a present name removes exactly one entry: the count of entries with the name drops by one, and the multiset loses only the first match |
| Buttons.DeleteFromRow | launcher.py:566-571 | a row's delete control removes the first row with its name, at or before it; this is the row itself exactly when no earlier row shares the name |
| Buttons.DeleteSharedLabelExample | launcher.py:566-571 | with two distinct buttons sharing a name, deleting from the second row leaves only the second |
| Buttons.EditFromRow | launcher.py:457-461 | a row's edit control always finds an equal entry, at or before that row |
| Store.EditorList | launcher.py:446-454 | a found document's `"buttons"` list is the one the editors use, and a non-empty editor list comes only from such a list |
| Store.Startup | launcher.py:139-174 | a found file is displayed, showing the list the editors use; a missing or malformed one either writes `{"buttons": []}` (yes) or quits (no) |
| Store.StartupShowsEditorList | launcher.py:143-146 | the main window shows exactly the list the editors work on |
| Store.ResetThenLoadIsEmpty | launcher.py:155-157 | after a reset, loading gives an empty list in the main window and in the editors |
| Store.UnreadableActsAsReset | launcher.py:320-321 | an editor opened on a missing or malformed file works on the same list as one opened after a reset |
| Store.SaveAdd | launcher.py:407-411 | an add saves only on valid input, and saves the list the settings window holds (the one it read, plus earlier adds from that window) with the stripped entry appended |
| Store.SecondAddKeepsFirst | launcher.py:407-411 | a second add from the same settings window (which hands its one object to every add, line 331) appends to what the first saved, keeping both new entries in order |
| Store.SaveEdit | launcher.py:515-518 | an edit reports not found exactly when the entry is missing from the list read; it saves exactly when the entry is present and both fields are non-blank, replacing only the first equal entry |
| Store.SaveDelete | launcher.py:553-574 | a declined confirmation saves nothing; a confirmed delete always saves, removing the first entry with the name, or writing the list back unchanged when no entry has it |
| Store.AddThenReload | launcher.py:407-414 | after an add, the reload shows the old buttons in order with the new one last |
| Store.DeleteThenReload | launcher.py:566-577 | after a delete, the reload shows one button fewer exactly when some button carried the name |
| Store.DeleteOnUnreadableWritesEmpty | launcher.py:557-574 | a delete on a file gone missing or malformed overwrites it with `{"buttons": []}` |
| Store.SaveAddsButtonsKey | launcher.py:318-319 | an add on an object without `"buttons"` writes the key with the new entry as its only element |

## Left out

- The Tkinter windows, canvas, scrollbar, dialogs and their event handlers are user interface with nothing to state.
- `messagebox` prompts and `traceback` text are not modelled. Their outcomes are datatypes: `ValidationError`, `EditError`, `LaunchReport.ErrorDialog`, `StartupAction`.
- Reading and writing `config.json` and `json.load`/`json.dump` are library I/O. A load is a `LoadOutcome`; a save is the `Document` it would write.
- The startup path's catch-all error, for other exceptions such as an unreadable file or an entry without a `"label"` key, is not modelled.
- Keys other than `"buttons"` in the top-level object are not modelled, and neither is a top-level JSON value that is not an object.
- `which`, `open`, `os.chmod`, `subprocess.Popen` and `os.path.abspath(__file__)` are OS calls. Availability is a set of emulators, the call that raises (if any) is a parameter of `Launch.Run`, and the launcher's directory is a parameter.
- Launch.Run: does not say what is left on disk after a failing call, such as a partly written script.
- The thread that deletes the script two seconds after a spawn is not modelled: it only adds asynchrony, and its failures are ignored.
- `save_config` failing is not modelled. The code reports the failure and reloads anyway.
- Launch.ScriptRun: reads an argument vector back only as far as its shape goes. It does not model how a terminal splits the `-e` string into words, so a script path containing spaces is not followed further.
- Launch.LaunchWritesScript: states the script's content only when the directory and the command contain no line break. With one, the text is still the six lines joined, but it reads back as more lines.
- Launch.CdLine: the `cd` line quotes the directory without escaping. A directory containing `"`, `$`, a backtick or `\` gives a line bash reads differently, since bash expands those inside double quotes; the model keeps the text as written.
- Store.SaveAdd: the settings window keeps the list it read and saves that list plus its own adds, so an edit or delete made from the main window while it is open is overwritten by its next add; the model takes the held document as an input and does not state that interleaving.
