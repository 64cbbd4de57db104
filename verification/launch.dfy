/** Running a button's command: the elevated command line, the temporary
    bash script written around it, the choice of terminal emulator and the
    argument vector the emulator is started with, and how the launch ends
    when no terminal is found or an OS call raises (`execute_command` in
    launcher.py). Which emulators resolve on the search path, which OS call
    raises, and the launcher's own directory are inputs; the writing,
    `chmod` and spawning themselves, and the delayed deletion, are effects
    outside the model. */
module Launch {
  import opened Wrappers
  import opened Seqs
  import opened Text
  import Paths

  /** The elevation token a command has to open with to be run unchanged. */
  const SudoPrefix := "sudo "

  /** The command line the script runs: `command` itself when, stripped, it
      already opens with `sudo `, otherwise `command` (unstripped) behind it. */
  function Elevate(command: string): (full: string)
    ensures full == command <==> StartsWith(Strip(command), SudoPrefix)
    ensures full != command ==> full == SudoPrefix + command
  {
    if StartsWith(Strip(command), SudoPrefix) then command else SudoPrefix + command
  }

  /** Every command with some non-blank text runs under `sudo`. */
  lemma ElevateRunsUnderSudo(command: string)
    requires !AllSpace(command)
    ensures StartsWith(Strip(Elevate(command)), SudoPrefix)
  {
    if !StartsWith(Strip(command), SudoPrefix) {
      StripKeepsPrefix(SudoPrefix, command);
    }
  }

  /** Elevating an elevated, non-blank command changes nothing more. */
  lemma ElevateIdempotent(command: string)
    requires !AllSpace(command)
    ensures Elevate(Elevate(command)) == Elevate(command)
  {
    ElevateRunsUnderSudo(command);
  }

  /** A blank command is not settled by one elevation: the stripped form of
      `sudo ` is `sudo`, which does not open with `sudo `, so a second
      elevation prefixes again. */
  lemma ElevateBlankNotIdempotent()
    ensures Elevate("") == "sudo "
    ensures Elevate(Elevate("")) == "sudo sudo "
  {
  }

  /** The test looks at the stripped command and needs a space after
      `sudo`, while the result keeps the command as typed. */
  lemma ElevateBareSudo()
    ensures Elevate("sudo") == "sudo sudo"
  {
    StripTrimmed("sudo");
  }

  lemma ElevateIndentedSudo()
    ensures Elevate(" sudo x") == " sudo x"
  {
    var s := " sudo x";
    assert IsSpace(s[0]) && !IsSpace(s[1]) && !IsSpace(s[|s| - 1]);
    assert LeadingSpace(s) == 1;
    assert TrailingEnd(s, 1, |s|) == |s|;
    assert Strip(s) == s[1..];
  }

  /** A command given by absolute path, as the add and edit dialogs ask
      for, always gets the `sudo ` prefix. */
  lemma ElevateAbsolutePath(command: string)
    requires command != [] && command[0] == '/'
    ensures Elevate(command) == SudoPrefix + command
  {
    var r := Strip(command);
    var i :| 0 <= i <= |command| - |r| && command[i..i + |r|] == r && AllSpace(command[..i]);
    if r != [] {
      assert i == 0;
      assert r[0] == '/';
    }
  }

  /** The file name of the temporary script. */
  const ScriptName := "temp_command.sh"

  /** Where the temporary script is written: `temp_command.sh` inside the
      launcher's directory. */
  function ScriptPath(scriptDir: string): (path: string)
    ensures |path| >= |ScriptName| && path[|path| - |ScriptName|..] == ScriptName
    ensures |scriptDir| + |ScriptName| <= |path| <= |scriptDir| + 1 + |ScriptName|
    ensures path[..|scriptDir|] == scriptDir
  {
    Paths.Join(scriptDir, ScriptName)
  }

  /** The script's file name, everything after the path's last separator,
      is exactly `temp_command.sh`. */
  lemma ScriptPathName(scriptDir: string)
    ensures var p := ScriptPath(scriptDir);
              && Paths.LastSep(p) == |p| - |ScriptName| - 1
              && p[Paths.LastSep(p) + 1..] == ScriptName
  {
    var p := ScriptPath(scriptDir);
    if scriptDir != [] {
      var pre := p[..|p| - |ScriptName|];
      assert p == pre + ScriptName;
      Paths.LastSepOfSuffix(pre, ScriptName);
    }
  }

  /** The script sits directly in the launcher's directory. */
  lemma ScriptPathInDir(scriptDir: string)
    requires Paths.CanonicalDir(scriptDir)
    ensures Paths.Dirname(ScriptPath(scriptDir)) == scriptDir
  {
    Paths.DirnameJoin(scriptDir, ScriptName);
  }

  const Shebang := "#!/bin/bash"
  const EchoBlank := "echo \"\""
  /** The completion notice, in the launcher's own words ("The command has
      finished. Press Enter to close..."). */
  const CompletionNotice := "echo \"コマンドが完了しました。Enterキーを押すと閉じます...\""
  const WaitForEnter := "read"

  /** The `cd` line that moves the script into `dir`. */
  function CdLine(dir: string): string {
    "cd \"" + dir + "\""
  }

  /** The six lines of the script, in the order they are written. */
  function ScriptLines(scriptDir: string, fullCommand: string): seq<string> {
    [Shebang, CdLine(scriptDir), fullCommand, EchoBlank, CompletionNotice, WaitForEnter]
  }

  /** The text of the temporary script: each line followed by a newline. */
  function ScriptText(scriptDir: string, fullCommand: string): (text: string)
    ensures |text| > 0 && text[|text| - 1] == '\n'
  {
    JoinLines(ScriptLines(scriptDir, fullCommand))
  }

  /** What a script of the launcher's shape does: which directory it enters
      and which command line it runs there. */
  datatype ScriptSource = ScriptSource(dir: string, command: string)

  /** Reads a script back: its lines must be the shebang, a `cd` line, one
      command line and the three closing lines. */
  function ParseScript(text: string): (r: Option<ScriptSource>)
    ensures r.Some? ==> |SplitLines(text)| == 6 && SplitLines(text)[2] == r.value.command
  {
    var ls := SplitLines(text);
    if |ls| == 6 && ls[0] == Shebang && ls[3..] == [EchoBlank, CompletionNotice, WaitForEnter]
       && |ls[1]| >= 5 && ls[1][..4] == "cd \"" && ls[1][|ls[1]| - 1] == '"'
    then Some(ScriptSource(ls[1][4..|ls[1]| - 1], ls[2]))
    else None
  }

  /** None of the script's lines breaks in two when neither the directory
      nor the command holds a line break. */
  lemma ScriptLinesUnbroken(scriptDir: string, fullCommand: string)
    requires '\n' !in scriptDir && '\n' !in fullCommand
    ensures forall k | 0 <= k < 6 :: '\n' !in ScriptLines(scriptDir, fullCommand)[k]
  {
  }

  /** Reading back the script's own lines recovers the directory and the command. */
  lemma ParseScriptLines(scriptDir: string, fullCommand: string, text: string)
    requires SplitLines(text) == ScriptLines(scriptDir, fullCommand)
    ensures ParseScript(text) == Some(ScriptSource(scriptDir, fullCommand))
  {
  }

  /** The script enters the launcher's directory and runs exactly the
      elevated command there, on a line of its own, provided neither holds
      a line break. */
  lemma ScriptRoundTrip(scriptDir: string, fullCommand: string)
    requires '\n' !in scriptDir && '\n' !in fullCommand
    ensures SplitLines(ScriptText(scriptDir, fullCommand)) == ScriptLines(scriptDir, fullCommand)
    ensures ParseScript(ScriptText(scriptDir, fullCommand)) == Some(ScriptSource(scriptDir, fullCommand))
  {
    ScriptLinesUnbroken(scriptDir, fullCommand);
    SplitJoinLines(ScriptLines(scriptDir, fullCommand));
    ParseScriptLines(scriptDir, fullCommand, ScriptText(scriptDir, fullCommand));
  }

  /** The terminal emulators the launcher knows. */
  datatype Emulator = XTerminalEmulator | LXTerminal | GnomeTerminal | XTerm {

    /** The program name looked up on the search path and started. */
    function Name(): string {
      match this
      case XTerminalEmulator => "x-terminal-emulator"
      case LXTerminal => "lxterminal"
      case GnomeTerminal => "gnome-terminal"
      case XTerm => "xterm"
    }

    /** The position of this emulator in the preference order. */
    function Rank(): (i: nat)
      ensures i < |Preference| && Preference[i] == this
    {
      match this
      case XTerminalEmulator => 0
      case LXTerminal => 1
      case GnomeTerminal => 2
      case XTerm => 3
    }
  }

  /** The order in which emulators are probed. */
  const Preference: seq<Emulator> := [XTerminalEmulator, LXTerminal, GnomeTerminal, XTerm]

  /** The emulator to start: the most preferred one of those available, or
      None when no known emulator is available. */
  function SelectEmulator(available: set<Emulator>): (r: Option<Emulator>)
    ensures r.None? <==> available == {}
    ensures r.Some? ==> r.value in available
    ensures r.Some? ==> forall e | e in available :: r.value.Rank() <= e.Rank()
  {
    EveryEmulatorRanked();
    match FirstIndex(Preference, e => e in available)
    case None =>
      NothingFoundMeansNoneAvailable(available);
      None
    case Some(i) =>
      assert Preference[i].Rank() == i;
      Some(Preference[i])
  }

  lemma EveryEmulatorRanked()
    ensures forall e: Emulator :: e in Preference
  {
    forall e: Emulator ensures e in Preference {
      assert Preference[e.Rank()] == e;
    }
  }

  lemma NothingFoundMeansNoneAvailable(available: set<Emulator>)
    requires FirstIndex(Preference, e => e in available).None?
    ensures available == {}
  {
    forall e: Emulator ensures e !in available {
      var p := (x: Emulator) => x in available;
      assert Preference[e.Rank()] == e;
      assert !p(Preference[e.Rank()]);
    }
  }

  const Bash := "/bin/bash"

  /** The argument vector the emulator is started with: gnome-terminal takes
      bash and the script after `--`; every other emulator takes one `-e`
      string naming bash and the script. */
  function Argv(e: Emulator, scriptPath: string): (argv: seq<string>)
    ensures |argv| >= 3 && argv[0] == e.Name()
    ensures |argv| == 4 <==> e == GnomeTerminal
    ensures ScriptRun(argv) == Some(scriptPath)
  {
    match e
    case GnomeTerminal => [e.Name(), "--", Bash, scriptPath]
    case _ =>
      var cmd := Bash + " " + scriptPath;
      assert cmd[..|Bash| + 1] == Bash + " " && cmd[|Bash| + 1..] == scriptPath;
      [e.Name(), "-e", cmd]
  }

  /** The script an emulator command line hands to bash, read back in
      either calling convention, or None when it runs something else. */
  function ScriptRun(argv: seq<string>): Option<string> {
    if |argv| == 4 && argv[1] == "--" && argv[2] == Bash then Some(argv[3])
    else if |argv| == 3 && argv[1] == "-e" && StartsWith(argv[2], Bash + " ") then Some(argv[2][|Bash| + 1..])
    else None
  }

  /** The file a launch writes. */
  datatype Script = Script(path: string, text: string)

  /** The script a launch of `command` from `scriptDir` writes. */
  function WrittenScript(command: string, scriptDir: string): Script {
    Script(ScriptPath(scriptDir), ScriptText(scriptDir, Elevate(command)))
  }

  /** What activating a button does. The script is written before an
      emulator is looked for, so it is there in both outcomes; only a
      spawned launch schedules its deletion. */
  datatype LaunchOutcome =
    | Spawned(script: Script, emulator: Emulator, argv: seq<string>)
    | NoTerminalFound(script: Script)

  /** Launching `command` from a launcher living in `scriptDir`, with the
      emulators in `available` resolvable on the search path. */
  function Execute(command: string, scriptDir: string, available: set<Emulator>): (r: LaunchOutcome)
    ensures r.script == WrittenScript(command, scriptDir)
    ensures r.NoTerminalFound? <==> available == {}
    ensures r.Spawned? ==> r.argv == Argv(r.emulator, r.script.path)
    ensures r.Spawned? ==> r.emulator in available && |r.argv| >= 3 && r.argv[0] == r.emulator.Name()
    ensures r.Spawned? ==> forall e | e in available :: r.emulator.Rank() <= e.Rank()
    ensures r.Spawned? ==> ScriptRun(r.argv) == Some(r.script.path)
  {
    var script := WrittenScript(command, scriptDir);
    match SelectEmulator(available)
    case None => NoTerminalFound(script)
    case Some(e) => Spawned(script, e, Argv(e, script.path))
  }

  /** The OS calls of a launch that can raise: opening and writing the
      script, making it executable, and starting the emulator. */
  datatype OsStep = WriteScript | MakeExecutable | StartTerminal

  /** What the user sees of a launch: a terminal started on the script
      (with its deletion scheduled), or the error dialog naming the command
      as the button holds it. */
  datatype LaunchReport =
    | Started(emulator: Emulator, argv: seq<string>)
    | ErrorDialog(command: string)

  /** The whole of `execute_command`, with `failed` the OS call that raised,
      if any. Writing and making the script executable come before the
      emulator search, so their failure ends the launch whatever is
      installed; starting the terminal is only tried once one is found. No
      terminal, or any step raising, leaves nothing started and shows the
      error dialog. */
  function Run(command: string, scriptDir: string, available: set<Emulator>, failed: Option<OsStep>): (r: LaunchReport)
    ensures r.Started? <==> available != {} && failed == None
    ensures r.ErrorDialog? ==> r.command == command
    ensures r.Started? ==> Execute(command, scriptDir, available) == Spawned(WrittenScript(command, scriptDir), r.emulator, r.argv)
  {
    match failed
    case Some(WriteScript) => ErrorDialog(command)
    case Some(MakeExecutable) => ErrorDialog(command)
    case _ =>
      match Execute(command, scriptDir, available)
      case NoTerminalFound(_) => ErrorDialog(command)
      case Spawned(_, e, argv) => if failed == Some(StartTerminal) then ErrorDialog(command) else Started(e, argv)
  }

  /** Whatever the emulators, a launch writes the script into the launcher's
      directory, and the script enters that directory and runs the elevated
      command there. */
  lemma LaunchWritesScript(command: string, scriptDir: string, available: set<Emulator>)
    requires '\n' !in scriptDir && '\n' !in command
    requires Paths.CanonicalDir(scriptDir)
    ensures var r := Execute(command, scriptDir, available);
              && Paths.Dirname(r.script.path) == scriptDir
              && ParseScript(r.script.text) == Some(ScriptSource(scriptDir, Elevate(command)))
  {
    var full := Elevate(command);
    if full != command {
      assert full == SudoPrefix + command;
      assert forall k | 0 <= k < |command| :: full[k + 5] == command[k];
    }
    assert '\n' !in full;
    ScriptRoundTrip(scriptDir, full);
    ScriptPathInDir(scriptDir);
  }

  /** A button registered as `/usr/bin/apt update`, launched from `/opt/menu`
      where only xterm is installed, starts xterm on `/opt/menu/temp_command.sh`,
      which runs `sudo /usr/bin/apt update` in `/opt/menu`. */
  lemma AptUpdateExample(command: string, scriptDir: string, available: set<Emulator>)
    requires command == "/usr/bin/apt update" && scriptDir == "/opt/menu" && available == {XTerm}
    ensures var r := Execute(command, scriptDir, available);
              && r == Spawned(r.script, XTerm, ["xterm", "-e", "/bin/bash /opt/menu/temp_command.sh"])
              && r.script.path == "/opt/menu/temp_command.sh"
              && ParseScript(r.script.text) == Some(ScriptSource("/opt/menu", "sudo /usr/bin/apt update"))
  {
    ExampleSpawn(command, scriptDir, available);
    ExampleScript(command, scriptDir, available);
  }

  lemma ExampleSpawn(command: string, scriptDir: string, available: set<Emulator>)
    requires scriptDir == "/opt/menu" && available == {XTerm}
    ensures var r := Execute(command, scriptDir, available);
              && r == Spawned(r.script, XTerm, ["xterm", "-e", "/bin/bash /opt/menu/temp_command.sh"])
              && r.script.path == "/opt/menu/temp_command.sh"
  {
    ExamplePath(scriptDir);
    assert SelectEmulator(available) == Some(XTerm);
    ExampleArgv(ScriptPath(scriptDir));
  }

  lemma ExampleScript(command: string, scriptDir: string, available: set<Emulator>)
    requires command == "/usr/bin/apt update" && scriptDir == "/opt/menu"
    ensures ParseScript(Execute(command, scriptDir, available).script.text)
            == Some(ScriptSource("/opt/menu", "sudo /usr/bin/apt update"))
  {
    assert '\n' !in command && '\n' !in scriptDir;
    assert Paths.CanonicalDir(scriptDir);
    ElevateAbsolutePath(command);
    assert Elevate(command) == "sudo /usr/bin/apt update";
    LaunchWritesScript(command, scriptDir, available);
  }

  lemma ExamplePath(scriptDir: string)
    requires scriptDir == "/opt/menu"
    ensures ScriptPath(scriptDir) == "/opt/menu/temp_command.sh"
  {
  }

  lemma ExampleArgv(path: string)
    requires path == "/opt/menu/temp_command.sh"
    ensures Argv(XTerm, path) == ["xterm", "-e", "/bin/bash /opt/menu/temp_command.sh"]
  {
    var line := Bash + " " + path;
    assert forall k | 0 <= k < 35 :: line[k] == "/bin/bash /opt/menu/temp_command.sh"[k];
    assert line == "/bin/bash /opt/menu/temp_command.sh";
  }
}
