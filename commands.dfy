/** The two packaging commands setup.py overrides (lines 54-88) and the module-level state they
    share: the install directory handed to setup() as the package root (lines 50-51, 103), the
    submodule toggle (line 15) and the command table (lines 122-125).

    The external build tool is an object that records the argument vector of every call and
    answers each with the exit status the environment gives it; the setuptools packager is a
    method that records the package directories it was run with. */
module Commands {
  import opened Wrappers
  import opened VersionExtraction

  const PackageName: string := "nanobind"

  /** The current directory, as the operating system names it. */
  const CurDir: string := "."

  /** The toggle's value when the environment does not set NB_USE_SUBMODULE_DEPS. */
  const DefaultSubmoduleDeps: string := "ON"

  const SubmoduleDepsFlag: string := "-DNB_USE_SUBMODULE_DEPS="

  /** The toggle read from the environment (line 15): the environment's value, verbatim,
      or "ON". */
  function SubmoduleDeps(env: Option<string>): (r: string)
    ensures env.Some? ==> r == env.value
    ensures env.None? ==> r == DefaultSubmoduleDeps
  {
    if env.Some? then env.value else DefaultSubmoduleDeps
  }

  /** The module-level values the commands read: the directory holding setup.py, the
      temporary install directory and the submodule toggle. */
  datatype Script = Script(thisDirectory: string, installDir: string, submoduleDeps: string)

  /** The configure call of build_py (lines 72-81). */
  function ConfigureArgv(exe: string, script: Script, buildDir: string): seq<string>
  {
    [exe, "-S", script.thisDirectory, "-B", buildDir, "-DNB_PYTHON_INSTALLATION=ON",
     SubmoduleDepsFlag + script.submoduleDeps]
  }

  /** The install call of build_py (lines 84-87). */
  function InstallArgv(exe: string, script: Script, buildDir: string): seq<string>
  {
    [exe, "--install", buildDir, "--prefix", script.installDir]
  }

  /** How a command ends: normally, by `exit(code)` (SystemExit), or by the
      CalledProcessError that `check_call` raises for a non-zero exit status. */
  datatype Outcome =
    | Completed
    | SystemExit(code: int)
    | CalledProcessError(returncode: int, cmd: seq<string>)

  /** The build tool found on the search path. */
  class CMake {
    const exe: string
    /** The exit status the external process returns for each argument vector. */
    const exitStatus: seq<string> -> int
    /** The argument vectors of the calls made so far, oldest first. */
    var calls: seq<seq<string>>

    constructor (exe: string, exitStatus: seq<string> -> int)
      ensures this.exe == exe && this.exitStatus == exitStatus && calls == []
    {
      this.exe := exe;
      this.exitStatus := exitStatus;
      calls := [];
    }

    /** Runs the tool with `argv` and waits for its exit status. */
    method Call(argv: seq<string>) returns (status: int)
      modifies this
      ensures calls == old(calls) + [argv]
      ensures status == exitStatus(argv)
    {
      calls := calls + [argv];
      status := exitStatus(argv);
    }
  }

  /** The distribution setup() builds: its package directory table and a record of the
      package directories the base command's packaging step was run with. */
  class Distribution {
    const version: string
    var packageDir: map<string, string>
    var packagerRuns: seq<map<string, string>>

    /** The call to setup() with the extracted version and the install directory as the
        nanobind package root (lines 91-93, 103). */
    constructor (version: string, installDir: string)
      ensures this.version == version
      ensures packageDir == map[PackageName := installDir] && packagerRuns == []
    {
      this.version := version;
      packageDir := map[PackageName := installDir];
      packagerRuns := [];
    }

    /** The base setuptools command's run: it copies files from the package directories. */
    method RunPackager()
      modifies this
      ensures packageDir == old(packageDir)
      ensures packagerRuns == old(packagerRuns) + [packageDir]
    {
      packagerRuns := packagerRuns + [packageDir];
    }
  }

  /** `NanobindSdistCommand` (lines 54-59). */
  class SdistCommand {
    const distribution: Distribution

    constructor (distribution: Distribution)
      ensures this.distribution == distribution
    {
      this.distribution := distribution;
    }

    /** Points the package at the source tree, then packages: the build tool is never
        involved, and only the `nanobind` entry of the table changes. */
    method Run()
      modifies distribution
      ensures distribution.packageDir == old(distribution.packageDir)[PackageName := CurDir]
      ensures distribution.packagerRuns == old(distribution.packagerRuns) + [distribution.packageDir]
    {
      distribution.packageDir := distribution.packageDir[PackageName := CurDir];
      distribution.RunPackager();
    }
  }

  /** The calls build_py makes once the tool is found: configure, and install only if
      configure exited with status 0. */
  function BuildPyCalls(exe: string, exitStatus: seq<string> -> int, script: Script, buildDir: string): seq<seq<string>>
  {
    var configure := ConfigureArgv(exe, script, buildDir);
    if exitStatus(configure) != 0 then [configure]
    else [configure, InstallArgv(exe, script, buildDir)]
  }

  /** How build_py ends once the tool is found: the first call with a non-zero status raises
      CalledProcessError, otherwise it completes. */
  function BuildPyOutcome(exe: string, exitStatus: seq<string> -> int, script: Script, buildDir: string): Outcome
  {
    var configure := ConfigureArgv(exe, script, buildDir);
    var install := InstallArgv(exe, script, buildDir);
    if exitStatus(configure) != 0 then CalledProcessError(exitStatus(configure), configure)
    else if exitStatus(install) != 0 then CalledProcessError(exitStatus(install), install)
    else Completed
  }

  /** `NanobindBuildPyCommand` (lines 62-88). */
  class BuildPyCommand {
    const distribution: Distribution
    const script: Script

    constructor (distribution: Distribution, script: Script)
      ensures this.distribution == distribution && this.script == script
    {
      this.distribution := distribution;
      this.script := script;
    }

    /** `cmake` is the result of looking the tool up on the search path (null when it is not
        found); `buildDir` is the temporary build directory. */
    method Run(cmake: CMake?, buildDir: string) returns (outcome: Outcome)
      modifies cmake, distribution
      ensures cmake == null || cmake.exe == "" ==> outcome == SystemExit(1)
      ensures cmake == null || cmake.exe == "" ==> unchanged(distribution) && (cmake != null ==> unchanged(cmake))
      ensures cmake != null && cmake.exe != "" ==>
        && cmake.calls == old(cmake.calls) + BuildPyCalls(cmake.exe, cmake.exitStatus, script, buildDir)
        && outcome == BuildPyOutcome(cmake.exe, cmake.exitStatus, script, buildDir)
      ensures distribution.packageDir == old(distribution.packageDir)
      ensures distribution.packagerRuns
              == old(distribution.packagerRuns) + (if outcome == Completed then [distribution.packageDir] else [])
    {
      if cmake == null || cmake.exe == "" {
        return SystemExit(1);
      }
      var configure := ConfigureArgv(cmake.exe, script, buildDir);
      var status := cmake.Call(configure);
      if status != 0 {
        return CalledProcessError(status, configure);
      }
      var install := InstallArgv(cmake.exe, script, buildDir);
      status := cmake.Call(install);
      if status != 0 {
        return CalledProcessError(status, install);
      }
      distribution.RunPackager();
      outcome := Completed;
    }
  }

  // ---------------------------------------------------------------------------
  // The build sequence
  // ---------------------------------------------------------------------------

  /** Configure comes first; install is the only other call and is made only after configure
      exited with status 0. */
  lemma ConfigureBeforeInstall(exe: string, exitStatus: seq<string> -> int, script: Script, buildDir: string)
    ensures var calls := BuildPyCalls(exe, exitStatus, script, buildDir);
      && 1 <= |calls| <= 2
      && calls[0] == ConfigureArgv(exe, script, buildDir)
      && (|calls| == 2 <==> exitStatus(calls[0]) == 0)
      && (|calls| == 2 ==> calls[1] == InstallArgv(exe, script, buildDir))
      && InstallArgv(exe, script, buildDir) != calls[0]
  {
    assert ConfigureArgv(exe, script, buildDir)[1] != InstallArgv(exe, script, buildDir)[1];
  }

  /** build_py completes exactly when both calls exit with status 0. Otherwise it raises
      CalledProcessError for the call that failed, which is the last call made: nothing runs
      after a failure. */
  lemma FailFast(exe: string, exitStatus: seq<string> -> int, script: Script, buildDir: string)
    ensures var calls := BuildPyCalls(exe, exitStatus, script, buildDir);
      var outcome := BuildPyOutcome(exe, exitStatus, script, buildDir);
      && (outcome == Completed <==> forall i :: 0 <= i < |calls| ==> exitStatus(calls[i]) == 0)
      && (outcome == Completed <==> |calls| == 2 && exitStatus(calls[1]) == 0)
      && (outcome != Completed ==>
            && outcome.CalledProcessError?
            && outcome.cmd == calls[|calls| - 1]
            && outcome.returncode == exitStatus(outcome.cmd) != 0
            && forall i :: 0 <= i < |calls| - 1 ==> exitStatus(calls[i]) == 0)
  {
    ConfigureBeforeInstall(exe, exitStatus, script, buildDir);
  }

  /** The toggle reaches configure verbatim, as the value of its -D option, and defaults to
      "ON". */
  lemma ToggleVerbatim(exe: string, env: Option<string>, thisDirectory: string, installDir: string, buildDir: string)
    ensures var argv := ConfigureArgv(exe, Script(thisDirectory, installDir, SubmoduleDeps(env)), buildDir);
      && argv[|argv| - 1][..|SubmoduleDepsFlag|] == SubmoduleDepsFlag
      && argv[|argv| - 1][|SubmoduleDepsFlag|..] == (if env.Some? then env.value else "ON")
  {
    var argv := ConfigureArgv(exe, Script(thisDirectory, installDir, SubmoduleDeps(env)), buildDir);
    assert argv[|argv| - 1] == SubmoduleDepsFlag + SubmoduleDeps(env);
  }

  /** Install builds into the install directory: the value after `--prefix`. */
  lemma InstallPrefix(exe: string, script: Script, buildDir: string)
    ensures var argv := InstallArgv(exe, script, buildDir);
      exists i :: 0 <= i < |argv| - 1 && argv[i] == "--prefix" && argv[i + 1] == script.installDir
  {
    var argv := InstallArgv(exe, script, buildDir);
    assert argv[3] == "--prefix" && argv[4] == script.installDir;
  }

  // ---------------------------------------------------------------------------
  // Running setup.py
  // ---------------------------------------------------------------------------

  datatype CommandClass = BuildPy | Sdist

  /** `cmdclass` (lines 122-125): the commands setup.py overrides. */
  function CommandTable(name: string): (r: Option<CommandClass>)
    ensures r == Some(BuildPy) <==> name == "build_py"
    ensures r == Some(Sdist) <==> name == "sdist"
    ensures r.None? <==> name != "build_py" && name != "sdist"
  {
    if name == "build_py" then Some(BuildPy)
    else if name == "sdist" then Some(Sdist)
    else None
  }

  datatype SetupResult =
    | VersionFailed(error: VersionError)
    | Ran(outcome: Outcome)
    | BuiltIn(command: string)

  /** `python setup.py <command>`: the version is computed when the script loads, before any
      command; a missing field ends the run there. The submodule toggle is read from `env`
      (the NB_USE_SUBMODULE_DEPS variable, if set). Then setup() builds the distribution with
      the install directory as the package root and runs the command: one of the two
      overridden above, or a setuptools command of its own (`BuiltIn`, whose effects are not
      modelled). */
  method Setup(header: string, env: Option<string>, thisDirectory: string, installDir: string,
               command: string, cmake: CMake?, buildDir: string)
    returns (result: SetupResult, dist: Distribution?)
    modifies cmake
    ensures ExtractVersion(header).Err? ==>
      && result == VersionFailed(ExtractVersion(header).error) && dist == null
      && (cmake != null ==> unchanged(cmake))
    ensures ExtractVersion(header).Ok? ==>
      && dist != null && fresh(dist) && dist.version == ExtractVersion(header).value
    ensures ExtractVersion(header).Ok? && CommandTable(command) == Some(Sdist) ==>
      && result == Ran(Completed)
      && dist.packageDir == map[PackageName := CurDir]
      && dist.packagerRuns == [dist.packageDir]
      && (cmake != null ==> unchanged(cmake))
    ensures ExtractVersion(header).Ok? && CommandTable(command) == Some(BuildPy) ==>
      && result.Ran?
      && dist.packageDir == map[PackageName := installDir]
      && (result.outcome == Completed <==> dist.packagerRuns == [dist.packageDir])
      && (result.outcome != Completed ==> dist.packagerRuns == [])
    ensures ExtractVersion(header).Ok? && CommandTable(command) == Some(BuildPy) && result == Ran(Completed) ==>
      && cmake != null
      && dist.packagerRuns == [map[PackageName := installDir]]
      && (var script := Script(thisDirectory, installDir, SubmoduleDeps(env));
          cmake.calls == old(cmake.calls) + [ConfigureArgv(cmake.exe, script, buildDir), InstallArgv(cmake.exe, script, buildDir)])
    ensures ExtractVersion(header).Ok? && CommandTable(command) == Some(BuildPy) && (cmake == null || cmake.exe == "") ==>
      && result == Ran(SystemExit(1)) && dist.packagerRuns == []
      && (cmake != null ==> unchanged(cmake))
    ensures ExtractVersion(header).Ok? && CommandTable(command) == Some(BuildPy) && cmake != null && cmake.exe != "" ==>
      && |old(cmake.calls)| < |cmake.calls|
      && cmake.calls[|old(cmake.calls)|]
         == ConfigureArgv(cmake.exe, Script(thisDirectory, installDir, SubmoduleDeps(env)), buildDir)
    ensures ExtractVersion(header).Ok? && CommandTable(command).None? ==> result == BuiltIn(command)
  {
    var script := Script(thisDirectory, installDir, SubmoduleDeps(env));
    var version := ExtractVersion(header);
    if version.Err? {
      return VersionFailed(version.error), null;
    }
    dist := new Distribution(version.value, script.installDir);
    match CommandTable(command)
    case Some(Sdist) =>
      var sdist := new SdistCommand(dist);
      sdist.Run();
      result := Ran(Completed);
    case Some(BuildPy) =>
      var buildPy := new BuildPyCommand(dist, script);
      var outcome := buildPy.Run(cmake, buildDir);
      if outcome == Completed {
        FailFast(cmake.exe, cmake.exitStatus, script, buildDir);
      }
      result := Ran(outcome);
    case None =>
      result := BuiltIn(command);
  }

  /** `python setup.py sdist build_py`: setup() runs both commands, in order, on one
      distribution. sdist's rewrite of the `nanobind` entry stays in place, so build_py still
      installs into the install directory but its packaging step reads from the current
      directory. */
  method SdistThenBuildPy(dist: Distribution, script: Script, cmake: CMake, buildDir: string)
    returns (outcome: Outcome)
    modifies dist, cmake
    ensures dist.packageDir == old(dist.packageDir)[PackageName := CurDir]
    ensures cmake.exe != "" ==>
      && cmake.calls == old(cmake.calls) + BuildPyCalls(cmake.exe, cmake.exitStatus, script, buildDir)
      && outcome == BuildPyOutcome(cmake.exe, cmake.exitStatus, script, buildDir)
    ensures outcome == Completed ==>
      && |dist.packagerRuns| == |old(dist.packagerRuns)| + 2
      && dist.packagerRuns[|old(dist.packagerRuns)| + 1] == old(dist.packageDir)[PackageName := CurDir]
      && |cmake.calls| == |old(cmake.calls)| + 2
      && cmake.calls[|cmake.calls| - 1] == InstallArgv(cmake.exe, script, buildDir)
    ensures outcome != Completed ==> dist.packagerRuns == old(dist.packagerRuns) + [dist.packageDir]
  {
    var sdist := new SdistCommand(dist);
    sdist.Run();
    var buildPy := new BuildPyCommand(dist, script);
    outcome := buildPy.Run(cmake, buildDir);
    if outcome == Completed {
      FailFast(cmake.exe, cmake.exitStatus, script, buildDir);
    }
  }
}
