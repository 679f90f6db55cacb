# nanobind packaging script, modelled in Dafny

nanobind's `setup.py` does two things:

- **Version extraction.** When the script is loaded, it reads `include/nanobind/nanobind.h` and collects every `#define NB_VERSION_<FIELD> <value>` line. It uses a multi-line regular expression, `findall` and `dict`. It then formats the version string MAJOR.MINOR.PATCH from the collected fields.
- **Two overridden setuptools commands.**
  - `sdist` points the `nanobind` package at the source tree before packaging.
  - `build_py` looks for CMake on the search path. If CMake is missing, it exits with status 1. Otherwise it configures and installs the project into a temporary install directory, then lets setuptools package it. That directory is the `nanobind` package root given to `setup()`.

The model has four files:

- `wrappers.dfy`: `Option` and `Result`.
- `version.dfy`, module `VersionExtraction`: the regular expression as a deterministic greedy matcher, `findall`, `dict` and the formatting step. The matcher is proved sound and complete against a declarative description of a regex match.
- `headers.dfy`:
  - Module `VersionHeaders` describes a header as a list of single-spaced version define lines and other lines that `OtherLine` admits (see "## Left out" for the layouts this excludes). It proves what extraction yields for such a header: order does not matter, the last definition wins, extra fields are ignored, and a missing field is an error.
  - Module `VersionExamples` holds concrete cases: a full example header, a suffixed field name, and a value on the next line.
- `commands.dfy`, module `Commands`, models the commands as classes with state:
  - the build tool, which records its calls;
  - the distribution, with its package-directory table and a record of packaging runs;
  - the two command classes;
  - the command table;
  - the whole `python setup.py <command>` run.

Two facts about the code that the contracts make explicit:

- **Version values are copied verbatim.** They are not parsed as integers, and trailing text on the line, such as a comment, is kept (`FormatVersion`, `ExtractVersionOk`).
- **build_py does not change `package_dir`.** The install directory is the package root because `setup()` sets it at setup.py:103, and `build_py` leaves it as it is (`BuildPyCommand.Run`, `Setup`).

## Model

| member | source | states |
|---|---|---|
| VersionExtraction.MatchAtSound | setup.py:17-18 | Whatever the matcher returns at a position is a match of the pattern, with the choices a greedy engine makes: the whitespace runs, `define`, the `NB_VERSION_` prefix, a maximal run of capitals followed by whitespace, and a value that runs to the end of its line. |
| VersionExtraction.MatchAtComplete | setup.py:17-18 | Every greedy match of the pattern at a position is the one the matcher returns. |
| VersionExtraction.FindAll | setup.py:17-23 | Every collected pair has a field made only of capitals and a value with no newline. |
| VersionExtraction.FindAllMatched | setup.py:17-23 | Where the pattern has a match (in the declarative sense of `RegexMatch`) at a line start, the scan yields that match's two groups and resumes where the match ended. |
| VersionExtraction.FindAllUnmatched | setup.py:17-23 | Where the pattern has no match at a position, or the position is not a line start, the scan moves on by one character. |
| VersionExtraction.FindAllSound | setup.py:17-23 | Every pair the scan collects is the two groups of a match of the pattern at some line start at or after where the scan began. |
| VersionExtraction.ToDictKeys | setup.py:23 | The dict has a key exactly when some collected pair has that field. |
| VersionExtraction.ToDictLastWins | setup.py:23 | The dict maps a field to a value if and only if that value is the field's last definition. |
| VersionExtraction.FormatVersion | setup.py:24 | Formatting succeeds exactly when MAJOR, MINOR and PATCH are all present. The result is the three values, verbatim, joined with dots. Otherwise the error is KeyError for the first missing field, in left-to-right order. |
| VersionExtraction.ExtractVersionOk | setup.py:22-24 | When each of MAJOR, MINOR and PATCH is last defined as some value, the version is those values joined with dots. |
| VersionExtraction.ExtractVersionMissing | setup.py:22-24 | A field that no match captures makes extraction fail with a KeyError for a field that is missing. |
| VersionExtraction.ToDictSwap | setup.py:23 | Swapping two adjacent definitions of different fields leaves the dict unchanged. |
| VersionExtraction.ToDictIgnoresOtherKey | setup.py:23 | Inserting a definition of another field anywhere changes neither whether a field is present nor its value. |
| VersionExtraction.ExtraFieldIgnored | setup.py:23-24 | A definition of a field other than MAJOR, MINOR and PATCH, for example DEV, does not change the result of formatting. |
| VersionHeaders.FindAllRendered | setup.py:17-23 | Over a header of define lines and other lines, the scan collects exactly the define lines' (field, value) pairs, in order. |
| VersionHeaders.DefineLineMatches | setup.py:17-18 | A well-formed define line followed by a newline is matched as a whole, with its field and value. |
| VersionHeaders.OtherLineNoMatch | setup.py:17-18 | No match starts at a non-empty line that begins with a non-whitespace character where, if that character is `#`, the next character is neither whitespace nor the start of `define`. |
| VersionHeaders.HeaderVersion | setup.py:17-24 | The version extracted from a header is the formatted dict of its define lines. |
| VersionHeaders.HeaderVersionOk | setup.py:17-24 | When each field's last define line has a given value, extraction gives MAJOR.MINOR.PATCH from those values. |
| VersionHeaders.HeaderMissingField | setup.py:17-24 | A header with no define line for MAJOR, MINOR or PATCH gives a KeyError for one of the three. |
| VersionHeaders.HeaderAnyOrder | setup.py:17-24 | When a header defines each of MAJOR, MINOR and PATCH exactly once and nothing else, in any order and with other lines that `OtherLine` admits between them, the version is major.minor.patch. |
| VersionHeaders.HeaderSwap | setup.py:17-24 | In a header of single-spaced version defines and lines that `OtherLine` admits, swapping two adjacent lines that do not define the same field leaves the version, or the error, unchanged. |
| VersionHeaders.HeaderExtraLine | setup.py:17-24 | Adding a line that `OtherLine` admits, or a single-spaced define of a field outside MAJOR, MINOR and PATCH, leaves the version, or the error, unchanged. |
| VersionExamples.ExampleHeader | setup.py:17-24 | A header with `#pragma once` and the defines PATCH 3, MAJOR 1, DEV 0 and MINOR 2, in that order, gives "1.2.3". |
| VersionExamples.SuffixedFieldNoMatch | setup.py:17-18 | A line defining `NB_VERSION_<FIELD>_<rest>`, such as NB_VERSION_MAJOR_X, is not matched. |
| VersionExamples.ValueOnNextLine | setup.py:17-18 | A define with nothing after the field name takes the next line as its value, because the second whitespace run crosses the line break. |
| Commands.SubmoduleDeps | setup.py:15 | The toggle is the environment's value, verbatim, or "ON" when the variable is unset. |
| Commands.CMake.Call | setup.py:72-86 | Each call to the tool is recorded, in order, and returns the exit status the environment gives its argument vector. |
| Commands.Distribution.constructor | setup.py:91-103 | The distribution carries the extracted version, and its package table maps `nanobind` to the install directory and nothing else. |
| Commands.Distribution.RunPackager | setup.py:59 | The base command packages from the current package table and does not change it. |
| Commands.SdistCommand.Run | setup.py:54-59 | sdist sets only the `nanobind` entry, to the current directory, and then packages once. It does not involve the build tool. |
| Commands.BuildPyCommand.Run | setup.py:62-88 | When the tool is missing or its name is empty, the outcome is exit status 1, with no call made and nothing changed. Otherwise the calls and the outcome are the fail-fast configure/install sequence. The package table is never changed, and packaging runs once exactly when both calls succeed. |
| Commands.ConfigureBeforeInstall | setup.py:72-86 | Configure is always the first call. Install is the second call, and it is made if and only if configure exited with status 0. The two argument vectors differ. |
| Commands.FailFast | setup.py:72-86 | build_py completes if and only if every call it made exited with status 0. Otherwise it raises CalledProcessError for its last call, with that call's non-zero status, and every earlier call succeeded. |
| Commands.ToggleVerbatim | setup.py:15-78 | The last configure argument is `-DNB_USE_SUBMODULE_DEPS=` followed by the environment's value, verbatim, or "ON" when it is unset. |
| Commands.InstallPrefix | setup.py:84 | The install call's `--prefix` argument is followed by the install directory. |
| Commands.CommandTable | setup.py:122-125 | `build_py` and `sdist` map to the two overridden commands, and every other name maps to none. |
| Commands.Setup | setup.py:15-125 | A version error ends the run before any distribution exists or any tool call is made. sdist packages from the current directory. build_py with no tool ends with exit status 1 and does not package. With the tool, build_py's first call is configure, with the toggle read from the environment (or "ON"). A successful build_py makes exactly the configure and install calls and packages once from the install directory. A failed build_py does not package. Any other command is handed to setuptools. This is one command per run. |
| Commands.SdistThenBuildPy | setup.py:54-88 | When sdist and then build_py run on one distribution, sdist's rewrite of the `nanobind` entry stays in place. build_py still makes the fail-fast calls and installs into the install directory, but a successful build_py packages from the current directory. |

## Left out

- Process I/O is not modelled: reading the header file, and build_py redirecting the tool's stdout to stderr. The header text and the tool's exit statuses are parameters.
- The environment variable lookup becomes an `Option<string>` parameter of `SubmoduleDeps`.
- `shutil.which` is modelled as a nullable `CMake` object, plus the empty-name case. How the search path is walked is not modelled.
- The temporary directories are not modelled: their creation, their names and their removal when the process exits or the `with` block ends. The install and build directories are strings passed in.
- The "CMake executable can't be found" message on stderr is not modelled. Its effect, `exit(1)`, is modelled as the outcome `SystemExit(1)`.
- An uncaught CalledProcessError is not turned into the interpreter's exit status. The model stops at the exception, as `Outcome.CalledProcessError`.
- Python's universal-newline translation is not modelled. It happens when the header is read, so the text the model receives already has `\n` line ends.
- The static `setup()` metadata is not modelled: name, author, description, long description and package-data globs. None of it depends on the core.
- setuptools' own commands and the internals of packaging are not modelled. Other commands end as `BuiltIn`, and packaging is recorded as a run over the current package table.
- Setup: it models one command per run. setup() runs every command named on the command line, in order, on one distribution, and sdist's rewrite of the `nanobind` entry carries over into later commands. `SdistThenBuildPy` shows this for sdist followed by build_py. For a command other than build_py and sdist, Setup promises only the `BuiltIn` result. setuptools' `build`, `install` and `bdist_wheel` run build_py as a sub-command through the command table, so they also call CMake and package, and the model does not follow them there.
- VersionHeaders.FindAllRendered: it covers only headers whose every line is either a version define spelled `#define NB_VERSION_<FIELD> <value>` with single spaces, or a line that `OtherLine` admits. It therefore leaves out:
  - blank lines and lines that start with whitespace;
  - lines where `#` is followed by whitespace, such as `# pragma once`;
  - every `#define` of something other than a version field, such as `#define NB_INLINE inline`;
  - version defines laid out any other way, such as several spaces before the value.
- VersionHeaders.HeaderVersion: it requires `WellFormedHeader`, the same restriction as FindAllRendered. For a general header, `FindAllSound` and the scan lemmas make the corresponding promise about the pairs the scan collects.
- VersionHeaders.HeaderVersionOk: it requires `WellFormedHeader`, the same restriction as FindAllRendered. For a general header, `ExtractVersionOk` makes the corresponding promise about the pairs the scan collects.
- VersionHeaders.HeaderMissingField: it requires `WellFormedHeader`, the same restriction as FindAllRendered. For a general header, `ExtractVersionMissing` makes the corresponding promise about the pairs the scan collects.
- VersionHeaders.HeaderAnyOrder: it requires `WellFormedHeader`, the same restriction as FindAllRendered. For a general header, `ExtractVersionOk` makes the corresponding promise about the pairs the scan collects.
- VersionHeaders.HeaderSwap: it requires `WellFormedHeader`, the same restriction as FindAllRendered. For a general header, `ToDictSwap` makes the corresponding promise about the pairs the scan collects.
- VersionHeaders.HeaderExtraLine: it requires `WellFormedHeader`, the same restriction as FindAllRendered. For a general header, `ExtraFieldIgnored` makes the corresponding promise about the pairs the scan collects.
- A general header is covered only by the lemmas on `FindAll`: `MatchAtSound`, `MatchAtComplete`, `FindAllMatched`, `FindAllUnmatched` and `FindAllSound`.
