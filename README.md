# vol-test: a Dafny model of the harness library

vol-test is an integration-test harness for Docker volume plugins. A run
creates one client per node, runs a fixed list of steps against each node's
engine (install the plugin, create a volume, confirm it, inspect it, create a
container that mounts it), prints one coloured line per step, and reports the
run as failed when any line carries the cross glyph.

Almost everything the library does is a call to the engine. This model
covers the logic around those calls in `pkg/lib/lib.go`:

- **The environment loader** (`SourceFile`). It reads a node's file of
  `export KEY="VALUE"` lines. Each line is split at its first `=`. Seven
  characters are cut from the front of the key, and the first and last
  characters from the value. After every line, an empty `DOCKER_API_VERSION`
  becomes `1.37`. A line that is too short for these fixed offsets panics.
  The process environment is a `map<string, string>` held by a `ProcessEnv`
  object, and the file is the sequence of lines the scanner yields.
- **Step names and result lines** (`applyColor`, `GetFunctionName`,
  `RunTestFunc`). It also covers the entry point's test for the cross glyph
  (`cmd/vol-test/main.go`). The step's long runtime name and the value it
  returned are inputs.
- **The client's step logic** (`TestClient`: `CreateVolume`,
  `ConfirmVolume`, `InspectVolume`, `CreateContainerWithVolume`,
  `CleanContainers`, and `RandString`). Each engine call is a parameter.
  Where the step builds a request (volume and container creation, the
  filtered listing in `ConfirmVolume`, inspection and removal), the
  parameter is a function from that request to the engine's answer. The
  unfiltered listings in `InspectVolume` and `CleanContainers` have a fixed
  request, so their answer is a plain value. The random letter indexes are
  an input sequence of values below 52.

Files:

- `results.dfy`: Go's `error` results and panics.
- `go_strings.dfy`: the `strings` functions the library uses.
- `report.dfy`: name derivation, colouring, result lines and the run verdict.
- `env_file.dfy`: the loader, specified by the functions `ScanLine` and
  `Source` and implemented by the method `SourceFile`, which updates the
  environment in place.
- `client.dfy`: the `TestClient` class and its steps.

Three behaviours of the code worth noting:

- In `SourceFile`, a line too short for the fixed offsets panics; it is not
  skipped.
- In `SourceFile`, the API-version default is applied inside the loop, after
  each line, so an empty file never sets it.
- `InspectVolume` removes the first `:latest` anywhere in the driver name,
  not only a trailing one. So when the plugin reference itself contains
  `:latest` and the engine reports exactly that reference as the driver,
  the step fails (`Client.TaggedPluginMissesItself`).

`os.Setenv` follows its Unix behaviour. The loader ignores its error, so a
pair it refuses changes nothing. It refuses an empty key, a key holding `=`
or NUL, and a value holding NUL.

## Model

| member | source | states |
|---|---|---|
| GoStrings.ContainsChar | pkg/lib/lib.go:317 | `strings.Contains` with a one-character pattern holds exactly when the character occurs |
| GoStrings.SplitN2 | pkg/lib/lib.go:318 | `SplitN(s, "=", 2)` has two parts exactly when `=` occurs; then the first part holds no `=` and part, `=`, part rebuild the line; otherwise the one part is the line |
| GoStrings.SplitJoin | pkg/lib/lib.go:76 | no part of `strings.Split` holds the separator, and joining the parts with it gives the string back |
| GoStrings.LastPartIsSuffix | pkg/lib/lib.go:76-77 | the last part of the split is a separator-free suffix; it is the whole string exactly when there is no separator, and otherwise a separator precedes it |
| GoStrings.LastPartAfterSep | pkg/lib/lib.go:76-77 | a separator-free tail that follows a separator is exactly the last part |
| GoStrings.TrimRight | pkg/lib/lib.go:78 | the result is a prefix; every dropped character is in the cutset; the last kept character is not |
| GoStrings.ReplaceFirst | pkg/lib/lib.go:179 | with no occurrence the string is unchanged; otherwise the first occurrence is replaced and the text around it is kept |
| Report.ColorCode | pkg/lib/lib.go:64-71 | a known colour gives a five-character `ESC[3?m` code; an unknown one gives the map's zero value, `""` |
| Report.ApplyColor | pkg/lib/lib.go:62-72 | the text sits between the colour's code and the reset sequence; an unknown colour leaves the text followed by the reset |
| Report.GetFunctionName | pkg/lib/lib.go:74-79 | the name holds no `.` and is a prefix of the last `.`-separated part; everything it drops is in the cutset `-fm`; its last character is not |
| Report.MethodValueName | pkg/lib/lib.go:76-78 | for a method value `q.M-fm` the name is `M` trimmed by the cutset, so it is `M` exactly when `M` does not end in `-`, `f` or `m` |
| Report.TrimRightDropsCutsetTail | pkg/lib/lib.go:78 | a tail made only of cutset characters does not change the trimmed result |
| Report.NameCharsFromLong | pkg/lib/lib.go:74-79 | every character of the derived name occurs in the long name |
| Report.RunTestFunc | pkg/lib/lib.go:81-91 | the line always holds `Test: <name> `; a passing step's line is the green check mark, a space and that text; a failing step's line starts with the red cross and a space and ends with `Test <name> failed. error: <err>` |
| Report.CrossMarksFailure | pkg/lib/lib.go:81-90 | when the long name holds no cross glyph, the line holds the cross exactly when the step failed |
| Report.RunFailedIffSomeStepFailed | cmd/vol-test/main.go:53-64 | over the lines built one per step in order, the run is reported failed exactly when some step returned an error |
| EnvFile.WithDefaultApiVersion | pkg/lib/lib.go:325-327 | afterwards the API version is non-empty; a non-empty one is kept with nothing else changed; an empty one becomes `1.37` with nothing else changed |
| EnvFile.ParseLine | pkg/lib/lib.go:317-322 | a line is read as having no assignment exactly when it holds no `=` |
| EnvFile.ParseLineShape | pkg/lib/lib.go:318-322 | an assignment comes from seven characters, the key, the first `=`, one character, the value and one final character |
| EnvFile.ParseLinePanics | pkg/lib/lib.go:321-322 | a line panics exactly when its first `=` is before position 7 or fewer than two characters follow it |
| EnvFile.ParseExportLine | pkg/lib/lib.go:317-322 | any 7-character prefix, a key without `=`, and any two quote characters give back that key and value, with an `=` inside the value kept |
| EnvFile.ExportLineAssigns | pkg/lib/lib.go:317-322 | `export K="V"` assigns V to K whenever `os.Setenv` accepts the pair |
| EnvFile.ScanLine | pkg/lib/lib.go:316-327 | one loop pass errs exactly on the out-of-range slice; otherwise the API version ends non-empty |
| EnvFile.ScanLineEffect | pkg/lib/lib.go:316-327 | a line without `=` or without an accepted assignment only applies the default; an accepted assignment is stored and then the default is applied |
| EnvFile.Source | pkg/lib/lib.go:315-328 | a panic is reported at a line of the file |
| EnvFile.AssignedKeys | pkg/lib/lib.go:316-324 | a key is assigned exactly when some line assigns it |
| EnvFile.AssignedLastWins | pkg/lib/lib.go:316-324 | the last line that assigns a key decides its value |
| EnvFile.SourceCompletes | pkg/lib/lib.go:315-328 | a file with no panicking line leaves the start environment overridden by its assignments in file order, then defaulted; an empty file leaves it unchanged |
| EnvFile.SourcedNextLine | pkg/lib/lib.go:316-327 | one more non-panicking line takes that result one line further |
| EnvFile.SourceCompletesUnlessPanic | pkg/lib/lib.go:316-328 | sourcing completes exactly when no line panics |
| EnvFile.SourceAbortsAtFirstBadLine | pkg/lib/lib.go:321-322 | sourcing panics at line i exactly when line i panics and no earlier line does; the environment is then what the earlier lines made it |
| EnvFile.AbortedStaysAborted | pkg/lib/lib.go:316-328 | once a prefix of the file panics, later lines change nothing |
| EnvFile.SourceNextLine | pkg/lib/lib.go:316-328 | the outcome after line i follows from the outcome before it and that line's scan |
| EnvFile.ApiVersionAfterSource | pkg/lib/lib.go:316-327 | an empty file changes nothing; a completed non-empty file, or a panic after the first line, leaves the API version non-empty |
| EnvFile.ProcessEnv.Getenv | pkg/lib/lib.go:325 | an unset variable reads as `""` |
| EnvFile.ProcessEnv.Setenv | pkg/lib/lib.go:322 | the environment becomes that of `os.Setenv`: an accepted pair is stored, a refused one changes nothing |
| EnvFile.ScanOneLine | pkg/lib/lib.go:317-327 | one pass of the loop body updates the process environment as `ScanLine` says, and leaves it untouched when it panics |
| EnvFile.SourceFile | pkg/lib/lib.go:315-328 | the loop leaves the environment as `Source` describes, and reports a panic with the index of the line that raised it |
| Client.LettersFor | pkg/lib/lib.go:334-336 | one letter per index, each from the 52-letter alphabet |
| Client.EveryLetterStringReachable | pkg/lib/lib.go:332-338 | every string of alphabet letters is produced by some sequence of valid indexes |
| Client.RandString | pkg/lib/lib.go:332-338 | the buffer loop yields `LettersFor(picks)`, with character i the letter at index `picks[i]` |
| Client.LettersForAt | pkg/lib/lib.go:335 | character i of the letters is the letter at the i-th index |
| Client.DistinctNodesDistinctNames | pkg/lib/lib.go:128-129 | generated names for different nodes never collide |
| Client.NodeOfResourceName | pkg/lib/lib.go:192-193 | a generated name is the node, a dash and five letters, so the node can be read back |
| Client.StripLatestFirstOnly | pkg/lib/lib.go:179 | only the first `:latest` is removed; text after it is kept, including further tags |
| Client.DriverMatchesWithOrWithoutTag | pkg/lib/lib.go:179-181 | an untagged plugin reference matches the reported driver whether or not the engine adds `:latest` |
| Client.TaggedPluginMissesItself | pkg/lib/lib.go:179-181 | a plugin reference containing `:latest` never equals itself with its first tag removed, so it does not match when the engine reports that same reference as the driver |
| Client.LastWithPrefix | pkg/lib/lib.go:165-170 | the chosen volume starts with the stored name and no later one does; with no choice, none does |
| Client.EmptyPrefixPicksLast | pkg/lib/lib.go:167 | with an empty stored name the last listed volume is chosen |
| Client.TestClient.constructor | pkg/lib/lib.go:47-60 | the node is the file name, the plugin and option maps are stored, and no volume or container name is set yet |
| Client.TestClient.CreateVolume | pkg/lib/lib.go:127-140 | the stored volume name is node, dash and the five letters, set whatever the engine answers; the engine's error is returned |
| Client.TestClient.ConfirmVolume | pkg/lib/lib.go:142-156 | fails with the engine's error, or with "Volume <vol> not found" exactly when the filtered list is empty |
| Client.TestClient.InspectVolume | pkg/lib/lib.go:158-184 | a listing error is returned; no match gives "not found"; otherwise the chosen volume is inspected and the step passes exactly when its driver without the first `:latest` is the plugin |
| Client.TestClient.CreateContainerWithVolume | pkg/lib/lib.go:191-208 | the stored container name is node, dash and five letters; the request runs `/bin/bash` with the volume bound at `/data` and the plugin as volume driver |
| Client.TestClient.CleanContainers | pkg/lib/lib.go:232-250 | a listing error panics; otherwise removals follow list order and stop at the first error, which is returned; every earlier removal succeeded |

## Left out

- The engine calls themselves (plugin install, disable and remove; volume create, list, inspect and remove; container create, list and remove) are not modelled. Their answers are parameters of the steps. So `InstallPlugin`, `DeletePlugin` and `DeleteVolume`, which only forward to the engine, have no model.
- `CleanVolumes` has no model. It only panics on the first engine error, and that loop shape is already modelled by `CleanContainers`.
- `Clean`, `subClean`, the `Done` channel and the goroutines of the entry point have no model. They exist for concurrency.
- `PrintContainers`, `PrintVolumes`, `PrintPlugins`, `PrintEnv` and all logging have no model. They are output only.
- `SourceFile`'s reading of the file through `cat` is not modelled, nor its panic when that fails. The model starts from the lines. Scanner details (stripping `\r`, the 64 KiB line limit) are not modelled.
- `NewTestClient`'s call to `SourceFile` and its engine-client creation (and panic) are not modelled. The constructor keeps only the fields.
- The `runtime`/`reflect` lookup in `GetFunctionName` is not modelled. The model starts from the long name.
- `math/rand` is not modelled. Its picks are an input sequence.
- Go strings are bytes; the model uses characters. They agree on ASCII input, and the two glyphs count as one character each.
- Report.RunTestFunc: the step is an input outcome, so "called exactly once" holds by construction and is not stated.
- `cmd/vol-test/main.go` is not modelled beyond its pass/fail fold: flag parsing, client wiring and the fixed step list are left out.
