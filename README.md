# seva-launcher, modelled in Dafny

seva-launcher is a small Go program that serves a web front end for running "apps"
(docker-compose projects) on an embedded board. This project models its deterministic
core:

- **Output normalisation.** Every command output the launcher keeps is trimmed with
  `strings.TrimSpace` and split on `"\n"`. `Text` models both operations exactly:
  white space is the set `unicode.IsSpace` recognises, and the split always yields at
  least one piece. `Text` also proves that the split and the join with line feeds undo
  each other, and what the last piece is.
- **The auxiliary-container registry.** `container_id_list` is a two-slot array.
  `start_design_gallery` writes slot 0 and `launch_docker_browser` writes slot 1, each
  with the last line of the `docker run -d` output. `exit(num)` issues one `docker stop`
  per non-empty slot, in slot order. A failed stop is only logged. The routine then ends
  the process with `num`. `Launcher.ContainerRegistry` is a class over an `array<string>`
  of length 2. Its `Exit` method is a loop, proved against `StopTargets` and
  `FailedStops`.
- **Start-up checks.** `check_env_vars` is a loop with an early return. `prepare_compose`
  chooses between the installed docker-compose and the bundled binary.
- **The websocket command handlers.** These are `start_app`, `stop_app`, `get_app`,
  `load_app` and `is_running`. Each maps a `WebSocketCommand` (arguments, response lines)
  to an updated one, or ends the process.
  - `load_app` has a removal loop and a download loop over the manifest files. It is
    modelled as two `while` loops, `RemoveFiles` and `FetchFiles`.
  - Both loops are proved against `Execute`, a function that carries out a list of
    file operations in order and stops at the first failure.
  - The properties of a load are proved about `Execute(dir, LoadPlan(name, dir), fx)`:
    what is removed, what is fetched, when it succeeds, and what the directory holds
    afterwards.

External effects are parameters:

- A finished command is a `ProcessResult(ok, output)`, and running one is a `Runner`
  function from argument vectors to results.
- The working directory is a `map<string, string>`.
- Whether a removal succeeds, and what a download yields, is an `Effects` value. A
  download either delivers its content or fails, and a failed download may leave part
  of its file written. Whether reading `metadata.json` succeeds is a boolean.
- What writing the bundled docker-compose binary leaves in its file is an optional
  string: the whole binary, part of it, or nothing.
- The environment is a map.
- JSON decoding of `docker-compose ps` output is a function parameter.
- `os.Exit(n)` is the outcome `Exited(n)`. In the source every such exit goes through
  `exit(n)`, which drains the registry first. That drain is `ContainerRegistry.Exit`.

Three behaviours of the handlers are worth stating on their own:

- `get_app` without `metadata.json` appends `"{}"` to the response
  (seva-compose.go:170).
- A successful `load_app` answers with the `stop_app` response followed by `"0"`
  (seva-compose.go:185 and :208).
- `load_app` removes only the manifest files that exist and skips the others
  (seva-compose.go:189-191).

## Model

| member | source | states |
|---|---|---|
| Text.IsSpace | seva-launcher/seva-launcher.go:104 | the white space that trimming removes is the set unicode.IsSpace recognises; within Latin-1 it is exactly tab, line feed, vertical tab, form feed, carriage return, space, U+0085 and U+00A0 |
| Text.TrimSpace | seva-launcher/seva-launcher.go:104 | the trimmed output neither starts nor ends with a white space character |
| Text.TrimSpaceIsSlice | seva-launcher/seva-launcher.go:126 | the trimmed output is one contiguous slice of the output, and everything before and after it is white space |
| Text.TrimSpaceUnique | seva-launcher/seva-compose.go:50 | any slice with only white space around it and no white space at either end is the trimmed output, so trimming removes as much as it may |
| Text.TrimSpaceEmpty | seva-launcher/seva-launcher.go:126 | the trimmed output is empty exactly when the whole output is white space |
| Text.TrimSpaceIdempotent | seva-launcher/seva-compose.go:162 | trimming an already trimmed output changes nothing |
| Text.TrimmedEndsWithoutLineFeed | seva-launcher/seva-launcher.go:104 | a trimmed output never ends with a line feed |
| Text.LineEndIsFirst | seva-launcher/seva-launcher.go:104 | no line feed lies between a position and the line end found from it |
| Text.Split | seva-launcher/seva-compose.go:51 | splitting on "\n" always gives at least one piece, even for the empty text |
| Text.Join | seva-launcher/seva-compose.go:163 | joining lines puts the first line first and a line feed right after it when more lines follow |
| Text.SplitLinesFree | seva-launcher/seva-compose.go:51 | no piece of a split on "\n" holds a line feed |
| Text.JoinSplit | seva-launcher/seva-compose.go:51 | joining the pieces of a split with line feeds gives the text back |
| Text.SplitJoin | seva-launcher/seva-compose.go:51 | splitting lines without line feeds, joined by line feeds, gives exactly those lines back |
| Text.LastLineIsSuffix | seva-launcher/seva-launcher.go:105 | the last piece of the split is the text from LastLineStart on |
| Text.LastLineAfterLineFeed | seva-launcher/seva-launcher.go:105 | the last piece starts right after a line feed, unless it is the only piece |
| Text.LastLineEmptyOnlyIfEmpty | seva-launcher/seva-launcher.go:127 | for a text that does not end with a line feed, the last piece is empty only when the text is |
| Text.OutputLines | seva-launcher/seva-launcher.go:104 | trimming then splitting always gives at least one line, so the last index is in range, and no line holds a line feed |
| Text.JoinOutputLines | seva-launcher/seva-compose.go:50-51 | the output lines joined by line feeds are exactly the trimmed output |
| Text.LastOutputLine | seva-launcher/seva-launcher.go:104-105 | the last output line is what follows the last line feed of the trimmed output, and it is empty exactly when the output is all white space |
| Launcher.DockerRunArgv | seva-launcher/seva-launcher.go:109-110 | the command line is `docker run -d` followed by the caller's arguments, unchanged and in order |
| Launcher.BrowserArgs | seva-launcher/seva-launcher.go:90-103 | the browser container is started with `--rm` and runs as the current user's uid and gid; the runtime directory is mounted at /tmp; the last argument is the launcher's front-end URL |
| Launcher.DockerRun | seva-launcher/seva-launcher.go:108-119 | a failed `docker run` ends the process with status 1; otherwise the combined output is returned |
| Launcher.ContainerId | seva-launcher/seva-launcher.go:126-127 | the recorded ID holds no line feed, is the part of the trimmed output after its last line feed, and is empty exactly when the output is all white space |
| Launcher.StopArgv | seva-launcher/seva-launcher.go:134 | a container is stopped with `docker stop` followed by its ID alone |
| Launcher.StopTargets | seva-launcher/seva-launcher.go:132-134 | the IDs stopped are at most one per slot and never empty |
| Launcher.StopTargetsOncePerSlot | seva-launcher/seva-launcher.go:132-134 | each non-empty ID is stopped once per slot holding it, and the empty ID never |
| Launcher.StopTargetsInSlotOrder | seva-launcher/seva-launcher.go:132-134 | for two slots, the gallery's ID is stopped first and the browser's second, each only if recorded |
| Launcher.FailedStops | seva-launcher/seva-launcher.go:135-138 | an ID is among the failed stops exactly when it was stopped and its `docker stop` failed |
| Launcher.FailedStopsConcat | seva-launcher/seva-launcher.go:132-139 | the failed stops keep the order in which the stops were issued |
| Launcher.ContainerRegistry.constructor | seva-launcher/seva-launcher.go:30 | the registry starts with two empty slots |
| Launcher.ContainerRegistry.Launch | seva-launcher/seva-launcher.go:108-119 | on success, exactly the given slot is written with the ID; on failure, the outcome is Exited(1) and no slot changes |
| Launcher.ContainerRegistry.StartDesignGallery | seva-launcher/seva-launcher.go:121-128 | on success, only slot 0 is written, with the gallery's container ID; on failure, the outcome is Exited(1) and both slots are unchanged |
| Launcher.ContainerRegistry.LaunchDockerBrowser | seva-launcher/seva-launcher.go:87-106 | on success, only slot 1 is written, with the browser's container ID; on failure, the outcome is Exited(1) and both slots are unchanged |
| Launcher.ContainerRegistry.Exit | seva-launcher/seva-launcher.go:130-142 | stops are issued for StopTargets of the slots, in slot order; a failed stop does not prevent later ones; the exit status is `num` |
| Launcher.CheckEnvVars | seva-launcher/seva-launcher.go:166-175 | start-up continues exactly when DISPLAY or WAYLAND_DISPLAY is non-empty; otherwise the outcome is Exited(1) |
| Launcher.PrepareCompose | seva-launcher/seva-launcher.go:54-60 | the installed tool is "docker-compose"; otherwise "./docker-compose" is used whatever the write of the bundled binary left behind, and the directory holds what that write left; no other file changes |
| Compose.AppendOutput | seva-launcher/seva-compose.go:50-51 | the arguments are kept, the earlier responses stay a prefix, and the added lines hold no line feed and join to the trimmed output |
| Compose.AddedLines | seva-launcher/seva-compose.go:50-51 | any record satisfying that description added exactly the output's lines |
| Compose.AppendsOutputExactly | seva-launcher/seva-compose.go:50-51 | the description determines the record: it is the one AppendOutput builds |
| Compose.ComposeArgv | seva-launcher/seva-compose.go:44 | every docker-compose invocation names the tool, then `-p seva-launcher`, then the subcommand's arguments unchanged |
| Compose.StartApp | seva-launcher/seva-compose.go:42-54 | a failed `up -d` ends the process with status 1 and no response; on success the output lines are appended |
| Compose.StopApp | seva-launcher/seva-compose.go:155-166 | the output lines of `down --remove-orphans` are appended whether or not it failed, and the process never ends |
| Compose.GetApp | seva-launcher/seva-compose.go:168-180 | without metadata.json "{}" is appended; with it, the response becomes exactly its content; an unreadable file ends the process with status 1 |
| Compose.Removals | seva-launcher/seva-compose.go:188-191 | the plan removes exactly the listed files that exist, and nothing else |
| Compose.Fetches | seva-launcher/seva-compose.go:199-202 | the plan downloads each listed file, in order, from the store URL for the app and file name into a file of that name |
| Compose.LoadPlan | seva-launcher/seva-compose.go:187-207 | a load plans two to four file operations, and every one of them names a manifest file |
| Compose.Execute | seva-launcher/seva-compose.go:188-207 | a run that succeeds attempts every operation; a failed one attempts at least one and no more than planned |
| Compose.ExecuteOkIff | seva-launcher/seva-compose.go:192-205 | a run succeeds exactly when every operation in it succeeds |
| Compose.ExecuteAttemptsPrefix | seva-launcher/seva-compose.go:188-207 | the operations attempted are a prefix of the plan, and all of it on success |
| Compose.ExecuteStopsAtFailure | seva-launcher/seva-compose.go:193-205 | a failed run stops at its first failure: the last operation attempted failed and all earlier ones succeeded |
| Compose.ExecuteFrame | seva-launcher/seva-compose.go:188-207 | a file no operation names is left as it was |
| Compose.ExecuteConcat | seva-launcher/seva-compose.go:187-207 | running two plans one after the other is running the first, then the second only if the first succeeded |
| Compose.RemovalsClear | seva-launcher/seva-compose.go:188-197 | successful removals leave exactly the files that were not removed, with their contents |
| Compose.RemovalsIgnoreOthers | seva-launcher/seva-compose.go:188-191 | removing a file the list does not name does not change the plan for the rest |
| Compose.LoadPlanOrder | seva-launcher/seva-compose.go:187-207 | every removal comes before every download; exactly the existing manifest files are removed; the last two steps download metadata.json then docker-compose.yml |
| Compose.RemovalsSucceedIff | seva-launcher/seva-compose.go:188-197 | the removal phase succeeds exactly when every listed file present can be removed |
| Compose.LoadSucceedsIff | seva-launcher/seva-compose.go:187-207 | a load succeeds exactly when every existing manifest file can be removed and both downloads succeed |
| Compose.ExecuteFetchPair | seva-launcher/seva-compose.go:199-207 | the download phase fetches metadata.json first and keeps whatever it wrote; only if it succeeded is docker-compose.yml fetched next, again keeping whatever was written |
| Compose.RemovalPhaseClears | seva-launcher/seva-compose.go:188-197 | a successful removal phase leaves the directory without either manifest file and otherwise unchanged |
| Compose.LoadPhases | seva-launcher/seva-compose.go:187-207 | a load is the removal phase, then the download phase only if the removal phase succeeded |
| Compose.LoadKeepsOtherFiles | seva-launcher/seva-compose.go:187-207 | a load, successful or not, leaves every file other than the two manifest files as it was |
| Compose.LoadInstallsManifest | seva-launcher/seva-compose.go:187-209 | after a successful load, the directory is the original one with the two manifest files set to the downloaded contents |
| Compose.NoStaleManifestAfterFetch | seva-launcher/seva-compose.go:188-207 | once any download has been attempted, no manifest file from before the load remains: each one present holds what its own download wrote, complete or partial |
| Compose.FetchPairWrites | seva-launcher/seva-compose.go:199-207 | downloading into a directory without manifest files leaves in each file only what its own download wrote |
| Compose.RemovalStep | seva-launcher/seva-compose.go:189-196 | one removal step skips an absent file, stops on a failed removal, and otherwise goes on without the file |
| Compose.RemoveFiles | seva-launcher/seva-compose.go:188-197 | the removal loop yields exactly the directory, attempted operations and success of executing the removal plan |
| Compose.FetchStep | seva-launcher/seva-compose.go:200-205 | one download step: a failure ends the run with whatever was written left in the file; a success writes the file and goes on |
| Compose.FetchFiles | seva-launcher/seva-compose.go:199-207 | the download loop yields exactly the directory, attempted operations and success of executing the download plan |
| Compose.LoadApp | seva-launcher/seva-compose.go:182-210 | the directory and attempts are those of the load plan; it continues exactly when the plan succeeds, with the `stop_app` response followed by "0"; otherwise the outcome is Exited(1) |
| Compose.GetAfterLoad | seva-launcher/seva-compose.go:168-180 | after a successful load, `get_app` answers with exactly the downloaded metadata |
| Compose.FindRunning | seva-launcher/seva-compose.go:227-232 | the search finds a row exactly when some row's name equals the given name |
| Compose.IsRunning | seva-launcher/seva-compose.go:212-235 | a failed listing or undecodable output ends the process with status 1; otherwise exactly one entry is appended, "1" if some container's name equals the argument and "0" otherwise |

## Left out

- The proxy configuration routines write system files and restart daemons:
  - `update_sysconfig_cli`, `update_systemd_cli`, `validate_proxy` and `setup_proxy` in seva-launcher.go;
  - `update_sysconfig`, `update_systemd` and `save_settings` in seva-compose.go.

  As written they do not compile, so there is no behaviour to state.
- HTTP and websocket serving, the embedded web files, opening a browser, and the command
  dispatch loop are I/O plumbing. The dispatch loop is not part of this model.
- The signal handler goroutine and the concurrent launches of the two auxiliary
  containers are not modelled. The registry is modelled sequentially, so a launch racing
  the exit drain is not captured.
- JSON decoding of the `docker-compose ps` listing is the parameter `decode`.
- Process execution, the downloader, `os.Stat`, `os.Remove`, `os.ReadFile`,
  `ioutil.WriteFile` and logging are modelled only through their results: success or
  failure, and what a download or a write left in its file. A failed removal is taken
  to leave the file in place. File permissions (0755 for the bundled binary) are not
  modelled. A directory entry that is not a regular file is not modelled.
- A `Stat` error other than "does not exist" is not distinguished. A file is either in
  the directory or not.
- `setup_working_directory` and the probe in `is_docker_compose_installed` are left out.
  The probe's result is the boolean `installed`.
- Strings are sequences of Unicode code points. Byte sequences that are not valid UTF-8,
  which Go's TrimSpace does not treat as white space, are not modelled.
- Compose.IsRunning: the listing is read from standard output only, while the other
  handlers use combined output. The model's `Runner` returns one output string for
  both.
- Compose.LoadApp: requires at least one argument. The Go code indexes `Arguments[0]`
  without a check, and the dispatcher always supplies the argument.
- Compose.IsRunning: requires at least one argument, for the same reason.
- Compose.RemoveFiles: requires a list without repetitions. `load_app` calls it with the
  two distinct manifest names.
- Launcher.ContainerRegistry.LaunchDockerBrowser: takes the uid and gid as
  parameters. The source discards the error of the current-user lookup
  (seva-launcher.go:89). If that lookup fails, reading the uid panics in the goroutine
  that starts the browser. The process then dies without the exit drain, and a recorded
  gallery container is not stopped. That crash path is not modelled.
- Handlers that end the process return `Exited(1)`. The registry drain that `exit(1)`
  performs is `ContainerRegistry.Exit`, and its composition with each handler is not
  modelled.
