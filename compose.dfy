/** The websocket command handlers that drive docker-compose: start, stop, query and
    load the current app. Each takes the command record (its arguments and the response
    lines gathered so far) and gives back the updated record, or ends the process. */
module Compose {
  import opened Host
  import opened Text
  import Launcher

  /** A command exchanged over the websocket: its arguments and its response lines. */
  datatype WebSocketCommand = WebSocketCommand(arguments: seq<string>, response: seq<string>)

  /** A published port of a container, as `docker-compose ps --format json` reports it. */
  datatype Publisher = Publisher(url: string, targetPort: int, publishedPort: int, protocol: string)

  /** One row of `docker-compose ps --format json`. */
  datatype ContainerRow = ContainerRow(
    id: string, name: string, command: string, project: string, service: string,
    state: string, health: string, exitCode: int, publishers: seq<Publisher>)

  /** The compose project every invocation is confined to. */
  const Project := "seva-launcher"

  /** The command line of a docker-compose invocation on the launcher's project. */
  function ComposeArgv(tool: string, args: seq<string>): (argv: seq<string>)
    ensures |argv| == |args| + 3 && argv[0] == tool
    ensures argv[1..3] == ["-p", Project] && argv[3..] == args
  {
    [tool, "-p", Project] + args
  }

  const UpArgs: seq<string> := ["up", "-d"]
  const DownArgs: seq<string> := ["down", "--remove-orphans"]
  const PsArgs: seq<string> := ["ps", "--format", "json"]

  /** `after` is `before` with the lines of `output` appended: the arguments are kept,
      earlier entries stay as a prefix, at least one line is added, no added line holds a
      line feed, and the added lines joined by line feeds are exactly the trimmed output. */
  predicate AppendsOutput(before: WebSocketCommand, after: WebSocketCommand, output: string) {
    after.arguments == before.arguments
    && |after.response| > |before.response|
    && after.response[..|before.response|] == before.response
    && (forall i :: |before.response| <= i < |after.response| ==> LineFeedFree(after.response[i]))
    && Join(after.response[|before.response|..]) == TrimSpace(output)
  }

  /** The response update the handlers share: the output is trimmed, split on line
      feeds, and the pieces are appended to the response lines. */
  function AppendOutput(cmd: WebSocketCommand, output: string): (c: WebSocketCommand)
    ensures AppendsOutput(cmd, c, output)
  {
    var lines := OutputLines(output);
    JoinOutputLines(output);
    var c := cmd.(response := cmd.response + lines);
    assert c.response[|cmd.response|..] == lines;
    c
  }

  /** The lines a record appends for an output are the output's lines. */
  lemma AddedLines(before: WebSocketCommand, after: WebSocketCommand, output: string)
    requires AppendsOutput(before, after, output)
    ensures after.response[|before.response|..] == OutputLines(output)
  {
    SplitJoin(after.response[|before.response|..]);
  }

  /** The description above pins the update down: the only record that appends the lines
      of an output is the one AppendOutput builds, so no line can be lost, split, merged
      or reordered. */
  lemma AppendsOutputExactly(before: WebSocketCommand, after: WebSocketCommand, output: string)
    requires AppendsOutput(before, after, output)
    ensures after == AppendOutput(before, output)
  {
    var added := after.response[|before.response|..];
    AddedLines(before, after, output);
    assert after.response == before.response + added;
  }

  /** `start_app`: `docker-compose up -d`; a failure ends the process with status 1 and
      produces no response; on success the output lines are appended. */
  function StartApp(cmd: WebSocketCommand, tool: string, run: Runner): (o: Outcome<WebSocketCommand>)
    ensures o.Exited? <==> !run(ComposeArgv(tool, UpArgs)).ok
    ensures o.Exited? ==> o.code == 1
    ensures o.Continue? ==> AppendsOutput(cmd, o.value, run(ComposeArgv(tool, UpArgs)).output)
  {
    var p := run(ComposeArgv(tool, UpArgs));
    if !p.ok then Exited(1) else Continue(AppendOutput(cmd, p.output))
  }

  /** `stop_app`: `docker-compose down --remove-orphans`; its output lines are appended
      whether or not the command failed, and a failure never ends the process. */
  function StopApp(cmd: WebSocketCommand, tool: string, run: Runner): (c: WebSocketCommand)
    ensures AppendsOutput(cmd, c, run(ComposeArgv(tool, DownArgs)).output)
  {
    AppendOutput(cmd, run(ComposeArgv(tool, DownArgs)).output)
  }

  /** The two files that make up the loaded app, in the order they are handled. */
  const Metadata := "metadata.json"
  const ComposeFile := "docker-compose.yml"
  const ManifestFiles: seq<string> := [Metadata, ComposeFile]

  /** `get_app`: without `metadata.json` the response gets "{}" appended; with it the
      response becomes exactly the file's content, earlier entries discarded. A file that
      exists but cannot be read ends the process with status 1. */
  function GetApp(cmd: WebSocketCommand, dir: Directory, readOk: bool): (o: Outcome<WebSocketCommand>)
    ensures o.Exited? <==> Metadata in dir && !readOk
    ensures o.Exited? ==> o.code == 1
    ensures o.Continue? ==> o.value.arguments == cmd.arguments
    ensures o.Continue? && Metadata !in dir ==> o.value.response == cmd.response + ["{}"]
    ensures o.Continue? && Metadata in dir ==> o.value.response == [dir[Metadata]]
  {
    if Metadata !in dir then Continue(cmd.(response := cmd.response + ["{}"]))
    else if !readOk then Exited(1)
    else Continue(cmd.(response := [dir[Metadata]]))
  }

  /** Where a manifest file of an app is fetched from. */
  function FileUrl(name: string, file: string): string {
    Launcher.StoreUrl + "/" + name + "/" + file
  }

  /** A change `load_app` makes to the working directory. */
  datatype FileOp = Remove(file: string) | Fetch(url: string, file: string)

  /** What downloading a URL yields: its content, or a failure that may leave a partly
      written file behind (`Some` of what was written) or none. */
  datatype Download = Downloaded(content: string) | Failed(partial: Option<string>)

  /** What a download leaves in its target file, if anything. */
  function Written(dl: Download): Option<string> {
    match dl
    case Downloaded(content) => Some(content)
    case Failed(partial) => partial
  }

  /** The outcomes of the file operations, given from outside: whether removing a file
      succeeds, and what downloading a URL yields. */
  datatype Effects = Effects(removeOk: string -> bool, download: string -> Download)

  predicate Succeeds(op: FileOp, fx: Effects) {
    match op
    case Remove(f) => fx.removeOk(f)
    case Fetch(u, _) => fx.download(u).Downloaded?
  }

  /** The working directory after file `f` received what a download left in it. */
  function Leave(dir: Directory, f: string, dl: Download): Directory {
    if Written(dl).Some? then dir[f := Written(dl).value] else dir
  }

  /** The working directory after an attempted operation: a failed removal leaves the
      file in place, and a download leaves whatever it wrote, even when it fails. */
  function Apply(dir: Directory, op: FileOp, fx: Effects): Directory {
    match op
    case Remove(f) => if fx.removeOk(f) then dir - {f} else dir
    case Fetch(u, f) => Leave(dir, f, fx.download(u))
  }

  /** The removal of every listed file present in `dir`, in list order. */
  function Removals(files: seq<string>, dir: Directory): (ops: seq<FileOp>)
    ensures forall i :: 0 <= i < |ops| ==> ops[i].Remove?
    ensures forall f :: Remove(f) in ops <==> f in files && f in dir
  {
    if files == [] then []
    else (if files[0] in dir then [Remove(files[0])] else []) + Removals(files[1..], dir)
  }

  lemma {:induction false} RemovalsAtMostOnePerFile(files: seq<string>, dir: Directory)
    ensures |Removals(files, dir)| <= |files|
  {
    if files != [] {
      RemovalsAtMostOnePerFile(files[1..], dir);
    }
  }

  /** The download of every listed file of app `name` into a file of the same name, in
      list order. */
  function Fetches(name: string, files: seq<string>): (ops: seq<FileOp>)
    ensures |ops| == |files|
    ensures forall i :: 0 <= i < |ops| ==> ops[i] == Fetch(FileUrl(name, files[i]), files[i])
  {
    if files == [] then [] else [Fetch(FileUrl(name, files[0]), files[0])] + Fetches(name, files[1..])
  }

  /** What `load_app` sets out to do to the working directory for app `name`: remove the
      manifest files that exist, then download both. It touches no other file. */
  function LoadPlan(name: string, dir: Directory): (plan: seq<FileOp>)
    ensures 2 <= |plan| <= 4
    ensures forall i :: 0 <= i < |plan| ==> plan[i].file in ManifestFiles
  {
    var rs := Removals(ManifestFiles, dir);
    RemovalsAtMostOnePerFile(ManifestFiles, dir);
    assert forall i :: 0 <= i < |rs| ==> rs[i] == Remove(rs[i].file) && rs[i] in rs;
    rs + Fetches(name, ManifestFiles)
  }

  /** The result of carrying out file operations: the final directory, the operations
      attempted, and whether all of them succeeded. */
  datatype Run = Run(dir: Directory, done: seq<FileOp>, ok: bool)

  /** Prefixes operations that were carried out before a run. */
  function Prepend(ops: seq<FileOp>, r: Run): Run {
    Run(r.dir, ops + r.done, r.ok)
  }

  /** Carries out `ops` in order and stops at the first one that fails. */
  function Execute(dir: Directory, ops: seq<FileOp>, fx: Effects): (r: Run)
    ensures r.ok ==> |r.done| == |ops|
    ensures !r.ok ==> 1 <= |r.done| <= |ops|
    decreases |ops|
  {
    if ops == [] then Run(dir, [], true)
    else if !Succeeds(ops[0], fx) then Run(Apply(dir, ops[0], fx), [ops[0]], false)
    else
      var r := Execute(Apply(dir, ops[0], fx), ops[1..], fx);
      Run(r.dir, [ops[0]] + r.done, r.ok)
  }

  /** A run succeeds exactly when every one of its operations succeeds. */
  lemma {:induction false} ExecuteOkIff(dir: Directory, ops: seq<FileOp>, fx: Effects)
    ensures Execute(dir, ops, fx).ok <==> forall i :: 0 <= i < |ops| ==> Succeeds(ops[i], fx)
    decreases |ops|
  {
    if ops != [] && Succeeds(ops[0], fx) {
      ExecuteOkIff(Apply(dir, ops[0], fx), ops[1..], fx);
      assert forall i :: 1 <= i < |ops| ==> ops[i] == ops[1..][i - 1];
    }
  }

  /** What is attempted is a prefix of `ops`, and all of it when the run succeeds. */
  lemma {:induction false} ExecuteAttemptsPrefix(dir: Directory, ops: seq<FileOp>, fx: Effects)
    ensures var r := Execute(dir, ops, fx); r.done <= ops && (r.ok ==> r.done == ops)
    decreases |ops|
  {
    if ops != [] && Succeeds(ops[0], fx) {
      ExecuteAttemptsPrefix(Apply(dir, ops[0], fx), ops[1..], fx);
      assert ops == [ops[0]] + ops[1..];
    }
  }

  /** A failed run stops at its first failure: the last operation attempted failed and
      every one before it succeeded. */
  lemma {:induction false} ExecuteStopsAtFailure(dir: Directory, ops: seq<FileOp>, fx: Effects)
    ensures var r := Execute(dir, ops, fx);
      !r.ok ==> |r.done| >= 1 && !Succeeds(r.done[|r.done| - 1], fx)
                && forall i :: 0 <= i < |r.done| - 1 ==> Succeeds(r.done[i], fx)
    decreases |ops|
  {
    if ops != [] && Succeeds(ops[0], fx) {
      ExecuteStopsAtFailure(Apply(dir, ops[0], fx), ops[1..], fx);
      var r := Execute(Apply(dir, ops[0], fx), ops[1..], fx);
      assert forall i :: 1 <= i < |r.done| + 1 ==> ([ops[0]] + r.done)[i] == r.done[i - 1];
    }
  }

  /** Files that no operation names are left as they were. */
  lemma {:induction false} ExecuteFrame(dir: Directory, ops: seq<FileOp>, fx: Effects, f: string)
    requires forall i :: 0 <= i < |ops| ==> ops[i].file != f
    ensures var d := Execute(dir, ops, fx).dir;
      (f in d <==> f in dir) && (f in dir ==> d[f] == dir[f])
    decreases |ops|
  {
    if ops != [] && Succeeds(ops[0], fx) {
      ExecuteFrame(Apply(dir, ops[0], fx), ops[1..], fx, f);
    }
  }

  lemma PrependTwice(a: seq<FileOp>, b: seq<FileOp>, r: Run)
    ensures Prepend(a, Prepend(b, r)) == Prepend(a + b, r)
  {
    assert a + (b + r.done) == (a + b) + r.done;
  }

  /** One step of an execution: the first operation, then the rest if it succeeded. */
  lemma ExecuteCons(dir: Directory, op: FileOp, rest: seq<FileOp>, fx: Effects)
    ensures Execute(dir, [op] + rest, fx) ==
      if Succeeds(op, fx) then Prepend([op], Execute(Apply(dir, op, fx), rest, fx))
      else Run(Apply(dir, op, fx), [op], false)
  {
    assert ([op] + rest)[1..] == rest;
  }

  /** Continues a run with `b` from where it left the directory, if it succeeded. */
  function Then(ra: Run, b: seq<FileOp>, fx: Effects): Run {
    if ra.ok then Prepend(ra.done, Execute(ra.dir, b, fx)) else ra
  }

  lemma PrependNothing(r: Run)
    ensures Prepend([], r) == r
  {
    assert [] + r.done == r.done;
  }

  /** Executing `a + b` is executing `a`, then, if that all succeeded, `b` from where `a`
      left the directory. */
  lemma {:induction false} ExecuteConcat(dir: Directory, a: seq<FileOp>, b: seq<FileOp>, fx: Effects)
    ensures Execute(dir, a + b, fx) == Then(Execute(dir, a, fx), b, fx)
    decreases |a|
  {
    if a == [] {
      assert a + b == b;
      PrependNothing(Execute(dir, b, fx));
    } else {
      var op, rest := a[0], a[1..];
      assert a + b == [op] + (rest + b);
      assert a == [op] + rest;
      ExecuteCons(dir, op, rest + b, fx);
      ExecuteCons(dir, op, rest, fx);
      if Succeeds(op, fx) {
        var d1 := Apply(dir, op, fx);
        ExecuteConcat(d1, rest, b, fx);
        var r1 := Execute(d1, rest, fx);
        if r1.ok {
          PrependTwice([op], r1.done, Execute(r1.dir, b, fx));
        }
      }
    }
  }

  /** Executing removals that all succeed leaves the directory without any of the files. */
  lemma {:induction false} RemovalsClear(files: seq<string>, plan: Directory, dir: Directory, fx: Effects)
    requires Execute(dir, Removals(files, plan), fx).ok
    ensures var d := Execute(dir, Removals(files, plan), fx).dir;
      forall f :: f in d <==> f in dir && !(f in files && f in plan)
    ensures var d := Execute(dir, Removals(files, plan), fx).dir;
      forall f :: f in d ==> d[f] == dir[f]
  {
    if files != [] {
      var head := if files[0] in plan then [Remove(files[0])] else [];
      var rest := Removals(files[1..], plan);
      assert Removals(files, plan) == head + rest;
      ExecuteConcat(dir, head, rest, fx);
      var d1 := Execute(dir, head, fx).dir;
      if files[0] in plan {
        assert head[1..] == [];
        assert d1 == dir - {files[0]};
      }
      RemovalsClear(files[1..], plan, d1, fx);
    }
  }

  /** Removals planned against one directory are the same plan against a directory that
      differs only in a file the list does not name. */
  lemma {:induction false} RemovalsIgnoreOthers(files: seq<string>, dir: Directory, f: string)
    requires f !in files
    ensures Removals(files, dir - {f}) == Removals(files, dir)
  {
    if files != [] {
      RemovalsIgnoreOthers(files[1..], dir, f);
    }
  }

  /** The plan removes exactly the manifest files present, in manifest order, and only
      then downloads metadata.json and docker-compose.yml from the store. */
  lemma LoadPlanOrder(name: string, dir: Directory)
    ensures var plan := LoadPlan(name, dir); var n := |plan|;
      n >= 2
      && (forall i, j :: 0 <= i < j < n && plan[i].Fetch? ==> plan[j].Fetch?)
      && (forall f :: Remove(f) in plan <==> f in ManifestFiles && f in dir)
      && plan[n - 2..] == [Fetch(FileUrl(name, Metadata), Metadata), Fetch(FileUrl(name, ComposeFile), ComposeFile)]
  {
    var plan := LoadPlan(name, dir);
    var rs := Removals(ManifestFiles, dir);
    var fs := Fetches(name, ManifestFiles);
    assert plan[|plan| - 2..] == fs;
  }

  /** A removal phase succeeds exactly when every listed file present can be removed. */
  lemma RemovalsSucceedIff(files: seq<string>, dir: Directory, fx: Effects)
    ensures Execute(dir, Removals(files, dir), fx).ok <==>
      forall f :: f in files && f in dir ==> fx.removeOk(f)
  {
    var rs := Removals(files, dir);
    ExecuteOkIff(dir, rs, fx);
    if forall i :: 0 <= i < |rs| ==> Succeeds(rs[i], fx) {
      forall f | f in files && f in dir
        ensures fx.removeOk(f)
      {
        var k :| 0 <= k < |rs| && rs[k] == Remove(f);
        assert Succeeds(rs[k], fx);
      }
    }
    if forall f :: f in files && f in dir ==> fx.removeOk(f) {
      forall i | 0 <= i < |rs|
        ensures Succeeds(rs[i], fx)
      {
        assert rs[i] in rs && Remove(rs[i].file) in rs;
      }
    }
  }

  /** A load succeeds exactly when every existing manifest file can be removed and both
      downloads succeed. */
  lemma LoadSucceedsIff(name: string, dir: Directory, fx: Effects)
    ensures Execute(dir, LoadPlan(name, dir), fx).ok <==>
      (forall f :: f in ManifestFiles && f in dir ==> fx.removeOk(f))
      && fx.download(FileUrl(name, Metadata)).Downloaded?
      && fx.download(FileUrl(name, ComposeFile)).Downloaded?
  {
    var ra := Execute(dir, Removals(ManifestFiles, dir), fx);
    LoadPhases(name, dir, fx);
    RemovalsSucceedIff(ManifestFiles, dir, fx);
    ExecuteFetchPair(ra.dir, name, fx);
  }

  /** The download phase of a load from directory `d`: metadata.json is fetched first
      and keeps whatever the download wrote; only if that download succeeded is
      docker-compose.yml fetched next, again keeping whatever was written. */
  lemma ExecuteFetchPair(d: Directory, name: string, fx: Effects)
    ensures var dl1, dl2 := fx.download(FileUrl(name, Metadata)), fx.download(FileUrl(name, ComposeFile));
      var f1, f2 := Fetch(FileUrl(name, Metadata), Metadata), Fetch(FileUrl(name, ComposeFile), ComposeFile);
      Execute(d, Fetches(name, ManifestFiles), fx) ==
        if dl1.Failed? then Run(Leave(d, Metadata, dl1), [f1], false)
        else Run(Leave(d[Metadata := dl1.content], ComposeFile, dl2), [f1, f2], dl2.Downloaded?)
  {
    var u1, u2 := FileUrl(name, Metadata), FileUrl(name, ComposeFile);
    var fs := Fetches(name, ManifestFiles);
    assert fs == [Fetch(u1, Metadata), Fetch(u2, ComposeFile)];
    if fx.download(u1).Downloaded? {
      var d1 := d[Metadata := fx.download(u1).content];
      assert Execute(d, fs, fx) == Prepend([fs[0]], Execute(d1, fs[1..], fx));
      if fx.download(u2).Downloaded? {
        var d2 := d1[ComposeFile := fx.download(u2).content];
        assert Execute(d1, fs[1..], fx) == Prepend([fs[1]], Execute(d2, fs[1..][1..], fx));
        assert fs[1..][1..] == [];
      }
    }
  }

  /** A directory that has the files of `dir` but the two manifest files, with the same
      contents, is `dir` without them. */
  lemma WithoutManifest(d: Directory, dir: Directory)
    requires forall f :: f in d <==> f in dir && !(f in ManifestFiles && f in dir)
    requires forall f :: f in d ==> d[f] == dir[f]
    ensures d == dir - {Metadata, ComposeFile}
  {
    assert forall f :: f in ManifestFiles <==> f == Metadata || f == ComposeFile;
  }

  /** A removal phase that succeeds leaves the directory without either manifest file
      and otherwise unchanged. */
  lemma RemovalPhaseClears(dir: Directory, fx: Effects)
    requires Execute(dir, Removals(ManifestFiles, dir), fx).ok
    ensures Execute(dir, Removals(ManifestFiles, dir), fx).dir == dir - {Metadata, ComposeFile}
  {
    RemovalsClear(ManifestFiles, dir, dir, fx);
    WithoutManifest(Execute(dir, Removals(ManifestFiles, dir), fx).dir, dir);
  }

  /** The load plan executes as its removal phase followed, if that succeeded, by its
      download phase. */
  lemma LoadPhases(name: string, dir: Directory, fx: Effects)
    ensures Execute(dir, LoadPlan(name, dir), fx)
      == Then(Execute(dir, Removals(ManifestFiles, dir), fx), Fetches(name, ManifestFiles), fx)
  {
    ExecuteConcat(dir, Removals(ManifestFiles, dir), Fetches(name, ManifestFiles), fx);
  }

  /** A load, whether it succeeds or fails, leaves every file other than the two manifest
      files as it was. */
  lemma LoadKeepsOtherFiles(name: string, dir: Directory, fx: Effects, f: string)
    requires f !in ManifestFiles
    ensures var d := Execute(dir, LoadPlan(name, dir), fx).dir;
      (f in d <==> f in dir) && (f in dir ==> d[f] == dir[f])
  {
    ExecuteFrame(dir, LoadPlan(name, dir), fx, f);
  }

  /** Writing both manifest files over a directory from which they were removed gives
      the same directory as writing them over the original. */
  lemma RewriteCleared(dir: Directory, v1: string, v2: string)
    ensures (dir - {Metadata, ComposeFile})[Metadata := v1][ComposeFile := v2]
      == dir[Metadata := v1][ComposeFile := v2]
  {
  }

  /** After a successful load, the working directory holds the two downloaded files and
      is otherwise unchanged. */
  lemma LoadInstallsManifest(name: string, dir: Directory, fx: Effects)
    requires Execute(dir, LoadPlan(name, dir), fx).ok
    ensures fx.download(FileUrl(name, Metadata)).Downloaded?
    ensures fx.download(FileUrl(name, ComposeFile)).Downloaded?
    ensures Execute(dir, LoadPlan(name, dir), fx).dir ==
      dir[Metadata := fx.download(FileUrl(name, Metadata)).content]
         [ComposeFile := fx.download(FileUrl(name, ComposeFile)).content]
  {
    var ra := Execute(dir, Removals(ManifestFiles, dir), fx);
    LoadPhases(name, dir, fx);
    assert ra.ok;
    RemovalPhaseClears(dir, fx);
    ExecuteFetchPair(ra.dir, name, fx);
    RewriteCleared(dir, fx.download(FileUrl(name, Metadata)).content, fx.download(FileUrl(name, ComposeFile)).content);
  }

  /** Once a download has started, no manifest file from before the load is left: every
      manifest file in the directory holds what its download wrote, whether that download
      succeeded or not, so a failed load never leaves an old file beside a new one. */
  lemma NoStaleManifestAfterFetch(name: string, dir: Directory, fx: Effects)
    requires var r := Execute(dir, LoadPlan(name, dir), fx);
      exists i :: 0 <= i < |r.done| && r.done[i].Fetch?
    ensures var d := Execute(dir, LoadPlan(name, dir), fx).dir;
      forall f :: f in ManifestFiles && f in d ==> Written(fx.download(FileUrl(name, f))) == Some(d[f])
  {
    var rs := Removals(ManifestFiles, dir);
    var ra := Execute(dir, rs, fx);
    LoadPhases(name, dir, fx);
    ExecuteAttemptsPrefix(dir, rs, fx);
    if !ra.ok {
      assert false;
    }
    RemovalPhaseClears(dir, fx);
    assert Execute(dir, LoadPlan(name, dir), fx).dir == Execute(ra.dir, Fetches(name, ManifestFiles), fx).dir;
    FetchPairWrites(ra.dir, name, fx);
  }

  /** Downloading both manifest files into a directory that holds neither leaves in each
      of them only what its own download wrote. */
  lemma FetchPairWrites(d: Directory, name: string, fx: Effects)
    requires Metadata !in d && ComposeFile !in d
    ensures var e := Execute(d, Fetches(name, ManifestFiles), fx).dir;
      forall f :: f in ManifestFiles && f in e ==> Written(fx.download(FileUrl(name, f))) == Some(e[f])
  {
    ExecuteFetchPair(d, name, fx);
    assert forall f :: f in ManifestFiles <==> f == Metadata || f == ComposeFile;
  }

  /** `load_app`: stops the current app, removes each manifest file that exists, then
      downloads both files of app `arguments[0]` from the store. A failed removal or a
      failed download ends the process with status 1. The resulting directory and the
      operations attempted are those of executing the load plan; on success the response
      is that of `stop_app` followed by "0". */
  method LoadApp(cmd: WebSocketCommand, tool: string, run: Runner, dir: Directory, fx: Effects)
    returns (o: Outcome<WebSocketCommand>, newDir: Directory, trace: seq<FileOp>)
    requires |cmd.arguments| >= 1
    ensures var r := Execute(dir, LoadPlan(cmd.arguments[0], dir), fx);
      newDir == r.dir && trace == r.done && (o.Continue? <==> r.ok)
    ensures o.Exited? ==> o.code == 1
    ensures o.Continue? ==>
      o.value == WebSocketCommand(cmd.arguments, StopApp(cmd, tool, run).response + ["0"])
  {
    var name := cmd.arguments[0];
    var stopped := StopApp(cmd, tool, run);
    LoadPhases(name, dir, fx);
    var removed, cleared, removals := RemoveFiles(ManifestFiles, dir, fx);
    if !removed {
      return Exited(1), cleared, removals;
    }
    var fetched, loaded, fetches := FetchFiles(name, ManifestFiles, cleared, fx);
    newDir, trace := loaded, removals + fetches;
    if !fetched {
      return Exited(1), newDir, trace;
    }
    o := Continue(WebSocketCommand(stopped.arguments, stopped.response + ["0"]));
  }

  /** One step of the removal phase, for a file the rest of the list does not name: an
      absent file is skipped, a failed removal ends the run, and a successful one leaves
      the rest to be planned against the directory without the file. */
  lemma RemovalStep(file: string, files: seq<string>, d: Directory, trace: seq<FileOp>, fx: Effects)
    requires file !in files
    ensures var r := Prepend(trace, Execute(d, Removals([file] + files, d), fx));
      if file !in d then r == Prepend(trace, Execute(d, Removals(files, d), fx))
      else if !fx.removeOk(file) then r == Run(d, trace + [Remove(file)], false)
      else r == Prepend(trace + [Remove(file)], Execute(d - {file}, Removals(files, d - {file}), fx))
  {
    var tail := Removals(files, d);
    assert ([file] + files)[1..] == files;
    if file !in d {
      assert Removals([file] + files, d) == [] + tail;
      assert [] + tail == tail;
    } else {
      assert Removals([file] + files, d) == [Remove(file)] + tail;
      ExecuteCons(d, Remove(file), tail, fx);
      if fx.removeOk(file) {
        RemovalsIgnoreOthers(files, d, file);
        PrependTwice(trace, [Remove(file)], Execute(d - {file}, tail, fx));
      }
    }
  }

  /** No file is listed twice. */
  predicate Distinct(files: seq<string>) {
    forall i, j :: 0 <= i < j < |files| ==> files[i] != files[j]
  }

  /** In a list without repetitions, the file at `i` is not among those after it. */
  lemma DistinctStep(files: seq<string>, i: nat)
    requires Distinct(files) && i < |files|
    ensures files[i..] == [files[i]] + files[i + 1..] && files[i] !in files[i + 1..]
  {
  }

  /** `whole` is the run made of `trace` followed by the removal of the files of `files`
      present in `d`. */
  predicate RemovalsRemain(whole: Run, trace: seq<FileOp>, d: Directory, files: seq<string>, fx: Effects) {
    whole == Prepend(trace, Execute(d, Removals(files, d), fx))
  }

  /** The removal loop's invariant across one file: what remains to be run after the
      file at `i` is handled. */
  lemma RemovalLoopStep(files: seq<string>, i: nat, d: Directory, trace: seq<FileOp>, whole: Run, fx: Effects)
    requires Distinct(files) && i < |files|
    requires RemovalsRemain(whole, trace, d, files[i..], fx)
    ensures var file := files[i];
      if file !in d then RemovalsRemain(whole, trace, d, files[i + 1..], fx)
      else if !fx.removeOk(file) then whole == Run(d, trace + [Remove(file)], false)
      else RemovalsRemain(whole, trace + [Remove(file)], d - {file}, files[i + 1..], fx)
  {
    DistinctStep(files, i);
    RemovalStep(files[i], files[i + 1..], d, trace, fx);
  }

  /** The removal loop of `load_app` over its list of files: each file that exists is
      removed, in list order, stopping at the first removal that fails. */
  method RemoveFiles(files: seq<string>, dir: Directory, fx: Effects) returns (ok: bool, newDir: Directory, trace: seq<FileOp>)
    requires Distinct(files)
    ensures Execute(dir, Removals(files, dir), fx) == Run(newDir, trace, ok)
  {
    ghost var whole := Execute(dir, Removals(files, dir), fx);
    newDir, trace := dir, [];
    PrependNothing(whole);
    assert files[0..] == files;
    var i := 0;
    while i < |files|
      invariant 0 <= i <= |files|
      invariant RemovalsRemain(whole, trace, newDir, files[i..], fx)
    {
      var file := files[i];
      RemovalLoopStep(files, i, newDir, trace, whole, fx);
      if file in newDir {
        if !fx.removeOk(file) {
          return false, newDir, trace + [Remove(file)];
        }
        newDir, trace := newDir - {file}, trace + [Remove(file)];
      }
      i := i + 1;
    }
    assert files[i..] == [];
    RemovalsDone(whole, trace, newDir, fx);
    ok := true;
  }

  /** Once no file is left to remove, the run is the removals made so far, all successful. */
  lemma RemovalsDone(whole: Run, trace: seq<FileOp>, d: Directory, fx: Effects)
    requires RemovalsRemain(whole, trace, d, [], fx)
    ensures whole == Run(d, trace, true)
  {
    assert trace + [] == trace;
  }

  /** One step of the download phase: a failed download ends the run with whatever it
      wrote left in its file, and a successful one writes the file and goes on. */
  lemma FetchStep(op: FileOp, tail: seq<FileOp>, d: Directory, trace: seq<FileOp>, fx: Effects)
    requires op.Fetch?
    ensures var dl := fx.download(op.url);
      var r := Prepend(trace, Execute(d, [op] + tail, fx));
      if dl.Failed? then r == Run(Leave(d, op.file, dl), trace + [op], false)
      else r == Prepend(trace + [op], Execute(d[op.file := dl.content], tail, fx))
  {
    ExecuteCons(d, op, tail, fx);
    if fx.download(op.url).Downloaded? {
      PrependTwice(trace, [op], Execute(d[op.file := fx.download(op.url).content], tail, fx));
    }
  }

  /** The download loop of `load_app` over its list of files: each file of app `name` is
      downloaded from the store into a file of the same name, in list order, stopping at
      the first download that fails. */
  method FetchFiles(name: string, files: seq<string>, dir: Directory, fx: Effects) returns (ok: bool, newDir: Directory, trace: seq<FileOp>)
    ensures Execute(dir, Fetches(name, files), fx) == Run(newDir, trace, ok)
  {
    ghost var whole := Execute(dir, Fetches(name, files), fx);
    ghost var rest := Fetches(name, files);
    newDir, trace := dir, [];
    var i := 0;
    while i < |files|
      invariant 0 <= i <= |files|
      invariant rest == Fetches(name, files[i..])
      invariant whole == Prepend(trace, Execute(newDir, rest, fx))
    {
      var file := files[i];
      var url := FileUrl(name, file);
      var op := Fetch(url, file);
      assert files[i..][1..] == files[i + 1..];
      ghost var tail := Fetches(name, files[i + 1..]);
      assert rest == [op] + tail;
      var dl := fx.download(url);
      FetchStep(op, tail, newDir, trace, fx);
      if dl.Failed? {
        return false, Leave(newDir, file, dl), trace + [op];
      }
      newDir := newDir[file := dl.content];
      trace, rest := trace + [op], tail;
      i := i + 1;
    }
    ok := true;
  }

  /** After a successful load, `get_app` answers with exactly the downloaded metadata. */
  lemma GetAfterLoad(cmd: WebSocketCommand, name: string, dir: Directory, fx: Effects)
    requires Execute(dir, LoadPlan(name, dir), fx).ok
    ensures fx.download(FileUrl(name, Metadata)).Downloaded?
    ensures GetApp(cmd, Execute(dir, LoadPlan(name, dir), fx).dir, true)
      == Continue(cmd.(response := [fx.download(FileUrl(name, Metadata)).content]))
  {
    LoadInstallsManifest(name, dir, fx);
  }

  /** The search loop of `is_running`: whether some row's name equals `name` exactly. */
  method FindRunning(rows: seq<ContainerRow>, name: string) returns (found: bool)
    ensures found <==> exists i :: 0 <= i < |rows| && rows[i].name == name
  {
    for i := 0 to |rows|
      invariant forall j :: 0 <= j < i ==> rows[j].name != name
    {
      if rows[i].name == name {
        return true;
      }
    }
    return false;
  }

  /** `is_running`: lists the project's containers with `docker-compose ps --format json`
      and appends exactly one entry, "1" if some container's name equals `arguments[0]`
      and "0" otherwise. A failed listing or output that does not decode ends the process
      with status 1. `decode` stands for the JSON decoding of the listing. */
  method IsRunning(cmd: WebSocketCommand, tool: string, run: Runner,
                   decode: string -> Option<seq<ContainerRow>>)
    returns (o: Outcome<WebSocketCommand>)
    requires |cmd.arguments| >= 1
    ensures var p := run(ComposeArgv(tool, PsArgs));
      o.Continue? <==> p.ok && decode(p.output).Some?
    ensures o.Exited? ==> o.code == 1
    ensures o.Continue? ==>
      var rows := decode(run(ComposeArgv(tool, PsArgs)).output).value;
      o.value.arguments == cmd.arguments
      && o.value.response == cmd.response +
           [if exists i :: 0 <= i < |rows| && rows[i].name == cmd.arguments[0] then "1" else "0"]
  {
    var name := cmd.arguments[0];
    var p := run(ComposeArgv(tool, PsArgs));
    if !p.ok {
      return Exited(1);
    }
    match decode(p.output) {
      case None =>
        return Exited(1);
      case Some(rows) =>
        var found := FindRunning(rows, name);
        return Continue(cmd.(response := cmd.response + [if found then "1" else "0"]));
    }
  }
}
