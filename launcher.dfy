/** The launcher's process-level logic: starting the auxiliary containers (the design
    gallery and the containerised browser) through `docker run -d`, recording their
    container IDs in a two-slot registry, and the exit routine that stops every recorded
    container before the process terminates. Also the start-up checks: a display must be
    available, and the docker-compose tool is chosen between the installed one and the
    bundled binary. */
module Launcher {
  import opened Host
  import opened Text

  /** Base URL of the app store from which manifests are fetched. */
  const StoreUrl := "https://raw.githubusercontent.com/StaticRocket/seva-apps/main"

  /** Registry slots: one per auxiliary container kind. */
  const GallerySlot := 0
  const BrowserSlot := 1

  /** The arguments with which the design gallery container is started. */
  const GalleryArgs: seq<string> :=
    ["--rm", "-p", "8001:80", "ghcr.io/staticrocket/seva-design-gallery:latest"]

  /** The arguments with which the containerised browser is started, given the value of
      XDG_RUNTIME_DIR and the current user's uid and gid. */
  function BrowserArgs(xdgRuntimeDir: string, uid: string, gid: string): (args: seq<string>)
    ensures |args| == 25 && args[0] == "--rm"
    ensures xdgRuntimeDir + ":/tmp" in args && "--user=" + uid + ":" + gid in args
    ensures args[|args| - 1] == "http://localhost:8000/#/"
  {
    ["--rm", "--privileged", "--network", "host",
     "-v", "/tmp/.X11-unix",
     "-e", "XAUTHORITY",
     "-e", "XDG_RUNTIME_DIR=/tmp",
     "-e", "DISPLAY",
     "-e", "WAYLAND_DISPLAY",
     "-e", "https_proxy",
     "-e", "http_proxy",
     "-e", "no_proxy",
     "-v", xdgRuntimeDir + ":/tmp",
     "--user=" + uid + ":" + gid,
     "ghcr.io/staticrocket/seva-browser:latest",
     "http://localhost:8000/#/"]
  }

  /** The command line `docker_run` executes: the program `docker`, then `run -d`, then the
      caller's arguments, unchanged and in order. */
  function DockerRunArgv(args: seq<string>): (argv: seq<string>)
    ensures |argv| == |args| + 3
    ensures argv[..3] == ["docker", "run", "-d"]
    ensures argv[3..] == args
  {
    ["docker", "run", "-d"] + args
  }

  /** `docker_run`: a failed `docker run` ends the process with status 1; otherwise its
      combined output is handed back. */
  function DockerRun(args: seq<string>, run: Runner): (o: Outcome<string>)
    ensures o.Exited? <==> !run(DockerRunArgv(args)).ok
    ensures o.Exited? ==> o.code == 1
    ensures o.Continue? ==> o.value == run(DockerRunArgv(args)).output
  {
    var p := run(DockerRunArgv(args));
    if p.ok then Continue(p.output) else Exited(1)
  }

  /** The container ID recorded from a `docker run -d` output: the last of the lines of
      the trimmed output. It holds no line feed, it is the part of the trimmed output
      after its last line feed (all of it when there is none), and it is empty exactly
      when the output is all white space. */
  function ContainerId(output: string): (id: string)
    ensures LineFeedFree(id)
    ensures var t := TrimSpace(output);
      |id| <= |t| && id == t[|t| - |id|..] && (|id| == |t| || t[|t| - |id| - 1] == '\n')
    ensures id == "" <==> AllSpace(output, 0, |output|)
  {
    LastOutputLine(output);
    var lines := OutputLines(output);
    lines[|lines| - 1]
  }

  /** The command line that stops one container. */
  function StopArgv(id: string): (argv: seq<string>)
    ensures |argv| == 3 && argv[..2] == ["docker", "stop"] && argv[2] == id
  {
    ["docker", "stop", id]
  }

  /** The IDs the exit routine stops, walking the slots in order: each non-empty slot,
      and no empty one. */
  function StopTargets(slots: seq<string>): (ids: seq<string>)
    ensures |ids| <= |slots|
    ensures forall i :: 0 <= i < |ids| ==> ids[i] != ""
  {
    if slots == [] then []
    else
      var last := slots[|slots| - 1];
      StopTargets(slots[..|slots| - 1]) + (if last != "" then [last] else [])
  }

  /** Every non-empty ID is stopped exactly as many times as it occupies a slot (so once
      per slot holding it), and the empty ID never. */
  lemma {:induction false} StopTargetsOncePerSlot(slots: seq<string>)
    ensures forall x :: multiset(StopTargets(slots))[x] == if x == "" then 0 else multiset(slots)[x]
  {
    if slots != [] {
      var init, last := slots[..|slots| - 1], slots[|slots| - 1];
      StopTargetsOncePerSlot(init);
      assert slots == init + [last];
    }
  }

  /** For the two-slot registry: the gallery's container is stopped first, then the
      browser's, each only if recorded. */
  lemma StopTargetsInSlotOrder(gallery: string, browser: string)
    ensures StopTargets([gallery, browser])
      == (if gallery != "" then [gallery] else []) + (if browser != "" then [browser] else [])
  {
    assert [gallery, browser][..1] == [gallery];
  }

  /** The IDs whose `docker stop` fails, in the order they were tried; they are logged and
      nothing else. */
  function FailedStops(ids: seq<string>, run: Runner): (failed: seq<string>)
    ensures |failed| <= |ids|
    ensures forall i :: 0 <= i < |failed| ==> failed[i] in ids && !run(StopArgv(failed[i])).ok
    ensures forall id :: id in ids && !run(StopArgv(id)).ok ==> id in failed
  {
    if ids == [] then []
    else
      var last := ids[|ids| - 1];
      FailedStops(ids[..|ids| - 1], run) + (if !run(StopArgv(last)).ok then [last] else [])
  }

  /** One more stop: it is added to the failed ones exactly when it fails. */
  lemma FailedStopsSnoc(ids: seq<string>, id: string, run: Runner)
    ensures FailedStops(ids + [id], run)
      == FailedStops(ids, run) + (if !run(StopArgv(id)).ok then [id] else [])
  {
    assert (ids + [id])[..|ids|] == ids;
  }

  /** The failed stops keep the order in which the stops were issued: those of a longer
      run are those of its first part followed by those of the rest. */
  lemma {:induction false} FailedStopsConcat(a: seq<string>, b: seq<string>, run: Runner)
    ensures FailedStops(a + b, run) == FailedStops(a, run) + FailedStops(b, run)
    decreases |b|
  {
    if b == [] {
      assert a + b == a;
    } else {
      var init, last := b[..|b| - 1], b[|b| - 1];
      var tail := if !run(StopArgv(last)).ok then [last] else [];
      assert b == init + [last];
      assert a + b == (a + init) + [last];
      FailedStopsSnoc(a + init, last, run);
      FailedStopsSnoc(init, last, run);
      FailedStopsConcat(a, init, run);
      assert (FailedStops(a, run) + FailedStops(init, run)) + tail
          == FailedStops(a, run) + (FailedStops(init, run) + tail);
    }
  }

  /** How the process ended: its exit status, the containers a stop was issued for, in
      order, and those whose stop failed. */
  datatype Termination = Termination(code: int, stopped: seq<string>, failed: seq<string>)

  /** The registry of auxiliary containers started by this process: one slot for the
      design gallery, one for the browser. An empty slot means nothing was recorded. */
  class ContainerRegistry {
    var slots: array<string>

    ghost predicate Valid()
      reads this
    {
      slots.Length == 2
    }

    constructor ()
      ensures Valid() && fresh(slots)
      ensures slots[..] == ["", ""]
    {
      slots := new string[2](_ => "");
    }

    /** Starts a container with `docker_run` and records its ID in `slot`. If the start
        fails the process ends with status 1 and no slot is written. */
    method Launch(slot: nat, args: seq<string>, run: Runner) returns (o: Outcome<()>)
      requires Valid() && slot < slots.Length
      modifies slots
      ensures Valid()
      ensures var p := run(DockerRunArgv(args));
        if p.ok then o == Continue(()) && slots[..] == old(slots[..])[slot := ContainerId(p.output)]
        else o == Exited(1) && slots[..] == old(slots[..])
    {
      var started := DockerRun(args, run);
      match started {
        case Exited(code) =>
          o := Exited(code);
        case Continue(output) =>
          slots[slot] := ContainerId(output);
          o := Continue(());
      }
    }

    /** `start_design_gallery`: writes the gallery slot only. */
    method StartDesignGallery(run: Runner) returns (o: Outcome<()>)
      requires Valid()
      modifies slots
      ensures Valid()
      ensures var p := run(DockerRunArgv(GalleryArgs));
        if p.ok then o == Continue(()) && slots[..] == old(slots[..])[GallerySlot := ContainerId(p.output)]
        else o == Exited(1) && slots[..] == old(slots[..])
    {
      o := Launch(GallerySlot, GalleryArgs, run);
    }

    /** `launch_docker_browser`: writes the browser slot only. */
    method LaunchDockerBrowser(xdgRuntimeDir: string, uid: string, gid: string, run: Runner)
      returns (o: Outcome<()>)
      requires Valid()
      modifies slots
      ensures Valid()
      ensures var p := run(DockerRunArgv(BrowserArgs(xdgRuntimeDir, uid, gid)));
        if p.ok then o == Continue(()) && slots[..] == old(slots[..])[BrowserSlot := ContainerId(p.output)]
        else o == Exited(1) && slots[..] == old(slots[..])
    {
      o := Launch(BrowserSlot, BrowserArgs(xdgRuntimeDir, uid, gid), run);
    }

    /** `exit(num)`: issues `docker stop` for every non-empty slot, in slot order, whether
        or not an earlier stop failed, then terminates with status `num`. */
    method Exit(num: int, run: Runner) returns (t: Termination)
      requires Valid()
      ensures t.code == num
      ensures t.stopped == StopTargets(slots[..])
      ensures t.failed == FailedStops(t.stopped, run)
    {
      var stopped: seq<string> := [];
      var failed: seq<string> := [];
      var i := 0;
      while i < slots.Length
        invariant 0 <= i <= slots.Length
        invariant stopped == StopTargets(slots[..i])
        invariant failed == FailedStops(stopped, run)
      {
        var id := slots[i];
        if |id| > 0 {
          var p := run(StopArgv(id));
          if !p.ok {
            failed := failed + [id];
          }
          stopped := stopped + [id];
        }
        assert slots[..i + 1][..i] == slots[..i];
        i := i + 1;
      }
      assert slots[..i] == slots[..];
      t := Termination(num, stopped, failed);
    }
  }

  /** The display variables `check_env_vars` looks at, in order. */
  const DisplayVars: seq<string> := ["DISPLAY", "WAYLAND_DISPLAY"]

  /** `check_env_vars`: start-up goes on exactly when DISPLAY or WAYLAND_DISPLAY is set to
      a non-empty value; otherwise the process ends with status 1. */
  method CheckEnvVars(env: map<string, string>) returns (o: Outcome<()>)
    ensures o.Continue? <==> Getenv(env, "DISPLAY") != "" || Getenv(env, "WAYLAND_DISPLAY") != ""
    ensures o.Exited? ==> o.code == 1
  {
    for i := 0 to |DisplayVars|
      invariant forall j :: 0 <= j < i ==> Getenv(env, DisplayVars[j]) == ""
    {
      if |Getenv(env, DisplayVars[i])| > 0 {
        return Continue(());
      }
    }
    assert DisplayVars[0] == "DISPLAY" && DisplayVars[1] == "WAYLAND_DISPLAY";
    return Exited(1);
  }

  /** Name of the file the bundled docker-compose binary is written to. */
  const BundledCompose := "docker-compose"

  /** `prepare_compose`: the installed tool is used when it runs; otherwise the bundled
      binary is written into the working directory and "./docker-compose" is used, whether
      or not that write succeeded, since its error is not looked at. `written` is what the
      write left in the file: the whole binary when it succeeded; nothing, or part of it,
      when it failed. Returns the tool's command name and the new working directory. */
  function PrepareCompose(installed: bool, dir: Directory, written: Option<string>): (r: (string, Directory))
    ensures r.0 == "docker-compose" <==> installed
    ensures !installed ==> r.0 == "./" + BundledCompose
    ensures installed || written.None? ==> r.1 == dir
    ensures !installed && written.Some? ==> BundledCompose in r.1 && r.1[BundledCompose] == written.value
    ensures forall f :: f != BundledCompose ==> (f in r.1 <==> f in dir) && (f in dir ==> r.1[f] == dir[f])
  {
    if installed then ("docker-compose", dir)
    else if written.None? then ("./" + BundledCompose, dir)
    else ("./" + BundledCompose, dir[BundledCompose := written.value])
  }
}
