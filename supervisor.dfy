/**
 * The daemon supervisor of ui/main.js: the module globals `daemonPS`
 * (the handle of the running daemon, or undefined) and `daemonOutputs`
 * (the tail of its output), the helpers killDaemon and startDaemon, the
 * data and exit handlers installed on every spawned daemon, and the
 * /api/daemon routes.
 *
 * Node runs one handler at a time, so each route and each subprocess
 * event is a method, and any sequence of calls is a possible run.
 * Processes are abstract ids handed out in spawn order.
 */
module Supervisor {
  import opened Wrappers

  type ProcId = nat

  /** The buffer is cut once it is longer than this. */
  const OutputCap: nat := 65536
  /** How many trailing characters a cut keeps (`slice(-65535)`). */
  const OutputKeep: nat := 65535

  const Running: string := "running"
  const NotRunning: string := "not_running"

  /** daemonOutputs after a stdout or stderr chunk arrives. */
  function AppendOutput(buf: string, chunk: string): (r: string)
    ensures |r| <= OutputCap
    ensures |r| <= |buf + chunk + "\n"| && r == (buf + chunk + "\n")[|buf + chunk + "\n"| - |r|..]
    ensures |buf + chunk + "\n"| > OutputCap ==> |r| == OutputKeep
    ensures |buf + chunk + "\n"| <= OutputCap ==> r == buf + chunk + "\n"
  {
    var s := buf + chunk + "\n";
    if |s| > OutputCap then s[|s| - OutputKeep..] else s
  }

  /** The buffer always ends with as much of the newest chunk (and its newline) as it has room for. */
  lemma NewestChunkIsKept(buf: string, chunk: string)
    ensures var r := AppendOutput(buf, chunk);
      var n := if |chunk| + 1 < |r| then |chunk| + 1 else |r|;
      r[|r| - n..] == (chunk + "\n")[|chunk| + 1 - n..]
  {
    var s := buf + chunk + "\n";
    var r := AppendOutput(buf, chunk);
    var n := if |chunk| + 1 < |r| then |chunk| + 1 else |r|;
    assert s[|buf|..] == chunk + "\n";
    assert r[|r| - n..] == s[|s| - n..];
    assert s[|s| - n..] == (chunk + "\n")[|chunk| + 1 - n..];
  }

  class Daemon {
    /** daemonPS: the handle of the daemon, if one is set. */
    var handle: Option<ProcId>
    /** daemonOutputs. */
    var outputs: string
    /** The id the next spawned process gets. */
    var nextPid: ProcId
    /** The processes sent SIGTERM by killDaemon. */
    ghost var signalled: set<ProcId>
    /** The processes whose exit event has fired. */
    ghost var exited: set<ProcId>

    ghost predicate Valid()
      reads this
    {
      && |outputs| <= OutputCap
      && (handle.Some? ==> handle.value < nextPid)
      && (forall p | p in signalled :: p < nextPid)
      && (forall p | p in exited :: p < nextPid)
    }

    /** The state when the server starts: no daemon, empty buffer. */
    constructor ()
      ensures Valid()
      ensures handle == None && outputs == "" && nextPid == 0
      ensures signalled == {} && exited == {}
    {
      handle := None;
      outputs := "";
      nextPid := 0;
      signalled := {};
      exited := {};
    }

    /** killDaemon: signals the current daemon, if any, and forgets its handle at once. */
    method KillDaemon() returns (killed: bool)
      requires Valid()
      modifies this
      ensures Valid()
      ensures killed == old(handle).Some?
      ensures handle == None
      ensures signalled == old(signalled) + (if killed then {old(handle).value} else {})
      ensures outputs == old(outputs) && nextPid == old(nextPid) && exited == old(exited)
    {
      if handle.Some? {
        signalled := signalled + {handle.value};
        handle := None;
        return true;
      }
      return false;
    }

    /** startDaemon: empties the buffer and spawns a new daemon, without looking at any old one. */
    method StartDaemon()
      requires Valid()
      modifies this
      ensures Valid()
      ensures outputs == "" && handle == Some(old(nextPid)) && nextPid == old(nextPid) + 1
      ensures signalled == old(signalled) && exited == old(exited)
    {
      outputs := "";
      handle := Some(nextPid);
      nextPid := nextPid + 1;
    }

    /**
     * The stdout and stderr handlers of any spawned daemon, a stale one
     * included, and also after its exit event while its streams drain:
     * they append to the one global buffer.
     */
    method OnOutput(pid: ProcId, chunk: string)
      requires Valid()
      requires pid < nextPid
      modifies this
      ensures Valid()
      ensures outputs == AppendOutput(old(outputs), chunk)
      ensures handle == old(handle) && nextPid == old(nextPid)
      ensures signalled == old(signalled) && exited == old(exited)
    {
      outputs := outputs + chunk + "\n";
      if |outputs| > OutputCap {
        outputs := outputs[|outputs| - OutputKeep..];
      }
    }

    /** The exit handler of any spawned daemon: it clears the handle, whichever daemon it names. */
    method OnExit(pid: ProcId)
      requires Valid()
      requires pid < nextPid && pid !in exited
      modifies this
      ensures Valid()
      ensures handle == None
      ensures exited == old(exited) + {pid}
      ensures outputs == old(outputs) && nextPid == old(nextPid) && signalled == old(signalled)
    {
      handle := None;
      exited := exited + {pid};
    }

    /** GET /api/daemon. */
    method Status() returns (s: string)
      ensures s == Running <==> handle.Some?
      ensures s == NotRunning <==> handle.None?
    {
      if handle.None? {
        return NotRunning;
      }
      return Running;
    }

    /** PUT /api/daemon: kill whatever runs, and start a new daemon only if none ran. */
    method Toggle()
      requires Valid()
      modifies this
      ensures Valid()
      ensures old(handle).Some? ==> handle == None && outputs == old(outputs) && nextPid == old(nextPid)
      ensures old(handle).Some? ==> signalled == old(signalled) + {old(handle).value}
      ensures old(handle).None? ==> handle == Some(old(nextPid)) && outputs == "" && nextPid == old(nextPid) + 1
      ensures old(handle).None? ==> signalled == old(signalled)
      ensures exited == old(exited)
    {
      var running := handle.Some?;
      var _ := KillDaemon();
      if !running {
        StartDaemon();
      }
    }

    /** POST /api/daemon/start: kill, then start. */
    method Start()
      requires Valid()
      modifies this
      ensures Valid()
      ensures handle == Some(old(nextPid)) && outputs == "" && nextPid == old(nextPid) + 1
      ensures signalled == old(signalled) + (if old(handle).Some? then {old(handle).value} else {})
      ensures exited == old(exited)
    {
      var _ := KillDaemon();
      StartDaemon();
    }

    /** POST /api/daemon/stop: kill. */
    method Stop()
      requires Valid()
      modifies this
      ensures Valid()
      ensures handle == None && outputs == old(outputs) && nextPid == old(nextPid)
      ensures signalled == old(signalled) + (if old(handle).Some? then {old(handle).value} else {})
      ensures exited == old(exited)
    {
      var _ := KillDaemon();
    }

    /** GET /api/daemon/outputs. */
    method Outputs() returns (s: string)
      requires Valid()
      ensures s == outputs && |s| <= OutputCap
    {
      return outputs;
    }
  }

  /** Start followed at once by stop reports the daemon as not running. */
  method StartThenStop() returns (status: string)
    ensures status == NotRunning
  {
    var d := new Daemon();
    d.Start();
    d.Stop();
    status := d.Status();
  }

  /** Toggling twice from either state returns to that state. */
  method ToggleTwice(startRunning: bool) returns (before: string, after: string)
    ensures before == after
    ensures before == (if startRunning then Running else NotRunning)
  {
    var d := new Daemon();
    if startRunning {
      d.Start();
    }
    before := d.Status();
    d.Toggle();
    d.Toggle();
    after := d.Status();
  }

  /**
   * A restart kills daemon 0 and spawns daemon 1; when daemon 0's exit
   * event arrives afterwards, the supervisor forgets daemon 1 although it
   * is still alive, and late output of daemon 0 still lands in daemon 1's
   * buffer.
   */
  method StaleExitAfterRestart() returns (status: string, buffer: string)
    ensures status == NotRunning
    ensures buffer == "bye\n"
  {
    var d := new Daemon();
    d.Start();
    d.Start();
    d.OnOutput(0, "bye");
    d.OnExit(0);
    status := d.Status();
    buffer := d.Outputs();
  }

  /** Output a daemon's streams deliver after its exit event still lands in the buffer. */
  method OutputAfterExit() returns (status: string, buffer: string)
    ensures status == NotRunning
    ensures buffer == "tail\n"
  {
    var d := new Daemon();
    d.Start();
    d.OnExit(0);
    d.OnOutput(0, "tail");
    status := d.Status();
    buffer := d.Outputs();
  }
}
