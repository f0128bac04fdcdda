/**
 * The model download tracker of ui/main.js: the global list `downloadPS`
 * of running downloader processes, addDownloadPS with the data and exit
 * handlers it installs, and GET /api/download-model, which lists the
 * tracked downloads.
 *
 * The handlers of each process close over its list entry and its
 * (repoID, subdir) pair; the model keeps those pairs in `keys`, indexed by
 * process id, and says which list entries a handler reaches by the
 * process id stored in them.
 */
module Downloads {
  import opened Wrappers

  type ProcId = nat

  /** The error `undefined.slice` throws. */
  datatype JsError = TypeError

  /**
   * One entry of downloadPS. `out` is None while the field is still
   * undefined, as it is when the entry is created; the `started` date is
   * not modelled.
   */
  datatype Job = Job(ps: ProcId, repoID: string, subdir: string, out: Option<string>)

  /** One element of the listing; `repoId` is read from a field that is never set. */
  datatype Listed = Listed(repoId: Option<string>, subdir: string, out: string)

  /** What `undefined + s` gives in JavaScript. */
  const Undefined: string := "undefined"
  /** The listing returns the last this many characters of each output. */
  const ListTail: nat := 200

  /** `obj.out += chunk`. */
  function AppendOut(out: Option<string>, chunk: string): (r: string)
    ensures out.None? ==> r == Undefined + chunk
    ensures out.Some? ==> r == out.value + chunk
  {
    match out
    case None => Undefined + chunk
    case Some(s) => s + chunk
  }

  /** The data handler of process `ps` applied to every list entry it owns. */
  function AppendTo(jobs: seq<Job>, ps: ProcId, chunk: string): (r: seq<Job>)
    ensures |r| == |jobs|
    ensures forall i :: 0 <= i < |jobs| && jobs[i].ps != ps ==> r[i] == jobs[i]
    ensures forall i :: 0 <= i < |jobs| && jobs[i].ps == ps ==> r[i] == jobs[i].(out := Some(AppendOut(jobs[i].out, chunk)))
  {
    seq(|jobs|, i requires 0 <= i < |jobs| =>
      if jobs[i].ps == ps then jobs[i].(out := Some(AppendOut(jobs[i].out, chunk))) else jobs[i])
  }

  /** Whether an entry survives the exit of a download of (repoID, subdir). */
  predicate Survives(j: Job, repoID: string, subdir: string)
  {
    j.repoID != repoID || j.subdir != subdir
  }

  /** `downloadPS.filter((x) => x.repoID != repoID || x.subdir != subdir)`. */
  function RemoveKey(jobs: seq<Job>, repoID: string, subdir: string): (r: seq<Job>)
    ensures |r| <= |jobs|
    ensures forall j :: j in r <==> j in jobs && Survives(j, repoID, subdir)
  {
    if |jobs| == 0 then []
    else if Survives(jobs[0], repoID, subdir) then [jobs[0]] + RemoveKey(jobs[1..], repoID, subdir)
    else RemoveKey(jobs[1..], repoID, subdir)
  }

  /** The filter keeps the surviving entries in their order: it distributes over concatenation. */
  lemma {:induction false} RemoveKeyAppend(a: seq<Job>, b: seq<Job>, repoID: string, subdir: string)
    ensures RemoveKey(a + b, repoID, subdir) == RemoveKey(a, repoID, subdir) + RemoveKey(b, repoID, subdir)
    decreases |a|
  {
    if |a| == 0 {
      assert a + b == b;
    } else {
      assert (a + b)[1..] == a[1..] + b;
      RemoveKeyAppend(a[1..], b, repoID, subdir);
    }
  }

  /** Removing the same key twice removes nothing more. */
  lemma {:induction false} RemoveKeyIdempotent(jobs: seq<Job>, repoID: string, subdir: string)
    ensures RemoveKey(RemoveKey(jobs, repoID, subdir), repoID, subdir) == RemoveKey(jobs, repoID, subdir)
    decreases |jobs|
  {
    if |jobs| > 0 {
      RemoveKeyIdempotent(jobs[1..], repoID, subdir);
      if Survives(jobs[0], repoID, subdir) {
        var rest := RemoveKey(jobs[1..], repoID, subdir);
        assert ([jobs[0]] + rest)[1..] == rest;
      }
    }
  }

  /** `s.slice(-n)`: the last n characters, or all of s when it is shorter. */
  function Tail(s: string, n: nat): (t: string)
    ensures |t| == (if |s| < n then |s| else n)
    ensures t == s[|s| - |t|..]
  {
    if |s| <= n then s else s[|s| - n..]
  }

  predicate AllHaveOutput(jobs: seq<Job>)
  {
    forall i :: 0 <= i < |jobs| ==> jobs[i].out.Some?
  }

  /** The element the listing builds for one entry. */
  function ListEntry(j: Job): (e: Listed)
    requires j.out.Some?
    ensures e.repoId.None? && e.subdir == j.subdir
    ensures |e.out| <= ListTail && e.out == Tail(j.out.value, ListTail)
  {
    Listed(None, j.subdir, Tail(j.out.value, ListTail))
  }

  class Tracker {
    /** downloadPS. */
    var jobs: seq<Job>
    /** The (repoID, subdir) each spawned downloader's handlers closed over. */
    var keys: map<ProcId, (string, string)>
    /** The downloaders whose exit event has fired. */
    ghost var exited: set<ProcId>

    /** Every entry was added by addDownloadPS for its process and no process is added twice. */
    ghost predicate Valid()
      reads this
    {
      && (forall j | j in jobs :: j.ps in keys && keys[j.ps] == (j.repoID, j.subdir))
      && DistinctProcs(jobs)
      && exited <= keys.Keys
    }

    constructor ()
      ensures Valid() && jobs == [] && keys == map[] && exited == {}
    {
      jobs := [];
      keys := map[];
      exited := {};
    }

    /** addDownloadPS: appends an entry without output and installs the handlers of `ps`. */
    method AddDownloadPS(ps: ProcId, repoID: string, subdir: string)
      requires Valid()
      requires ps !in keys
      modifies this
      ensures Valid()
      ensures jobs == old(jobs) + [Job(ps, repoID, subdir, None)]
      ensures keys == old(keys)[ps := (repoID, subdir)]
      ensures exited == old(exited)
    {
      jobs := jobs + [Job(ps, repoID, subdir, None)];
      keys := keys[ps := (repoID, subdir)];
    }

    /** The stdout and stderr handlers of `ps`, also after its exit event: the entry of `ps`, if still listed, grows by the chunk. */
    method OnData(ps: ProcId, chunk: string)
      requires Valid()
      requires ps in keys
      modifies this
      ensures Valid()
      ensures jobs == AppendTo(old(jobs), ps, chunk)
      ensures keys == old(keys) && exited == old(exited)
    {
      jobs := AppendTo(jobs, ps, chunk);
    }

    /** The exit handler of `ps`: drops every entry with the same (repoID, subdir), its own and any other. */
    method OnExit(ps: ProcId)
      requires Valid()
      requires ps in keys && ps !in exited
      modifies this
      ensures Valid()
      ensures jobs == RemoveKey(old(jobs), old(keys)[ps].0, old(keys)[ps].1)
      ensures keys == old(keys) && exited == old(exited) + {ps}
    {
      var old_jobs := jobs;
      jobs := RemoveKey(jobs, keys[ps].0, keys[ps].1);
      RemoveKeyKeepsDistinct(old_jobs, keys[ps].0, keys[ps].1);
      exited := exited + {ps};
    }

    /** GET /api/download-model: builds the listing, throwing on an entry with no output yet. */
    method ListDownloads() returns (r: Result<seq<Listed>, JsError>)
      ensures r.Err? <==> !AllHaveOutput(jobs)
      ensures r.Ok? ==> |r.value| == |jobs|
      ensures r.Ok? ==> forall i :: 0 <= i < |jobs| ==> jobs[i].out.Some? && r.value[i] == ListEntry(jobs[i])
    {
      var lst: seq<Listed> := [];
      for i := 0 to |jobs|
        invariant |lst| == i
        invariant forall k :: 0 <= k < i ==> jobs[k].out.Some? && lst[k] == ListEntry(jobs[k])
      {
        var obj := jobs[i];
        if obj.out.None? {
          return Err(TypeError);
        }
        lst := lst + [Listed(None, obj.subdir, Tail(obj.out.value, ListTail))];
      }
      return Ok(lst);
    }
  }

  /** No two entries belong to the same process. */
  predicate DistinctProcs(jobs: seq<Job>)
  {
    forall i, k :: 0 <= i < k < |jobs| ==> jobs[i].ps != jobs[k].ps
  }

  /** The filter keeps distinct process ids distinct. */
  lemma {:induction false} RemoveKeyKeepsDistinct(jobs: seq<Job>, repoID: string, subdir: string)
    requires DistinctProcs(jobs)
    ensures DistinctProcs(RemoveKey(jobs, repoID, subdir))
    decreases |jobs|
  {
    if |jobs| > 0 {
      RemoveKeyKeepsDistinct(jobs[1..], repoID, subdir);
      var rest := RemoveKey(jobs[1..], repoID, subdir);
      forall j | j in rest
        ensures j.ps != jobs[0].ps
      {
        var m :| 1 <= m < |jobs| && jobs[m] == j by {
          assert j in jobs[1..];
          var m' :| 0 <= m' < |jobs[1..]| && jobs[1..][m'] == j;
          assert jobs[m' + 1] == j;
        }
      }
      if Survives(jobs[0], repoID, subdir) {
        var r := [jobs[0]] + rest;
        forall i, k | 0 <= i < k < |r|
          ensures r[i].ps != r[k].ps
        {
          if i == 0 {
            assert r[k] == rest[k - 1];
            assert r[k] in rest;
          } else {
            assert r[i] == rest[i - 1] && r[k] == rest[k - 1];
          }
        }
        assert DistinctProcs(r);
      }
    }
  }

  /** A download that is added and then exits is no longer listed. */
  method AddThenExit() returns (r: Result<seq<Listed>, JsError>)
    ensures r == Ok([])
  {
    var t := new Tracker();
    t.AddDownloadPS(0, "user/model", "models/user/model");
    t.OnData(0, "Fetching");
    t.OnExit(0);
    r := t.ListDownloads();
  }

  /** Listing a download whose process has not printed anything yet throws. */
  method ListBeforeOutput() returns (r: Result<seq<Listed>, JsError>)
    ensures r == Err(TypeError)
  {
    var t := new Tracker();
    t.AddDownloadPS(0, "user/model", "models/user/model");
    assert t.jobs[0].out.None?;
    r := t.ListDownloads();
    assert r.error.TypeError?;
  }

  /** The first chunk of output follows the text "undefined"; the listing omits the repository id. */
  method FirstChunk() returns (r: Result<seq<Listed>, JsError>)
    ensures r == Ok([Listed(None, "models/user/model", "undefinedabc")])
  {
    var t := new Tracker();
    t.AddDownloadPS(0, "user/model", "models/user/model");
    t.OnData(0, "abc");
    assert t.jobs == [Job(0, "user/model", "models/user/model", Some(Undefined + "abc"))];
    r := t.ListDownloads();
    assert r.value[0] == ListEntry(t.jobs[0]) == Listed(None, "models/user/model", "undefinedabc");
    assert r.value == [Listed(None, "models/user/model", "undefinedabc")];
  }

  /**
   * Two downloads with the same (repoID, subdir): when the first exits,
   * both entries go, though the second process is still running.
   */
  method SameKeyBothRemoved() returns (r: Result<seq<Listed>, JsError>)
    ensures r == Ok([])
  {
    var t := new Tracker();
    t.AddDownloadPS(0, "user/model", "models/user/model");
    t.AddDownloadPS(1, "user/model", "models/user/model");
    t.OnExit(0);
    r := t.ListDownloads();
  }

  /** Output that arrives after the exit event goes to an entry that is no longer listed. */
  method DataAfterExit() returns (r: Result<seq<Listed>, JsError>)
    ensures r == Ok([])
  {
    var t := new Tracker();
    t.AddDownloadPS(0, "user/model", "models/user/model");
    t.OnExit(0);
    t.OnData(0, "late");
    r := t.ListDownloads();
  }
}
