/**
 * The generated-image archives of ui/main.js: GET /api/outputs, which
 * lists the names of the `.a` archives in the outputs directory, and
 * DELETE /api/outputs/:filename, which checks the name and unlinks one
 * archive.
 *
 * Directory entries come from readdir, so they are names without '/';
 * the directory listing and the unlink outcome are parameters.
 */
module OutputFiles {
  const ArchiveExt: string := ".a"

  predicate NoSlash(f: string)
  {
    '/' !in f
  }

  /** `s.lastIndexOf(c)`: the index of the last c in s, or -1. */
  function LastIndexOf(s: string, c: char): (r: int)
    ensures -1 <= r < |s|
    ensures r >= 0 ==> s[r] == c && forall k :: r < k < |s| ==> s[k] != c
    ensures r == -1 ==> c !in s
  {
    if |s| == 0 then -1
    else if s[|s| - 1] == c then |s| - 1
    else
      assert s == s[..|s| - 1] + [s[|s| - 1]];
      LastIndexOf(s[..|s| - 1], c)
  }

  /**
   * `path.extname` of a name without '/': from the last dot to the end,
   * or empty when there is no dot, when the name starts with its only
   * run of leading characters at that dot, or when the name is "..".
   */
  function ExtName(f: string): (e: string)
    requires NoSlash(f)
    ensures e != "" ==> |e| < |f| && e == f[|f| - |e|..] && e[0] == '.' && '.' !in e[1..]
  {
    var d := LastIndexOf(f, '.');
    if d <= 0 || f == ".." then "" else f[d..]
  }

  /** A name has the archive extension exactly when it is at least one character followed by ".a". */
  lemma ExtNameIsArchive(f: string)
    requires NoSlash(f)
    ensures ExtName(f) == ArchiveExt <==> |f| >= 3 && f[|f| - 2..] == ArchiveExt
    ensures ExtName(f) == ArchiveExt ==> LastIndexOf(f, '.') == |f| - 2
  {
    var d := LastIndexOf(f, '.');
    if |f| >= 3 && f[|f| - 2..] == ArchiveExt {
      assert f[|f| - 2] == '.' && f[|f| - 1] == 'a';
      assert d == |f| - 2;
    }
    if ExtName(f) == ArchiveExt {
      assert |f[d..]| == 2;
    }
  }

  /** The names GET /api/outputs sends for the directory entries `files`. */
  function Archives(files: seq<string>): seq<string>
    requires forall f | f in files :: NoSlash(f)
  {
    if |files| == 0 then []
    else
      var f := files[|files| - 1];
      Archives(files[..|files| - 1])
        + (if ExtName(f) == ArchiveExt then [f[..LastIndexOf(f, '.')]] else [])
  }

  /** GET /api/outputs: the loop that keeps the archives and drops their extension. */
  method ListOutputs(files: seq<string>) returns (a: seq<string>)
    requires forall f | f in files :: NoSlash(f)
    ensures a == Archives(files)
  {
    a := [];
    for i := 0 to |files|
      invariant a == Archives(files[..i])
    {
      var file := files[i];
      assert files[..i + 1][..i] == files[..i];
      if ExtName(file) == ArchiveExt {
        a := a + [file[..LastIndexOf(file, '.')]];
      }
    }
    assert files[..|files|] == files;
  }

  /** A name is listed exactly when it is non-empty and the directory holds it with ".a" appended. */
  lemma {:induction false} ArchivesMembers(files: seq<string>)
    requires forall f | f in files :: NoSlash(f)
    ensures forall s :: s in Archives(files) <==> |s| >= 1 && s + ArchiveExt in files
    decreases |files|
  {
    if |files| > 0 {
      var front := files[..|files| - 1];
      var f := files[|files| - 1];
      assert files == front + [f];
      ArchivesMembers(front);
      ExtNameIsArchive(f);
      forall s
        ensures s in Archives(files) <==> |s| >= 1 && s + ArchiveExt in files
      {
        if ExtName(f) == ArchiveExt {
          assert f[..|f| - 2] + ArchiveExt == f;
          if s + ArchiveExt == f {
            assert s == f[..|f| - 2];
          }
        } else if |s| >= 1 {
          assert (s + ArchiveExt)[|s| + 2 - 2..] == ArchiveExt;
        }
      }
    }
  }

  /** A listed name has no '/' either. */
  lemma {:induction false} ArchivesNoSlash(files: seq<string>)
    requires forall f | f in files :: NoSlash(f)
    ensures forall s | s in Archives(files) :: NoSlash(s)
  {
    ArchivesMembers(files);
    forall s | s in Archives(files)
      ensures NoSlash(s)
    {
      assert s + ArchiveExt in files;
      assert forall k :: 0 <= k < |s| ==> s[k] == (s + ArchiveExt)[k];
    }
  }

  /** The characters `^[a-zA-Z0-9_\-\.]+$` allows. */
  predicate NameChar(c: char)
  {
    ('a' <= c <= 'z') || ('A' <= c <= 'Z') || ('0' <= c <= '9') || c == '_' || c == '-' || c == '.'
  }

  /** `imageNameRegExp.test(filename)`: a name that passes is non-empty and has no '/'. */
  predicate ValidName(n: string)
    ensures ValidName(n) ==> |n| > 0 && NoSlash(n)
  {
    |n| > 0 && forall i :: 0 <= i < |n| ==> NameChar(n[i])
  }

  datatype DeleteAction = BadRequest | Unlink(path: string)

  /** DELETE /api/outputs/:filename, up to the unlink call. */
  function DeleteOutput(outputsPath: string, filename: string): (r: DeleteAction)
    ensures r.BadRequest? <==> !ValidName(filename)
    ensures r.Unlink? ==> r.path == outputsPath + "/" + filename + ArchiveExt
  {
    if !ValidName(filename) then BadRequest else Unlink(outputsPath + "/" + filename + ArchiveExt)
  }

  /** The HTTP status DELETE answers with, given whether the unlink succeeds. */
  function DeleteStatus(outputsPath: string, filename: string, unlinkSucceeds: bool): (code: int)
    ensures code == 400 <==> !ValidName(filename)
    ensures code == 500 <==> ValidName(filename) && !unlinkSucceeds
    ensures code == 200 <==> ValidName(filename) && unlinkSucceeds
  {
    match DeleteOutput(outputsPath, filename)
    case BadRequest => 400
    case Unlink(_) => if unlinkSucceeds then 200 else 500
  }

  /**
   * A deleted path is always an entry of the outputs directory itself:
   * its last component has no '/', is neither "." nor "..", and carries
   * the archive extension.
   */
  lemma DeleteStaysInOutputs(outputsPath: string, filename: string)
    requires DeleteOutput(outputsPath, filename).Unlink?
    ensures var leaf := filename + ArchiveExt;
      && DeleteOutput(outputsPath, filename).path == outputsPath + "/" + leaf
      && NoSlash(leaf) && leaf != "." && leaf != ".."
      && leaf[|leaf| - 2..] == ArchiveExt
  {
    var leaf := filename + ArchiveExt;
    assert forall k :: 0 <= k < |filename| ==> leaf[k] == filename[k];
    assert leaf[|leaf| - 2] == '.' && leaf[|leaf| - 1] == 'a';
    forall k | 0 <= k < |leaf|
      ensures leaf[k] != '/'
    {
      if k < |filename| {
        assert NameChar(filename[k]);
      }
    }
  }

  /** A listed name that passes the name check deletes exactly the archive it was listed for. */
  lemma ListedThenDeleted(outputsPath: string, files: seq<string>, s: string)
    requires forall f | f in files :: NoSlash(f)
    requires s in Archives(files) && ValidName(s)
    ensures DeleteOutput(outputsPath, s) == Unlink(outputsPath + "/" + s + ArchiveExt)
    ensures s + ArchiveExt in files
  {
    ArchivesMembers(files);
  }
}
