/** The mod upload script of scripts/upload-mod.js: from the command line
    `<modId> <filePath> [version]` it stores the file twice in the `mods`
    bucket, once under a versioned name and once under a `-latest` name.

    Storage is a map from object path to contents; the environment, the
    local file system and the outcome of each upload are parameters. Node's
    `path.basename` and `path.extname` are modelled for POSIX paths. */
module UploadMod {
  import opened Wrappers
  import Strings

  /** A local file-system entry: a file with its bytes, or a directory
      (which exists but cannot be read as a file). */
  datatype Entry = File(bytes: seq<int>) | Directory

  /** How the script ended: its exit code, the storage paths it tried to
      upload to in order, and the bucket afterwards. */
  datatype Outcome = Outcome(exitCode: int, attempted: seq<string>, bucket: map<string, seq<int>>)

  const LatestVersion: string := "latest"

  // ---------------------------------------------------------------------
  // Node's path.basename and path.extname (POSIX)

  /** The path without its trailing slashes. */
  function StripTrailingSlashes(p: string): (r: string)
    ensures |r| <= |p| && p[..|r|] == r
    ensures r == "" || r[|r| - 1] != '/'
    ensures forall k :: |r| <= k < |p| ==> p[k] == '/'
  {
    if |p| > 0 && p[|p| - 1] == '/' then StripTrailingSlashes(p[..|p| - 1]) else p
  }

  /** `path.basename(p)`: the last non-empty component. */
  function Basename(p: string): (name: string)
    ensures '/' !in name
    ensures Strings.IsTailAfterLast(StripTrailingSlashes(p), '/', name)
  {
    var stripped := StripTrailingSlashes(p);
    Strings.LastSegmentIsTail(stripped, '/');
    Strings.LastSegment(stripped, '/')
  }

  /** The index of the last `c` in `s`. */
  function LastIndex(s: string, c: char): (i: nat)
    requires c in s
    ensures i < |s| && s[i] == c
    ensures forall j :: i < j < |s| ==> s[j] != c
  {
    if s[|s| - 1] == c then |s| - 1 else LastIndex(s[..|s| - 1], c)
  }

  /** `path.extname(name)` for a name without slashes: from the last dot
      to the end, except that a name with no dot, a name whose only dot
      leads it, and `..` have no extension. */
  function Extname(name: string): (ext: string)
    requires '/' !in name
    ensures |ext| <= |name| && name[|name| - |ext|..] == ext
    ensures ext == "" || ext[0] == '.'
  {
    if '.' !in name || name == ".." then ""
    else
      var d := LastIndex(name, '.');
      if d == 0 then "" else name[d..]
  }

  /** The file's extension as the script computes it. */
  function FileExt(filePath: string): string
  {
    Extname(Basename(filePath))
  }

  // ---------------------------------------------------------------------
  // Storage paths

  /** `${modId}/${modId}-v${version}${fileExt}`. */
  function VersionedPath(modId: string, version: string, ext: string): (p: string)
    ensures |p| == 2 * |modId| + 3 + |version| + |ext|
    ensures p[..|modId|] == modId && p[|modId|] == '/' && p[|modId| + 1..2 * |modId| + 1] == modId
    ensures p[2 * |modId| + 1..2 * |modId| + 3] == "-v" && p[|p| - |ext|..] == ext
  {
    modId + "/" + modId + "-v" + version + ext
  }

  /** `${modId}/${modId}-latest${fileExt}`. */
  function LatestPath(modId: string, ext: string): (p: string)
    ensures |p| == 2 * |modId| + 8 + |ext|
    ensures p[..|modId|] == modId && p[|modId|] == '/' && p[|modId| + 1..2 * |modId| + 1] == modId
    ensures p[2 * |modId| + 1..2 * |modId| + 8] == "-latest" && p[|p| - |ext|..] == ext
  {
    modId + "/" + modId + "-latest" + ext
  }

  /** `args[2] || 'latest'`. */
  function Version(args: seq<string>): (v: string)
    ensures |args| > 2 && args[2] != "" ==> v == args[2]
    ensures |args| <= 2 || args[2] == "" ==> v == LatestVersion
    ensures v != ""
  {
    if |args| > 2 && args[2] != "" then args[2] else LatestVersion
  }

  // ---------------------------------------------------------------------
  // The script

  /** One upload with `upsert: true`: a failed upload leaves the bucket as
      it was; a successful one writes the contents at the path. */
  function Upload(bucket: map<string, seq<int>>, path: string, bytes: seq<int>, fails: string -> bool): map<string, seq<int>>
  {
    if fails(path) then bucket else bucket[path := bytes]
  }

  /** The script, from its environment variables, its arguments (after
      `process.argv.slice(2)`), the local file system and which uploads
      fail, to how it ends. */
  function Run(
    supabaseUrl: Option<string>, serviceKey: Option<string>, args: seq<string>,
    files: map<string, Entry>, bucket: map<string, seq<int>>, fails: string -> bool): (out: Outcome)
    ensures out.exitCode in {0, 1}
    ensures |out.attempted| <= 2
    ensures out.exitCode == 0 ==> |out.attempted| == 2
    ensures |args| < 2 ==> out == Outcome(1, [], bucket)
    ensures out.attempted != [] ==>
              && |args| >= 2 && args[1] in files && files[args[1]].File?
              && out.attempted[0] == VersionedPath(args[0], Version(args), FileExt(args[1]))
    ensures |out.attempted| == 2 ==>
              && !fails(out.attempted[0])
              && out.attempted[1] == LatestPath(args[0], FileExt(args[1]))
    // The run succeeds exactly when both variables are set, the file exists
    // and neither upload fails.
    ensures out.exitCode == 0 <==>
              && Present(supabaseUrl) && Present(serviceKey)
              && |args| >= 2 && args[1] in files && files[args[1]].File?
              && !fails(VersionedPath(args[0], Version(args), FileExt(args[1])))
              && !fails(LatestPath(args[0], FileExt(args[1])))
  {
    if supabaseUrl.None? || supabaseUrl.value == "" || serviceKey.None? || serviceKey.value == "" then
      Outcome(1, [], bucket)
    else if |args| < 2 then Outcome(1, [], bucket)
    else
      var modId, filePath, version := args[0], args[1], Version(args);
      if filePath !in files then Outcome(1, [], bucket)
      else
        match files[filePath]
        case Directory => Outcome(1, [], bucket)
        case File(bytes) =>
          var ext := FileExt(filePath);
          var versioned, latest := VersionedPath(modId, version, ext), LatestPath(modId, ext);
          if fails(versioned) then Outcome(1, [versioned], bucket)
          else
            var afterVersioned := Upload(bucket, versioned, bytes, fails);
            if fails(latest) then Outcome(1, [versioned, latest], afterVersioned)
            else Outcome(0, [versioned, latest], Upload(afterVersioned, latest, bytes, fails))
  }

  // ---------------------------------------------------------------------
  // Properties

  /** The extension is empty or a dot with no further dot, and the name is
      a non-empty stem followed by it. */
  lemma ExtnameShape(name: string)
    requires '/' !in name
    ensures var ext := Extname(name);
            && (ext == "" || |ext| < |name|)
            && name[|name| - |ext|..] == ext
            && (ext == "" || (ext[0] == '.' && '.' !in ext[1..]))
            && ('.' in name && name != ".." && LastIndex(name, '.') > 0 ==> ext == name[LastIndex(name, '.')..])
            && ('.' !in name || name == ".." || LastIndex(name, '.') == 0 ==> ext == "")
  {
    var ext := Extname(name);
    if ext != "" {
      var d := LastIndex(name, '.');
      assert ext == name[d..];
      assert forall k :: 0 <= k < |ext| - 1 ==> ext[1..][k] == name[d + 1 + k];
    }
  }

  /** A relative path to an archive: the extension is the archive's. */
  lemma ZipExtension()
    ensures FileExt("./mods/x.zip") == ".zip"
  {
    var p := "./mods/x.zip";
    assert p[|p| - 1] == 'p';
    assert StripTrailingSlashes(p) == p;
    assert p[7..] == "x.zip" && p[6] == '/';
    assert Strings.IsTailAfterLast(p, '/', "x.zip");
    Strings.TailUnique(p, '/', Basename(p), "x.zip");
    ZipExtname();
  }

  lemma ZipExtname()
    ensures Extname("x.zip") == ".zip"
  {
    var name := "x.zip";
    assert name[1] == '.' && name[2] != '.' && name[3] != '.' && name[4] != '.';
    assert LastIndex(name, '.') == 1;
    assert name[1..] == ".zip";
  }

  /** Both paths lie in the mod's folder. */
  lemma PathsUnderModFolder(modId: string, version: string, ext: string)
    ensures Strings.StartsWith(VersionedPath(modId, version, ext), modId + "/")
    ensures Strings.StartsWith(LatestPath(modId, ext), modId + "/")
  {
    Strings.StartsWithAppend(modId + "/", modId + "-v" + version + ext);
    Strings.StartsWithAppend(modId + "/", modId + "-latest" + ext);
    assert VersionedPath(modId, version, ext) == (modId + "/") + (modId + "-v" + version + ext);
    assert LatestPath(modId, ext) == (modId + "/") + (modId + "-latest" + ext);
  }

  /** The versioned copy never overwrites the latest copy, whatever the
      version: the character after `<modId>/<modId>-` is `v` in one and `l`
      in the other. */
  lemma PathsDistinct(modId: string, version: string, ext: string)
    ensures VersionedPath(modId, version, ext) != LatestPath(modId, ext)
  {
    var n := 2 * |modId| + 2;
    assert VersionedPath(modId, version, ext)[n] == 'v';
    assert LatestPath(modId, ext)[n] == 'l';
  }

  /** The version can be read back from the versioned path: two versions
      of the same mod and extension never share a path. */
  lemma VersionRecoverable(modId: string, version: string, ext: string)
    ensures var p := VersionedPath(modId, version, ext);
            p[2 * |modId| + 3..|p| - |ext|] == version
  {
  }

  lemma VersionedPathInjective(modId: string, v1: string, v2: string, ext: string)
    ensures VersionedPath(modId, v1, ext) == VersionedPath(modId, v2, ext) <==> v1 == v2
  {
    VersionRecoverable(modId, v1, ext);
    VersionRecoverable(modId, v2, ext);
  }

  /** A missing or empty environment variable stops the script before
      anything else, even before the arguments are checked. */
  lemma EnvironmentFirst(
    supabaseUrl: Option<string>, serviceKey: Option<string>, args: seq<string>,
    files: map<string, Entry>, bucket: map<string, seq<int>>, fails: string -> bool)
    requires !Present(supabaseUrl) || !Present(serviceKey)
    ensures Run(supabaseUrl, serviceKey, args, files, bucket, fails) == Outcome(1, [], bucket)
  {
  }

  /** A successful run leaves the file's bytes at both paths and changes
      nothing else in the bucket. */
  lemma SuccessStoresBoth(
    url: string, key: string, args: seq<string>,
    files: map<string, Entry>, bucket: map<string, seq<int>>, fails: string -> bool)
    requires Run(Some(url), Some(key), args, files, bucket, fails).exitCode == 0
    ensures var out := Run(Some(url), Some(key), args, files, bucket, fails);
            var versioned := VersionedPath(args[0], Version(args), FileExt(args[1]));
            var latest := LatestPath(args[0], FileExt(args[1]));
            && out.bucket == bucket[versioned := files[args[1]].bytes][latest := files[args[1]].bytes]
            && out.bucket.Keys == bucket.Keys + {versioned, latest}
  {
  }

  /** A failed versioned upload aborts before the latest upload: only the
      versioned path is tried and the bucket is unchanged. */
  lemma VersionedFailureAborts(
    url: string, key: string, args: seq<string>,
    files: map<string, Entry>, bucket: map<string, seq<int>>, fails: string -> bool)
    requires |args| >= 2 && args[1] in files && files[args[1]].File?
    requires fails(VersionedPath(args[0], Version(args), FileExt(args[1])))
    ensures var out := Run(Some(url), Some(key), args, files, bucket, fails);
            url != "" && key != "" ==>
              out == Outcome(1, [VersionedPath(args[0], Version(args), FileExt(args[1]))], bucket)
  {
  }

  /** The latest copy lands at the same path whatever version is given. */
  lemma LatestIgnoresVersion(
    url: string, key: string, args1: seq<string>, args2: seq<string>,
    files: map<string, Entry>, bucket: map<string, seq<int>>, fails: string -> bool)
    requires |args1| >= 2 && |args2| >= 2 && args1[..2] == args2[..2]
    requires |Run(Some(url), Some(key), args1, files, bucket, fails).attempted| == 2
    requires |Run(Some(url), Some(key), args2, files, bucket, fails).attempted| == 2
    ensures Run(Some(url), Some(key), args1, files, bucket, fails).attempted[1] ==
            Run(Some(url), Some(key), args2, files, bucket, fails).attempted[1]
  {
    var r1 := Run(Some(url), Some(key), args1, files, bucket, fails);
    var r2 := Run(Some(url), Some(key), args2, files, bucket, fails);
    assert r1.attempted[1] == LatestPath(args1[0], FileExt(args1[1]));
    assert r2.attempted[1] == LatestPath(args2[0], FileExt(args2[1]));
    assert args1[0] == args1[..2][0] == args2[..2][0] == args2[0];
    assert args1[1] == args1[..2][1] == args2[..2][1] == args2[1];
  }
}
