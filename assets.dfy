/**
 * The static asset handler: maps a request path under `/debugbar/` to a file below the
 * toolbar's resources directory, refuses anything whose canonical path does not start with
 * the canonical resources path, and answers with the file's bytes, a MIME type chosen by
 * extension, a one-hour cache header and the content length.
 *
 * The filesystem is a value: `realpath` is a partial map from a spelling of a path to its
 * canonical form, and `file_exists`, `is_file`, `is_readable`, `is_dir` and
 * `file_get_contents` are the sets and the map below.
 */
module Assets {
  import opened Wrappers
  import opened Strings
  import opened Http

  const RoutePrefix := "/debugbar/"
  /** `DIRECTORY_SEPARATOR` on a POSIX system. */
  const Separator := "/"
  const CacheControl := "public, max-age=3600"
  const OctetStream := "application/octet-stream"
  const MissingResources :=
    "Could not find DebugBar resources directory. Please ensure php-debugbar/php-debugbar is installed."

  datatype FileSystem = FileSystem(
    realpath: map<string, string>,    // spelling -> canonical path; absent = `realpath` fails
    dirs: set<string>,                // paths `is_dir` accepts
    files: set<string>,               // paths `is_file` accepts
    readable: set<string>,            // paths `is_readable` accepts
    contents: map<string, string>)    // absent = `file_get_contents` fails
  {
    /** `file_exists`: files and directories alike. */
    predicate Exists(p: string)
    {
      p in files || p in dirs
    }
  }

  // ---- from request path to file path ----

  /** `str_replace('/debugbar/', '', path)`: every occurrence of the route prefix is dropped. */
  function RelativePath(path: string): string
  {
    ReplaceAll(path, RoutePrefix, "")
  }

  /** The request path is the relative path with the route prefix put back at the cuts. */
  lemma RelativePathIsPrefixRemoval(path: string)
    ensures var pieces := Split(path, RoutePrefix);
      && Join(pieces, RoutePrefix) == path
      && (forall k :: 0 <= k < |pieces| ==> !Contains(pieces[k], RoutePrefix))
      && RelativePath(path) == Join(pieces, "")
  {
    JoinOfSplit(path, RoutePrefix);
    SplitPiecesAreFree(path, RoutePrefix);
    ReplaceAllIsJoinOfSplit(path, RoutePrefix, "");
  }

  /** The ordinary request `/debugbar/<rest>` asks for `<rest>`. */
  lemma RelativePathOfRoute(rest: string)
    requires !Contains(rest, RoutePrefix)
    ensures RelativePath(RoutePrefix + rest) == rest
  {
    ShortNotContains(RoutePrefix[..|RoutePrefix| - 1], RoutePrefix);
    assert "" + RoutePrefix[..|RoutePrefix| - 1] == RoutePrefix[..|RoutePrefix| - 1];
    ReplaceAllSingleOccurrence("", RoutePrefix, rest, "");
    assert "" + RoutePrefix + rest == RoutePrefix + rest;
  }

  /**
   * One pass: a prefix assembled from the pieces around a removed one survives, so the
   * relative path may itself still hold `/debugbar/`.
   */
  lemma RelativePathIsOnePass(a: string, b: string)
    requires a == "/debu" && b == "gbar/"
    ensures RelativePath(a + RoutePrefix + b) == RoutePrefix
  {
    assert a + RoutePrefix[..|RoutePrefix| - 1] == "/debu/debugbar";
    ShortNotContainsOrMisaligned(a);
    ShortNotContains(b, RoutePrefix);
    ReplaceAllSingleOccurrence(a, RoutePrefix, b, "");
    assert a + "" + b == RoutePrefix;
  }

  lemma ShortNotContainsOrMisaligned(a: string)
    requires a == "/debu"
    ensures !Contains(a + RoutePrefix[..|RoutePrefix| - 1], RoutePrefix)
  {
    var s := a + RoutePrefix[..|RoutePrefix| - 1];
    assert s == "/debu/debugbar";
    assert s[5] != RoutePrefix[5];
    MismatchAt(s, RoutePrefix, 5);
    ContainsSkipRun(s[1..5], s[5..], RoutePrefix);
    assert s[1..] == s[1..5] + s[5..];
    ShortNotContains(s[5..], RoutePrefix);
  }

  /** `root . DIRECTORY_SEPARATOR . relative`. */
  function FilePath(root: string, relative: string): (p: string)
    ensures StartsWith(p, root + Separator) && p[|root| + 1..] == relative
  {
    root + Separator + relative
  }

  // ---- MIME type by extension ----

  /** `pathinfo(path, PATHINFO_BASENAME)`: the text after the last `/`. */
  function Basename(path: string): (b: string)
    ensures '/' !in b
    ensures |b| <= |path| && path[|path| - |b|..] == b
    ensures |b| == |path| || path[|path| - |b| - 1] == '/'
  {
    var i := LastIndexOf(path, '/');
    if i < 0 then path else path[i + 1..]
  }

  /** The text after the last `.` of a basename, or "" when it has none. */
  function AfterLastDot(b: string): (e: string)
    ensures '.' !in e
    ensures |e| <= |b| && b[|b| - |e|..] == e
    ensures e != "" ==> |e| < |b| && b[|b| - |e| - 1] == '.'
    ensures e == "" ==> '.' !in b || b[|b| - 1] == '.'
  {
    var j := LastIndexOf(b, '.');
    if j < 0 then "" else b[j + 1..]
  }

  /** A suffix of a suffix is a suffix, with what precedes it. */
  lemma SuffixOfSuffix(s: string, t: string, u: string)
    requires |t| <= |s| && s[|s| - |t|..] == t
    requires |u| <= |t| && t[|t| - |u|..] == u
    ensures s[|s| - |u|..] == u
    ensures |u| < |t| ==> s[|s| - |u| - 1] == t[|t| - |u| - 1]
  {
    assert s[|s| - |t|..][|t| - |u|..] == s[|s| - |u|..];
    if |u| < |t| {
      assert s[|s| - |t|..][|t| - |u| - 1] == s[|s| - |u| - 1];
    }
  }

  /** `pathinfo(path, PATHINFO_EXTENSION)`: the text after the basename's last `.`, or "". */
  function Extension(path: string): (e: string)
    ensures '/' !in e && '.' !in e
    ensures |e| <= |path| && path[|path| - |e|..] == e
    ensures e != "" ==> |e| < |path| && path[|path| - |e| - 1] == '.'
  {
    var b := Basename(path);
    var e := AfterLastDot(b);
    SuffixOfSuffix(path, b, e);
    e
  }

  /** A name `stem.ext` in any directory has extension `ext`, however many dots `stem` holds. */
  lemma ExtensionOfName(dir: string, stem: string, ext: string)
    requires '/' !in stem && '/' !in ext && '.' !in ext
    ensures Extension(dir + "/" + stem + "." + ext) == ext
  {
    var name := stem + "." + ext;
    assert '/' !in name;
    LastIndexOfMarked(dir, '/', name);
    assert dir + "/" + stem + "." + ext == dir + ['/'] + name;
    assert Basename(dir + "/" + stem + "." + ext) == name;
    LastIndexOfMarked(stem, '.', ext);
    assert name == stem + ['.'] + ext;
  }

  /** The `match` of `getContentType`. */
  const MimeTypes: map<string, string> := map[
    "css" := "text/css",
    "js" := "application/javascript",
    "png" := "image/png",
    "gif" := "image/gif",
    "jpg" := "image/jpeg",
    "jpeg" := "image/jpeg",
    "svg" := "image/svg+xml",
    "woff" := "font/woff",
    "woff2" := "font/woff2",
    "ttf" := "font/ttf",
    "eot" := "application/vnd.ms-fontobject",
    "ico" := "image/x-icon",
    "json" := "application/json",
    "xml" := "application/xml",
    "txt" := "text/plain"]

  /** The MIME type of a lower-case extension: the table's entry, else the octet-stream default. */
  function MimeFor(ext: string): (t: string)
    ensures t != ""
    ensures t == OctetStream <==> ext !in MimeTypes
  {
    if ext in MimeTypes then MimeTypes[ext] else OctetStream
  }

  /** `getContentType`: the extension, lower-cased, looked up in the table. */
  function ContentType(path: string): string
  {
    MimeFor(Lower(Extension(path)))
  }

  /** The content type of `stem.ext` is decided by `ext` alone, in lower case. */
  lemma ContentTypeOfName(dir: string, stem: string, ext: string)
    requires '/' !in stem && '/' !in ext && '.' !in ext
    ensures ContentType(dir + "/" + stem + "." + ext) == MimeFor(Lower(ext))
  {
    ExtensionOfName(dir, stem, ext);
  }

  predicate SameUpToCase(a: string, b: string)
  {
    |a| == |b| && forall i :: 0 <= i < |a| ==> LowerChar(a[i]) == LowerChar(b[i])
  }

  /** Two file names whose extensions differ only in letter case get the same content type. */
  lemma ContentTypeIgnoresCase(dir: string, stem: string, ext1: string, ext2: string)
    requires '/' !in stem && '/' !in ext1 && '.' !in ext1 && '/' !in ext2 && '.' !in ext2
    requires SameUpToCase(ext1, ext2)
    ensures ContentType(dir + "/" + stem + "." + ext1) == ContentType(dir + "/" + stem + "." + ext2)
  {
    ContentTypeOfName(dir, stem, ext1);
    ContentTypeOfName(dir, stem, ext2);
    assert Lower(ext1) == Lower(ext2);
  }

  /** `jpg` and `jpeg`, in any case, are JPEG images. */
  lemma JpegSpellings(ext: string)
    requires Lower(ext) == "jpg" || Lower(ext) == "jpeg"
    ensures MimeFor(Lower(ext)) == "image/jpeg"
  {
  }

  /** A file name without a dot is served as an octet stream. */
  lemma NoExtensionIsOctetStream(path: string)
    requires '.' !in Basename(path)
    ensures ContentType(path) == OctetStream
  {
    assert Lower("") == "";
  }

  // ---- response shaping ----

  /** `createNotFoundResponse`: 404, plain text, empty body. */
  function NotFoundReply(): (r: Reply)
    ensures r.status == 404 && r.body == ""
    ensures r.headers.Keys == {"Content-Type"} && r.headers["Content-Type"] == "text/plain"
  {
    Reply(404, map["Content-Type" := "text/plain"], "")
  }

  /** `createResponse(content, contentType)`. */
  function OkReply(content: string, contentType: string): Reply
  {
    Reply(200, map[
      "Content-Type" := contentType,
      "Cache-Control" := CacheControl,
      "Content-Length" := DecimalString(|content|)], content)
  }

  /** A success reply carries the content, its type, the cache header and its exact length. */
  lemma OkReplyShape(content: string, contentType: string)
    ensures var r := OkReply(content, contentType);
      && r.status == 200 && r.body == content
      && r.headers.Keys == {"Content-Type", "Cache-Control", "Content-Length"}
      && r.headers["Content-Type"] == contentType
      && r.headers["Cache-Control"] == "public, max-age=3600"
      && IsDigits(r.headers["Content-Length"])
      && DigitsValue(r.headers["Content-Length"]) == |content|
  {
    var r := OkReply(content, contentType);
    assert r.headers["Content-Length"] == DecimalString(|content|);
    DecimalRoundTrip(|content|);
  }

  /** `new Response('php://memory', 404, ...)`: a fresh, empty body stream. */
  method CreateNotFoundResponse() returns (r: Response)
    ensures fresh(r.body) && r.body.Valid() && Snapshot(r) == NotFoundReply()
  {
    var body := new Stream();
    r := Response(404, map["Content-Type" := "text/plain"], body);
  }

  /** A fresh memory stream with `content` written into it. */
  method CreateResponse(content: string, contentType: string) returns (r: Response)
    ensures fresh(r.body) && r.body.Valid() && Snapshot(r) == OkReply(content, contentType)
  {
    var body := new Stream();
    r := Response(200, map[
      "Content-Type" := contentType,
      "Cache-Control" := CacheControl,
      "Content-Length" := DecimalString(|content|)], body);
    body.Write(content);
    OverwriteFromStart("", content);
  }

  // ---- the handler's decision ----

  /** What `handle` answers for `path`, given the resources directory `root`. */
  function Serve(fs: FileSystem, root: string, path: string): Reply
  {
    var filePath := FilePath(root, RelativePath(path));
    if filePath !in fs.realpath || root !in fs.realpath then NotFoundReply()
    else
      var target := fs.realpath[filePath];
      if !StartsWith(target, fs.realpath[root]) then NotFoundReply()
      else if !fs.Exists(target) || target !in fs.files || target !in fs.readable then NotFoundReply()
      else if target !in fs.contents then NotFoundReply()
      else OkReply(fs.contents[target], ContentType(target))
  }

  /** Everything `handle` needs for a success: both paths canonicalise, containment, a readable file. */
  predicate Servable(fs: FileSystem, root: string, path: string)
  {
    var filePath := FilePath(root, RelativePath(path));
    && filePath in fs.realpath && root in fs.realpath
    && StartsWith(fs.realpath[filePath], fs.realpath[root])
    && fs.realpath[filePath] in fs.files
    && fs.realpath[filePath] in fs.readable
    && fs.realpath[filePath] in fs.contents
  }

  /**
   * `handle` answers 200 exactly when the request is servable, and then with that file's
   * content and its type; every other request gets the 404 reply, whichever guard refused it.
   */
  lemma ServeOutcome(fs: FileSystem, root: string, path: string)
    ensures Serve(fs, root, path).status == 200 <==> Servable(fs, root, path)
    ensures Servable(fs, root, path) ==>
      var target := fs.realpath[FilePath(root, RelativePath(path))];
      Serve(fs, root, path) == OkReply(fs.contents[target], ContentType(target))
    ensures !Servable(fs, root, path) ==> Serve(fs, root, path) == NotFoundReply()
  {
  }

  /** A path that does not canonicalise, or a root that does not, is not found. */
  lemma CanonicalisationFailureIsNotFound(fs: FileSystem, root: string, path: string)
    requires FilePath(root, RelativePath(path)) !in fs.realpath || root !in fs.realpath
    ensures Serve(fs, root, path) == NotFoundReply()
  {
  }

  /** A canonical path that does not start with the canonical root (`../` escapes) is not found. */
  lemma OutsideRootIsNotFound(fs: FileSystem, root: string, path: string)
    requires FilePath(root, RelativePath(path)) in fs.realpath && root in fs.realpath
    requires !StartsWith(fs.realpath[FilePath(root, RelativePath(path))], fs.realpath[root])
    ensures Serve(fs, root, path) == NotFoundReply()
  {
  }

  /** A target `is_file` or `is_readable` rejects, or a failed read, is not found. */
  lemma UnreadableIsNotFound(fs: FileSystem, root: string, path: string)
    requires FilePath(root, RelativePath(path)) in fs.realpath
    requires var target := fs.realpath[FilePath(root, RelativePath(path))];
      target !in fs.files || target !in fs.readable || target !in fs.contents
    ensures Serve(fs, root, path) == NotFoundReply()
  {
  }

  /**
   * The containment test is a plain string prefix: a readable file in a sibling directory whose
   * name extends the root's (`<root>-evil/...`) is served, although it is not below `<root>/`.
   */
  lemma SiblingOfRootIsServed(fs: FileSystem, root: string, path: string, tail: string)
    requires FilePath(root, RelativePath(path)) in fs.realpath && root in fs.realpath
    requires |tail| > 0 && tail[0] != '/'
    requires fs.realpath[FilePath(root, RelativePath(path))] == fs.realpath[root] + tail
    requires var target := fs.realpath[root] + tail;
      target in fs.files && target in fs.readable && target in fs.contents
    ensures var target := fs.realpath[root] + tail;
      && !StartsWith(target, fs.realpath[root] + "/")
      && Serve(fs, root, path) == OkReply(fs.contents[target], ContentType(target))
  {
    var canonical := fs.realpath[root];
    var target := canonical + tail;
    assert target[..|canonical|] == canonical;
    assert target[|canonical|] == tail[0];
  }

  // ---- the resources directory ----

  /** Where the library keeps its assets, below a vendor directory. */
  const ResourcesSuffix := "/php-debugbar/php-debugbar/src/DebugBar/Resources"

  /** The four vendor locations tried, in order; `getcwd()` failing reads as "". */
  function CandidatePaths(srcDir: string, cwd: Option<string>): seq<string>
  {
    var base := if cwd.Some? then cwd.value else "";
    [ srcDir + "/../../.." + ResourcesSuffix,
      srcDir + "/../../../../vendor" + ResourcesSuffix,
      srcDir + "/../vendor" + ResourcesSuffix,
      base + "/vendor" + ResourcesSuffix ]
  }

  /**
   * The index of the first candidate from `k` on that is a directory, or `|candidates|` when
   * there is none: every candidate skipped is not a directory, and the one found is.
   */
  function FirstDirectoryFrom(candidates: seq<string>, dirs: set<string>, k: nat): (i: nat)
    requires k <= |candidates|
    ensures k <= i <= |candidates|
    ensures forall j :: k <= j < i ==> candidates[j] !in dirs
    ensures i < |candidates| ==> candidates[i] in dirs
    decreases |candidates| - k
  {
    if k == |candidates| then k
    else if candidates[k] in dirs then k
    else FirstDirectoryFrom(candidates, dirs, k + 1)
  }

  /** The search fails exactly when no candidate is a directory. */
  lemma NoDirectoryIff(candidates: seq<string>, dirs: set<string>)
    ensures FirstDirectoryFrom(candidates, dirs, 0) == |candidates|
        <==> forall j :: 0 <= j < |candidates| ==> candidates[j] !in dirs
  {
  }

  /** `findDebugBarResourcesPath`: the first candidate that is a directory, else the exception. */
  method FindResourcesPath(srcDir: string, cwd: Option<string>, fs: FileSystem)
    returns (r: Result<string, string>)
    ensures var c := CandidatePaths(srcDir, cwd);
      var i := FirstDirectoryFrom(c, fs.dirs, 0);
      r == if i < |c| then Success(c[i]) else Failure(MissingResources)
  {
    var candidates := CandidatePaths(srcDir, cwd);
    var k := 0;
    while k < |candidates|
      invariant 0 <= k <= |candidates|
      invariant FirstDirectoryFrom(candidates, fs.dirs, k) == FirstDirectoryFrom(candidates, fs.dirs, 0)
    {
      if candidates[k] in fs.dirs {
        return Success(candidates[k]);
      }
      k := k + 1;
    }
    return Failure(MissingResources);
  }

  /** `DebugBarAssetsHandler`: a resources directory fixed at construction. */
  class AssetsHandler {
    const resourcesPath: string

    constructor (resourcesPath: string)
      ensures this.resourcesPath == resourcesPath
    {
      this.resourcesPath := resourcesPath;
    }

    /** `new DebugBarAssetsHandler($path)`: an explicit path bypasses the search, which may throw. */
    static method Create(explicit: Option<string>, srcDir: string, cwd: Option<string>, fs: FileSystem)
      returns (r: Result<AssetsHandler, string>)
      ensures explicit.Some? ==> r.Success? && fresh(r.value) && r.value.resourcesPath == explicit.value
      ensures explicit.None? ==>
        var c := CandidatePaths(srcDir, cwd);
        var i := FirstDirectoryFrom(c, fs.dirs, 0);
        if i < |c| then r.Success? && fresh(r.value) && r.value.resourcesPath == c[i]
        else r == Failure(MissingResources)
    {
      var path: string;
      if explicit.Some? {
        path := explicit.value;
      } else {
        var found := FindResourcesPath(srcDir, cwd, fs);
        if found.Failure? {
          return Failure(found.error);
        }
        path := found.value;
      }
      var handler := new AssetsHandler(path);
      return Success(handler);
    }

    /** `handle`: strip, join, canonicalise, check containment and the file, then answer. */
    method Handle(fs: FileSystem, path: string) returns (r: Response)
      ensures fresh(r.body) && r.body.Valid() && Snapshot(r) == Serve(fs, resourcesPath, path)
    {
      var relativePath := ReplaceAll(path, RoutePrefix, "");
      var filePath := resourcesPath + Separator + relativePath;
      if filePath !in fs.realpath || resourcesPath !in fs.realpath
        || !StartsWith(fs.realpath[filePath], fs.realpath[resourcesPath])
      {
        r := CreateNotFoundResponse();
        return;
      }
      var realPath := fs.realpath[filePath];
      if !fs.Exists(realPath) || realPath !in fs.files || realPath !in fs.readable {
        r := CreateNotFoundResponse();
        return;
      }
      if realPath !in fs.contents {
        r := CreateNotFoundResponse();
        return;
      }
      var content := fs.contents[realPath];
      var contentType := ContentType(realPath);
      r := CreateResponse(content, contentType);
    }
  }
}
