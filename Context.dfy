/**
 * The worker-side execution context of pymonik/context.py: how it is built,
 * where a retrieved object lives in the shared cache, and when a retrieval
 * counts as successful. The context's fields are set once at construction,
 * so it is a value here.
 */
module PymonikContext {
  import opened Wrappers

  // ---------------------------------------------------------------------
  // POSIX paths, as pathlib parses and joins them
  // ---------------------------------------------------------------------

  /** A pure POSIX path: whether it has the root "/", and its components after the root. */
  datatype Path = Path(absolute: bool, components: seq<string>)

  /** `str.split("/")`: the pieces between slashes, empty ones included. */
  function Split(s: string): (pieces: seq<string>)
    ensures |pieces| >= 1
  {
    if s == [] then [""]
    else
      var rest := Split(s[1..]);
      if s[0] == '/' then [""] + rest else [[s[0]] + rest[0]] + rest[1..]
  }

  /** pathlib drops empty and "." pieces when it parses a path. */
  function Segments(pieces: seq<string>): seq<string> {
    if pieces == [] then []
    else (if pieces[0] == "" || pieces[0] == "." then [] else [pieces[0]]) + Segments(pieces[1..])
  }

  /** `Path(s)`. */
  function ParsePath(s: string): Path {
    Path(|s| > 0 && s[0] == '/', Segments(Split(s)))
  }

  /** `left / right`: an absolute right-hand side discards the left-hand side. */
  function Join(left: Path, right: Path): Path {
    if right.absolute then right else Path(left.absolute, left.components + right.components)
  }

  /** `Path.parts`: the root "/" first when there is one. */
  function Parts(p: Path): seq<string> {
    (if p.absolute then ["/"] else []) + p.components
  }

  predicate NoSlash(s: string) {
    forall i :: 0 <= i < |s| ==> s[i] != '/'
  }

  /** A string that pathlib reads as exactly one relative component. */
  predicate IsComponent(s: string) {
    s != "" && s != "." && NoSlash(s)
  }

  lemma {:induction false} SplitNoSlash(s: string)
    requires NoSlash(s)
    ensures Split(s) == [s]
  {
    if s != [] {
      SplitNoSlash(s[1..]);
      assert [s[0]] + s[1..] == s;
    }
  }

  lemma {:induction false} SplitAtSlash(a: string, b: string)
    ensures Split(a + "/" + b) == Split(a) + Split(b)
  {
    if a == [] {
      assert a + "/" + b == "/" + b;
      assert ("/" + b)[1..] == b;
    } else {
      var s := a + "/" + b;
      assert s[0] == a[0] && s[1..] == a[1..] + "/" + b;
      SplitAtSlash(a[1..], b);
    }
  }

  lemma {:induction false} SegmentsAppend(x: seq<string>, y: seq<string>)
    ensures Segments(x + y) == Segments(x) + Segments(y)
  {
    if x == [] {
      assert x + y == y;
    } else {
      assert (x + y)[0] == x[0] && (x + y)[1..] == x[1..] + y;
      SegmentsAppend(x[1..], y);
    }
  }

  /** A single component parses to a relative path of that one component. */
  lemma ParseComponent(s: string)
    requires IsComponent(s)
    ensures ParsePath(s) == Path(false, [s])
  {
    SplitNoSlash(s);
    assert [s][1..] == [];
    assert Segments([s]) == [s] + Segments([]);
  }

  /** The shared cache root. */
  const CacheRoot: string := "/cache/shared/"

  /** The pieces of "/a/b/" for slash-free a and b. */
  lemma SplitRootedDirectory(a: string, b: string)
    requires NoSlash(a) && NoSlash(b)
    ensures Split("/" + a + "/" + b + "/") == ["", a, b, ""]
  {
    assert "/" + a + "/" + b + "/" == "" + "/" + (a + "/" + (b + "/" + ""));
    SplitAtSlash(b, "");
    SplitAtSlash(a, b + "/" + "");
    SplitAtSlash("", a + "/" + (b + "/" + ""));
    SplitNoSlash(a);
    SplitNoSlash(b);
  }

  lemma SegmentsOfRootedDirectory(a: string, b: string)
    requires IsComponent(a) && IsComponent(b)
    ensures Segments(["", a, b, ""]) == [a, b]
  {
    var pieces := ["", a, b, ""];
    assert Segments(pieces) == Segments(pieces[1..]);
    assert Segments(pieces[1..]) == [a] + Segments(pieces[2..]);
    assert Segments(pieces[2..]) == [b] + Segments(pieces[3..]);
    assert Segments(pieces[3..]) == [] by { assert pieces[3..] == [""]; assert pieces[3..][1..] == []; }
  }

  /** A rooted two-component directory with a trailing slash. */
  lemma ParseRootedDirectory(a: string, b: string)
    requires IsComponent(a) && IsComponent(b)
    ensures ParsePath("/" + a + "/" + b + "/") == Path(true, [a, b])
  {
    SplitRootedDirectory(a, b);
    SegmentsOfRootedDirectory(a, b);
  }

  /** `Path("/cache/shared/")`, as ParseCacheRoot shows. */
  const CacheRootPath: Path := Path(true, ["cache", "shared"])

  lemma ParseCacheRoot()
    ensures ParsePath(CacheRoot) == CacheRootPath
  {
    ParseRootedDirectory("cache", "shared");
    assert CacheRoot == "/" + "cache" + "/" + "shared" + "/";
  }

  // ---------------------------------------------------------------------
  // PymonikContext
  // ---------------------------------------------------------------------

  datatype Logger = Logger(name: string)

  /** The worker's task handler, seen only through its communication token. */
  datatype TaskHandler = TaskHandler(token: string)

  /** RuntimeEnvironment is not part of this model beyond the logger it is built from. */
  datatype RuntimeEnvironment = RuntimeEnvironment(logger: Logger)

  datatype Context = Context(taskHandler: Option<TaskHandler>, logger: Logger,
                             environment: RuntimeEnvironment, isLocal: bool)

  /** Dereferencing the missing task handler of a local context. */
  datatype Error = AttributeError

  const LocalLoggerName: string := "PymonikLocalExecution"

  /** `PymonikContext.__init__`. */
  function NewContext(taskHandler: Option<TaskHandler>, logger: Logger): (c: Context)
    ensures c.taskHandler == taskHandler && c.logger == logger
    ensures c.environment == RuntimeEnvironment(logger)
    ensures c.isLocal <==> taskHandler.None?
  {
    Context(taskHandler, logger, RuntimeEnvironment(logger), taskHandler.None?)
  }

  /** `from_local`: no task handler, and a logger of its own when none is given. */
  function FromLocal(logger: Option<Logger>): (c: Context)
    ensures c.isLocal && c.taskHandler.None?
    ensures logger.Some? ==> c.logger == logger.value
    ensures logger.None? ==> c.logger == Logger(LocalLoggerName)
  {
    var l := if logger.None? then Logger(LocalLoggerName) else logger.value;
    NewContext(None, l)
  }

  /** The backend's request and response of GetResourceData, reduced to the ids. */
  datatype DataRequest = DataRequest(communicationToken: string, resultId: string)
  datatype DataResponse = DataResponse(resultId: string)

  /**
   * `retrieve_object`: ask the backend for the object and report success when
   * the response names the requested id. The backend is a parameter.
   */
  function RetrieveObject(c: Context, resultId: string,
                          getResourceData: DataRequest -> DataResponse): (r: Result<bool, Error>)
    ensures r.Err? <==> c.taskHandler.None?
    ensures r.Ok? ==>
              (r.value <==> getResourceData(DataRequest(c.taskHandler.value.token, resultId)).resultId == resultId)
  {
    match c.taskHandler
    case None => Err(AttributeError)
    case Some(handler) =>
      var response := getResourceData(DataRequest(handler.token, resultId));
      Ok(response.resultId == resultId)
  }

  /** `get_object_path`: the cache root, then the token, then the result id. */
  function GetObjectPath(c: Context, resultId: string): (r: Result<Path, Error>)
    ensures r.Err? <==> c.taskHandler.None?
    ensures r.Ok? ==> r.value == ObjectPath(c.taskHandler.value.token, resultId)
  {
    match c.taskHandler
    case None => Err(AttributeError)
    case Some(handler) => Ok(ObjectPath(handler.token, resultId))
  }

  function ObjectPath(token: string, resultId: string): Path {
    Join(Join(CacheRootPath, ParsePath(token)), ParsePath(resultId))
  }

  lemma ObjectPathOfComponents(token: string, resultId: string)
    requires IsComponent(token) && IsComponent(resultId)
    ensures ObjectPath(token, resultId) == Path(true, ["cache", "shared", token, resultId])
  {
    ParseComponent(token);
    ParseComponent(resultId);
    var dir := Join(CacheRootPath, ParsePath(token));
    assert dir == Path(true, ["cache", "shared"] + [token]);
    assert Join(dir, ParsePath(resultId)) == Path(true, ["cache", "shared", token] + [resultId]);
  }

  /** With a one-component token and id, the object lives at /cache/shared/<token>/<id>. */
  lemma ObjectPathParts(c: Context, resultId: string)
    requires c.taskHandler.Some?
    requires IsComponent(c.taskHandler.value.token) && IsComponent(resultId)
    ensures GetObjectPath(c, resultId).Ok?
    ensures Parts(GetObjectPath(c, resultId).value)
            == ["/", "cache", "shared", c.taskHandler.value.token, resultId]
  {
    var token := c.taskHandler.value.token;
    ObjectPathOfComponents(token, resultId);
    var p := GetObjectPath(c, resultId).value;
    assert p.components == ["cache", "shared", token, resultId];
    assert Parts(p) == ["/"] + p.components;
  }

  /** For any fixed token, distinct one-component ids have distinct cache paths. */
  lemma ObjectPathInjective(c: Context, id1: string, id2: string)
    requires c.taskHandler.Some?
    requires IsComponent(id1) && IsComponent(id2) && id1 != id2
    ensures GetObjectPath(c, id1) != GetObjectPath(c, id2)
  {
    ParseComponent(id1);
    ParseComponent(id2);
    var dir := Join(CacheRootPath, ParsePath(c.taskHandler.value.token));
    assert GetObjectPath(c, id1).value.components == dir.components + [id1];
    assert GetObjectPath(c, id2).value.components == dir.components + [id2];
    assert GetObjectPath(c, id1).value.components[|dir.components|] == id1;
  }

  /** An absolute result id escapes the cache root: pathlib's join keeps only the right-hand side. */
  lemma AbsoluteIdEscapesCache(c: Context, resultId: string)
    requires c.taskHandler.Some? && |resultId| > 0 && resultId[0] == '/'
    ensures GetObjectPath(c, resultId) == Ok(ParsePath(resultId))
  {
  }
}
