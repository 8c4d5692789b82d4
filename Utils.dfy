/**
 * The library helpers of pymonik/utils.py: the endpoint cleaning and the
 * TLS-or-insecure choice of create_grpc_channel, the lazily decoding
 * argument container LazyArgs, and the `task` decorator.
 */
module PymonikUtils {
  import opened Wrappers

  type Bytes = seq<bv8>

  /**
   * The serialisation codec (cloudpickle), left opaque: a pair of total
   * functions between values and bytes. Python's None is `None` here, so a
   * value that decodes to None is indistinguishable from "nothing decoded".
   */
  datatype Codec<!T> = Codec(encode: Option<T> -> Bytes, decode: Bytes -> Option<T>)

  /** The round-trip property the library relies on; a hypothesis, never an axiom. */
  ghost predicate RoundTrips<T(!new)>(c: Codec<T>) {
    forall v :: c.decode(c.encode(v)) == v
  }

  predicate HasPrefix(s: string, p: string) {
    |p| <= |s| && s[..|p|] == p
  }

  predicate HasSuffix(s: string, p: string) {
    |p| <= |s| && s[|s| - |p|..] == p
  }

  /** Python truthiness of an Optional[str]: neither None nor the empty string. */
  predicate Truthy(s: Option<string>) {
    s.Some? && s.value != ""
  }

  // ---------------------------------------------------------------------
  // create_grpc_channel
  // ---------------------------------------------------------------------

  const HttpScheme: string := "http://"

  /** Host name checked against the server certificate on TLS channels. */
  const SslTargetNameOverride: string := "armonik.local"

  /**
   * The value of `cleaner_endpoint` once both rewriting steps are done: the
   * input is the result, preceded by "http://" when the input starts with
   * it, and followed by one "/" when the text left after the scheme ends
   * with one.
   */
  function CleanedEndpoint(endpoint: string): (r: string)
    ensures HasPrefix(endpoint, HttpScheme) && |endpoint| > |HttpScheme| && HasSuffix(endpoint, "/")
            ==> endpoint == HttpScheme + r + "/"
    ensures HasPrefix(endpoint, HttpScheme) && !(|endpoint| > |HttpScheme| && HasSuffix(endpoint, "/"))
            ==> endpoint == HttpScheme + r
    ensures !HasPrefix(endpoint, HttpScheme) && HasSuffix(endpoint, "/") ==> endpoint == r + "/"
    ensures !HasPrefix(endpoint, HttpScheme) && !HasSuffix(endpoint, "/") ==> r == endpoint
  {
    var afterScheme := if HasPrefix(endpoint, HttpScheme) then endpoint[|HttpScheme|..] else endpoint;
    if HasSuffix(afterScheme, "/") then afterScheme[..|afterScheme| - 1] else afterScheme
  }

  /** Only "http://" is stripped: an "https://" endpoint keeps its scheme (unless nothing follows it). */
  lemma HttpsSchemeKept(endpoint: string)
    requires HasPrefix(endpoint, "https://") && |endpoint| > |"https://"|
    ensures HasPrefix(CleanedEndpoint(endpoint), "https://")
    ensures CleanedEndpoint(endpoint) == endpoint || CleanedEndpoint(endpoint) + "/" == endpoint
  {
    var r := CleanedEndpoint(endpoint);
    assert !HasPrefix(endpoint, HttpScheme) by {
      assert endpoint[4] == 's';
      assert HttpScheme[4] == ':';
    }
    if HasSuffix(endpoint, "/") {
      assert endpoint == r + "/";
      assert r[..8] == endpoint[..8];
    } else {
      assert r == endpoint;
    }
  }

  /** Whatever follows the scheme loses at most one trailing slash, and nothing else. */
  lemma OneTrailingSlashRemoved(endpoint: string)
    ensures var rest := if HasPrefix(endpoint, HttpScheme) then endpoint[|HttpScheme|..] else endpoint;
            CleanedEndpoint(endpoint) == rest || CleanedEndpoint(endpoint) + "/" == rest
  {
  }

  /** "http://host:5001//" keeps one of its two slashes, "http://" cleans to "", "localhost:5001" is unchanged. */
  lemma CleanedEndpointExamples()
    ensures CleanedEndpoint("http://host:5001//") == "host:5001/"
    ensures CleanedEndpoint("http://") == ""
    ensures CleanedEndpoint("localhost:5001") == "localhost:5001"
  {
    assert HasPrefix("http://host:5001//", HttpScheme);
    assert HasPrefix("http://", HttpScheme);
    assert !HasPrefix("localhost:5001", HttpScheme) by {
      assert "localhost:5001"[0] != HttpScheme[0];
    }
  }

  /** The channel create_grpc_channel builds; the gRPC libraries themselves are not modelled. */
  datatype Channel =
    | Secure(target: string, targetNameOverride: string, certificateAuthority: string,
             clientCertificate: Option<string>, clientKey: Option<string>)
    | Insecure(target: string)

  /**
   * create_grpc_channel: clean the endpoint step by step, then build a TLS
   * channel exactly when a certificate authority is given.
   */
  method CreateGrpcChannel(endpoint: string, certificateAuthority: Option<string>,
                           clientCertificate: Option<string>, clientKey: Option<string>)
    returns (channel: Channel)
    ensures channel.target == CleanedEndpoint(endpoint)
    ensures channel.Secure? <==> Truthy(certificateAuthority)
    ensures channel.Secure? ==>
              && channel.certificateAuthority == certificateAuthority.value
              && channel.clientCertificate == clientCertificate
              && channel.clientKey == clientKey
              && channel.targetNameOverride == SslTargetNameOverride
  {
    var cleanerEndpoint := endpoint;
    if HasPrefix(cleanerEndpoint, HttpScheme) {
      cleanerEndpoint := cleanerEndpoint[|HttpScheme|..];
    }
    if HasSuffix(cleanerEndpoint, "/") {
      cleanerEndpoint := cleanerEndpoint[..|cleanerEndpoint| - 1];
    }
    if Truthy(certificateAuthority) {
      channel := Secure(cleanerEndpoint, SslTargetNameOverride, certificateAuthority.value,
                        clientCertificate, clientKey);
    } else {
      channel := Insecure(cleanerEndpoint);
    }
  }

  // ---------------------------------------------------------------------
  // LazyArgs
  // ---------------------------------------------------------------------

  const NotLoaded: string := "<LazyArgs - Not Loaded>"

  /**
   * Arguments kept encoded until first use. `pickledArgs` is fixed at
   * construction; `args` is the decoded slot, None until loaded.
   */
  class LazyArgs<T(!new)> {
    const codec: Codec<T>
    const pickledArgs: Bytes
    var args: Option<T>

    /** The value given to the constructor, and the number of decodes so far. */
    ghost const original: Option<T>
    ghost var decodes: nat

    ghost predicate Valid()
      reads this
    {
      && pickledArgs == codec.encode(original)
      && (args.Some? ==> args == codec.decode(pickledArgs))
    }

    constructor (codec: Codec<T>, argsToPickle: Option<T>)
      ensures Valid()
      ensures this.codec == codec && original == argsToPickle
      ensures pickledArgs == codec.encode(argsToPickle)
      ensures args == None && decodes == 0
    {
      this.codec := codec;
      original := argsToPickle;
      pickledArgs := codec.encode(argsToPickle);
      args := None;
      decodes := 0;
    }

    /**
     * get_args: decode on the first call (and whenever the slot still holds None), then reuse.
     * The ghost counter `decodes` stands for the "Loading args..." message printed on each decode.
     */
    method GetArgs() returns (r: Option<T>)
      requires Valid()
      modifies this`args, this`decodes
      ensures Valid()
      ensures r == codec.decode(pickledArgs) && args == r
      ensures RoundTrips(codec) ==> r == original
      ensures old(args).Some? ==> r == old(args) && decodes == old(decodes)
      ensures old(args).None? ==> decodes == old(decodes) + 1
    {
      if args.None? {
        args := codec.decode(pickledArgs);
        decodes := decodes + 1;
      }
      r := args;
    }

    /** __repr__, given the repr of the decoded value. */
    function Repr(show: T -> string): (s: string)
      reads this
      ensures args.None? ==> s == NotLoaded
      ensures args.Some? ==> s == show(args.value)
    {
      match args
      case None => NotLoaded
      case Some(v) => show(v)
    }
  }

  /**
   * Two successive get_args calls on a fresh container: both give back the
   * constructor's argument, and only a value whose decoding is None is
   * decoded twice.
   */
  method LoadTwice<T(!new)>(codec: Codec<T>, value: Option<T>)
    returns (first: Option<T>, second: Option<T>, ghost decodes: nat)
    requires RoundTrips(codec)
    ensures first == value && second == value
    ensures decodes == if value.Some? then 1 else 2
  {
    var lazy := new LazyArgs(codec, value);
    first := lazy.GetArgs();
    second := lazy.GetArgs();
    decodes := lazy.decodes;
  }

  // ---------------------------------------------------------------------
  // task / decorator
  // ---------------------------------------------------------------------

  /** A callable, seen only through its `__name__`. */
  datatype Callable = Callable(name: string)

  /** The Task the decorator builds; its invocation engine is not part of this model. */
  datatype Task = Task(func: Callable, requireContext: bool, funcName: string)

  /** What `task(...)` returns: a Task (bare `@task`) or the inner decorator (`@task(...)`). */
  datatype Decorated =
    | TaskValue(task: Task)
    | Decorator(requireContext: bool, functionName: Option<string>)

  /** The inner `decorator`: a given non-empty name wins over the callable's own name. */
  function Decorate(requireContext: bool, functionName: Option<string>, func: Callable): (t: Task)
    ensures t.func == func && t.requireContext == requireContext
    ensures Truthy(functionName) ==> t.funcName == functionName.value
    ensures !Truthy(functionName) ==> t.funcName == func.name
  {
    var resolvedName := if Truthy(functionName) then functionName.value else func.name;
    Task(func, requireContext, resolvedName)
  }

  function TaskDecorator(func: Option<Callable>, requireContext: bool := false,
                         functionName: Option<string> := None): (r: Decorated)
    ensures r.Decorator? <==> func.None?
    ensures r.Decorator? ==> r.requireContext == requireContext && r.functionName == functionName
    ensures r.TaskValue? ==> r.task == Decorate(requireContext, functionName, func.value)
  {
    if func.None? then Decorator(requireContext, functionName)
    else TaskValue(Decorate(requireContext, functionName, func.value))
  }

  /** Python applying the returned decorator to the decorated function. */
  function Apply(d: Decorated, func: Callable): Task
    requires d.Decorator?
  {
    Decorate(d.requireContext, d.functionName, func)
  }

  /** `@task` and `@task(...)` with the same options build the same Task. */
  lemma TaskFormsAgree(func: Callable, requireContext: bool, functionName: Option<string>)
    ensures TaskDecorator(Some(func), requireContext, functionName).task
            == Apply(TaskDecorator(None, requireContext, functionName), func)
  {
  }

  /** A bare `@task` names the task after the function and does not ask for a context. */
  lemma BareTaskDefaults(func: Callable)
    ensures TaskDecorator(Some(func)) == TaskValue(Task(func, false, func.name))
  {
  }
}
