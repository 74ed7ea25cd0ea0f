/**
 * The request-construction layer of the Agora methods-repository CLI
 * (src/scripts/agora.py): choosing the endpoint family, defaulting the
 * namespace and name of a push, accepting the synopsis typed in the editor,
 * and building the one HTTP request that `push` and `pull` send.
 *
 * Everything the CLI takes from its environment (the login name, file
 * contents, the editor buffer, the HTTP response) is a parameter here.
 */
module Agora {
  import opened Wrappers
  import opened PyText

  /** The host every request is sent to. */
  const AgoraUrl := "agora-ci.broadinstitute.org"

  /** The longest synopsis accepted: the test is `len(synopsis) > 80`, so 80 passes. */
  const MaxSynopsisLength := 80

  /** What the editor buffer holds before the user types anything. */
  const SynopsisTemplate := "\n" + "# Provide a 1-sentence synopsis (< 80 charactors) in your first line,\nSubsequent lines are ignored"

  /** Every way a command can end without a request being answered as expected. */
  datatype Error =
    | NoEndpoint                     // neither --configurations nor --methods
    | EmptyEditorBuffer              // `lines[0]` on an empty buffer raises IndexError
    | SynopsisTooLong(synopsis: string)
    | NotConcatenable(key: string)   // `str + int` in the list query raises TypeError
    | HttpFailed(url: string, body: Option<map<string, string>>, status: int, reason: string, data: string)

  /** Python truthiness of an optional string argument: None and "" are both false. */
  predicate Given(o: Option<string>)
  {
    o.Some? && o.value != []
  }

  // ---------------------------------------------------------------------------
  // Endpoint selection

  /** `get_endpoint`: configurations wins over methods; neither is an error. */
  function GetEndpoint(configurations: bool, methods: bool): (r: Result<string, Error>)
    ensures r == Success("/configurations") <==> configurations
    ensures r == Success("/methods") <==> !configurations && methods
    ensures r == Failure(NoEndpoint) <==> !configurations && !methods
  {
    if configurations then Success("/configurations")
    else if methods then Success("/methods")
    else Failure(NoEndpoint)
  }

  /** An endpoint is one '/' followed by a single path segment. */
  lemma EndpointIsOneSegment(configurations: bool, methods: bool)
    requires GetEndpoint(configurations, methods).Success?
    ensures var e := GetEndpoint(configurations, methods).value;
            |e| > 1 && e[0] == '/' && '/' !in e[1..]
  {
    var e := GetEndpoint(configurations, methods).value;
    assert e[1..] == "configurations" || e[1..] == "methods";
  }

  // ---------------------------------------------------------------------------
  // Push defaults

  /** `get_push_namespace`: the given namespace, otherwise the login name. */
  function PushNamespace(namespace: Option<string>, user: string): (r: string)
    ensures Given(namespace) ==> r == namespace.value
    ensures !Given(namespace) ==> r == user
  {
    if Given(namespace) then namespace.value else user
  }

  /**
   * `get_push_name`: the given name, otherwise the payload file's base name cut
   * at its final extension. The default is a prefix of the base name, holds no
   * '/', and what was cut is empty or a '.' followed by no other '.'; something
   * is cut exactly when the base name has a '.' after some character that is
   * not a '.' (so ".bashrc" keeps its leading dot).
   */
  function PushName(name: Option<string>, payloadFile: string): (r: string)
    ensures Given(name) ==> r == name.value
    ensures !Given(name) ==> var b := Basename(payloadFile);
      && '/' !in r
      && |r| <= |b| && b[..|r|] == r
      && (|r| == |b| || (b[|r|] == '.' && forall k :: |r| < k < |b| ==> b[k] != '.'))
      && (|r| < |b| <==> exists k, i :: 0 <= k < i < |b| && b[k] != '.' && b[i] == '.')
  {
    if Given(name) then name.value
    else
      var b := Basename(payloadFile);
      var parts := SplitExt(b);
      SplitExtOfName(b);
      assert b[..|parts.0|] == parts.0;
      assert forall k :: 0 <= k < |parts.0| ==> parts.0[k] == b[k];
      assert forall k :: |parts.0| <= k < |b| ==> b[k] == parts.1[k - |parts.0|];
      parts.0
  }

  /** The default name of a payload file in a directory drops the directory and the extension. */
  lemma PushNameDropsDirectoryAndExtension()
    ensures PushName(None, "workflows/hello.wdl") == "hello"
  {
    RFindIs("workflows/hello.wdl", '/', 9);
    assert Basename("workflows/hello.wdl") == "hello.wdl" by {
      assert "workflows/hello.wdl"[10..] == "hello.wdl";
    }
    RFindIs("hello.wdl", '/', -1);
    RFindIs("hello.wdl", '.', 5);
    assert SplitExt("hello.wdl") == ("hello", ".wdl") by {
      assert "hello.wdl"[0] != '.';
      assert "hello.wdl"[..5] == "hello";
    }
  }

  /** An empty --name counts as absent, and only the final extension is removed. */
  lemma PushNameDropsOnlyFinalExtension()
    ensures PushName(Some(""), "a.tar.gz") == "a.tar"
  {
    var p := "a.tar.gz";
    RFindIs(p, '/', -1);
    assert Basename(p) == p[0..] == p;
    RFindIs(p, '.', 5);
    assert p[0] != '.';
    assert SplitExt(p) == (p[..5], p[5..]);
    assert p[..5] == "a.tar";
  }

  /** A name made of a leading dot and no other dot has no extension to remove. */
  lemma PushNameKeepsDotFile()
    ensures PushName(None, "dir/.bashrc") == ".bashrc"
  {
    RFindIs("dir/.bashrc", '/', 3);
    assert "dir/.bashrc"[4..] == ".bashrc";
    RFindIs(".bashrc", '/', -1);
    RFindIs(".bashrc", '.', 0);
  }

  /** `get_push_documentation` after `read_entire_file`: the stripped file text, or "" without a file. */
  function PushDocumentation(docs: Option<string>, docsText: string): (r: string)
    ensures Given(docs) ==> r == Strip(docsText)
    ensures !Given(docs) ==> r == []
  {
    if Given(docs) then Strip(docsText) else []
  }

  // ---------------------------------------------------------------------------
  // Synopsis

  /**
   * `readlines()[0]`: the text up to and including the first newline, or the
   * whole text when it has none; None for an empty buffer (no lines at all).
   */
  function FirstLine(text: string): (r: Option<string>)
    ensures r.None? <==> text == []
    ensures r.Some? ==> r.value != [] && |r.value| <= |text| && text[..|r.value|] == r.value
    ensures r.Some? ==> forall k :: 0 <= k < |r.value| - 1 ==> r.value[k] != '\n'
    ensures r.Some? ==> |r.value| == |text| || r.value[|r.value| - 1] == '\n'
  {
    if text == [] then None
    else if text[0] == '\n' then Some("\n")
    else match FirstLine(text[1..])
      case None => Some([text[0]])
      case Some(line) => Some([text[0]] + line)
  }

  /**
   * The tail of `get_user_synopsis`: the first line of the edited buffer with
   * its whitespace stripped, rejected when longer than 80 characters. Lines
   * starting with '#' get no special treatment.
   */
  function AcceptSynopsis(editorText: string): (r: Result<string, Error>)
    ensures r == Failure(EmptyEditorBuffer) <==> editorText == []
    ensures r.Success? <==> editorText != [] && |Strip(FirstLine(editorText).value)| <= MaxSynopsisLength
    ensures r.Success? ==> r.value == Strip(FirstLine(editorText).value)
    ensures r.Failure? && editorText != [] ==> r.error == SynopsisTooLong(Strip(FirstLine(editorText).value))
  {
    match FirstLine(editorText)
    case None => Failure(EmptyEditorBuffer)
    case Some(line) =>
      var synopsis := Strip(line);
      if |synopsis| > MaxSynopsisLength then Failure(SynopsisTooLong(synopsis)) else Success(synopsis)
  }

  /** An accepted synopsis is one line of at most 80 characters with no surrounding whitespace. */
  lemma AcceptedSynopsisIsOneTrimmedLine(editorText: string)
    requires AcceptSynopsis(editorText).Success?
    ensures var s := AcceptSynopsis(editorText).value;
      && |s| <= MaxSynopsisLength
      && '\n' !in s
      && (s == [] || (!IsSpace(s[0]) && !IsSpace(s[|s| - 1])))
  {
    StripDropsFinalNewline(FirstLine(editorText).value);
  }

  lemma {:induction false} FirstLineOf(line: string, rest: string)
    requires '\n' !in line
    ensures FirstLine(line + "\n" + rest) == Some(line + "\n")
  {
    if line != [] {
      assert (line + "\n" + rest)[1..] == line[1..] + "\n" + rest;
      FirstLineOf(line[1..], rest);
      assert [line[0]] + (line[1..] + "\n") == line + "\n";
    }
  }

  /**
   * Only the first line decides: a trimmed first line is accepted exactly when
   * it has at most 80 characters (so exactly 80 passes and 81 fails), whatever follows.
   */
  lemma SynopsisFirstLineDecides(line: string, rest: string)
    requires '\n' !in line
    requires line == [] || (!IsSpace(line[0]) && !IsSpace(line[|line| - 1]))
    ensures AcceptSynopsis(line + "\n" + rest)
            == if |line| <= 80 then Success(line) else Failure(SynopsisTooLong(line))
  {
    FirstLineOf(line, rest);
    var l := line + "\n";
    assert l[..|l| - 1] == line;
    assert RStripSpace(l) == RStripSpace(line) == line;
    if line != [] {
      assert l[0] == line[0];
      assert LStripSpace(l) == l;
    }
  }

  /** Leaving the template untouched yields the empty synopsis, which is accepted. */
  lemma UneditedTemplateGivesEmptySynopsis()
    ensures AcceptSynopsis(SynopsisTemplate) == Success("")
  {
    assert SynopsisTemplate[0] == '\n';
    assert FirstLine(SynopsisTemplate) == Some("\n");
    assert RStripSpace("\n") == [];
  }

  // ---------------------------------------------------------------------------
  // Requests

  datatype Verb = Get | Post

  /** Everything `httpRequest` puts on the wire for one call. */
  datatype Request = Request(
    host: string,
    verb: Verb,
    url: string,
    headers: map<string, Option<string>>,
    body: Option<map<string, string>>,
    expectedStatus: int)

  /**
   * The headers `httpRequest` always sends, with or without a body. --auth is
   * optional, so the Cookie value is None when it was not given.
   */
  function Headers(authToken: Option<string>): (h: map<string, Option<string>>)
    ensures h.Keys == {"Cookie", "Content-type"}
    ensures h["Cookie"] == authToken && h["Content-type"] == Some("application/json")
  {
    map["Cookie" := authToken, "Content-type" := Some("application/json")]
  }

  datatype EntityType = Task | Workflow | Configuration {
    function Name(): string
    {
      match this
      case Task => "Task"
      case Workflow => "Workflow"
      case Configuration => "Configuration"
    }
  }

  /**
   * `entity_post`: a POST of the six-field entity to the bare endpoint,
   * expecting 201 Created. (Its trailing host parameter is unused.)
   */
  function EntityPost(authToken: Option<string>, endpoint: string, namespace: string, name: string,
                      synopsis: string, documentation: string, entityType: string, payload: string): (r: Request)
    ensures r.host == AgoraUrl && r.verb == Post && r.url == endpoint && r.expectedStatus == 201
    ensures r.headers == Headers(authToken)
    ensures r.body.Some?
    ensures r.body.value.Keys == {"namespace", "name", "synopsis", "documentation", "entityType", "payload"}
    ensures r.body.value["namespace"] == namespace && r.body.value["name"] == name
    ensures r.body.value["synopsis"] == synopsis && r.body.value["documentation"] == documentation
    ensures r.body.value["entityType"] == entityType && r.body.value["payload"] == payload
  {
    var body := map["namespace" := namespace, "name" := name, "synopsis" := synopsis,
                    "documentation" := documentation, "entityType" := entityType, "payload" := payload];
    Request(AgoraUrl, Post, endpoint, Headers(authToken), Some(body), 201)
  }

  /**
   * The path of one snapshot: `endpoint/namespace/name/snapshotId`. It starts
   * with the endpoint and a '/', and ends with a '/' and the decimal id.
   */
  function SnapshotPath(endpoint: string, namespace: string, name: string, snapshotId: int): (r: string)
    ensures |r| > |endpoint| && r[..|endpoint|] == endpoint && r[|endpoint|] == '/'
    ensures var id := Str(snapshotId); |r| > |id| && r[|r| - |id|..] == id && r[|r| - |id| - 1] == '/'
  {
    var id := Str(snapshotId);
    var r := endpoint + "/" + namespace + "/" + name + "/" + id;
    assert r == (endpoint + "/" + namespace + "/" + name + "/") + id;
    r
  }

  /** `entity_get`: a bodiless GET of one snapshot, expecting 200. */
  function EntityGet(authToken: Option<string>, endpoint: string, namespace: string, name: string, snapshotId: int): (r: Request)
    ensures r.host == AgoraUrl && r.verb == Get && r.body.None? && r.expectedStatus == 200
    ensures r.headers == Headers(authToken)
    ensures r.url == SnapshotPath(endpoint, namespace, name, snapshotId)
  {
    Request(AgoraUrl, Get, SnapshotPath(endpoint, namespace, name, snapshotId), Headers(authToken), None, 200)
  }

  /** The snapshot path is its five segments (the first empty) joined with '/'. */
  lemma SnapshotPathIsJoin(endpoint: string, namespace: string, name: string, id: string)
    requires |endpoint| > 0 && endpoint[0] == '/'
    ensures endpoint + "/" + namespace + "/" + name + "/" + id == Join(["", endpoint[1..], namespace, name, id], '/')
  {
    JoinCons(name, [id], '/');
    JoinCons(namespace, [name, id], '/');
    JoinCons(endpoint[1..], [namespace, name, id], '/');
    JoinCons("", [endpoint[1..], namespace, name, id], '/');
    assert endpoint == "/" + endpoint[1..];
  }

  /**
   * The snapshot path can be taken apart again: split on '/', it gives back the
   * endpoint's segment, the namespace, the name and the decimal snapshot id,
   * provided the namespace and name hold no '/'.
   */
  lemma SnapshotPathRoundTrip(endpoint: string, namespace: string, name: string, snapshotId: int)
    requires |endpoint| > 1 && endpoint[0] == '/' && '/' !in endpoint[1..]
    requires '/' !in namespace && '/' !in name
    ensures var parts := Split(SnapshotPath(endpoint, namespace, name, snapshotId), '/');
      && parts == ["", endpoint[1..], namespace, name, Str(snapshotId)]
      && ParseInt(parts[4]) == Some(snapshotId)
  {
    var id := Str(snapshotId);
    assert forall k :: 0 <= k < |id| ==> id[k] != '/';
    var parts := ["", endpoint[1..], namespace, name, id];
    SnapshotPathIsJoin(endpoint, namespace, name, id);
    assert SnapshotPath(endpoint, namespace, name, snapshotId) == Join(parts, '/');
    SplitJoin(parts, '/');
    StrRoundTrip(snapshotId);
  }

  /** `entity_list`: a bodiless GET of the endpoint followed by the query string, expecting 200. */
  function EntityList(authToken: Option<string>, endpoint: string, queryString: string): (r: Request)
    ensures r.host == AgoraUrl && r.verb == Get && r.body.None? && r.expectedStatus == 200
    ensures r.headers == Headers(authToken)
    ensures |r.url| == |endpoint| + |queryString|
    ensures r.url[..|endpoint|] == endpoint && r.url[|endpoint|..] == queryString
  {
    Request(AgoraUrl, Get, endpoint + queryString, Headers(authToken), None, 200)
  }

  // ---------------------------------------------------------------------------
  // Transport outcome

  /** Status line and body of the server's answer. */
  datatype Response = Response(status: int, reason: string, data: string)

  /**
   * What `httpRequest` makes of a response: the body text (which it hands to
   * `json.loads`) when the status is the expected one, otherwise a failure
   * carrying the URL, request body, status, reason and response body.
   */
  function Send(req: Request, resp: Response): (r: Result<string, Error>)
    ensures r.Success? <==> resp.status == req.expectedStatus
    ensures r.Success? ==> r.value == resp.data
    ensures r.Failure? ==> r.error == HttpFailed(req.url, req.body, resp.status, resp.reason, resp.data)
  {
    if resp.status != req.expectedStatus then
      Failure(HttpFailed(req.url, req.body, resp.status, resp.reason, resp.data))
    else
      Success(resp.data)
  }

  // ---------------------------------------------------------------------------
  // Commands

  /** The parsed arguments of `push`. */
  datatype PushArgs = PushArgs(
    auth: Option<string>, configurations: bool, methods: bool,
    namespace: Option<string>, name: Option<string>, docs: Option<string>,
    entityType: EntityType, payloadFile: string)

  /** What `push` reads from its environment: login name, file contents, edited buffer. */
  datatype PushInputs = PushInputs(user: string, docsText: string, payloadText: string, editorText: string)

  /**
   * `push` up to the request: the endpoint is checked first, then the synopsis;
   * either failure stops the command before any request exists.
   */
  function PushRequest(args: PushArgs, env: PushInputs): (r: Result<Request, Error>)
    ensures !args.configurations && !args.methods ==> r == Failure(NoEndpoint)
    ensures (args.configurations || args.methods) ==>
              (r.Failure? <==> AcceptSynopsis(env.editorText).Failure?)
    ensures (args.configurations || args.methods) && r.Failure? ==> r.error == AcceptSynopsis(env.editorText).error
  {
    match GetEndpoint(args.configurations, args.methods)
    case Failure(e) => Failure(e)
    case Success(endpoint) =>
      var namespace := PushNamespace(args.namespace, env.user);
      var name := PushName(args.name, args.payloadFile);
      var documentation := PushDocumentation(args.docs, env.docsText);
      var payload := Strip(env.payloadText);
      match AcceptSynopsis(env.editorText)
      case Failure(e) => Failure(e)
      case Success(synopsis) =>
        Success(EntityPost(args.auth, endpoint, namespace, name, synopsis, documentation, args.entityType.Name(), payload))
  }

  /**
   * What a successful push sends: a POST, with the auth cookie, of exactly the
   * six fields of the defaulted, validated entity.
   */
  lemma PushRequestContents(args: PushArgs, env: PushInputs)
    requires PushRequest(args, env).Success?
    ensures var req := PushRequest(args, env).value; var body := req.body.value;
      && req.host == AgoraUrl && req.verb == Post && req.expectedStatus == 201
      && req.url == (if args.configurations then "/configurations" else "/methods")
      && req.headers == Headers(args.auth)
      && body.Keys == {"namespace", "name", "synopsis", "documentation", "entityType", "payload"}
      && body["namespace"] == PushNamespace(args.namespace, env.user)
      && body["namespace"] == (if Given(args.namespace) then args.namespace.value else env.user)
      && body["name"] == PushName(args.name, args.payloadFile)
      && (Given(args.name) ==> body["name"] == args.name.value)
      && (!Given(args.name) ==> '/' !in body["name"])
      && body["synopsis"] == AcceptSynopsis(env.editorText).value
      && |body["synopsis"]| <= MaxSynopsisLength && '\n' !in body["synopsis"]
      && body["documentation"] == PushDocumentation(args.docs, env.docsText)
      && body["payload"] == Strip(env.payloadText)
      && body["entityType"] == args.entityType.Name()
  {
    AcceptedSynopsisIsOneTrimmedLine(env.editorText);
  }

  /** The parsed arguments of `pull`; argparse makes namespace, name and snapshotId required, snapshotId an int. */
  datatype PullArgs = PullArgs(auth: Option<string>, configurations: bool, methods: bool,
                               namespace: string, name: string, snapshotId: int)

  /** `pull` up to the request. */
  function PullRequest(args: PullArgs): (r: Result<Request, Error>)
    ensures r.Failure? <==> !args.configurations && !args.methods
    ensures r.Success? ==> r.value.host == AgoraUrl && r.value.verb == Get && r.value.body.None? && r.value.expectedStatus == 200
    ensures r.Success? ==> r.value.headers == Headers(args.auth)
    ensures r.Success? ==> r.value.url == SnapshotPath(GetEndpoint(args.configurations, args.methods).value,
                                                       args.namespace, args.name, args.snapshotId)
  {
    match GetEndpoint(args.configurations, args.methods)
    case Failure(e) => Failure(e)
    case Success(endpoint) => Success(EntityGet(args.auth, endpoint, args.namespace, args.name, args.snapshotId))
  }

  /** `pull --namespace=broad --name=hello --snapshotId=3` against the methods endpoint. */
  lemma PullExample()
    ensures PullRequest(PullArgs(Some("token"), false, true, "broad", "hello", 3))
            == Success(Request(AgoraUrl, Get, "/methods/broad/hello/3", Headers(Some("token")), None, 200))
  {
    assert DigitChar(3) == '3';
    assert Str(3) == "3";
    assert SnapshotPath("/methods", "broad", "hello", 3) == "/methods/broad/hello/3";
  }
}
