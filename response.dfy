/**
 * Answering one client: respond_to_client reads the request line and either
 * refuses it with a 400 line or hands it to respond_with_file, which checks
 * the method, builds the path and sends a static file or the output of a
 * PHP script. The decision is a pure function of what recv delivered, the
 * server directory and the file system; the methods below perform it the
 * way the C code does, as a sequence of writes to the client socket.
 */
module Response {
  import opened Wrappers
  import opened LibC
  import opened ServerH
  import opened Errors
  import opened Request

  /**
   * What the process sees of the machine it runs on: which paths open()
   * can read and their bytes, and what running a shell command through
   * popen() prints.
   */
  datatype Env = Env(files: map<string, string>, php: string -> string)

  /** The outcome of one request: exactly one of the six things the server can do. */
  datatype Outcome =
    | RecvFailed
    | Disconnected
    | BadRequest
    | MethodRejected
    | OpenFailed(path: string)
    | StaticFile(path: string, contents: string)
    | Script(command: string, output: string)

  /** The URL that replaces any one-character URL path. */
  const ROOT_PAGE: string := "/index.html"
  /** The command prefix put in front of the path of a PHP script. */
  const PHP_COMMAND: string := "php -f "
  /** The suffix that marks a script, and how many bytes of it are compared. */
  const PHP_SUFFIX: string := ".php"
  const PHP_SUFFIX_LENGTH: nat := 4
  /** The size of data_to_send: read asks for this many bytes, fgets stores one fewer and a NUL. */
  const CHUNK_SIZE: nat := 1024

  /** The URL path after the root substitution: any one-character path becomes /index.html. */
  function ResolvedUrl(urlPath: string): (u: string)
    ensures |urlPath| == 1 ==> u == ROOT_PAGE
    ensures |urlPath| != 1 ==> u == urlPath
    ensures |u| != 1 && (NulFree(urlPath) ==> NulFree(u))
  {
    if |urlPath| == 1 then ROOT_PAGE else urlPath
  }

  /** The .php test: longer than five bytes, and a 4-byte strncmp of ".php" against the last four. */
  predicate IsScript(u: string)
  {
    |u| > 5 && StrnEq(PHP_SUFFIX, u[|u| - PHP_SUFFIX_LENGTH..], PHP_SUFFIX_LENGTH)
  }

  /** On a C string the test is: more than five bytes, ending in ".php". */
  lemma IsScriptIsSuffixTest(u: string)
    requires NulFree(u)
    ensures IsScript(u) <==> |u| > 5 && u[|u| - 4..] == ".php"
  {
    if |u| > 5 {
      var tail := u[|u| - 4..];
      assert NulFree(tail) by {
        forall i | 0 <= i < |tail| ensures tail[i] != '\0' { assert tail[i] == u[|u| - 4 + i]; }
      }
      StrnEqSymmetric(PHP_SUFFIX, tail, 4);
      StrnEqLiteralPrefix(tail, PHP_SUFFIX);
      CStrOfNulFree(tail);
    }
  }

  /** "/.php" is too short to be a script and is served as a file; "/a.php" and the root page are as expected. */
  lemma ScriptNeedsSixBytes()
    ensures !IsScript("/.php")
    ensures IsScript("/a.php")
    ensures !IsScript(ROOT_PAGE)
  {
    IsScriptIsSuffixTest("/a.php");
    IsScriptIsSuffixTest(ROOT_PAGE);
  }

  /**
   * respond_with_file as a decision: a method that is not exactly GET is
   * refused before any path is built; otherwise the path is the server
   * directory followed by the resolved URL, a script is run through
   * "php -f <path>", and any other path is opened and sent.
   */
  function FileOutcome(requestMethod: string, urlPath: string, dir: string, env: Env): (r: Outcome)
    ensures r.MethodRejected? <==> !ValidReqMethod(requestMethod)
    ensures r.Script? <==> ValidReqMethod(requestMethod) && IsScript(ResolvedUrl(urlPath))
    ensures r.Script? ==> r.command == PHP_COMMAND + dir + ResolvedUrl(urlPath) && r.output == env.php(r.command)
    ensures r.StaticFile? ==> r.path == dir + ResolvedUrl(urlPath) && r.path in env.files && r.contents == env.files[r.path]
    ensures r.OpenFailed? ==> r.path == dir + ResolvedUrl(urlPath) && r.path !in env.files
    ensures r.MethodRejected? || r.Script? || r.StaticFile? || r.OpenFailed?
  {
    if !ValidReqMethod(requestMethod) then MethodRejected
    else
      var u := ResolvedUrl(urlPath);
      var path := dir + u;
      if IsScript(u) then
        var command := PHP_COMMAND + path;
        Script(command, env.php(command))
      else if path in env.files then StaticFile(path, env.files[path])
      else OpenFailed(path)
  }

  /**
   * respond_to_client as a decision: no answer when recv failed or the peer
   * closed; otherwise the request line of the C string in the buffer is
   * tokenised, a line without a valid protocol gets the 400 line, and any
   * other line goes to respond_with_file.
   */
  function Decide(received: int, msg: string, dir: string, env: Env): (r: Outcome)
    ensures received < 0 <==> r.RecvFailed?
    ensures received == 0 <==> r.Disconnected?
    ensures r.BadRequest? <==> received > 0 && !ValidHttpProtocol(Tokenise(CStr(msg)).httpProtocol)
    ensures r.StaticFile? ==> r.path in env.files && r.contents == env.files[r.path]
    ensures r.OpenFailed? ==> r.path !in env.files
    ensures received > 0 && ValidHttpProtocol(Tokenise(CStr(msg)).httpProtocol) ==>
              r == FileOutcome(Tokenise(CStr(msg)).requestMethod.value, Tokenise(CStr(msg)).urlPath.value, dir, env)
  {
    if received < 0 then RecvFailed
    else if received == 0 then Disconnected
    else
      var line := Tokenise(CStr(msg));
      if !ValidHttpProtocol(line.httpProtocol) then BadRequest
      else FileOutcome(line.requestMethod.value, line.urlPath.value, dir, env)
  }

  /** What reaches the client socket for an outcome: nothing, the 25 stored bytes of the 400 line, or the 17 stored bytes of the 200 header and then the body. */
  function BytesSent(o: Outcome): (r: string)
    ensures o.BadRequest? ==> r == HTTP_400_RES
    ensures o.StaticFile? ==> r == HTTP_200_RES + o.contents
    ensures o.Script? ==> r == HTTP_200_RES + o.output
    ensures r == [] <==> o.RecvFailed? || o.Disconnected? || o.MethodRejected? || o.OpenFailed?
  {
    match o
    case BadRequest => LiteralBytes(HTTP_400_RES, BAD_REQUEST_LENGTH)
    case StaticFile(_, contents) => LiteralBytes(HTTP_200_RES, OK_HEADER_LENGTH) + contents
    case Script(_, output) => LiteralBytes(HTTP_200_RES, OK_HEADER_LENGTH) + output
    case _ => []
  }

  /** Every answer is empty, exactly the 400 line, or starts with the 200 header followed by a blank line. */
  lemma AnswerShapes(o: Outcome)
    ensures BytesSent(o) == [] || BytesSent(o) == "HTTP/1.0 400 Bad Request\n" || "HTTP/1.0 200 OK\n\n" <= BytesSent(o)
  {
  }

  /** Of all the answers, only a refused request line is exactly the 400 line. */
  lemma OnlyBadRequestSends400(o: Outcome)
    ensures BytesSent(o) == HTTP_400_RES <==> o.BadRequest?
  {
    if o.StaticFile? || o.Script? {
      assert BytesSent(o)[9] == '2' != HTTP_400_RES[9];
    }
  }

  /** A failed recv or a closed connection is answered with nothing, whatever the buffer, directory or files. */
  lemma NoAnswerWithoutMessage(received: int, msg: string, msg': string, dir: string, dir': string, env: Env, env': Env)
    requires received <= 0
    ensures BytesSent(Decide(received, msg, dir, env)) == []
    ensures Decide(received, msg, dir, env) == Decide(received, msg', dir', env')
  {
  }

  /**
   * The 400 line is sent exactly when a message arrived and its protocol
   * token is missing or invalid, and it does not depend on the directory
   * or the files: no file is touched.
   */
  lemma BadRequestExactlyOnInvalidProtocol(received: int, msg: string, dir: string, dir': string, env: Env, env': Env)
    ensures BytesSent(Decide(received, msg, dir, env)) == HTTP_400_RES
        <==> received > 0 && !ValidHttpProtocol(Tokenise(CStr(msg)).httpProtocol)
    ensures received > 0 && !ValidHttpProtocol(Tokenise(CStr(msg)).httpProtocol)
        ==> Decide(received, msg, dir, env) == Decide(received, msg, dir', env')
  {
    OnlyBadRequestSends400(Decide(received, msg, dir, env));
  }

  /** A method other than exactly GET is refused with nothing sent, before the directory or any file is looked at. */
  lemma NonGetSendsNothing(requestMethod: string, urlPath: string, dir: string, dir': string, env: Env, env': Env)
    requires CStr(requestMethod) != "GET"
    ensures FileOutcome(requestMethod, urlPath, dir, env) == MethodRejected
    ensures BytesSent(FileOutcome(requestMethod, urlPath, dir, env)) == []
    ensures FileOutcome(requestMethod, urlPath, dir, env) == FileOutcome(requestMethod, urlPath, dir', env')
  {
    ValidReqMethodIsExact(requestMethod);
  }

  /** A GET for a file that cannot be opened is answered with nothing. */
  lemma UnopenableFileSendsNothing(urlPath: string, dir: string, env: Env)
    requires !IsScript(ResolvedUrl(urlPath))
    requires dir + ResolvedUrl(urlPath) !in env.files
    ensures FileOutcome("GET", urlPath, dir, env) == OpenFailed(dir + ResolvedUrl(urlPath))
    ensures BytesSent(FileOutcome("GET", urlPath, dir, env)) == []
  {
    ValidReqMethodIsExact("GET");
  }

  /** Any one-character URL, not only "/", serves the directory's index.html. */
  lemma OneCharacterUrlServesIndex(urlPath: string, dir: string, env: Env)
    requires |urlPath| == 1
    ensures dir + ROOT_PAGE in env.files ==>
      BytesSent(FileOutcome("GET", urlPath, dir, env)) == HTTP_200_RES + env.files[dir + "/index.html"]
    ensures dir + ROOT_PAGE !in env.files ==> FileOutcome("GET", urlPath, dir, env) == OpenFailed(dir + "/index.html")
  {
    ValidReqMethodIsExact("GET");
    ScriptNeedsSixBytes();
  }

  /**
   * A script is never opened: what is sent is the 200 header and then the
   * output of "php -f <dir><url>", whatever files exist.
   */
  lemma ScriptRunsWithoutOpening(urlPath: string, dir: string, env: Env, files': map<string, string>)
    requires IsScript(ResolvedUrl(urlPath))
    ensures BytesSent(FileOutcome("GET", urlPath, dir, env)) == HTTP_200_RES + env.php("php -f " + dir + ResolvedUrl(urlPath))
    ensures FileOutcome("GET", urlPath, dir, env) == FileOutcome("GET", urlPath, dir, Env(files', env.php))
  {
    ValidReqMethodIsExact("GET");
  }

  /** No path is sanitised: a URL that climbs out of the directory is opened as written. */
  lemma UrlIsNotSanitised(dir: string, env: Env)
    requires dir + "/../secret" in env.files
    ensures BytesSent(FileOutcome("GET", "/../secret", dir, env)) == HTTP_200_RES + env.files[dir + "/../secret"]
  {
    ValidReqMethodIsExact("GET");
  }

  /**
   * The buffer after recv has stored data in it: the data, then the zeros
   * the memset left in the rest of the MAX_CLIENT_MSG_LENGTH bytes. Data
   * without a NUL is the C string the buffer holds.
   */
  function RecvBuffer(data: string): (buf: string)
    requires |data| <= MAX_CLIENT_MSG_LENGTH
    ensures |buf| == MAX_CLIENT_MSG_LENGTH && data <= buf
    ensures forall k :: |data| <= k < |buf| ==> buf[k] == '\0'
    ensures NulFree(data) ==> CStr(buf) == data
  {
    var buf := data + seq(MAX_CLIENT_MSG_LENGTH - |data|, _ => '\0');
    if NulFree(data) && |data| < MAX_CLIENT_MSG_LENGTH then
      CStrOfTerminated(data, buf[|data|..]);
      assert data + buf[|data|..] == buf;
      buf
    else if NulFree(data) then
      assert buf == data;
      CStrOfNulFree(data);
      buf
    else buf
  }

  /**
   * A received message whose C string is laid out as a method, a URL and a
   * valid protocol is decided by that method and URL alone.
   */
  lemma LaidOutLineDecided(received: int, msg: string, dir: string, env: Env, m0: nat, m1: nat, u0: nat, u1: nat, p0: nat, p1: nat)
    requires received > 0
    requires LaidOut(CStr(msg), m0, m1, u0, u1, p0, p1) && ValidHttpProtocol(Some(CStr(msg)[p0..p1]))
    ensures Decide(received, msg, dir, env) == FileOutcome(CStr(msg)[m0..m1], CStr(msg)[u0..u1], dir, env)
  {
    TokeniseLaidOut(CStr(msg), m0, m1, u0, u1, p0, p1);
  }

  /** A GET for an existing file that is no script sends the header and the file's bytes. */
  lemma GetOfStaticFile(urlPath: string, dir: string, env: Env)
    requires !IsScript(ResolvedUrl(urlPath)) && dir + ResolvedUrl(urlPath) in env.files
    ensures BytesSent(FileOutcome("GET", urlPath, dir, env)) == HTTP_200_RES + env.files[dir + ResolvedUrl(urlPath)]
  {
    assert ValidReqMethod("GET") by { ValidReqMethodIsExact("GET"); }
  }

  /**
   * End to end for a static file: a message whose C string is laid out as
   * GET, a URL and a valid protocol is answered with the 200 header and the
   * file's bytes.
   */
  lemma StaticFileAnswered(received: int, msg: string, dir: string, env: Env, m0: nat, m1: nat, u0: nat, u1: nat, p0: nat, p1: nat)
    requires received > 0
    requires LaidOut(CStr(msg), m0, m1, u0, u1, p0, p1)
    requires CStr(msg)[m0..m1] == "GET" && ValidHttpProtocol(Some(CStr(msg)[p0..p1]))
    requires !IsScript(ResolvedUrl(CStr(msg)[u0..u1])) && dir + ResolvedUrl(CStr(msg)[u0..u1]) in env.files
    ensures BytesSent(Decide(received, msg, dir, env)) == HTTP_200_RES + env.files[dir + ResolvedUrl(CStr(msg)[u0..u1])]
  {
    var url := CStr(msg)[u0..u1];
    assert Decide(received, msg, dir, env) == FileOutcome("GET", url, dir, env) by {
      LaidOutLineDecided(received, msg, dir, env, m0, m1, u0, u1, p0, p1);
    }
    GetOfStaticFile(url, dir, env);
  }

  /**
   * The same for the request as it arrives: recv stores a NUL-free request
   * line of n bytes, fewer than the buffer holds, in the zeroed buffer and
   * returns n.
   */
  lemma ReceivedRequestAnswered(data: string, dir: string, env: Env, m0: nat, m1: nat, u0: nat, u1: nat, p0: nat, p1: nat)
    requires 0 < |data| < MAX_CLIENT_MSG_LENGTH && NulFree(data)
    requires LaidOut(data, m0, m1, u0, u1, p0, p1)
    requires data[m0..m1] == "GET" && ValidHttpProtocol(Some(data[p0..p1]))
    requires !IsScript(ResolvedUrl(data[u0..u1])) && dir + ResolvedUrl(data[u0..u1]) in env.files
    ensures BytesSent(Decide(|data|, RecvBuffer(data), dir, env)) == HTTP_200_RES + env.files[dir + ResolvedUrl(data[u0..u1])]
  {
    StaticFileAnswered(|data|, RecvBuffer(data), dir, env, m0, m1, u0, u1, p0, p1);
  }

  /** The bytes of a sequence of writes, in order. */
  function Flatten(writes: seq<string>): string
  {
    if writes == [] then [] else writes[0] + Flatten(writes[1..])
  }

  /** Writing one batch and then another sends the bytes of both, in order. */
  lemma {:induction false} FlattenAppend(a: seq<string>, b: seq<string>)
    ensures Flatten(a + b) == Flatten(a) + Flatten(b)
  {
    if a != [] {
      assert (a + b)[0] == a[0];
      assert (a + b)[1..] == a[1..] + b;
      FlattenAppend(a[1..], b);
    } else {
      assert a + b == b;
    }
  }

  /** A chunk of at most 1024 bytes that is not empty. */
  predicate ReadChunk(w: string)
  {
    0 < |w| <= CHUNK_SIZE
  }

  /**
   * The copy loop of the static branch: read up to 1024 bytes and write
   * what was read, until read returns 0. A read from a regular file returns
   * the full 1024 bytes or what is left.
   */
  method StreamFile(contents: string) returns (writes: seq<string>)
    ensures Flatten(writes) == contents
    ensures forall w :: w in writes ==> ReadChunk(w)
  {
    writes := [];
    var offset := 0;
    while offset < |contents|
      invariant 0 <= offset <= |contents|
      invariant Flatten(writes) == contents[..offset]
      invariant forall w :: w in writes ==> ReadChunk(w)
      decreases |contents| - offset
    {
      var n := if |contents| - offset < CHUNK_SIZE then |contents| - offset else CHUNK_SIZE;
      var chunk := contents[offset..offset + n];
      FlattenAppend(writes, [chunk]);
      assert Flatten([chunk]) == chunk;
      assert contents[..offset + n] == contents[..offset] + chunk;
      writes := writes + [chunk];
      offset := offset + n;
    }
    assert contents[..offset] == contents;
  }

  /**
   * How many bytes one fgets(buf, 1024, f) takes from the unread output
   * s, counting from i: it stops after a newline, at the end, or when 1023
   * bytes are stored.
   */
  function LineLength(s: string, i: nat): (n: nat)
    requires i <= |s| && i < CHUNK_SIZE
    ensures i <= n <= |s| && n < CHUNK_SIZE
    ensures i < |s| && i < CHUNK_SIZE - 1 ==> i < n
    ensures forall k :: i <= k < n - 1 ==> s[k] != '\n'
    ensures n == |s| || n == CHUNK_SIZE - 1 || s[n - 1] == '\n'
    decreases |s| - i
  {
    if i == |s| || i == CHUNK_SIZE - 1 then i
    else if s[i] == '\n' then i + 1
    else LineLength(s, i + 1)
  }

  /** A chunk fgets can return: 1 to 1023 bytes with a newline, if any, only at the end. */
  predicate LineChunk(w: string)
  {
    0 < |w| < CHUNK_SIZE && forall k :: 0 <= k < |w| - 1 ==> w[k] != '\n'
  }

  /** A chunk after which fgets would have read more had it been allowed to: it ends a line or fills the buffer. */
  predicate ChunkEnded(w: string)
  {
    |w| == CHUNK_SIZE - 1 || (w != [] && w[|w| - 1] == '\n')
  }

  /** One fgets(buf, 1024, f) on the unread output: the bytes up to and including the first newline, at most 1023 of them. */
  function FgetsLine(rest: string): (line: string)
    requires rest != []
    ensures LineChunk(line) && line <= rest
    ensures line == rest || ChunkEnded(line)
  {
    var n := LineLength(rest, 0);
    assert forall k :: 0 <= k < n ==> rest[..n][k] == rest[k];
    rest[..n]
  }

  /**
   * The copy loop of the script branch: fgets a line of at most 1023 bytes
   * and write it, until the output is used up. Every chunk but the last
   * ends a line or fills the buffer.
   */
  method StreamScript(output: string) returns (writes: seq<string>)
    ensures Flatten(writes) == output
    ensures forall j :: 0 <= j < |writes| ==> LineChunk(writes[j])
    ensures forall j :: 0 <= j < |writes| - 1 ==> ChunkEnded(writes[j])
  {
    writes := [];
    var pos := 0;
    while pos < |output|
      invariant 0 <= pos <= |output|
      invariant Flatten(writes) == output[..pos]
      invariant forall j :: 0 <= j < |writes| ==> LineChunk(writes[j])
      invariant forall j :: 0 <= j < |writes| - 1 ==> ChunkEnded(writes[j])
      invariant writes != [] && pos < |output| ==> ChunkEnded(writes[|writes| - 1])
      decreases |output| - pos
    {
      var chunk := FgetsLine(output[pos..]);
      FlattenAppend(writes, [chunk]);
      assert Flatten([chunk]) == chunk;
      assert output[..pos + |chunk|] == output[..pos] + chunk;
      writes := writes + [chunk];
      pos := pos + |chunk|;
    }
    assert output[..pos] == output;
  }

  /**
   * respond_with_file: the status and the writes it makes. A refused
   * method or a failed open returns 1 having sent nothing; a script or a
   * static file returns SUCCESS having sent the 200 header as its own
   * write and then the body.
   */
  method RespondWithFile(requestMethod: string, urlPath: string, dir: string, env: Env) returns (status: int, writes: seq<string>)
    ensures Flatten(writes) == BytesSent(FileOutcome(requestMethod, urlPath, dir, env))
    ensures status == INTENDED_ERROR <==> writes == []
    ensures status == SUCCESS <==> FileOutcome(requestMethod, urlPath, dir, env).StaticFile? || FileOutcome(requestMethod, urlPath, dir, env).Script?
    ensures writes != [] ==> writes[0] == HTTP_200_RES
  {
    if !ValidReqMethod(requestMethod) {
      return CheckError(INTENDED_ERROR, NO_EXIT_ON_ERROR).status, [];
    }
    var u := ResolvedUrl(urlPath);
    var path := dir + u;
    var header := LiteralBytes(HTTP_200_RES, OK_HEADER_LENGTH);
    if IsScript(u) {
      var command := PHP_COMMAND + path;
      var body := StreamScript(env.php(command));
      FlattenAppend([header], body);
      return SUCCESS, [header] + body;
    }
    if path !in env.files {
      return CheckError(INTENDED_ERROR, NO_EXIT_ON_ERROR).status, [];
    }
    var body := StreamFile(env.files[path]);
    FlattenAppend([header], body);
    return SUCCESS, [header] + body;
  }

  /**
   * respond_to_client: always returns SUCCESS, whatever respond_with_file
   * returned, and writes exactly the bytes of the decision.
   */
  method RespondToClient(received: int, msg: string, dir: string, env: Env) returns (status: int, writes: seq<string>)
    ensures status == SUCCESS
    ensures Flatten(writes) == BytesSent(Decide(received, msg, dir, env))
  {
    writes := [];
    if received > 0 {
      var line := Tokenise(CStr(msg));
      if ValidHttpProtocol(line.httpProtocol) {
        var _, fileWrites := RespondWithFile(line.requestMethod.value, line.urlPath.value, dir, env);
        writes := fileWrites;
      } else {
        writes := [LiteralBytes(HTTP_400_RES, BAD_REQUEST_LENGTH)];
        assert Flatten(writes) == writes[0] + Flatten([]);
      }
    }
    return SUCCESS, writes;
  }
}
