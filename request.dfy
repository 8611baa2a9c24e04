/**
 * Reading the request line: the three strtok calls of respond_to_client and
 * the two validators. This is a loose subset of the Request-Line of section
 * 5.1 of RFC 1945.
 */
module Request {
  import opened Wrappers
  import opened LibC
  import opened ServerH

  /** The delimiter sets of the three strtok calls. */
  const METHOD_DELIMS: string := " \t\n"
  const URL_DELIMS: string := " \t"
  const PROTOCOL_DELIMS: string := " \t\n"

  /** The three tokens; a token strtok did not find is None (a NULL pointer in the C code). */
  datatype RequestLine = RequestLine(requestMethod: Option<string>, urlPath: Option<string>, httpProtocol: Option<string>)

  /** A token that strtok may return for a given delimiter set. */
  predicate IsToken(t: string, delims: string)
  {
    t != [] && NoneIn(t, delims)
  }

  /**
   * The three strtok calls on the C string the received buffer holds:
   * the method ends at space, tab or LF; the URL only at space or tab; the
   * protocol at space, tab or LF. A later token is only found when the
   * earlier ones were.
   */
  function Tokenise(line: string): (r: RequestLine)
    ensures r.requestMethod.Some? ==> IsToken(r.requestMethod.value, METHOD_DELIMS)
    ensures r.urlPath.Some? ==> IsToken(r.urlPath.value, URL_DELIMS) && r.requestMethod.Some?
    ensures r.httpProtocol.Some? ==> IsToken(r.httpProtocol.value, PROTOCOL_DELIMS) && r.urlPath.Some?
    ensures NulFree(line) ==> TokensNulFree(r)
  {
    var m := NextToken(line, 0, METHOD_DELIMS);
    var u := NextToken(line, m.resume, URL_DELIMS);
    var p := NextToken(line, u.resume, PROTOCOL_DELIMS);
    RequestLine(m.token, u.token, p.token)
  }

  /** Every token found is a C string. */
  predicate TokensNulFree(r: RequestLine)
  {
    (r.requestMethod.Some? ==> NulFree(r.requestMethod.value)) &&
    (r.urlPath.Some? ==> NulFree(r.urlPath.value)) &&
    (r.httpProtocol.Some? ==> NulFree(r.httpProtocol.value))
  }

  /** valid_req_method: a 4-byte strncmp against "GET\0". */
  predicate ValidReqMethod(requestMethod: string)
  {
    StrnEq(requestMethod, GET_REQUEST, METHOD_COMPARE_LENGTH)
  }

  /** valid_http_protocol: an 8-byte strncmp against either protocol literal; a missing token is invalid. */
  predicate ValidHttpProtocol(httpProtocol: Option<string>)
  {
    httpProtocol.Some? &&
    (StrnEq(httpProtocol.value, HTTP_1_0, PROTOCOL_COMPARE_LENGTH) ||
     StrnEq(httpProtocol.value, HTTP_1_1, PROTOCOL_COMPARE_LENGTH))
  }

  /** Because the NUL of "GET\0" lies inside the compared bytes, the method check is an exact match. */
  lemma ValidReqMethodIsExact(requestMethod: string)
    ensures ValidReqMethod(requestMethod) <==> CStr(requestMethod) == "GET"
  {
    assert GET_REQUEST == "GET" + "\0";
    StrnEqLiteralExact(requestMethod, "GET");
  }

  /** The protocol check is a prefix test: the C string starts with HTTP/1.0 or HTTP/1.1. */
  lemma ValidHttpProtocolIsPrefix(httpProtocol: string)
    ensures ValidHttpProtocol(Some(httpProtocol)) <==> HTTP_1_0 <= CStr(httpProtocol) || HTTP_1_1 <= CStr(httpProtocol)
  {
    StrnEqLiteralPrefix(httpProtocol, HTTP_1_0);
    StrnEqLiteralPrefix(httpProtocol, HTTP_1_1);
  }

  /** Methods that differ from GET in case, length or a trailing byte are rejected. */
  lemma OnlyExactGetAccepted()
    ensures ValidReqMethod("GET")
    ensures !ValidReqMethod("GETX") && !ValidReqMethod("get") && !ValidReqMethod("GE")
    ensures !ValidReqMethod("POST") && !ValidReqMethod("")
  {
    ValidReqMethodIsExact("GET");
    ValidReqMethodIsExact("GETX");
    ValidReqMethodIsExact("get");
    ValidReqMethodIsExact("GE");
    ValidReqMethodIsExact("POST");
    ValidReqMethodIsExact("");
  }

  /** The carriage return a CRLF line leaves on the protocol token does not make it invalid. */
  lemma ProtocolCarriageReturnAccepted()
    ensures ValidHttpProtocol(Some("HTTP/1.1\r"))
  {
    assert StrnEq("HTTP/1.1\r", HTTP_1_1, PROTOCOL_COMPARE_LENGTH);
  }

  /** Any bytes after the eight compared ones are ignored. */
  lemma ProtocolTrailingBytesAccepted()
    ensures ValidHttpProtocol(Some("HTTP/1.0abc"))
  {
    assert StrnEq("HTTP/1.0abc", HTTP_1_0, PROTOCOL_COMPARE_LENGTH);
  }

  /** Another version, or another case, is rejected. */
  lemma ProtocolMismatchRejected()
    ensures !ValidHttpProtocol(Some("HTTP/1.2")) && !ValidHttpProtocol(Some("http/1.0"))
  {
  }

  /** A truncated literal, or no token at all, is rejected. */
  lemma ProtocolMissingRejected()
    ensures !ValidHttpProtocol(Some("HTTP/1.")) && !ValidHttpProtocol(None)
  {
  }

  /**
   * The layout of a request line that the three calls accept, by position:
   * the bytes before m0 are method delimiters, s[m0..m1] is the method and
   * s[m1] ends it; the bytes up to u0 are blanks, s[u0..u1] is the URL and
   * the blank s[u1] ends it; the bytes up to p0 are protocol delimiters and
   * s[p0..p1] is the protocol, followed by the end or a protocol delimiter.
   */
  predicate LaidOut(s: string, m0: nat, m1: nat, u0: nat, u1: nat, p0: nat, p1: nat)
  {
    m0 < m1 < u0 < u1 < p0 < p1 <= |s| &&
    AllIn(s[0..m0], METHOD_DELIMS) && NoneIn(s[m0..m1], METHOD_DELIMS) && s[m1] in METHOD_DELIMS &&
    AllIn(s[m1 + 1..u0], URL_DELIMS) && NoneIn(s[u0..u1], URL_DELIMS) && s[u1] in URL_DELIMS &&
    AllIn(s[u1 + 1..p0], PROTOCOL_DELIMS) && NoneIn(s[p0..p1], PROTOCOL_DELIMS) &&
    (p1 == |s| || s[p1] in PROTOCOL_DELIMS)
  }

  /** Tokenising a line of that layout recovers exactly its method, URL and protocol. */
  lemma TokeniseLaidOut(s: string, m0: nat, m1: nat, u0: nat, u1: nat, p0: nat, p1: nat)
    requires LaidOut(s, m0, m1, u0, u1, p0, p1)
    ensures Tokenise(s) == RequestLine(Some(s[m0..m1]), Some(s[u0..u1]), Some(s[p0..p1]))
  {
    var m := NextToken(s, 0, METHOD_DELIMS);
    assert m == Scan(Some(s[m0..m1]), m1 + 1) by { NextTokenAt(s, 0, m0, m1, METHOD_DELIMS); }
    var u := NextToken(s, m.resume, URL_DELIMS);
    assert u == Scan(Some(s[u0..u1]), u1 + 1) by { NextTokenAt(s, m1 + 1, u0, u1, URL_DELIMS); }
    var p := NextToken(s, u.resume, PROTOCOL_DELIMS);
    assert p.token == Some(s[p0..p1]) by { NextTokenAt(s, u1 + 1, p0, p1, PROTOCOL_DELIMS); }
  }

  /** Where the three tokens of a line with a protocol token lie. */
  lemma {:induction false} LayoutOfTokens(s: string) returns (m0: nat, m1: nat, u0: nat, u1: nat, p0: nat, p1: nat)
    requires Tokenise(s).httpProtocol.Some?
    ensures LaidOut(s, m0, m1, u0, u1, p0, p1)
  {
    m0, m1 := NextTokenSpan(s, 0, METHOD_DELIMS);
    assert m1 < |s| by { NextTokenAtEnd(s, URL_DELIMS); }
    u0, u1 := NextTokenSpan(s, m1 + 1, URL_DELIMS);
    assert u1 < |s| by { NextTokenAtEnd(s, PROTOCOL_DELIMS); }
    p0, p1 := NextTokenSpan(s, u1 + 1, PROTOCOL_DELIMS);
  }

  /**
   * The three calls find a protocol token exactly when the line has that
   * layout; a line with fewer than three tokens, or whose method or URL runs
   * to the end of the line, leaves the protocol NULL.
   */
  lemma TokeniseHasLayout(s: string)
    ensures Tokenise(s).httpProtocol.Some? <==>
            exists m0, m1, u0, u1, p0, p1 :: LaidOut(s, m0, m1, u0, u1, p0, p1)
  {
    if Tokenise(s).httpProtocol.Some? {
      var m0, m1, u0, u1, p0, p1 := LayoutOfTokens(s);
    }
    if exists m0, m1, u0, u1, p0, p1 :: LaidOut(s, m0, m1, u0, u1, p0, p1) {
      var m0, m1, u0, u1, p0, p1 :| LaidOut(s, m0, m1, u0, u1, p0, p1);
      TokeniseLaidOut(s, m0, m1, u0, u1, p0, p1);
    }
  }

  /** A CRLF request line: the carriage return is no delimiter and stays on the protocol token. */
  lemma CrlfLineKeepsCarriageReturn()
    ensures Tokenise("GET / HTTP/1.1\r\n") == RequestLine(Some("GET"), Some("/"), Some("HTTP/1.1\r"))
  {
    var s := "GET / HTTP/1.1\r\n";
    assert s[0..3] == "GET" && s[4..5] == "/" && s[6..15] == "HTTP/1.1\r";
    assert s[0..0] == [] && s[4..4] == [] && s[6..6] == [] && s[15] == '\n';
    assert LaidOut(s, 0, 3, 4, 5, 6, 15);
    TokeniseLaidOut(s, 0, 3, 4, 5, 6, 15);
  }

  /** A LF does not end the URL: a two-token first line takes its URL and protocol from what follows. */
  lemma UrlRunsPastLineEnd()
    ensures Tokenise("GET /a\nHost: x HTTP/1.0") == RequestLine(Some("GET"), Some("/a\nHost:"), Some("x"))
  {
    var s := "GET /a\nHost: x HTTP/1.0";
    assert s[0..0] == [] && s[0..3] == "GET" && s[4..4] == [] && s[4..12] == "/a\nHost:";
    assert s[13..13] == [] && s[13..14] == "x" && s[14] == ' ';
    assert LaidOut(s, 0, 3, 4, 12, 13, 14);
    TokeniseLaidOut(s, 0, 3, 4, 12, 13, 14);
  }

  /** With only two tokens the protocol is missing and the line is invalid. */
  lemma TwoTokensHaveNoProtocol()
    ensures Tokenise("GET /\n").httpProtocol == None
    ensures !ValidHttpProtocol(Tokenise("GET /\n").httpProtocol)
  {
    var s := "GET /\n";
    NextTokenAt(s, 0, 0, 3, METHOD_DELIMS);
    NextTokenAt(s, 4, 4, 6, URL_DELIMS);
    NextTokenAtEnd(s, PROTOCOL_DELIMS);
  }
}
