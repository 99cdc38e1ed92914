/**
 * The request head parsing and status-line writing of DebugHttpServer.cs: the request line
 * (a simplified form of section 3 of RFC 9112), the field lines up to the empty line
 * (section 5 of RFC 9112), and the status line (section 4 of RFC 9112) with the reason phrases
 * of section 15 of RFC 9110.
 *
 * The request stream is the sequence of lines `StreamReader.ReadLine` returns, which carry no
 * line terminators; reading past the last line gives null.
 */
module HttpHead {
  import opened Wrappers

  datatype Method = GET | POST | Other

  /** Why reading the head throws: no request line at all (`Regex.Match(null)`), or a header given twice (`Dictionary.Add`). */
  datatype Fault = NoRequestLine | DuplicateHeader(key: string)

  /**
   * What the `Context` constructor leaves: a request line that does not match gives method
   * `Other` and null uri, headers and body; otherwise the method, the uri, the header fields,
   * and the lines left to read as the body.
   */
  datatype Head =
    | Unmatched
    | Head(requestMethod: Method, uri: string, headers: map<string, string>, body: seq<string>)

  // Request line: ^(?<method>[A-Z]+) (?<uri>[^ ]+) HTTP/1\.1$

  predicate Upper(c: char)
  {
    'A' <= c <= 'Z'
  }

  /** The first index of c in s, if any. */
  function IndexOf(s: string, c: char): (r: Option<nat>)
    ensures r.Some? ==> r.value < |s| && s[r.value] == c && c !in s[..r.value]
    ensures r.None? ==> c !in s
  {
    if |s| == 0 then None
    else if s[0] == c then Some(0)
    else match IndexOf(s[1..], c)
      case None => None
      case Some(i) => assert s[..i + 1] == [s[0]] + s[1..][..i]; Some(i + 1)
  }

  /** The method and uri groups of a request line that matches, or nothing. */
  function MatchRequestLine(line: string): Option<(string, string)>
  {
    match IndexOf(line, ' ')
    case None => None
    case Some(i) =>
      var token, rest := line[..i], line[i + 1..];
      match IndexOf(rest, ' ')
      case None => None
      case Some(j) =>
        if 0 < i && (forall k :: 0 <= k < i ==> Upper(token[k])) && 0 < j && rest[j..] == " HTTP/1.1"
        then Some((token, rest[..j]))
        else None
  }

  /** The pattern as a description of the whole line: upper-case letters, a space, a uri without spaces, then " HTTP/1.1". */
  predicate IsRequestLine(line: string, token: string, uri: string)
  {
    0 < |token| && (forall k :: 0 <= k < |token| ==> Upper(token[k])) &&
    0 < |uri| && ' ' !in uri &&
    line == token + " " + uri + " HTTP/1.1"
  }

  /** The first occurrence is the one with no earlier occurrence. */
  lemma IndexOfFirst(s: string, c: char, i: nat)
    requires i < |s| && s[i] == c && c !in s[..i]
    ensures IndexOf(s, c) == Some(i)
  {
  }

  /** A line the pattern describes is matched, with its method and uri. */
  lemma MatchesRequestLine(line: string, token: string, uri: string)
    requires IsRequestLine(line, token, uri)
    ensures MatchRequestLine(line) == Some((token, uri))
  {
    var i := |token|;
    assert line[..i] == token && line[i] == ' ';
    IndexOfFirst(line, ' ', i);
    var rest := line[i + 1..];
    assert rest == uri + " HTTP/1.1";
    assert rest[..|uri|] == uri && rest[|uri|] == ' ';
    IndexOfFirst(rest, ' ', |uri|);
    assert rest[|uri|..] == " HTTP/1.1";
  }

  /** What the matcher finds is a method and uri the pattern describes. */
  lemma MatchedIsRequestLine(line: string, token: string, uri: string)
    requires MatchRequestLine(line) == Some((token, uri))
    ensures IsRequestLine(line, token, uri)
  {
    var i := IndexOf(line, ' ').value;
    var rest := line[i + 1..];
    var j := IndexOf(rest, ' ').value;
    assert token == line[..i] && uri == rest[..j];
    assert line == line[..i] + " " + rest;
    assert rest == rest[..j] + rest[j..];
  }

  /** The matcher finds exactly the method and uri the pattern describes. */
  lemma MatchRequestLineIff(line: string, token: string, uri: string)
    ensures MatchRequestLine(line) == Some((token, uri)) <==> IsRequestLine(line, token, uri)
  {
    if IsRequestLine(line, token, uri) {
      MatchesRequestLine(line, token, uri);
    }
    if MatchRequestLine(line) == Some((token, uri)) {
      MatchedIsRequestLine(line, token, uri);
    }
  }

  /** `switch (method)`: "GET" and "POST" are recognised, every other token is `Other`. */
  function MethodOf(token: string): (m: Method)
    ensures m == GET <==> token == "GET"
    ensures m == POST <==> token == "POST"
  {
    if token == "GET" then GET else if token == "POST" then POST else Other
  }

  // Trimming, as `String.Trim` does it: white space as `Char.IsWhiteSpace` defines it.

  /** Tab to carriage return, next line, and the space, line and paragraph separators of Unicode. */
  predicate IsWhiteSpace(c: char)
  {
    var n := c as int;
    (0x09 <= n <= 0x0d) || n == 0x20 || n == 0x85 || n == 0xa0 || n == 0x1680 ||
    (0x2000 <= n <= 0x200a) || n == 0x2028 || n == 0x2029 || n == 0x202f || n == 0x205f || n == 0x3000
  }

  predicate AllWhiteSpace(s: string)
  {
    forall k :: 0 <= k < |s| ==> IsWhiteSpace(s[k])
  }

  function TrimStart(s: string): (t: string)
    ensures |t| <= |s| && (|t| > 0 ==> !IsWhiteSpace(t[0]))
  {
    if |s| > 0 && IsWhiteSpace(s[0]) then TrimStart(s[1..]) else s
  }

  function TrimEnd(s: string): (t: string)
    ensures |t| <= |s| && (|t| > 0 ==> t[0] == s[0] && !IsWhiteSpace(t[|t| - 1]))
  {
    if |s| > 0 && IsWhiteSpace(s[|s| - 1]) then TrimEnd(s[..|s| - 1]) else s
  }

  function Trim(s: string): (t: string)
    ensures |t| <= |s|
    ensures |t| > 0 ==> !IsWhiteSpace(t[0]) && !IsWhiteSpace(t[|t| - 1])
  {
    TrimEnd(TrimStart(s))
  }

  /** Trimming the start drops exactly the leading white space. */
  lemma {:induction false} TrimStartDrops(s: string) returns (i: nat)
    ensures i <= |s| && TrimStart(s) == s[i..] && AllWhiteSpace(s[..i])
    ensures i < |s| ==> !IsWhiteSpace(s[i])
  {
    if |s| > 0 && IsWhiteSpace(s[0]) {
      var i' := TrimStartDrops(s[1..]);
      i := i' + 1;
      assert s[1..][i'..] == s[i..];
      forall k | 1 <= k < i
        ensures IsWhiteSpace(s[..i][k])
      {
        assert s[..i][k] == s[1..][..i'][k - 1];
      }
    } else {
      i := 0;
    }
  }

  /** Trimming the end drops exactly the trailing white space. */
  lemma {:induction false} TrimEndDrops(s: string) returns (j: nat)
    ensures j <= |s| && TrimEnd(s) == s[..j] && AllWhiteSpace(s[j..])
    ensures 0 < j ==> !IsWhiteSpace(s[j - 1])
  {
    if |s| > 0 && IsWhiteSpace(s[|s| - 1]) {
      j := TrimEndDrops(s[..|s| - 1]);
      assert s[..|s| - 1][..j] == s[..j];
      forall k | 0 <= k < |s| - j
        ensures IsWhiteSpace(s[j..][k])
      {
        if k < |s| - 1 - j {
          assert s[j..][k] == s[..|s| - 1][j..][k];
        }
      }
    } else {
      j := |s|;
    }
  }

  /**
   * `Trim` keeps a contiguous part of the text, drops only white space on either side of it,
   * and leaves no white space at either end.
   */
  lemma TrimKeepsMiddle(s: string) returns (i: nat, j: nat)
    ensures i <= j <= |s| && Trim(s) == s[i..j]
    ensures AllWhiteSpace(s[..i]) && AllWhiteSpace(s[j..])
    ensures |Trim(s)| > 0 ==> !IsWhiteSpace(Trim(s)[0]) && !IsWhiteSpace(Trim(s)[|Trim(s)| - 1])
  {
    i := TrimStartDrops(s);
    var j' := TrimEndDrops(s[i..]);
    j := i + j';
    assert s[i..][..j'] == s[i..j];
    assert s[j..] == s[i..][j'..];
  }

  // Field lines

  /** A field line's key and value: the trimmed text before the first ':' and after it; nothing without a ':' or with an empty key. */
  function HeaderField(line: string): (r: Option<(string, string)>)
    ensures r.Some? ==> ':' in line && r.value.0 != []
  {
    match IndexOf(line, ':')
    case None => None
    case Some(i) =>
      var key := Trim(line[..i]);
      if key == [] then None else Some((key, Trim(line[i + 1..])))
  }

  /** Where the head ends: the first empty line, or the end of the stream. */
  function HeadEnd(lines: seq<string>): (e: nat)
    ensures e <= |lines| && (e < |lines| ==> lines[e] == []) && forall k :: 0 <= k < e ==> lines[k] != []
  {
    if |lines| == 0 then 0 else if lines[0] == [] then 0 else 1 + HeadEnd(lines[1..])
  }

  /** The headers of some field lines, in order: each field is added, and a key seen before is an error. */
  function Collect(lines: seq<string>): (r: Result<map<string, string>, string>)
    ensures r.Failure? ==> r.error != []
  {
    if |lines| == 0 then Success(map[])
    else match Collect(lines[..|lines| - 1])
      case Failure(key) => Failure(key)
      case Success(headers) =>
        match HeaderField(lines[|lines| - 1])
        case None => Success(headers)
        case Some((key, value)) => if key in headers then Failure(key) else Success(headers[key := value])
  }

  /** The keys of the field lines among some lines, in order. */
  function Keys(lines: seq<string>): seq<string>
  {
    if |lines| == 0 then []
    else Keys(lines[..|lines| - 1]) + match HeaderField(lines[|lines| - 1]) case None => [] case Some((key, _)) => [key]
  }

  /** No key appears twice. */
  predicate Distinct(keys: seq<string>)
  {
    forall i, j :: 0 <= i < j < |keys| ==> keys[i] != keys[j]
  }

  /** Collecting succeeds exactly when no key is repeated. */
  lemma {:induction false} CollectSucceedsIff(lines: seq<string>)
    ensures Collect(lines).Success? <==> Distinct(Keys(lines))
  {
    if |lines| > 0 {
      var init, last := lines[..|lines| - 1], lines[|lines| - 1];
      CollectSucceedsIff(init);
      var ks := Keys(init);
      match HeaderField(last)
      case None => {
        assert Keys(lines) == ks;
      }
      case Some((key, value)) => {
        assert Keys(lines) == ks + [key];
        if Collect(init).Success? {
          CollectKeys(init);
          if key in ks {
            var i :| 0 <= i < |ks| && ks[i] == key;
            assert Keys(lines)[i] == Keys(lines)[|ks|];
          }
        } else {
          var i, j :| 0 <= i < j < |ks| && ks[i] == ks[j];
          assert Keys(lines)[i] == Keys(lines)[j];
        }
      }
    }
  }

  /** The headers collected have exactly the keys of the field lines. */
  lemma {:induction false} CollectKeys(lines: seq<string>)
    requires Collect(lines).Success?
    ensures Collect(lines).value.Keys == set k | k in Keys(lines)
  {
    if |lines| > 0 {
      var init := lines[..|lines| - 1];
      CollectKeys(init);
      match HeaderField(lines[|lines| - 1])
      case None =>
      case Some((key, value)) =>
        assert Keys(lines) == Keys(init) + [key];
    }
  }

  /** Each field line's key is collected with the value of that line. */
  lemma {:induction false} CollectHolds(lines: seq<string>)
    requires Collect(lines).Success?
    ensures forall k :: 0 <= k < |lines| && HeaderField(lines[k]).Some? ==>
      HeaderField(lines[k]).value.0 in Collect(lines).value &&
      Collect(lines).value[HeaderField(lines[k]).value.0] == HeaderField(lines[k]).value.1
  {
    if |lines| > 0 {
      var init, last := lines[..|lines| - 1], lines[|lines| - 1];
      CollectHolds(init);
      var headers := Collect(init).value;
      forall k | 0 <= k < |lines| && HeaderField(lines[k]).Some?
        ensures HeaderField(lines[k]).value.0 in Collect(lines).value &&
          Collect(lines).value[HeaderField(lines[k]).value.0] == HeaderField(lines[k]).value.1
      {
        if k < |init| {
          assert lines[k] == init[k];
        }
      }
    }
  }

  /** The whole head, as the `Context` constructor reads it from the request stream. */
  function ParseHead(request: seq<string>): (r: Result<Head, Fault>)
    ensures r == Failure(NoRequestLine) <==> |request| == 0
    ensures r == Success(Unmatched) <==> |request| > 0 && MatchRequestLine(request[0]).None?
  {
    if |request| == 0 then Failure(NoRequestLine)
    else match MatchRequestLine(request[0])
      case None => Success(Unmatched)
      case Some((token, uri)) =>
        var rest := request[1..];
        var e := HeadEnd(rest);
        match Collect(rest[..e])
        case Failure(key) => Failure(DuplicateHeader(key))
        case Success(headers) => Success(Head(MethodOf(token), uri, headers, if e < |rest| then rest[e + 1..] else []))
  }

  /**
   * The `Context` constructor: the request line, then field lines until an empty line or the
   * end of the stream; lines without ':' or with an empty key are skipped, and a repeated key
   * throws.
   */
  method ReadHead(request: seq<string>) returns (r: Result<Head, Fault>)
    ensures r == ParseHead(request)
  {
    if |request| == 0 {
      return Failure(NoRequestLine);
    }
    var requestLine := MatchRequestLine(request[0]);
    if requestLine.None? {
      return Success(Unmatched);
    }
    var token, uri := requestLine.value.0, requestLine.value.1;
    var requestMethod := if token == "GET" then GET else if token == "POST" then POST else Other;
    var rest := request[1..];
    ghost var e := HeadEnd(rest);
    var headers: map<string, string> := map[];
    var n := 0;
    while true
      invariant 0 <= n <= e
      invariant Collect(rest[..n]) == Success(headers)
      decreases |rest| - n
    {
      if n == |rest| || rest[n] == [] {
        break;
      }
      var line := rest[n];
      assert rest[..n + 1][..n] == rest[..n] && rest[..n + 1][n] == line;
      var index := IndexOf(line, ':');
      if index.Some? {
        var key := Trim(line[..index.value]);
        if key != [] {
          if key in headers {
            assert HeaderField(line) == Some((key, Trim(line[index.value + 1..])));
            RepeatedKeyFails(rest, n, headers, key, Trim(line[index.value + 1..]));
            return Failure(DuplicateHeader(key));
          }
          headers := headers[key := Trim(line[index.value + 1..])];
        }
      }
      n := n + 1;
    }
    assert n == e;
    var body := if n < |rest| then rest[n + 1..] else [];
    r := Success(Head(requestMethod, uri, headers, body));
  }

  /** A field line inside the head whose key was seen before fails the whole head with that key. */
  lemma RepeatedKeyFails(lines: seq<string>, n: nat, headers: map<string, string>, key: string, value: string)
    requires n < HeadEnd(lines) && Collect(lines[..n]) == Success(headers)
    requires HeaderField(lines[n]) == Some((key, value)) && key in headers
    ensures Collect(lines[..HeadEnd(lines)]) == Failure(key)
  {
    var e := HeadEnd(lines);
    assert lines[..n + 1][..n] == lines[..n];
    assert Collect(lines[..n + 1]) == Failure(key);
    assert lines[..e][..n + 1] == lines[..n + 1];
    CollectPrefixFails(lines[..e], n + 1);
  }

  /**
   * A repeated key makes the head fail only when it comes before the end of the head: a key
   * may repeat in the body, after the empty line.
   */
  lemma {:induction false} CollectPrefixFails(lines: seq<string>, n: nat)
    requires n <= |lines| && Collect(lines[..n]).Failure?
    ensures Collect(lines) == Collect(lines[..n])
    decreases |lines| - n
  {
    if n < |lines| {
      assert lines[..n + 1][..n] == lines[..n];
      CollectPrefixFails(lines, n + 1);
    } else {
      assert lines[..n] == lines;
    }
  }

  // Status line

  const OK := 200
  const BadRequest := 400
  const NotFound := 404
  const MethodNotAllowed := 405
  const NotImplemented := 501
  const ServiceUnavailable := 503

  /** The status codes the server names. */
  predicate Known(code: int)
  {
    code == OK || code == BadRequest || code == NotFound || code == MethodNotAllowed || code == NotImplemented || code == ServiceUnavailable
  }

  /** The reason phrases of section 15 of RFC 9110, for the codes of classes 1xx to 5xx it defines. */
  function RfcReason(code: int): Option<string>
  {
    match code
    case 100 => Some("Continue")
    case 101 => Some("Switching Protocols")
    case 200 => Some("OK")
    case 201 => Some("Created")
    case 202 => Some("Accepted")
    case 203 => Some("Non-Authoritative Information")
    case 204 => Some("No Content")
    case 205 => Some("Reset Content")
    case 206 => Some("Partial Content")
    case 300 => Some("Multiple Choices")
    case 301 => Some("Moved Permanently")
    case 302 => Some("Found")
    case 303 => Some("See Other")
    case 304 => Some("Not Modified")
    case 305 => Some("Use Proxy")
    case 307 => Some("Temporary Redirect")
    case 308 => Some("Permanent Redirect")
    case 400 => Some("Bad Request")
    case 401 => Some("Unauthorized")
    case 402 => Some("Payment Required")
    case 403 => Some("Forbidden")
    case 404 => Some("Not Found")
    case 405 => Some("Method Not Allowed")
    case 406 => Some("Not Acceptable")
    case 407 => Some("Proxy Authentication Required")
    case 408 => Some("Request Timeout")
    case 409 => Some("Conflict")
    case 410 => Some("Gone")
    case 411 => Some("Length Required")
    case 412 => Some("Precondition Failed")
    case 413 => Some("Content Too Large")
    case 414 => Some("URI Too Long")
    case 415 => Some("Unsupported Media Type")
    case 416 => Some("Range Not Satisfiable")
    case 417 => Some("Expectation Failed")
    case 421 => Some("Misdirected Request")
    case 422 => Some("Unprocessable Content")
    case 426 => Some("Upgrade Required")
    case 500 => Some("Internal Server Error")
    case 501 => Some("Not Implemented")
    case 502 => Some("Bad Gateway")
    case 503 => Some("Service Unavailable")
    case 504 => Some("Gateway Timeout")
    case 505 => Some("HTTP Version Not Supported")
    case _ => None
  }

  /** The three decimal digits of a status code. */
  function Digits(code: int): string
    requires 100 <= code <= 999
  {
    var digit := "0123456789";
    [digit[code / 100], digit[code / 10 % 10], digit[code % 10]]
  }

  /**
   * `ToReasonPhrase`: for each status code the server names, the code in three digits, a space
   * and the reason phrase RFC 9110 gives it; for any other value, nothing.
   */
  function ToReasonPhrase(code: int): (r: string)
    ensures !Known(code) ==> r == ""
  {
    if code == OK then "200 OK"
    else if code == BadRequest then "400 Bad Request"
    else if code == NotFound then "404 Not Found"
    else if code == MethodNotAllowed then "405 Method Not Allowed"
    else if code == NotImplemented then "501 Not Implemented"
    else if code == ServiceUnavailable then "503 Service Unavailable"
    else ""
  }

  /** The phrase of a code is the code in three digits, a space and the reason RFC 9110 gives it. */
  predicate FollowsRfc(code: int)
    requires 100 <= code <= 999
  {
    RfcReason(code).Some? && ToReasonPhrase(code) == Digits(code) + " " + RfcReason(code).value
  }

  // One code at a time: with the code left open, the reason table is too large to unfold at once.
  lemma FollowsRfc200()
    ensures FollowsRfc(200)
  {
    assert Digits(200) == "200";
    assert RfcReason(200) == Some("OK");
    assert ToReasonPhrase(200) == "200" + " " + "OK";
  }

  lemma FollowsRfc400()
    ensures FollowsRfc(400)
  {
    assert Digits(400) == "400";
    assert RfcReason(400) == Some("Bad Request");
    assert ToReasonPhrase(400) == "400" + " " + "Bad Request";
  }

  lemma FollowsRfc404()
    ensures FollowsRfc(404)
  {
    assert Digits(404) == "404";
    assert RfcReason(404) == Some("Not Found");
    assert ToReasonPhrase(404) == "404" + " " + "Not Found";
  }

  lemma FollowsRfc405()
    ensures FollowsRfc(405)
  {
    assert Digits(405) == "405";
    assert RfcReason(405) == Some("Method Not Allowed");
    assert ToReasonPhrase(405) == "405" + " " + "Method Not Allowed";
  }

  lemma FollowsRfc501()
    ensures FollowsRfc(501)
  {
    assert Digits(501) == "501";
    assert RfcReason(501) == Some("Not Implemented");
    assert ToReasonPhrase(501) == "501" + " " + "Not Implemented";
  }

  lemma FollowsRfc503()
    ensures FollowsRfc(503)
  {
    assert Digits(503) == "503";
    assert RfcReason(503) == Some("Service Unavailable");
    assert ToReasonPhrase(503) == "503" + " " + "Service Unavailable";
  }

  /** For each status code the server names, the phrase is the code in three digits, a space and the reason RFC 9110 gives it. */
  lemma ReasonPhrasesFollowRfc(code: int)
    requires Known(code)
    ensures FollowsRfc(code)
  {
    if code == OK {
      FollowsRfc200();
    } else if code == BadRequest {
      FollowsRfc400();
    } else if code == NotFound {
      FollowsRfc404();
    } else if code == MethodNotAllowed {
      FollowsRfc405();
    } else if code == NotImplemented {
      FollowsRfc501();
    } else {
      FollowsRfc503();
    }
  }

  /** The response side of a `Context`: the text written to the response stream so far. */
  class Context {
    var response: string

    constructor()
      ensures response == []
    {
      response := [];
    }

    /**
     * `WriteStatus`: the status line, which is the version, a space, the phrase of the code
     * (by `ReasonPhrasesFollowRfc`, the three digits and the RFC 9110 reason) and CR LF.
     */
    method WriteStatus(code: int)
      modifies this
      ensures response == old(response) + "HTTP/1.1 " + ToReasonPhrase(code) + "\r\n"
    {
      response := response + "HTTP/1.1 ";
      response := response + ToReasonPhrase(code);
      response := response + "\r\n";
    }
  }
}
