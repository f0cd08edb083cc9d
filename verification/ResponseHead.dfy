/** The head of an HTTP response: ResponseHeader::to_string of include/crab/http/types.hxx and ResponseParser of
    include/crab/http/response_parser.hxx (section 3 of RFC 7230). */
module ResponseHeaders {
  import opened HttpChars
  import opened IntegerText

  datatype Header = Header(name: string, value: string)

  datatype ResponseHeader = ResponseHeader(
    httpVersionMajor: nat, httpVersionMinor: nat, status: nat, statusText: string,
    keepAlive: bool, contentLength: Option<nat>, transferEncodingChunked: bool, transferEncodings: seq<string>,
    connectionUpgrade: bool, upgradeWebsocket: bool, contentTypeMime: string, contentTypeSuffix: string,
    secWebsocketAccept: string, date: string, server: string, headers: seq<Header>)

  const EMPTY := ResponseHeader(1, 1, 0, "", true, None, false, [], false, false, "", "", "", "", "", [])

  const UINT64 := IntType(false, 8)

  function StatusToString(status: nat): (text: string)
    ensures text != ""
  {
    match status
    case 101 => "Switching Protocols"
    case 200 => "OK"
    case 400 => "Bad request"
    case 401 => "Unauthorized"
    case 403 => "Forbidden"
    case 404 => "Not found"
    case 422 => "Unprocessable Entity"
    case 500 => "Internal Error"
    case 501 => "Not implemented"
    case 502 => "Service temporarily overloaded"
    case 503 => "Gateway timeout"
    case _ => "Unknown"
  }

  /** The position of the first ';', space or tab, or the end. */
  function FirstSeparator(value: string): (i: nat)
    ensures i <= |value|
    ensures forall j :: 0 <= j < i ==> value[j] != ';' && !IsSp(value[j])
    ensures i < |value| ==> value[i] == ';' || IsSp(value[i])
  {
    if value == "" || value[0] == ';' || IsSp(value[0]) then 0 else 1 + FirstSeparator(value[1..])
  }

  function TrimLeft(value: string): (r: string)
    ensures |r| <= |value|
  {
    if value != "" && IsSp(value[0]) then TrimLeft(value[1..]) else value
  }

  /** parse_content_type_value: spaces alone may stand for the semicolon. */
  function ContentType(value: string): (string, string) {
    var start := FirstSeparator(value);
    var behind := TrimLeft(value[start..]);
    (ToLower(value[..start]), TrimLeft(if behind != "" && behind[0] == ';' then behind[1..] else behind))
  }

  // ---------- printing ----------

  function LineText(l: Header): string {
    l.name + ": " + l.value + CRLF
  }

  function LinesText(ls: seq<Header>): string {
    if ls == [] then "" else LineText(ls[0]) + LinesText(ls[1..])
  }

  lemma {:induction false} LinesTextAppend(a: seq<Header>, b: seq<Header>)
    ensures LinesText(a + b) == LinesText(a) + LinesText(b)
  {
    if a == [] {
      assert a + b == b;
    } else {
      assert (a + b)[0] == a[0] && (a + b)[1..] == a[1..] + b;
      LinesTextAppend(a[1..], b);
    }
  }

  function TextLine(name: string, value: string): seq<Header> {
    if value == "" then [] else [Header(name, value)]
  }

  function TypeLine(h: ResponseHeader): seq<Header> {
    TextLine("content-type",
      if h.contentTypeMime == "" || h.contentTypeSuffix == "" then h.contentTypeMime
      else h.contentTypeMime + "; " + h.contentTypeSuffix)
  }

  function LengthLine(h: ResponseHeader): seq<Header> {
    if h.contentLength.Some? then [Header("content-length", DigitsOf(h.contentLength.value))] else []
  }

  /** HTTP/1.0 closes and HTTP/1.1 keeps the connection unless the header says otherwise. */
  predicate SaysOtherwise(h: ResponseHeader) {
    h.httpVersionMajor == 1 && ((h.httpVersionMinor == 0 && h.keepAlive) || (h.httpVersionMinor == 1 && !h.keepAlive))
  }

  function ConnectionLines(h: ResponseHeader): seq<Header> {
    if SaysOtherwise(h) then [Header("connection", if h.keepAlive then "keep-alive" else "close")]
    else if h.connectionUpgrade && h.upgradeWebsocket then [Header("connection", "upgrade"), Header("upgrade", "websocket")]
    else []
  }

  function JoinComma(parts: seq<string>): string {
    if parts == [] then "" else if |parts| == 1 then parts[0] else parts[0] + ", " + JoinComma(parts[1..])
  }

  function EncodingLine(h: ResponseHeader): seq<Header> {
    var parts := h.transferEncodings + if h.transferEncodingChunked then ["chunked"] else [];
    if parts == [] then [] else [Header("transfer-encoding", JoinComma(parts))]
  }

  /** The header lines in the order they are printed; `server` is not among them. */
  function Lines(h: ResponseHeader): seq<Header> {
    TextLine("date", h.date) + TypeLine(h) + LengthLine(h) + ConnectionLines(h) + EncodingLine(h) + h.headers
    + TextLine("sec-websocket-accept", h.secWebsocketAccept)
  }

  function StatusText(h: ResponseHeader): (text: string)
    ensures text != ""
  {
    if h.statusText == "" then StatusToString(h.status) else h.statusText
  }

  function StatusLine(h: ResponseHeader): string {
    "HTTP/" + DigitsOf(h.httpVersionMajor) + "." + DigitsOf(h.httpVersionMinor) + " " + DigitsOf(h.status) + " "
    + StatusText(h) + CRLF
  }

  function Text(h: ResponseHeader): string {
    StatusLine(h) + LinesText(Lines(h)) + CRLF
  }

  lemma OneLine(l: Header)
    ensures LinesText([l]) == LineText(l)
  {
    assert [l][1..] == [];
  }

  /** The lines streamed so far. */
  ghost predicate Streamed(head: string, ss: string, ls: seq<Header>) {
    ss == head + LinesText(ls)
  }

  lemma StreamedMore(head: string, ss: string, ls: seq<Header>, more: seq<Header>)
    requires Streamed(head, ss, ls)
    ensures Streamed(head, ss + LinesText(more), ls + more)
  {
    LinesTextAppend(ls, more);
  }

  /** ss << name << ": " << value << "\r\n" */
  method StreamLine(ghost head: string, ss: string, ghost ls: seq<Header>, name: string, value: string)
    returns (r: string)
    requires Streamed(head, ss, ls)
    ensures Streamed(head, r, ls + [Header(name, value)])
  {
    OneLine(Header(name, value));
    StreamedMore(head, ss, ls, [Header(name, value)]);
    r := ss + (name + ": " + value + CRLF);
  }

  /** A line for a field that is not empty. */
  method StreamField(ghost head: string, ss: string, ghost ls: seq<Header>, name: string, value: string) returns (r: string)
    requires Streamed(head, ss, ls)
    ensures Streamed(head, r, ls + TextLine(name, value))
  {
    r := ss;
    if value != "" {
      r := StreamLine(head, ss, ls, name, value);
    } else {
      assert ls + TextLine(name, value) == ls;
    }
  }

  method StreamType(ghost head: string, ss: string, ghost ls: seq<Header>, h: ResponseHeader) returns (r: string)
    requires Streamed(head, ss, ls)
    ensures Streamed(head, r, ls + TypeLine(h))
  {
    r := ss;
    if h.contentTypeMime != "" {
      r := StreamLine(head, ss, ls, "content-type",
        if h.contentTypeSuffix != "" then h.contentTypeMime + "; " + h.contentTypeSuffix else h.contentTypeMime);
    } else {
      assert ls + TypeLine(h) == ls;
    }
  }

  method StreamLength(ghost head: string, ss: string, ghost ls: seq<Header>, h: ResponseHeader) returns (r: string)
    requires Streamed(head, ss, ls)
    ensures Streamed(head, r, ls + LengthLine(h))
  {
    r := ss;
    if h.contentLength.Some? {
      r := StreamLine(head, ss, ls, "content-length", DigitsOf(h.contentLength.value));
    } else {
      assert ls + LengthLine(h) == ls;
    }
  }

  method StreamConnection(ghost head: string, ss: string, ghost ls: seq<Header>, h: ResponseHeader) returns (r: string)
    requires Streamed(head, ss, ls)
    ensures Streamed(head, r, ls + ConnectionLines(h))
  {
    r := ss;
    if h.httpVersionMajor == 1 && h.httpVersionMinor == 0 && h.keepAlive {
      r := StreamLine(head, ss, ls, "connection", "keep-alive");
    } else if h.httpVersionMajor == 1 && h.httpVersionMinor == 1 && !h.keepAlive {
      r := StreamLine(head, ss, ls, "connection", "close");
    } else if h.connectionUpgrade && h.upgradeWebsocket {
      ghost var one := [Header("connection", "upgrade")];
      r := StreamLine(head, ss, ls, "connection", "upgrade");
      r := StreamLine(head, r, ls + one, "upgrade", "websocket");
      assert ls + one + [Header("upgrade", "websocket")] == ls + ConnectionLines(h);
    } else {
      assert ls + ConnectionLines(h) == ls;
    }
  }

  method StreamEncodings(ghost head: string, ss: string, ghost ls: seq<Header>, h: ResponseHeader) returns (r: string)
    requires Streamed(head, ss, ls)
    ensures Streamed(head, r, ls + EncodingLine(h))
  {
    r := ss;
    var parts := h.transferEncodings + if h.transferEncodingChunked then ["chunked"] else [];
    if parts == [] {
      assert ls + EncodingLine(h) == ls;
    } else {
      var value := StreamComma(parts);
      r := StreamLine(head, ss, ls, "transfer-encoding", value);
    }
  }

  /** ss << (pos++ ? ", " : "") << te, for all of them */
  method StreamComma(parts: seq<string>) returns (value: string)
    requires parts != []
    ensures value == JoinComma(parts)
  {
    value := parts[0];
    var pos := 1;
    while pos < |parts|
      invariant 1 <= pos <= |parts|
      invariant JoinComma(parts) == if pos == |parts| then value else value + ", " + JoinComma(parts[pos..])
    {
      assert parts[pos..][0] == parts[pos] && parts[pos..][1..] == parts[pos + 1..];
      ghost var rest := JoinComma(parts[pos + 1..]);
      assert value + ", " + (parts[pos] + ", " + rest) == value + ", " + parts[pos] + ", " + rest;
      value := value + ", " + parts[pos];
      pos := pos + 1;
    }
  }

  method StreamHeaders(ghost head: string, ss: string, ghost ls: seq<Header>, headers: seq<Header>) returns (r: string)
    requires Streamed(head, ss, ls)
    ensures Streamed(head, r, ls + headers)
  {
    r := ss;
    assert ls + headers[..0] == ls;
    for i := 0 to |headers|
      invariant Streamed(head, r, ls + headers[..i])
    {
      r := StreamLine(head, r, ls + headers[..i], headers[i].name, headers[i].value);
      assert ls + headers[..i] + [headers[i]] == ls + headers[..i + 1];
    }
    assert headers[..|headers|] == headers;
  }

  /** details::to_string_common */
  method ToStringCommon(ghost head: string, ss: string, ghost ls: seq<Header>, h: ResponseHeader) returns (r: string)
    requires Streamed(head, ss, ls)
    ensures Streamed(head, r, ls + TypeLine(h) + LengthLine(h) + ConnectionLines(h) + EncodingLine(h) + h.headers)
  {
    r := StreamType(head, ss, ls, h);
    r := StreamLength(head, r, ls + TypeLine(h), h);
    r := StreamConnection(head, r, ls + TypeLine(h) + LengthLine(h), h);
    r := StreamEncodings(head, r, ls + TypeLine(h) + LengthLine(h) + ConnectionLines(h), h);
    r := StreamHeaders(head, r, ls + TypeLine(h) + LengthLine(h) + ConnectionLines(h) + EncodingLine(h), h.headers);
  }

  /** ResponseHeader::to_string */
  method ToString(h: ResponseHeader) returns (ss: string)
    ensures ss == Text(h)
  {
    ss := "HTTP/" + DigitsOf(h.httpVersionMajor) + "." + DigitsOf(h.httpVersionMinor) + " " + DigitsOf(h.status) + " "
      + StatusText(h) + CRLF;
    ghost var head, date := ss, TextLine("date", h.date);
    ss := StreamField(head, ss, [], "date", h.date);
    assert [] + date == date;
    ss := ToStringCommon(head, ss, date, h);
    ghost var ls := date + TypeLine(h) + LengthLine(h) + ConnectionLines(h) + EncodingLine(h) + h.headers;
    ss := StreamField(head, ss, ls, "sec-websocket-accept", h.secWebsocketAccept);
    ss := ss + CRLF;
  }
}
