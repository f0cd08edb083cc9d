/** Bodies of HTTP messages: the chunks ServerConnection::write makes (include/crab/http/connection.hxx)
    and BodyParser, which takes them apart (include/crab/http/request_parser.hxx). */
module ChunkedBody {
  import opened HttpChars
  import opened Automaton

  const UINT64_MAX: nat := 0xFFFF_FFFF_FFFF_FFFF
  const MAX_CHUNK_HEADER_TOTAL_LENGTH: nat := 256
  const MAX_TRAILERS_TOTAL_LENGTH: nat := 4096

  /** The states of the source, and FAILED for the exceptions. */
  datatype State =
    | CONTENT_LENGTH_BODY
    | CHUNK_SIZE_START
    | CHUNK_SIZE
    | CHUNK_SIZE_EXTENSION
    | CHUNK_SIZE_LF
    | CHUNK_BODY
    | CHUNK_BODY_CR
    | CHUNK_BODY_LF
    | TRAILER_LINE_START
    | TRAILER
    | TRAILER_LF
    | FINAL_LF
    | GOOD
    | FAILED

  datatype Body = Body(
    state: State,
    body: string,
    remainingBytes: nat,
    chunkHeaderTotalLength: nat,
    trailersTotalLength: nat)

  /** BodyParser(content_length, chunked). */
  function Start(contentLength: Option<nat>, chunked: bool): Body {
    if chunked then Body(CHUNK_SIZE_START, "", 0, 0, 0)
    else
      var n := if contentLength.Some? then contentLength.value else 0;
      Body(if n == 0 then GOOD else CONTENT_LENGTH_BODY, "", n, 0, 0)
  }

  predicate Done(b: Body) {
    b.state.GOOD? || b.state.FAILED?
  }

  function Failed(b: Body): Body {
    b.(state := FAILED)
  }

  /** One octet of a counted body. */
  function TakeOctet(b: Body, input: char, next: State): Body
    requires b.remainingBytes > 0
  {
    var r := b.(body := b.body + [input], remainingBytes := b.remainingBytes - 1);
    if r.remainingBytes == 0 then r.(state := next) else r
  }

  function AfterSize(b: Body): State {
    if b.remainingBytes == 0 then TRAILER_LINE_START else CHUNK_BODY
  }

  /** The parser as an automaton on single octets. */
  function Step(b: Body, input: char): Body {
    match b.state
    case CONTENT_LENGTH_BODY => if b.remainingBytes == 0 then b.(state := GOOD) else TakeOctet(b, input, GOOD)
    case CHUNK_BODY =>
      if b.remainingBytes == 0 then b.(state := CHUNK_BODY_CR)
      else
        var r := TakeOctet(b, input, CHUNK_BODY_CR);
        if r.state.CHUNK_BODY_CR? then r.(chunkHeaderTotalLength := 0) else r
    case _ =>
      if b.chunkHeaderTotalLength > MAX_CHUNK_HEADER_TOTAL_LENGTH || b.trailersTotalLength > MAX_TRAILERS_TOTAL_LENGTH
      then Failed(b)
      else ConsumeOctet(b, input)
  }

  /** BodyParser::consume(uint8_t), behind its two length checks. */
  function ConsumeOctet(b: Body, input: char): Body {
    var h := b.(chunkHeaderTotalLength := b.chunkHeaderTotalLength + 1);
    var t := b.(trailersTotalLength := b.trailersTotalLength + 1);
    match b.state
    case CHUNK_BODY_CR =>
      if IsSp(input) then h
      else if input == CR then h.(state := CHUNK_BODY_LF)
      else if input == LF then h.(state := CHUNK_SIZE_START)
      else Failed(h)
    case CHUNK_BODY_LF => if input != LF then Failed(h) else h.(state := CHUNK_SIZE_START)
    case CHUNK_SIZE_START =>
      if IsSp(input) then h
      else if FromHexDigit(input) < 0 then Failed(h)
      else h.(remainingBytes := FromHexDigit(input), state := CHUNK_SIZE)
    case CHUNK_SIZE =>
      if IsSp(input) || input == ';' then h.(state := CHUNK_SIZE_EXTENSION)
      else if input == CR then h.(state := CHUNK_SIZE_LF)
      else if input == LF then h.(state := AfterSize(h))
      else if FromHexDigit(input) < 0 then Failed(h)
      else if b.remainingBytes > (UINT64_MAX - 15) / 16 then Failed(h)
      else h.(remainingBytes := b.remainingBytes * 16 + FromHexDigit(input))
    case CHUNK_SIZE_EXTENSION =>
      if input == CR then h.(state := CHUNK_SIZE_LF)
      else if input == LF then h.(state := AfterSize(h))
      else h
    case CHUNK_SIZE_LF => if input != LF then Failed(h) else h.(state := AfterSize(h))
    case TRAILER_LINE_START =>
      if input == CR then t.(state := FINAL_LF)
      else if input == LF then t.(state := GOOD)
      else if !IsChar(input) || IsCtl(input) || IsTspecial(input) then Failed(t)
      else t.(state := TRAILER)
    case TRAILER => if input == CR then t.(state := TRAILER_LF) else t
    case TRAILER_LF => if input != LF then Failed(t) else t.(state := TRAILER_LINE_START)
    case FINAL_LF => if input != LF then Failed(t) else t.(state := GOOD)
    case _ => Failed(b)
  }

  function FeedBody(b: Body, input: string): (Body, nat) {
    Feed(Step, Done, b, input)
  }

  ghost predicate BodyLeads(b: Body, input: string, c: Body) {
    Leads(Step, Done, b, input, c)
  }

  // ---------- what the server writes ----------

  /** %llx */
  function Hex(n: nat): string {
    if n < 16 then [HexDigit(n)] else Hex(n / 16) + [HexDigit(n % 16)]
  }

  /** ServerConnection::write in chunked mode: an empty piece writes nothing, it would end the body. */
  function EncodeChunk(data: string): string {
    if data == "" then "" else Hex(|data|) + CRLF + data + CRLF
  }

  const LAST_CHUNK: string := "0\r\n\r\n"

  function EncodeChunks(pieces: seq<string>): string {
    if pieces == [] then "" else EncodeChunk(pieces[0]) + EncodeChunks(pieces[1..])
  }

  function EncodeBody(pieces: seq<string>): string {
    EncodeChunks(pieces) + LAST_CHUNK
  }

  // ---------- sizes ----------

  predicate HexString(ds: string) {
    forall i :: 0 <= i < |ds| ==> FromHexDigit(ds[i]) >= 0
  }

  function HexValue(ds: string): nat
    requires HexString(ds)
  {
    if ds == "" then 0 else HexValue(ds[..|ds| - 1]) * 16 + FromHexDigit(ds[|ds| - 1])
  }

  lemma {:induction false} HexOfValue(n: nat)
    ensures HexString(Hex(n)) && Hex(n) != "" && HexValue(Hex(n)) == n
  {
    if n >= 16 {
      HexOfValue(n / 16);
      assert Hex(n)[..|Hex(n)| - 1] == Hex(n / 16);
    } else {
      assert Hex(n)[..0] == "";
    }
  }

  lemma {:induction false} HexIsShort(n: nat, digits: nat)
    requires n <= UINT64_MAX
    requires digits <= 16 && 16 >= digits >= 1 && n < Pow16(digits)
    ensures |Hex(n)| <= digits
  {
    if n >= 16 {
      HexIsShort(n / 16, digits - 1);
    }
  }

  function Pow16(k: nat): nat {
    if k == 0 then 1 else 16 * Pow16(k - 1)
  }

  lemma Pow16Of16()
    ensures Pow16(16) == UINT64_MAX + 1
  {
    assert Pow16(4) == 0x1_0000;
    assert Pow16(8) == 0x1_0000_0000;
    assert Pow16(12) == 0x1_0000_0000_0000;
  }

  /** A size line is accepted exactly when its value fits 64 bits and it is within the length limit,
      however many leading zeros it has; the last digit still passes a counter at its limit. */
  lemma {:induction false} SizeIsAcceptedIffItFits(b: Body, ds: string)
    requires b.state == CHUNK_SIZE_START && b.chunkHeaderTotalLength <= MAX_CHUNK_HEADER_TOTAL_LENGTH
    requires b.trailersTotalLength <= MAX_TRAILERS_TOTAL_LENGTH
    requires HexString(ds) && ds != ""
    ensures var r := FeedBody(b, ds).0;
      if HexValue(ds) <= UINT64_MAX && b.chunkHeaderTotalLength + |ds| <= MAX_CHUNK_HEADER_TOTAL_LENGTH + 1
      then BodyLeads(b, ds, b.(state := CHUNK_SIZE, remainingBytes := HexValue(ds),
                               chunkHeaderTotalLength := b.chunkHeaderTotalLength + |ds|))
      else r.state == FAILED
    decreases |ds|
  {
    var init, last := ds[..|ds| - 1], ds[|ds| - 1];
    assert ds == init + [last];
    FeedSplit(Step, Done, b, init, [last]);
    if init == "" {
      FeedOne(Step, Done, b, last);
      FirstDigit(b, last);
    } else {
      SizeIsAcceptedIffItFits(b, init);
      var c := FeedBody(b, init).0;
      if c.state.FAILED? {
        FeedDone(Step, Done, c, [last]);
      } else {
        FeedOne(Step, Done, c, last);
        NextDigit(c, last);
      }
    }
  }

  lemma FirstDigit(b: Body, d: char)
    requires b.state == CHUNK_SIZE_START && b.chunkHeaderTotalLength <= MAX_CHUNK_HEADER_TOTAL_LENGTH
    requires b.trailersTotalLength <= MAX_TRAILERS_TOTAL_LENGTH
    requires FromHexDigit(d) >= 0
    ensures Step(b, d) == b.(state := CHUNK_SIZE, remainingBytes := HexValue([d]),
                             chunkHeaderTotalLength := b.chunkHeaderTotalLength + 1)
  {
    assert [d][..0] == "";
  }

  lemma NextDigit(c: Body, d: char)
    requires c.state == CHUNK_SIZE && FromHexDigit(d) >= 0
    requires c.trailersTotalLength <= MAX_TRAILERS_TOTAL_LENGTH
    ensures var v := c.remainingBytes * 16 + FromHexDigit(d);
      if v <= UINT64_MAX && c.chunkHeaderTotalLength <= MAX_CHUNK_HEADER_TOTAL_LENGTH
      then Step(c, d) == c.(remainingBytes := v, chunkHeaderTotalLength := c.chunkHeaderTotalLength + 1)
      else Step(c, d).state == FAILED
  {
    HexDigitIsNothingElse(d);
  }

  lemma HexDigitIsNothingElse(c: char)
    requires FromHexDigit(c) >= 0
    ensures !IsSp(c) && c != ';' && c != CR && c != LF
  {}

  // ---------- the round trip ----------

  /** In front of a chunk size, which overwrites the bytes left, with what there is of the body so far. */
  predicate ReadyForSize(b: Body, body: string) {
    && b.state == CHUNK_SIZE_START && b.body == body
    && b.chunkHeaderTotalLength <= 2 && b.trailersTotalLength == 0
  }

  /** The octets of a counted piece. */
  lemma {:induction false} CountedOctets(b: Body, data: string)
    requires b.state == CHUNK_BODY || b.state == CONTENT_LENGTH_BODY
    requires data != "" && b.remainingBytes == |data|
    ensures BodyLeads(b, data, b.(
        state := if b.state == CHUNK_BODY then CHUNK_BODY_CR else GOOD,
        body := b.body + data, remainingBytes := 0,
        chunkHeaderTotalLength := if b.state == CHUNK_BODY then 0 else b.chunkHeaderTotalLength))
    decreases |data|
  {
    var c := Step(b, data[0]);
    if |data| > 1 {
      CountedOctets(c, data[1..]);
      assert b.body + [data[0]] + data[1..] == b.body + data;
    } else {
      FeedOne(Step, Done, b, data[0]);
      assert data == [data[0]];
    }
  }

  lemma LeadsTwo(b: Body, x: char, y: char)
    requires !Done(b) && !Done(Step(b, x))
    ensures BodyLeads(b, [x, y], Step(Step(b, x), y))
  {
    FeedOne(Step, Done, b, x);
    FeedOne(Step, Done, Step(b, x), y);
    LeadsTrans(Step, Done, b, [x], Step(b, x), [y], Step(Step(b, x), y));
    assert [x] + [y] == [x, y];
  }

  lemma HexFits(n: nat)
    requires n <= UINT64_MAX
    ensures HexString(Hex(n)) && HexValue(Hex(n)) == n && 1 <= |Hex(n)| <= 16
  {
    HexOfValue(n);
    Pow16Of16();
    HexIsShort(n, 16);
  }

  /** What the parser is in the size of a chunk of n octets, and behind its line. */
  function InSize(b: Body, body: string, n: nat, digits: string): Body {
    Body(CHUNK_SIZE, body, n, b.chunkHeaderTotalLength + |digits|, 0)
  }

  function BehindSize(b: Body, body: string, n: nat, digits: string): Body {
    Body(if n == 0 then TRAILER_LINE_START else CHUNK_BODY, body, n, b.chunkHeaderTotalLength + |digits| + 2, 0)
  }

  lemma SizeRead(b: Body, body: string, n: nat, digits: string)
    requires ReadyForSize(b, body) && n <= UINT64_MAX
    requires HexString(digits) && HexValue(digits) == n && 1 <= |digits| <= 16
    ensures BodyLeads(b, digits, InSize(b, body, n, digits))
  {
    var c := b.(state := CHUNK_SIZE, remainingBytes := n, chunkHeaderTotalLength := b.chunkHeaderTotalLength + |digits|);
    SizeIsAcceptedIffItFits(b, digits);
    assert BodyLeads(b, digits, c);
  }

  /** The end of the size line of a chunk. */
  lemma SizeEnd(b: Body, body: string, n: nat, digits: string)
    requires b.chunkHeaderTotalLength <= 2 && |digits| <= 16
    ensures BodyLeads(InSize(b, body, n, digits), CRLF, BehindSize(b, body, n, digits))
  {
    LeadsTwo(InSize(b, body, n, digits), CR, LF);
  }

  lemma SizeLineOf(b: Body, body: string, n: nat, digits: string)
    requires ReadyForSize(b, body) && n <= UINT64_MAX
    requires HexString(digits) && HexValue(digits) == n && 1 <= |digits| <= 16
    ensures BodyLeads(b, digits + CRLF, BehindSize(b, body, n, digits))
  {
    SizeRead(b, body, n, digits);
    SizeEnd(b, body, n, digits);
    LeadsTrans(Step, Done, b, digits, InSize(b, body, n, digits), CRLF, BehindSize(b, body, n, digits));
  }

  /** The size line of a chunk. */
  lemma SizeLine(b: Body, body: string, n: nat)
    requires ReadyForSize(b, body) && n <= UINT64_MAX
    ensures BodyLeads(b, Hex(n) + CRLF, BehindSize(b, body, n, Hex(n)))
  {
    HexFits(n);
    SizeLineOf(b, body, n, Hex(n));
  }

  lemma OneChunk(b: Body, body: string, data: string)
    requires ReadyForSize(b, body) && data != "" && |data| <= UINT64_MAX
    ensures exists c :: BodyLeads(b, EncodeChunk(data), c) && ReadyForSize(c, body + data)
  {
    SizeLine(b, body, |data|);
    var c := BehindSize(b, body, |data|, Hex(|data|));
    var d := Body(CHUNK_BODY_CR, body + data, 0, 0, 0);
    CountedOctets(c, data);
    var e := ChunkEnd(d);
    LeadsThree(Step, Done, b, Hex(|data|) + CRLF, c, data, d, CRLF, e);
  }

  lemma ChunkEnd(d: Body) returns (e: Body)
    requires d.state == CHUNK_BODY_CR && d.chunkHeaderTotalLength == 0 && d.trailersTotalLength == 0
    ensures BodyLeads(d, CRLF, e) && ReadyForSize(e, d.body)
  {
    LeadsTwo(d, CR, LF);
    e := Step(Step(d, CR), LF);
  }

  /** A piece of the body, which may be empty. */
  lemma OnePiece(b: Body, body: string, piece: string) returns (c: Body)
    requires ReadyForSize(b, body) && |piece| <= UINT64_MAX
    ensures BodyLeads(b, EncodeChunk(piece), c) && ReadyForSize(c, body + piece)
  {
    if piece != "" {
      OneChunk(b, body, piece);
      c :| BodyLeads(b, EncodeChunk(piece), c) && ReadyForSize(c, body + piece);
    } else {
      c := b;
      assert body + piece == body;
    }
  }

  lemma FirstJoined(body: string, piece: string, rest: string)
    ensures body + piece + rest == body + (piece + rest)
  {}

  lemma {:induction false} AllChunks(b: Body, body: string, pieces: seq<string>) returns (d: Body)
    requires ReadyForSize(b, body)
    requires forall i :: 0 <= i < |pieces| ==> |pieces[i]| <= UINT64_MAX
    ensures BodyLeads(b, EncodeChunks(pieces), d) && ReadyForSize(d, body + Join(pieces))
    decreases |pieces|
  {
    if pieces == [] {
      d := b;
      assert body + Join(pieces) == body;
    } else {
      var c := OnePiece(b, body, pieces[0]);
      d := AllChunks(c, body + pieces[0], pieces[1..]);
      LeadsTrans(Step, Done, b, EncodeChunk(pieces[0]), c, EncodeChunks(pieces[1..]), d);
      FirstJoined(body, pieces[0], Join(pieces[1..]));
    }
  }

  /** What the server writes in any number of pieces and whatever follows on the connection: the parser
      ends in GOOD exactly behind it, with the body, and leaves what follows unread. */
  lemma ChunkedRoundTrip(pieces: seq<string>, later: string)
    requires forall i :: 0 <= i < |pieces| ==> |pieces[i]| <= UINT64_MAX
    ensures var r := FeedBody(Start(None, true), EncodeBody(pieces) + later);
      r.0.state == GOOD && r.0.body == Join(pieces) && r.1 == |EncodeBody(pieces)|
  {
    var b := Start(None, true);
    var c := AllChunks(b, "", pieces);
    assert "" + Join(pieces) == Join(pieces);
    LastChunk(c, Join(pieces));
    var e :| BodyLeads(c, LAST_CHUNK, e) && e.state == GOOD && e.body == Join(pieces);
    LeadsTrans(Step, Done, b, EncodeChunks(pieces), c, LAST_CHUNK, e);
    LeadsThenRest(Step, Done, b, EncodeBody(pieces), e, later);
  }

  lemma TrailerEnd(d: Body)
    requires d.state == TRAILER_LINE_START && d.chunkHeaderTotalLength <= 20 && d.trailersTotalLength == 0
    ensures var e := Step(Step(d, CR), LF); BodyLeads(d, CRLF, e) && e.state == GOOD && e.body == d.body
  {
    LeadsTwo(d, CR, LF);
  }

  lemma LastChunk(c: Body, body: string)
    requires ReadyForSize(c, body)
    ensures exists e :: BodyLeads(c, LAST_CHUNK, e) && e.state == GOOD && e.body == body
  {
    var d := BehindSize(c, body, 0, "0");
    assert "0"[..0] == "";
    SizeLineOf(c, body, 0, "0");
    TrailerEnd(d);
    LeadsTrans(Step, Done, c, "0" + CRLF, d, CRLF, Step(Step(d, CR), LF));
    assert "0" + CRLF + CRLF == LAST_CHUNK;
  }

  /** The same for a body of known length. */
  lemma ContentLengthRoundTrip(data: string, later: string)
    ensures var r := FeedBody(Start(Some(|data|), false), data + later);
      r.0.state == GOOD && r.0.body == data && r.1 == |data|
  {
    var b := Start(Some(|data|), false);
    if data == "" {
      assert data + later == later;
    } else {
      CountedOctets(b, data);
      assert "" + data == data;
      LeadsThenRest(Step, Done, b, data, Feed(Step, Done, b, data).0, later);
    }
  }

  /** And for any fragmentation of the octets on their way. */
  lemma FragmentedRoundTrip(pieces: seq<string>, later: string, fragments: seq<string>)
    requires forall i :: 0 <= i < |pieces| ==> |pieces[i]| <= UINT64_MAX
    requires Join(fragments) == EncodeBody(pieces) + later
    ensures var r := FeedFragments(Step, Done, Start(None, true), fragments);
      r.0.state == GOOD && r.0.body == Join(pieces) && r.1 == |EncodeBody(pieces)|
  {
    ChunkedRoundTrip(pieces, later);
    FragmentsDoNotMatter(Step, Done, Start(None, true), fragments);
  }
}
