/** The objects at the two ends of a body: BodyParser reading out of a ring buffer, and the part of
    ServerConnection that writes bodies into a BufferedTCPSocket. */
module BodyReader {
  import opened HttpChars
  import opened Automaton
  import opened ChunkedBody
  import opened RingBuffer

  class BodyParser {
    var state: State
    var body: string
    var remainingBytes: nat
    var chunkHeaderTotalLength: nat
    var trailersTotalLength: nat

    ghost function View(): Body
      reads this
    {
      Body(state, body, remainingBytes, chunkHeaderTotalLength, trailersTotalLength)
    }

    ghost predicate Valid()
      reads this
    {
      && remainingBytes <= UINT64_MAX
      && (state == CONTENT_LENGTH_BODY || state == CHUNK_BODY ==> remainingBytes > 0)
    }

    constructor (contentLength: Option<nat>, chunked: bool)
      requires contentLength.Some? ==> contentLength.value <= UINT64_MAX
      ensures Valid() && View() == Start(contentLength, chunked)
    {
      body, remainingBytes, chunkHeaderTotalLength, trailersTotalLength := "", 0, 0, 0;
      new;
      if chunked {
        state := CHUNK_SIZE_START;
        return;
      }
      if contentLength.Some? {
        remainingBytes := contentLength.value;
      }
      state := if remainingBytes == 0 then GOOD else CONTENT_LENGTH_BODY;
    }

    predicate IsDone()
      reads this
    {
      state == GOOD || state == FAILED
    }

    /** One octet outside the counted parts. */
    method ConsumeOctet(input: char)
      requires Valid() && !IsDone() && state != CONTENT_LENGTH_BODY && state != CHUNK_BODY
      modifies this
      ensures Valid() && View() == Step(old(View()), input)
    {
      if chunkHeaderTotalLength > MAX_CHUNK_HEADER_TOTAL_LENGTH || trailersTotalLength > MAX_TRAILERS_TOTAL_LENGTH {
        state := FAILED;
        return;
      }
      if state == TRAILER_LINE_START || state == TRAILER || state == TRAILER_LF || state == FINAL_LF {
        trailersTotalLength := trailersTotalLength + 1;
      } else {
        chunkHeaderTotalLength := chunkHeaderTotalLength + 1;
      }
      match state {
        case CHUNK_BODY_CR =>
          if input == CR {
            state := CHUNK_BODY_LF;
          } else if input == LF {
            state := CHUNK_SIZE_START;
          } else if !IsSp(input) {
            state := FAILED;
          }
        case CHUNK_BODY_LF =>
          state := if input != LF then FAILED else CHUNK_SIZE_START;
        case CHUNK_SIZE_START =>
          if !IsSp(input) {
            var digit := FromHexDigit(input);
            if digit < 0 {
              state := FAILED;
            } else {
              remainingBytes := digit;
              state := CHUNK_SIZE;
            }
          }
        case CHUNK_SIZE =>
          if IsSp(input) || input == ';' {
            state := CHUNK_SIZE_EXTENSION;
          } else if input == CR {
            state := CHUNK_SIZE_LF;
          } else if input == LF {
            state := if remainingBytes == 0 then TRAILER_LINE_START else CHUNK_BODY;
          } else {
            var digit := FromHexDigit(input);
            if digit < 0 || remainingBytes > (UINT64_MAX - 15) / 16 {
              state := FAILED;
            } else {
              remainingBytes := remainingBytes * 16 + digit;
            }
          }
        case CHUNK_SIZE_EXTENSION =>
          if input == CR {
            state := CHUNK_SIZE_LF;
          } else if input == LF {
            state := if remainingBytes == 0 then TRAILER_LINE_START else CHUNK_BODY;
          }
        case CHUNK_SIZE_LF =>
          state := if input != LF then FAILED
                   else if remainingBytes == 0 then TRAILER_LINE_START else CHUNK_BODY;
        case TRAILER_LINE_START =>
          if input == CR {
            state := FINAL_LF;
          } else if input == LF {
            state := GOOD;
          } else if !IsChar(input) || IsCtl(input) || IsTspecial(input) {
            state := FAILED;
          } else {
            state := TRAILER;
          }
        case TRAILER =>
          if input == CR {
            state := TRAILER_LF;
          }
        case TRAILER_LF =>
          state := if input != LF then FAILED else TRAILER_LINE_START;
        case FINAL_LF =>
          state := if input != LF then FAILED else GOOD;
        case _ =>
      }
    }

    /** A block of a counted part. */
    method ConsumeCounted(data: string) returns (count: nat)
      requires Valid() && data != "" && (state == CONTENT_LENGTH_BODY || state == CHUNK_BODY)
      modifies this
      ensures Valid() && 0 < count <= |data|
      ensures BodyLeads(old(View()), data[..count], View())
    {
      count := Min(|data|, remainingBytes);
      SomeCountedOctets(View(), data[..count]);
      body := body + data[..count];
      remainingBytes := remainingBytes - count;
      if remainingBytes == 0 {
        if state == CHUNK_BODY {
          chunkHeaderTotalLength := 0;
          state := CHUNK_BODY_CR;
        } else {
          state := GOOD;
        }
      }
    }

    /** Counted parts are taken in one block, everything else octet by octet. */
    method Consume(data: string) returns (count: nat)
      requires Valid() && !IsDone() && data != ""
      modifies this
      ensures Valid() && 0 < count <= |data|
      ensures BodyLeads(old(View()), data[..count], View())
    {
      if state == CONTENT_LENGTH_BODY || state == CHUNK_BODY {
        count := ConsumeCounted(data);
        return;
      }
      FeedOne(Step, Done, View(), data[0]);
      assert data[..1] == [data[0]];
      ConsumeOctet(data[0]);
      return 1;
    }

    /** parse(begin, end): the block-wise parser is the automaton on single octets. */
    method Parse(data: string) returns (count: nat)
      requires Valid()
      modifies this
      ensures Valid() && (View(), count) == FeedBody(old(View()), data)
    {
      count := 0;
      while count < |data| && !IsDone()
        invariant Valid() && count <= |data|
        invariant BodyLeads(old(View()), data[..count], View())
        decreases |data| - count
      {
        ghost var before := View();
        var n := Consume(data[count..]);
        LeadsFurther(Step, Done, old(View()), data, count, before, n, View());
        count := count + n;
      }
      LeadsFinished(Step, Done, old(View()), data, count, View());
    }

    /** parse(Buffer &): what the first part of the ring holds. */
    method ParseBuffer(buf: Buffer<char>) returns (ghost count: nat)
      requires Valid() && buf.Valid()
      modifies this, buf`readPos, buf`writePos
      ensures Valid() && buf.Valid()
      ensures count <= |old(buf.Contents())| && buf.Contents() == old(buf.Contents())[count..]
      ensures BodyLeads(old(View()), old(buf.Contents())[..count], View())
      ensures old(buf.Size()) > 0 && !old(IsDone()) ==> count > 0
    {
      var rc := buf.ReadCount();
      buf.FirstPart(rc);
      var part := buf.impl[buf.readPos..buf.readPos + rc];
      var n := Parse(part);
      FeedLeads(Step, Done, old(View()), part, n, View());
      assert part[..n] == buf.Contents()[..n];
      var _ := buf.DidRead(n);
      count := n;
    }

    /** One round of the loop below. */
    method PumpRound(buf: Buffer<char>, ghost left: string, ghost start: Body, ghost all: string, ghost n: nat)
      returns (ghost m: nat)
      requires Valid() && buf.Valid() && buf.Size() > 0 && !IsDone()
      requires Pumped(start, all, n, View(), buf.Contents(), left)
      modifies this, buf`readPos, buf`writePos
      ensures Valid() && buf.Valid() && m > n
      ensures Pumped(start, all, m, View(), buf.Contents(), left)
    {
      ghost var before, contents := View(), buf.Contents();
      ghost var count := ParseBuffer(buf);
      PumpStep(start, all, n, before, contents, count, left, View());
      m := n + count;
    }

    /** The loop around the parser in advance_state(): it ends with the body, or when the connection has
        nothing more for now. Nothing behind the body is taken out of the buffer. */
    method Pump(buf: Buffer<char>, input: InStream<char>) returns (ghost n: nat)
      requires Valid() && buf.Valid() && input.Valid()
      modifies this, buf`readPos, buf`writePos, buf.impl, input
      ensures Valid() && buf.Valid() && input.Valid()
      ensures Pumped(old(View()), old(buf.Contents() + input.left), n, View(), buf.Contents(), input.left)
      ensures IsDone() ==> FeedBody(old(View()), old(buf.Contents() + input.left)) == (View(), n)
    {
      ghost var start, all := View(), buf.Contents() + input.left;
      n := 0;
      PumpStart(start, all);
      while !IsDone()
        invariant Valid() && buf.Valid() && input.Valid()
        invariant Pumped(start, all, n, View(), buf.Contents(), input.left)
        decreases |all| - n
      {
        var some := Refill(buf, input);
        if !some {
          break;
        }
        n := PumpRound(buf, input.left, start, all, n);
      }
      if IsDone() {
        LeadsFinished(Step, Done, start, all, n, View());
      }
    }
  }

  /** The first n octets have been read, the others are still there. */
  ghost predicate Pumped(start: Body, all: string, n: nat, now: Body, contents: string, left: string) {
    n <= |all| && BodyLeads(start, all[..n], now) && contents + left == all[n..]
  }

  lemma PumpStart(start: Body, all: string)
    ensures BodyLeads(start, all[..0], start) && all == all[0..]
  {
    LeadsNowhere(Step, Done, start);
  }

  /** read_buffer.empty() && read_buffer.read_from(sock) == 0 */
  method Refill(buf: Buffer<char>, input: InStream<char>) returns (some: bool)
    requires buf.Valid() && input.Valid()
    modifies buf`writePos, buf.impl, input
    ensures buf.Valid() && input.Valid()
    ensures buf.Contents() + input.left == old(buf.Contents() + input.left)
    ensures some ==> buf.Size() > 0
  {
    if buf.Size() > 0 {
      return true;
    }
    ghost var left := input.left;
    var got := buf.ReadFrom(input);
    assert left == left[..got] + left[got..];
    return got != 0;
  }

  /** One round of the loop in Pump. */
  lemma PumpStep(start: Body, all: string, n: nat, before: Body, contents: string, count: nat, left: string, after: Body)
    requires Pumped(start, all, n, before, contents, left) && count <= |contents|
    requires BodyLeads(before, contents[..count], after)
    ensures n + count <= |all| && Pumped(start, all, n + count, after, contents[count..], left)
  {
    assert contents[..count] == (contents + left)[..count];
    LeadsFurther(Step, Done, start, all, n, before, count, after);
    assert contents[count..] + left == (contents + left)[count..];
    assert all[n..][count..] == all[n + count..];
  }

  /** A block out of a counted part. */
  lemma {:induction false} SomeCountedOctets(b: Body, data: string)
    requires b.state == CHUNK_BODY || b.state == CONTENT_LENGTH_BODY
    requires 0 < |data| <= b.remainingBytes
    ensures var r := b.(body := b.body + data, remainingBytes := b.remainingBytes - |data|);
      BodyLeads(b, data,
        if |data| < b.remainingBytes then r
        else if b.state == CHUNK_BODY then r.(state := CHUNK_BODY_CR, chunkHeaderTotalLength := 0)
        else r.(state := GOOD))
    decreases |data|
  {
    if |data| > 1 {
      SomeCountedOctets(Step(b, data[0]), data[1..]);
      assert b.body + [data[0]] + data[1..] == b.body + data;
    } else {
      FeedOne(Step, Done, b, data[0]);
      assert data == [data[0]];
    }
  }
}

module BodyWriter {
  import opened HttpChars
  import opened Automaton
  import opened ChunkedBody
  import opened BufferedSocket

  datatype ConnectionState = REQUEST_HEADER | RESPONSE_BODY

  /** ServerConnection behind its response header. */
  class ServerConnection {
    const sock: BufferedTCPSocket
    var state: ConnectionState
    var remainingBodyContentLength: Option<nat>
    var keepAlive: bool
    /** What the header says of the body. */
    ghost const contentLength: Option<nat>
    /** What the socket had accepted before the body, and the pieces of the body so far. */
    ghost var head: string
    ghost var pieces: seq<string>

    ghost predicate Valid()
      reads this, sock, sock.sock
    {
      && sock.Valid()
      && (remainingBodyContentLength.Some? <==> contentLength.Some?)
      && (contentLength.Some? ==> |Join(pieces)| + remainingBodyContentLength.value == contentLength.value)
      && (state == RESPONSE_BODY && sock.Accepts() ==>
          && (forall i :: 0 <= i < |pieces| ==> |pieces[i]| <= UINT64_MAX)
          && sock.accepted == head + if remainingBodyContentLength.Some? then Join(pieces) else EncodeChunks(pieces))
    }

    constructor (sock: BufferedTCPSocket, contentLength: Option<nat>, keepAlive: bool)
      requires sock.Valid()
      ensures Valid() && this.sock == sock && state == RESPONSE_BODY && pieces == [] && head == sock.accepted
      ensures remainingBodyContentLength == this.contentLength == contentLength && this.keepAlive == keepAlive
    {
      this.sock, this.contentLength := sock, contentLength;
      state, remainingBodyContentLength, this.keepAlive := RESPONSE_BODY, contentLength, keepAlive;
      head, pieces := sock.accepted, [];
      new;
      assert head + "" == head;
    }

    /** write(val, count, bo); throws outside a body and past the content length. */
    method Write(val: string, bo: BufferOptions) returns (threw: bool)
      requires Valid() && |val| <= UINT64_MAX
      modifies this`state, this`remainingBodyContentLength, this`pieces, sock, sock.sock
      ensures Valid()
      ensures threw <==> old(state) != RESPONSE_BODY
                         || (old(remainingBodyContentLength).Some? && |val| > old(remainingBodyContentLength).value)
      ensures threw ==> sock.accepted == old(sock.accepted) && state == old(state)
      ensures !threw ==> pieces == old(pieces) + [val]
      ensures !threw && old(sock.Accepts()) ==>
        && sock.accepted == old(sock.accepted) + (if contentLength.Some? then val else EncodeChunk(val))
        && sock.accepted == head + if contentLength.Some? then Join(pieces) else EncodeChunks(pieces)
      ensures !threw ==> state == if old(remainingBodyContentLength) == Some(|val|) then REQUEST_HEADER else RESPONSE_BODY
      ensures !threw && state == REQUEST_HEADER && !keepAlive && sock.sock.open ==> sock.writeShutdownAsked
    {
      if state != RESPONSE_BODY {
        return true;
      }
      threw := false;
      if remainingBodyContentLength.Some? {
        if |val| > remainingBodyContentLength.value {
          return true;
        }
        WriteCounted(val, bo);
      } else {
        WriteChunk(val, bo);
      }
    }

    method WriteCounted(val: string, bo: BufferOptions)
      requires Valid() && |val| <= UINT64_MAX && state == RESPONSE_BODY
      requires remainingBodyContentLength.Some? && |val| <= remainingBodyContentLength.value
      modifies this`state, this`remainingBodyContentLength, this`pieces, sock, sock.sock
      ensures Valid() && pieces == old(pieces) + [val]
      ensures remainingBodyContentLength == Some(old(remainingBodyContentLength).value - |val|)
      ensures old(sock.Accepts()) ==> sock.accepted == old(sock.accepted) + val == head + Join(pieces)
      ensures state == if remainingBodyContentLength == Some(0) then REQUEST_HEADER else RESPONSE_BODY
      ensures state == REQUEST_HEADER && !keepAlive && sock.sock.open ==> sock.writeShutdownAsked
    {
      ghost var before := sock.accepted;
      remainingBodyContentLength := Some(remainingBodyContentLength.value - |val|);
      sock.WriteString(val, bo);
      JoinAppend(pieces, val);
      Associate2(head, Join(pieces), val, before);
      pieces := pieces + [val];
      if remainingBodyContentLength.value == 0 {
        if !keepAlive {
          sock.WriteShutdown();
        }
        state := REQUEST_HEADER;
      }
    }

    /** Size, piece and end of a chunk. */
    method WriteEncoded(val: string, bo: BufferOptions)
      requires sock.Valid() && val != ""
      modifies sock, sock.sock
      ensures sock.Valid()
      ensures old(sock.Accepts()) ==> sock.accepted == old(sock.accepted) + EncodeChunk(val)
      ensures sock.Accepts() ==> old(sock.Accepts())
    {
      ghost var before := sock.accepted;
      sock.Buffer(Hex(|val|) + CRLF);
      sock.Buffer(val);
      sock.Write(CRLF, bo);
      Associate(before, Hex(|val|) + CRLF, val, CRLF);
    }

    /** An empty piece writes nothing: an empty chunk would end the body. */
    method WriteChunk(val: string, bo: BufferOptions)
      requires Valid() && |val| <= UINT64_MAX && state == RESPONSE_BODY && remainingBodyContentLength.None?
      modifies this`pieces, sock, sock.sock
      ensures Valid() && pieces == old(pieces) + [val]
      ensures old(sock.Accepts()) ==> sock.accepted == old(sock.accepted) + EncodeChunk(val) == head + EncodeChunks(pieces)
    {
      ghost var before, encoded := sock.accepted, EncodeChunks(pieces);
      EncodeChunksAppend(pieces, val);
      if val != "" {
        WriteEncoded(val, bo);
      }
      pieces := pieces + [val];
      Associate2(head, encoded, EncodeChunk(val), before);
    }

    /** write_last_chunk(bo): the end of a chunked body; throws outside of one. */
    method WriteLastChunk(bo: BufferOptions) returns (threw: bool)
      requires Valid()
      modifies this`state, sock, sock.sock
      ensures Valid()
      ensures threw <==> old(state) != RESPONSE_BODY || old(remainingBodyContentLength).Some?
      ensures !threw && old(sock.Accepts()) ==> sock.accepted == head + EncodeBody(pieces)
      ensures !threw ==> state == REQUEST_HEADER
      ensures !threw && !keepAlive && sock.sock.open ==> sock.writeShutdownAsked
    {
      if state != RESPONSE_BODY || remainingBodyContentLength.Some? {
        return true;
      }
      sock.WriteString(LAST_CHUNK, bo);
      assert old(sock.Accepts()) ==> sock.accepted == head + (EncodeChunks(pieces) + LAST_CHUNK);
      if !keepAlive {
        sock.WriteShutdown();
      }
      state := REQUEST_HEADER;
      return false;
    }
  }

  lemma Associate(a: string, b: string, c: string, d: string)
    ensures a + b + c + d == a + (b + c + d)
  {}

  lemma Associate2(head: string, encoded: string, chunk: string, all: string)
    ensures all == head + encoded ==> all + chunk == head + (encoded + chunk)
  {}

  lemma {:induction false} JoinAppend(pieces: seq<string>, p: string)
    ensures Join(pieces + [p]) == Join(pieces) + p
  {
    if pieces == [] {
      assert pieces + [p] == [p];
    } else {
      assert (pieces + [p])[1..] == pieces[1..] + [p];
      JoinAppend(pieces[1..], p);
    }
  }

  lemma {:induction false} EncodeChunksAppend(pieces: seq<string>, p: string)
    ensures EncodeChunks(pieces + [p]) == EncodeChunks(pieces) + EncodeChunk(p)
  {
    if pieces == [] {
      assert pieces + [p] == [p];
    } else {
      assert (pieces + [p])[1..] == pieces[1..] + [p];
      EncodeChunksAppend(pieces[1..], p);
    }
  }

  /** From end to end: once everything the connection accepted behind the header has reached the other
      side, in whatever fragments, the parser there has the pieces joined, for any writes, short writes
      of the socket and coalescing in its queue. */
  lemma DeliveredBody(c: ServerConnection, fragments: seq<string>, later: string)
    requires c.Valid() && c.sock.sock.open
    requires c.sock.accepted == c.head + EncodeBody(c.pieces)
    requires forall i :: 0 <= i < |c.pieces| ==> |c.pieces[i]| <= UINT64_MAX
    requires Join(fragments) == (c.sock.sock.sent + Flatten(c.sock.dataToWrite))[|c.head|..] + later
    ensures var r := FeedFragments(Step, Done, Start(None, true), fragments);
      r.0.state == GOOD && r.0.body == Join(c.pieces) && r.1 == |EncodeBody(c.pieces)|
  {
    assert (c.head + EncodeBody(c.pieces))[|c.head|..] == EncodeBody(c.pieces);
    FragmentedRoundTrip(c.pieces, later, fragments);
  }

  /** The same for a body of known length: it is complete when nothing of the content length remains. */
  lemma DeliveredCountedBody(c: ServerConnection, fragments: seq<string>, later: string)
    requires c.Valid() && c.sock.sock.open && c.remainingBodyContentLength == Some(0)
    requires c.sock.accepted == c.head + Join(c.pieces)
    requires Join(fragments) == (c.sock.sock.sent + Flatten(c.sock.dataToWrite))[|c.head|..] + later
    ensures var r := FeedFragments(Step, Done, Start(c.contentLength, false), fragments);
      r.0.state == GOOD && r.0.body == Join(c.pieces) && r.1 == |Join(c.pieces)|
  {
    var body := Join(c.pieces);
    assert (c.head + body)[|c.head|..] == body;
    ContentLengthRoundTrip(body, later);
    FragmentsDoNotMatter(Step, Done, Start(c.contentLength, false), fragments);
  }
}
