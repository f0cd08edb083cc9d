/** Bodies of WebSocket frames, and frames as ClientConnection and ServerConnection of include/crab/http/connection.hxx
    write and read them. */
module WebSocketBody {
  import opened HttpChars
  import opened Automaton
  import opened WebSocketMask

  datatype Body = Body(good: bool, remainingBytes: nat, maskingKey: bv32, maskingShift: nat, body: seq<Octet>)

  function Start(payloadLen: nat, key: Option<bv32>): Body {
    Body(payloadLen == 0, payloadLen, if key.Some? then key.value else 0, 0, [])
  }

  /** With the key 0, as without a key, nothing is masked and the shift does not move. */
  function Unmasked(b: Body, data: seq<Octet>): seq<Octet> {
    if b.maskingKey != 0 then Masked(b.maskingShift, data, b.maskingKey) else data
  }

  function Take(b: Body, data: seq<Octet>): Body
    requires |data| <= b.remainingBytes
  {
    Body(|data| == b.remainingBytes, b.remainingBytes - |data|, b.maskingKey,
         if b.maskingKey != 0 then b.maskingShift + |data| else b.maskingShift, b.body + Unmasked(b, data))
  }

  predicate Proper(b: Body) {
    b.good <==> b.remainingBytes == 0
  }

  function Step(b: Body, x: Octet): Body {
    if b.remainingBytes == 0 then b else Take(b, [x])
  }

  predicate Done(b: Body) { b.good }

  function FeedBody(b: Body, data: seq<Octet>): (Body, nat) {
    Feed(Step, Done, b, data)
  }

  ghost predicate BodyLeads(b: Body, data: seq<Octet>, t: Body) {
    Leads(Step, Done, b, data, t)
  }

  lemma UnmaskedSplit(b: Body, x: seq<Octet>, y: seq<Octet>)
    requires |x| + |y| <= b.remainingBytes
    ensures Unmasked(b, x + y) == Unmasked(b, x) + Unmasked(Take(b, x), y)
  {
    var k := b.maskingKey;
    if k != 0 {
      MaskedSplit(b.maskingShift, x, y, k);
      UnmaskedBehind(Take(b, x), b.maskingShift + |x|, y, k);
    }
  }

  lemma UnmaskedBehind(b: Body, shift: nat, data: seq<Octet>, key: bv32)
    requires b.maskingKey == key != 0 && b.maskingShift == shift
    ensures Unmasked(b, data) == Masked(shift, data, key)
  {}

  lemma Associate<T>(a: seq<T>, b: seq<T>, c: seq<T>)
    ensures a + b + c == a + (b + c)
  {}

  lemma TakeTwo(b: Body, x: seq<Octet>, y: seq<Octet>)
    requires |x| + |y| <= b.remainingBytes
    ensures Take(Take(b, x), y) == Take(b, x + y)
  {
    UnmaskedSplit(b, x, y);
    Associate(b.body, Unmasked(b, x), Unmasked(Take(b, x), y));
  }

  /** A block at once is its octets one by one. */
  lemma {:induction false} BlockTaken(b: Body, data: seq<Octet>)
    requires Proper(b) && |data| <= b.remainingBytes && data != []
    ensures BodyLeads(b, data, Take(b, data)) && Proper(Take(b, data))
    decreases |data|
  {
    var x, rest := data[0], data[1..];
    FeedOne(Step, Done, b, x);
    assert data == [x] + rest;
    if rest != [] {
      BlockTaken(Step(b, x), rest);
      TakeTwo(b, [x], rest);
      LeadsTrans(Step, Done, b, [x], Step(b, x), rest, Take(b, data));
    } else {
      assert data == [x];
    }
  }

  class WebMessageBodyParser {
    var good: bool
    var remainingBytes: nat
    var maskingKey: bv32
    var maskingShift: nat
    var body: seq<Octet>

    ghost function View(): Body
      reads this
    {
      Body(good, remainingBytes, maskingKey, maskingShift, body)
    }

    constructor (payloadLen: nat, key: Option<bv32>)
      ensures Proper(View()) && View() == Start(payloadLen, key)
    {
      good, remainingBytes, maskingKey, maskingShift, body :=
        payloadLen == 0, payloadLen, if key.Some? then key.value else 0, 0, [];
    }

    /** consume(begin, end): the block is stored first and unmasked where it is stored. The memory may lie anywhere. */
    method Consume(data: seq<Octet>, address: nat, little: bool) returns (count: nat)
      requires Proper(View()) && !good && data != []
      modifies this
      ensures Proper(View()) && 0 < count <= |data| && BodyLeads(old(View()), data[..count], View())
    {
      count := if |data| < remainingBytes then |data| else remainingBytes;
      ghost var before := View();
      BlockTaken(before, data[..count]);
      if maskingKey != 0 {
        body := MaskTail(body, data[..count], maskingShift, maskingKey, address, little);
        maskingShift := maskingShift + count;
      } else {
        body := body + data[..count];
      }
      remainingBytes := remainingBytes - count;
      good := remainingBytes == 0;
      assert View() == Take(before, data[..count]);
    }

    /** parse(begin, end) */
    method Parse(data: seq<Octet>, address: nat, little: bool) returns (count: nat)
      requires Proper(View())
      modifies this
      ensures Proper(View()) && (View(), count) == FeedBody(old(View()), data)
    {
      count := 0;
      ghost var start := View();
      while count < |data| && !good
        invariant Proper(View()) && count <= |data|
        invariant BodyLeads(start, data[..count], View())
        decreases |data| - count
      {
        ghost var before := View();
        var n := Consume(data[count..], address, little);
        LeadsFurther(Step, Done, start, data, count, before, n, View());
        count := count + n;
      }
      LeadsFinished(Step, Done, start, data, count, View());
    }
  }

  /** The string behind the body with a block appended and unmasked in place. */
  method MaskTail(body: seq<Octet>, block: seq<Octet>, shift: nat, key: bv32, address: nat, little: bool)
    returns (r: seq<Octet>)
    ensures r == body + Masked(shift, block, key)
  {
    var all := body + block;
    var buf := new Octet[|all|](i requires 0 <= i < |all| => all[i]);
    assert buf[..] == all;
    MaskData(shift, buf, |body|, |all|, key, address + |body|, little);
    r := buf[..];
    assert all[..|body|] == body && all[|body|..|all|] == block && all[|all|..] == [];
  }
}

module WebSocketFrames {
  import opened HttpChars
  import opened Automaton
  import opened WebSocketMask
  import B = WebSocketBody
  import H = WebSocketHeader
  import U = Utf8

  // ---------- one frame ----------

  datatype Frame = InHeader(header: H.Header) | InBody(header: H.Header, body: B.Body)

  /** The body parser is made as soon as the header is complete. */
  function Next(h: H.Header): Frame {
    if h.state == H.GOOD then InBody(h, B.Start(h.payloadLen, h.maskingKey)) else InHeader(h)
  }

  function Step(f: Frame, x: Octet): Frame {
    match f
    case InHeader(h) => Next(H.Step(h, x))
    case InBody(h, b) => InBody(h, B.Step(b, x))
  }

  predicate Done(f: Frame) {
    match f
    case InHeader(h) => h.state == H.FAILED
    case InBody(h, b) => b.good
  }

  const START: Frame := InHeader(H.START)

  function FeedFrame(f: Frame, data: seq<Octet>): (Frame, nat) {
    Feed(Step, Done, f, data)
  }

  lemma HeaderEmbeds()
    ensures Embeds(H.Step, H.Done, (h: H.Header) => h.state == H.GOOD, Step, Done, Next)
  {}

  /** The header parser inside the connection. */
  lemma HeaderInFrame(h: H.Header, f: Frame, data: seq<Octet>, r: (H.Header, nat), q: (Frame, nat))
    requires f == Next(h) && r == H.FeedHeader(h, data) && q == FeedFrame(Next(r.0), data[r.1..])
    ensures FeedFrame(f, data) == (q.0, r.1 + q.1)
  {
    HeaderEmbeds();
    FeedEmbedded(H.Step, H.Done, (h: H.Header) => h.state == H.GOOD, Step, Done, Next, h, f, data, r, q);
  }

  /** The body parser inside the connection. */
  lemma {:induction false} BodyInFrame(h: H.Header, b: B.Body, data: seq<Octet>)
    ensures var r := B.FeedBody(b, data);
      FeedFrame(InBody(h, b), data) == (InBody(h, r.0), r.1)
    decreases |data|
  {
    if !b.good && data != [] {
      BodyInFrame(h, B.Step(b, data[0]), data[1..]);
    }
  }

  /** The payload as it is sent. */
  function Payload(data: seq<Octet>, key: Option<bv32>): (r: seq<Octet>)
    ensures |r| == |data|
  {
    if key.Some? then Masked(0, data, key.value) else data
  }

  function Encode(fin: bool, opcode: Octet, len: nat, data: seq<Octet>, key: Option<bv32>): seq<Octet> {
    H.Save(fin, opcode, len, key) + Payload(data, key)
  }

  /** Read up to the end: the body is what was to be sent. */
  function Received(fin: bool, opcode: Octet, len: nat, data: seq<Octet>, key: Option<bv32>): Frame {
    InBody(H.Header(H.GOOD, fin, opcode, len, key, 0), B.Take(B.Start(|data|, key), Payload(data, key)))
  }

  lemma ReceivedBody(fin: bool, opcode: Octet, len: nat, data: seq<Octet>, key: Option<bv32>)
    ensures var r := Received(fin, opcode, len, data, key).body; r.good && r.body == data
  {
    var k := if key.Some? then key.value else 0;
    MaskedTwice(0, data, k);
    MaskedByZero(0, data);
  }

  lemma PayloadRead(len: nat, data: seq<Octet>, key: Option<bv32>, later: seq<Octet>)
    requires len == |data|
    ensures B.FeedBody(B.Start(len, key), Payload(data, key) + later)
            == (B.Take(B.Start(len, key), Payload(data, key)), |data|)
  {
    var b, p := B.Start(len, key), Payload(data, key);
    if data != [] {
      B.BlockTaken(b, p);
      LeadsThenRest(B.Step, B.Done, b, p, B.Take(b, p), later);
    } else {
      assert b.body + B.Unmasked(b, p) == [];
      FeedDone(B.Step, B.Done, b, p + later);
    }
  }

  lemma SavedIsRead(fin: bool, opcode: Octet, len: nat, key: Option<bv32>, saved: seq<Octet>, rest: seq<Octet>)
    requires len <= H.UINT64_MAX && H.Sendable(fin, opcode, len) && saved == H.Save(fin, opcode, len, key)
    ensures H.FeedHeader(H.START, saved + rest) == (H.Header(H.GOOD, fin, opcode, len, key, 0), |saved|)
  {
    H.HeaderRoundTrip(fin, opcode, len, key, rest);
  }

  lemma BehindHeader(h: H.Header, saved: seq<Octet>, rest: seq<Octet>, data: seq<Octet>, q: (Frame, nat))
    requires data == saved + rest && H.FeedHeader(H.START, data) == (h, |saved|) && q == FeedFrame(Next(h), rest)
    ensures FeedFrame(START, data) == (q.0, |saved| + q.1)
  {
    assert data[|saved|..] == rest;
    HeaderInFrame(H.START, START, data, (h, |saved|), q);
  }

  lemma PayloadInFrame(h: H.Header, data: seq<Octet>, later: seq<Octet>)
    requires h.state == H.GOOD && h.payloadLen == |data|
    ensures var payload := Payload(data, h.maskingKey);
      FeedFrame(Next(h), payload + later) == (InBody(h, B.Take(B.Start(|data|, h.maskingKey), payload)), |data|)
  {
    BodyInFrame(h, B.Start(|data|, h.maskingKey), Payload(data, h.maskingKey) + later);
    PayloadRead(|data|, data, h.maskingKey, later);
  }

  lemma SendableFrame(fin: bool, opcode: Octet, len: nat, data: seq<Octet>, key: Option<bv32>, later: seq<Octet>)
    requires len == |data| <= H.UINT64_MAX && H.Sendable(fin, opcode, len)
    ensures var encoded := Encode(fin, opcode, len, data, key);
      FeedFrame(START, encoded + later) == (Received(fin, opcode, len, data, key), |encoded|)
  {
    var saved, payload := H.Save(fin, opcode, len, key), Payload(data, key);
    var h := H.Header(H.GOOD, fin, opcode, len, key, 0);
    SavedIsRead(fin, opcode, len, key, saved, payload + later);
    PayloadInFrame(h, data, later);
    BehindHeader(h, saved, payload + later, saved + (payload + later), (Received(fin, opcode, len, data, key), |data|));
    B.Associate(saved, payload, later);
  }

  /** What the frame says of its header is what the header parser found. */
  lemma HeaderOfFrame(h: H.Header, data: seq<Octet>)
    requires H.Done(h) || data == []
    ensures FeedFrame(Next(h), data).0.header == h
  {
    if h.state == H.GOOD {
      BodyInFrame(h, B.Start(h.payloadLen, h.maskingKey), data);
    }
  }

  lemma OtherFrame(fin: bool, opcode: Octet, len: nat, data: seq<Octet>, key: Option<bv32>, later: seq<Octet>)
    requires len == |data| <= H.UINT64_MAX && !H.Sendable(fin, opcode, len)
    ensures FeedFrame(START, Encode(fin, opcode, len, data, key) + later).0 != Received(fin, opcode, len, data, key)
  {
    var saved, rest := H.Save(fin, opcode, len, key), Payload(data, key) + later;
    var r := H.FeedHeader(H.START, saved + rest);
    H.HeaderRoundTrip(fin, opcode, len, key, rest);
    HeaderInFrame(H.START, START, saved + rest, r, FeedFrame(Next(r.0), (saved + rest)[r.1..]));
    HeaderOfFrame(r.0, (saved + rest)[r.1..]);
    B.Associate(saved, Payload(data, key), later);
  }

  /** The frame is read with its fields and its payload, and nothing behind it is touched, if and only if it is sendable. */
  lemma FrameRoundTrip(fin: bool, opcode: Octet, len: nat, data: seq<Octet>, key: Option<bv32>, later: seq<Octet>)
    requires len == |data| <= H.UINT64_MAX
    ensures var encoded := Encode(fin, opcode, len, data, key);
      FeedFrame(START, encoded + later) == (Received(fin, opcode, len, data, key), |encoded|)
      <==> H.Sendable(fin, opcode, len)
  {
    if H.Sendable(fin, opcode, len) {
      SendableFrame(fin, opcode, len, data, key, later);
    } else {
      OtherFrame(fin, opcode, len, data, key, later);
    }
  }

  // ---------- messages ----------

  /** A message handed to write(WebMessage &&): text, binary, close, ping or pong. */
  datatype Message = Message(opcode: Octet, body: seq<Octet>, closeCode: bv16)

  const CLOSE: Octet := 8
  const NO_CODE: bv16 := 1005

  function High(code: bv16): Octet { ((code >> 8) & 0xFF) as Octet }
  function Low(code: bv16): Octet { (code & 0xFF) as Octet }

  function AtLeast1000(code: bv16): bv16 { if code < 1000 then 1000 else code }

  /** web_message_create_close_body */
  function CloseBody(reason: seq<Octet>, closeCode: bv16): seq<Octet> {
    if reason == [] && closeCode == NO_CODE then []
    else [High(AtLeast1000(closeCode)), Low(AtLeast1000(closeCode))] + reason
  }

  /** The body written: a control message is cut to what its frame may hold. */
  function SentBody(m: Message): seq<Octet> {
    var body := if m.opcode == CLOSE then CloseBody(m.body, m.closeCode) else m.body;
    if H.IsControl(m.opcode) && |body| > 125 then body[..125] else body
  }

  lemma SentBodyIsSendable(m: Message)
    requires H.IsOpcodeSupported(m.opcode)
    ensures H.Sendable(true, m.opcode, |SentBody(m)|)
  {}

  lemma MaskedWhole(body: seq<Octet>, now: seq<Octet>, key: bv32)
    requires MaskedPart(body, now, 0, |body|, 0, key)
    ensures now == Masked(0, body, key)
  {
    assert body[0..|body|] == body;
  }

  function EncodeMessage(m: Message, key: Option<bv32>): seq<Octet> {
    Encode(true, m.opcode, |SentBody(m)|, SentBody(m), key)
  }

  /** ClientConnection::write(WebMessage &&): the octets given to the socket. The body is masked where it is stored. */
  method WriteMessage(m: Message, key: bv32, address: nat, little: bool) returns (octets: seq<Octet>)
    ensures octets == EncodeMessage(m, Some(key))
  {
    var body := if m.opcode == CLOSE then CloseBody(m.body, m.closeCode) else m.body;
    if H.IsControl(m.opcode) && |body| > 125 {
      body := body[..125];
    }
    var header := new H.WebMessageHeaderSaver(true, m.opcode, |body|, Some(key));
    var buf := new Octet[|body|](i requires 0 <= i < |body| => body[i]);
    assert buf[..] == body;
    MaskData(0, buf, 0, |body|, key, address, little);
    MaskedWhole(body, buf[..], key);
    octets := header.buffer[..header.pos] + buf[..];
  }

  function CodeOf(high: Octet, low: Octet): bv16 { ((high as bv16) << 8) + low as bv16 }

  /** Octets as is_valid_utf8 has them. */
  function Bytes(s: seq<Octet>): (r: seq<U.Byte>)
    ensures |r| == |s| && forall i :: 0 <= i < |s| ==> r[i] == s[i] as nat
  {
    seq(|s|, i requires 0 <= i < |s| => s[i] as nat)
  }

  /** What the receiver of a close frame takes out of its body: a reason that is no text is cleared. */
  ghost function CloseFields(body: seq<Octet>): Option<(bv16, seq<Octet>)> {
    if |body| >= 2 then Some((CodeOf(body[0], body[1]), if U.IsUtf8(Bytes(body[2..])) then body[2..] else [])) else None
  }

  lemma TwoOctets(code: bv16)
    ensures CodeOf(High(code), Low(code)) == code
  {}

  /** The reason of a close message as far as it fits behind the code. */
  function CutReason(reason: seq<Octet>): seq<Octet> {
    if |reason| > 123 then reason[..123] else reason
  }

  lemma CutBehindCode(x: Octet, y: Octet, reason: seq<Octet>, body: seq<Octet>)
    requires body == [x, y] + reason
    ensures (if |body| > 125 then body[..125] else body) == [x, y] + CutReason(reason)
  {}

  lemma FieldsOf(x: Octet, y: Octet, reason: seq<Octet>, code: bv16)
    requires CodeOf(x, y) == code
    ensures CloseFields([x, y] + reason) == Some((code, if U.IsUtf8(Bytes(reason)) then reason else []))
  {
    assert ([x, y] + reason)[2..] == reason;
  }

  /** No code at all is sent, and no reason. */
  predicate IsBare(m: Message) {
    m.body == [] && m.closeCode == NO_CODE
  }

  /** The code of a close message arrives, raised to 1000 if it is below, and the reason cut to what fits behind it, unless
      the cut reason is no text: then none of it arrives. */
  lemma CloseArrives(m: Message)
    requires m.opcode == CLOSE
    ensures CloseFields(SentBody(m)) ==
      if IsBare(m) then None
      else Some((AtLeast1000(m.closeCode), if U.IsUtf8(Bytes(CutReason(m.body))) then CutReason(m.body) else []))
  {
    if !IsBare(m) {
      CloseWithCode(m, AtLeast1000(m.closeCode));
    }
  }

  lemma CloseWithCode(m: Message, code: bv16)
    requires m.opcode == CLOSE && !IsBare(m) && code == AtLeast1000(m.closeCode)
    ensures var reason := CutReason(m.body);
      CloseFields(SentBody(m)) == Some((code, if U.IsUtf8(Bytes(reason)) then reason else []))
  {
    TwoOctets(code);
    CutBehindCode(High(code), Low(code), m.body, CloseBody(m.body, m.closeCode));
    assert SentBody(m) == [High(code), Low(code)] + CutReason(m.body);
    FieldsOf(High(code), Low(code), CutReason(m.body), code);
  }

  /** The receiver has the code and as much of the reason as fits. */
  ghost predicate ReasonArrives(m: Message) {
    CloseFields(SentBody(m)) == Some((AtLeast1000(m.closeCode), CutReason(m.body)))
  }

  lemma NoOctetsAreUtf8()
    ensures U.IsUtf8([])
  {
    assert U.AllScalar([]) && U.EncodeAll([]) == [];
  }

  /** That is so if and only if what fits is text. */
  lemma ReasonArrivesIffText(m: Message)
    requires m.opcode == CLOSE && !IsBare(m)
    ensures ReasonArrives(m) <==> U.IsUtf8(Bytes(CutReason(m.body)))
  {
    CloseArrives(m);
    NoOctetsAreUtf8();
    assert Bytes([]) == [];
  }

  /** A reason that is text arrives if and only if it is not cut in the middle of a character. */
  lemma TextReasonArrives(m: Message)
    requires m.opcode == CLOSE && !IsBare(m) && U.IsUtf8(Bytes(m.body))
    ensures ReasonArrives(m) <==> |m.body| <= 123 || !(0x80 <= m.body[123] <= 0xBF)
  {
    ReasonArrivesIffText(m);
    if |m.body| > 123 {
      assert Bytes(m.body[..123]) == Bytes(m.body)[..123];
      U.CutOfUtf8(Bytes(m.body), 123);
      TailOctet(m.body[123]);
    }
  }

  lemma TailOctet(x: Octet)
    ensures U.IsTail(x as nat) <==> 0x80 <= x <= 0xBF
  {}

  /** For instance 122 letters and one of two octets: all of them are lost. */
  lemma ReasonCutInTheMiddle() returns (m: Message)
    ensures m.opcode == CLOSE && m.closeCode == 1000 && |m.body| == 124 && U.IsUtf8(Bytes(m.body))
    ensures CloseFields(SentBody(m)) == Some((1000, []))
  {
    var letters: seq<nat> := seq(122, i => 0x61);
    var body: seq<Octet> := seq(122, i => 0x61) + [0xC3, 0xA9];
    LettersEncoded(letters, [0xE9]);
    assert U.EncodeAll([0xE9]) == [0xC3, 0xA9];
    assert Bytes(body) == letters + [0xC3, 0xA9];
    m := Message(CLOSE, body, 1000);
    TextReasonArrives(m);
    CloseArrives(m);
  }

  lemma OneLetterEncoded(rest: seq<nat>)
    requires U.AllScalar(rest)
    ensures U.AllScalar([0x61] + rest) && U.EncodeAll([0x61] + rest) == [0x61] + U.EncodeAll(rest)
  {
    assert ([0x61] + rest)[1..] == rest;
  }

  /** Letters are encoded as themselves. */
  lemma {:induction false} LettersEncoded(letters: seq<nat>, more: seq<nat>)
    requires forall i :: 0 <= i < |letters| ==> letters[i] == 0x61
    requires U.AllScalar(more)
    ensures U.AllScalar(letters + more) && U.EncodeAll(letters + more) == letters + U.EncodeAll(more)
    decreases |letters|
  {
    if letters == [] {
      assert letters + more == more;
    } else {
      LettersEncoded(letters[1..], more);
      OneLetterEncoded(letters[1..] + more);
      assert letters == [0x61] + letters[1..];
      B.Associate([0x61], letters[1..], more);
      B.Associate([0x61], letters[1..], U.EncodeAll(more));
    }
  }

  // ---------- frames one after the other ----------

  /** The frames read so far, opcode and body, and the one being read. */
  datatype Reader = Reader(frames: seq<(Octet, seq<Octet>)>, frame: Frame)

  /** A frame that is complete makes room for the next. */
  function Settle(frames: seq<(Octet, seq<Octet>)>, f: Frame): Reader {
    if f.InBody? && f.body.good then Reader(frames + [(f.header.opcode, f.body.body)], START) else Reader(frames, f)
  }

  function ReaderStep(r: Reader, x: Octet): Reader {
    Settle(r.frames, Step(r.frame, x))
  }

  predicate ReaderDone(r: Reader) { Done(r.frame) }

  function FeedReader(r: Reader, data: seq<Octet>): (Reader, nat) {
    Feed(ReaderStep, ReaderDone, r, data)
  }

  function Settling(frames: seq<(Octet, seq<Octet>)>): Frame -> Reader {
    (f: Frame) => Settle(frames, f)
  }

  lemma FrameEmbeds(frames: seq<(Octet, seq<Octet>)>)
    ensures Embeds(Step, Done, (f: Frame) => f.InBody? && f.body.good, ReaderStep, ReaderDone, Settling(frames))
  {}

  /** One frame of the stream. */
  lemma FrameInReader(frames: seq<(Octet, seq<Octet>)>, f: Frame, data: seq<Octet>, r: (Frame, nat), t: Reader, q: (Reader, nat))
    requires r == FeedFrame(f, data) && t == Settle(frames, r.0) && q == FeedReader(t, data[r.1..])
    ensures FeedReader(Settle(frames, f), data) == (q.0, r.1 + q.1)
  {
    FrameEmbeds(frames);
    assert t == Settling(frames)(r.0);
    FeedEmbedded(Step, Done, (f: Frame) => f.InBody? && f.body.good, ReaderStep, ReaderDone, Settling(frames),
                 f, Settle(frames, f), data, r, q);
  }

  function EncodeAll(ms: seq<Message>, keys: seq<Option<bv32>>): seq<Octet>
    requires |keys| == |ms|
  {
    if ms == [] then [] else EncodeMessage(ms[0], keys[0]) + EncodeAll(ms[1..], keys[1..])
  }

  function Delivered(ms: seq<Message>): seq<(Octet, seq<Octet>)> {
    if ms == [] then [] else [(ms[0].opcode, SentBody(ms[0]))] + Delivered(ms[1..])
  }

  /** Messages a connection can write. */
  predicate Writable(m: Message) {
    H.IsOpcodeSupported(m.opcode) && |SentBody(m)| <= H.UINT64_MAX
  }

  ghost predicate ReaderLeads(r: Reader, data: seq<Octet>, t: Reader) {
    Leads(ReaderStep, ReaderDone, r, data, t)
  }

  lemma EncodedRead(frames: seq<(Octet, seq<Octet>)>, opcode: Octet, body: seq<Octet>, key: Option<bv32>, encoded: seq<Octet>)
    requires |body| <= H.UINT64_MAX && H.Sendable(true, opcode, |body|)
    requires encoded == Encode(true, opcode, |body|, body, key)
    ensures ReaderLeads(Reader(frames, START), encoded, Reader(frames + [(opcode, body)], START))
  {
    SendableFrame(true, opcode, |body|, body, key, []);
    ReceivedBody(true, opcode, |body|, body, key);
    assert encoded + [] == encoded && encoded[|encoded|..] == [];
    var f, more := Received(true, opcode, |body|, body, key), Reader(frames + [(opcode, body)], START);
    LeadsNowhere(ReaderStep, ReaderDone, more);
    FrameInReader(frames, START, encoded, (f, |encoded|), more, (more, 0));
  }

  lemma OneRead(frames: seq<(Octet, seq<Octet>)>, m: Message, key: Option<bv32>)
    requires Writable(m)
    ensures ReaderLeads(Reader(frames, START), EncodeMessage(m, key), Reader(frames + [(m.opcode, SentBody(m))], START))
  {
    SentBodyIsSendable(m);
    EncodedRead(frames, m.opcode, SentBody(m), key, EncodeMessage(m, key));
  }

  lemma {:induction false} AllRead(frames: seq<(Octet, seq<Octet>)>, ms: seq<Message>, keys: seq<Option<bv32>>)
    requires |keys| == |ms| && forall i :: 0 <= i < |ms| ==> Writable(ms[i])
    ensures ReaderLeads(Reader(frames, START), EncodeAll(ms, keys), Reader(frames + Delivered(ms), START))
    decreases |ms|
  {
    if ms == [] {
      assert frames + Delivered(ms) == frames;
      LeadsNowhere(ReaderStep, ReaderDone, Reader(frames, START));
    } else {
      var more := frames + [(ms[0].opcode, SentBody(ms[0]))];
      OneRead(frames, ms[0], keys[0]);
      AllRead(more, ms[1..], keys[1..]);
      B.Associate(frames, [(ms[0].opcode, SentBody(ms[0]))], Delivered(ms[1..]));
      LeadsTrans(ReaderStep, ReaderDone, Reader(frames, START), EncodeMessage(ms[0], keys[0]), Reader(more, START),
                 EncodeAll(ms[1..], keys[1..]), Reader(frames + Delivered(ms), START));
    }
  }

  /** Messages written one after the other, each with a key of its own or none, and delivered in any fragments, are read
      as they were written. */
  lemma MessagesRoundTrip(ms: seq<Message>, keys: seq<Option<bv32>>, fragments: seq<seq<Octet>>)
    requires |keys| == |ms| && forall i :: 0 <= i < |ms| ==> Writable(ms[i])
    requires Join(fragments) == EncodeAll(ms, keys)
    ensures FeedFragments(ReaderStep, ReaderDone, Reader([], START), fragments)
            == (Reader(Delivered(ms), START), |EncodeAll(ms, keys)|)
  {
    FragmentsDoNotMatter(ReaderStep, ReaderDone, Reader([], START), fragments);
    AllRead([], ms, keys);
    assert [] + Delivered(ms) == Delivered(ms);
  }

  // ---------- what the connection makes of them ----------

  /** A frame that is complete is answered, passed over, handed to the user, or ends the connection because it is no text. */
  datatype Event = Pong(body: seq<Octet>) | Nothing | Close(fields: Option<(bv16, seq<Octet>)>)
    | Data(opcode: Octet, body: seq<Octet>) | NotText

  const TEXT: Octet := 1
  const PING: Octet := 9
  const PONG: Octet := 10

  /** The cases of advance_state() behind a complete frame that is final. */
  ghost function FrameEvent(opcode: Octet, body: seq<Octet>): Event {
    if opcode == PING then Pong(body)
    else if opcode == PONG then Nothing
    else if opcode == CLOSE then Close(CloseFields(body))
    else if opcode == TEXT && !U.IsUtf8(Bytes(body)) then NotText
    else Data(opcode, body)
  }

  /** Behind a message that is no text the connection is shut down and nothing more is read. */
  ghost function Events(frames: seq<(Octet, seq<Octet>)>): seq<Event> {
    if frames == [] then []
    else
      var e := FrameEvent(frames[0].0, frames[0].1);
      if e.NotText? then [e] else [e] + Events(frames[1..])
  }

  /** What a message is to be to the other side. */
  ghost function Intended(m: Message): Event {
    var cut := if |m.body| > 125 then m.body[..125] else m.body;
    if m.opcode == PING then Pong(cut)
    else if m.opcode == PONG then Nothing
    else if m.opcode == CLOSE then
      var reason := CutReason(m.body);
      Close(if IsBare(m) then None
            else Some((AtLeast1000(m.closeCode), if U.IsUtf8(Bytes(reason)) then reason else [])))
    else if m.opcode == TEXT && !U.IsUtf8(Bytes(m.body)) then NotText
    else Data(m.opcode, m.body)
  }

  ghost function AllIntended(ms: seq<Message>): seq<Event> {
    if ms == [] then []
    else if Intended(ms[0]).NotText? then [NotText] else [Intended(ms[0])] + AllIntended(ms[1..])
  }

  lemma OneArrives(m: Message)
    requires H.IsOpcodeSupported(m.opcode)
    ensures FrameEvent(m.opcode, SentBody(m)) == Intended(m)
  {
    if m.opcode == CLOSE {
      CloseArrives(m);
    }
  }

  lemma {:induction false} AllArrive(ms: seq<Message>)
    requires forall i :: 0 <= i < |ms| ==> Writable(ms[i])
    ensures Events(Delivered(ms)) == AllIntended(ms)
    decreases |ms|
  {
    if ms != [] {
      OneArrives(ms[0]);
      AllArrive(ms[1..]);
      assert Delivered(ms)[1..] == Delivered(ms[1..]);
    }
  }

  /** Messages written one after the other reach the user of the other side, or its connection, as what they are, up to the
      first text that is none. */
  lemma MessagesArrive(ms: seq<Message>, keys: seq<Option<bv32>>, fragments: seq<seq<Octet>>)
    requires |keys| == |ms| && forall i :: 0 <= i < |ms| ==> Writable(ms[i])
    requires Join(fragments) == EncodeAll(ms, keys)
    ensures Events(FeedFragments(ReaderStep, ReaderDone, Reader([], START), fragments).0.frames) == AllIntended(ms)
  {
    MessagesRoundTrip(ms, keys, fragments);
    AllArrive(ms);
  }
}
