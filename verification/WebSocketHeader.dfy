/** WebSocket frame headers (section 5.2 of RFC 6455): WebMessageHeaderSaver and WebMessageHeaderParser of
    include/crab/http/web_message_parser.hxx. */
module WebSocketHeader {
  import opened HttpChars
  import opened Automaton
  import opened WebSocketMask

  // ---------- what is sent ----------

  function FirstOctet(fin: bool, opcode: Octet): Octet {
    (if fin then 0x80 else 0) | opcode
  }

  const UINT64_MAX: nat := 0xFFFF_FFFF_FFFF_FFFF

  /** w >> i * 8 */
  function Shift(w: nat, i: nat): (r: nat)
    ensures r <= w
  {
    if i == 0 then w else Shift(w, i - 1) / 256
  }

  /** The n low octets of a number, the most significant one first. */
  function BigEndian(w: nat, n: nat): (r: seq<Octet>)
    ensures |r| == n
  {
    if n == 0 then [] else [(Shift(w, n - 1) % 256) as Octet] + BigEndian(w, n - 1)
  }

  function KeyPart(key: Option<bv32>): seq<Octet> {
    if key.Some? then MaskBytes(key.value) else []
  }

  /** The octets of the extended length, none for a short one. */
  function LengthOctets(len: nat): nat {
    if len < 126 then 0 else if len < 65536 then 2 else 8
  }

  function LengthCode(len: nat): (code: nat)
    ensures code < 128
  {
    if len < 126 then len else if len < 65536 then 126 else 127
  }

  function SecondOctet(code: nat, masked: bool): Octet
    requires code < 128
  {
    code as Octet | if masked then 0x80 else 0
  }

  function Save(fin: bool, opcode: Octet, len: nat, key: Option<bv32>): (r: seq<Octet>)
    ensures |r| == 2 + LengthOctets(len) + |KeyPart(key)| <= 14
  {
    [FirstOctet(fin, opcode), SecondOctet(LengthCode(len), key.Some?)] + BigEndian(len, LengthOctets(len)) + KeyPart(key)
  }

  lemma Parts(x: Octet, y: Octet, number: seq<Octet>)
    ensures [] + [x] + [y] + number == [x, y] + number
  {}

  /** The object: a buffer of 16 octets, filled by its constructor. */
  class WebMessageHeaderSaver {
    const buffer: array<Octet>
    var pos: nat

    ghost function Data(): seq<Octet>
      reads this, buffer
      requires pos <= buffer.Length
    {
      buffer[..pos]
    }

    constructor (fin: bool, opcode: Octet, len: nat, key: Option<bv32>)
      ensures fresh(buffer) && pos <= buffer.Length && Data() == Save(fin, opcode, len, key)
    {
      buffer := new Octet[16];
      pos := 0;
      new;
      Put(FirstOctet(fin, opcode));
      PutLength(len, key.Some?);
      Parts(FirstOctet(fin, opcode), SecondOctet(LengthCode(len), key.Some?), BigEndian(len, LengthOctets(len)));
      if key.Some? {
        PutKey(key.value);
      }
    }

    method PutLength(len: nat, masked: bool)
      requires pos + 9 <= buffer.Length
      modifies this`pos, buffer
      ensures pos == old(pos) + 1 + LengthOctets(len)
      ensures Data() == old(Data()) + [SecondOctet(LengthCode(len), masked)] + BigEndian(len, LengthOctets(len))
    {
      if len < 126 {
        Put(SecondOctet(len, masked));
      } else if len < 65536 {
        Put(SecondOctet(126, masked));
        PutNumber(len, 2);
      } else {
        Put(SecondOctet(127, masked));
        PutNumber(len, 8);
      }
    }

    method Put(x: Octet)
      requires pos < buffer.Length
      modifies this`pos, buffer
      ensures pos == old(pos) + 1 && Data() == old(Data()) + [x]
    {
      buffer[pos] := x;
      pos := pos + 1;
    }

    lemma NextOctet(data: seq<Octet>, x: Octet, w: nat, i: nat)
      requires x == (Shift(w, i) % 256) as Octet
      ensures data + BigEndian(w, i + 1) == data + [x] + BigEndian(w, i)
    {}

    method PutNumber(w: nat, n: nat)
      requires pos + n <= buffer.Length
      modifies this`pos, buffer
      ensures pos == old(pos) + n && Data() == old(Data()) + BigEndian(w, n)
    {
      ghost var before := Data();
      var i := n;
      while i > 0
        invariant 0 <= i <= n && pos == old(pos) + n - i <= buffer.Length
        invariant Data() + BigEndian(w, i) == before + BigEndian(w, n)
      {
        i := i - 1;
        ghost var data := Data();
        var x := (Shift(w, i) % 256) as Octet;
        NextOctet(data, x, w, i);
        Put(x);
      }
      assert Data() + [] == Data();
    }

    method PutKey(key: bv32)
      requires pos + 4 <= buffer.Length
      modifies this`pos, buffer
      ensures pos == old(pos) + 4 && Data() == old(Data()) + MaskBytes(key)
    {
      ghost var before := Data();
      var octets := MaskBytes(key);
      for i := 0 to 4
        invariant pos == old(pos) + i
        invariant Data() == before + octets[..i]
      {
        Put(octets[i]);
        assert octets[..i] + [octets[i]] == octets[..i + 1];
      }
      assert octets[..4] == octets;
    }
  }

  // ---------- what is read ----------

  datatype State = MESSAGE_BYTE_0 | MESSAGE_BYTE_1 | MESSAGE_LENGTH | MASKING_KEY | GOOD | FAILED

  /** FAILED stands for the exceptions. */
  datatype Header = Header(state: State, fin: bool, opcode: Octet, payloadLen: nat, maskingKey: Option<bv32>,
                           remainingFieldBytes: nat)

  const START := Header(MESSAGE_BYTE_0, false, 0, 0, None, 0)

  predicate IsOpcodeSupported(opcode: Octet) {
    opcode == 1 || opcode == 2 || opcode == 8 || opcode == 9 || opcode == 10
  }

  predicate IsControl(opcode: Octet) {
    opcode & 0x08 != 0
  }

  /** Where the length has been read. */
  function AfterLength(h: Header): Header {
    if h.maskingKey.Some? then h.(state := MASKING_KEY, remainingFieldBytes := 4)
    else h.(state := GOOD, remainingFieldBytes := 0)
  }

  function ByteZero(h: Header, input: Octet): Header {
    if input & 0x70 != 0 || !IsOpcodeSupported(input & 0x0F) then h.(state := FAILED)
    else h.(state := MESSAGE_BYTE_1, fin := input & 0x80 != 0, opcode := input & 0x0F)
  }

  function ByteOne(h: Header, input: Octet): Header {
    LengthAndMask(h, (input & 0x7F) as nat, input & 0x80 != 0)
  }

  function LengthAndMask(h: Header, len: nat, masked: bool): Header {
    var k := h.(maskingKey := if masked then Some(0) else h.maskingKey);
    if IsControl(h.opcode) && (len > 125 || !h.fin) then h.(state := FAILED)
    else if len == 126 then k.(state := MESSAGE_LENGTH, payloadLen := 0, remainingFieldBytes := 2)
    else if len == 127 then k.(state := MESSAGE_LENGTH, payloadLen := 0, remainingFieldBytes := 8)
    else AfterLength(k.(payloadLen := len))
  }

  /** (len << 8) + input in 64 bits. */
  function Append64(len: nat, input: Octet): nat { (len * 256 + input as nat) % (UINT64_MAX + 1) }

  function Append32(key: bv32, input: Octet): bv32 { (key << 8) + input as bv32 }

  function LengthByte(h: Header, input: Octet): Header
    requires h.remainingFieldBytes > 0
  {
    var k := h.(payloadLen := Append64(h.payloadLen, input), remainingFieldBytes := h.remainingFieldBytes - 1);
    if k.remainingFieldBytes != 0 then k else AfterLength(k)
  }

  function KeyByte(h: Header, input: Octet): Header
    requires h.remainingFieldBytes > 0 && h.maskingKey.Some?
  {
    var k := h.(maskingKey := Some(Append32(h.maskingKey.value, input)), remainingFieldBytes := h.remainingFieldBytes - 1);
    if k.remainingFieldBytes != 0 then k else k.(state := GOOD)
  }

  /** What holds of the fields between two octets. */
  predicate Proper(h: Header) {
    && (h.state == MESSAGE_LENGTH || h.state == MASKING_KEY <==> h.remainingFieldBytes > 0)
    && (h.state == MASKING_KEY ==> h.maskingKey.Some?)
  }

  function Step(h: Header, input: Octet): Header {
    if !Proper(h) then h else
    match h.state
    case MESSAGE_BYTE_0 => ByteZero(h, input)
    case MESSAGE_BYTE_1 => ByteOne(h, input)
    case MESSAGE_LENGTH => LengthByte(h, input)
    case MASKING_KEY => KeyByte(h, input)
    case GOOD => h
    case FAILED => h
  }

  predicate Done(h: Header) { h.state == GOOD || h.state == FAILED }

  lemma StepIsProper(h: Header, input: Octet)
    requires Proper(h)
    ensures Proper(Step(h, input))
  {
    match h.state
    case MESSAGE_BYTE_0 =>
    case MESSAGE_BYTE_1 => LengthAndMaskIsProper(h, (input & 0x7F) as nat, input & 0x80 != 0);
    case MESSAGE_LENGTH =>
    case MASKING_KEY =>
    case GOOD =>
    case FAILED =>
  }

  lemma LengthAndMaskIsProper(h: Header, len: nat, masked: bool)
    requires Proper(h) && h.state == MESSAGE_BYTE_1
    ensures Proper(LengthAndMask(h, len, masked))
  {}

  function FeedHeader(h: Header, data: seq<Octet>): (Header, nat) {
    Feed(Step, Done, h, data)
  }

  ghost predicate HeaderLeads(h: Header, data: seq<Octet>, t: Header) {
    Leads(Step, Done, h, data, t)
  }

  /** The object. */
  class WebMessageHeaderParser {
    var fin: bool
    var opcode: Octet
    var payloadLen: nat
    var maskingKey: Option<bv32>
    var state: State
    var remainingFieldBytes: nat

    ghost function View(): Header
      reads this
    {
      Header(state, fin, opcode, payloadLen, maskingKey, remainingFieldBytes)
    }

    constructor ()
      ensures Proper(View()) && View() == START
    {
      fin, opcode, payloadLen, maskingKey, state, remainingFieldBytes := false, 0, 0, None, MESSAGE_BYTE_0, 0;
    }

    method FieldsFollow()
      modifies this
      ensures View() == AfterLength(old(View()))
    {
      if maskingKey.Some? {
        remainingFieldBytes := 4;
        state := MASKING_KEY;
      } else {
        remainingFieldBytes := 0;
        state := GOOD;
      }
    }

    method ConsumeByteZero(input: Octet)
      modifies this
      ensures View() == ByteZero(old(View()), input)
    {
      if input & 0x70 != 0 || !IsOpcodeSupported(input & 0x0F) {
        state := FAILED;
      } else {
        fin, opcode, state := input & 0x80 != 0, input & 0x0F, MESSAGE_BYTE_1;
      }
    }

    method ConsumeByteOne(len: nat, masked: bool)
      modifies this
      ensures View() == LengthAndMask(old(View()), len, masked)
    {
      if IsControl(opcode) && (len > 125 || !fin) {
        state := FAILED;
        return;
      }
      if masked {
        maskingKey := Some(0);
      }
      if len == 126 {
        payloadLen, remainingFieldBytes, state := 0, 2, MESSAGE_LENGTH;
      } else if len == 127 {
        payloadLen, remainingFieldBytes, state := 0, 8, MESSAGE_LENGTH;
      } else {
        payloadLen := len;
        FieldsFollow();
      }
    }

    method ConsumeLengthByte(input: Octet)
      requires remainingFieldBytes > 0
      modifies this
      ensures View() == LengthByte(old(View()), input)
    {
      payloadLen := Append64(payloadLen, input);
      remainingFieldBytes := remainingFieldBytes - 1;
      if remainingFieldBytes == 0 {
        FieldsFollow();
      }
    }

    method ConsumeKeyByte(input: Octet)
      requires remainingFieldBytes > 0 && maskingKey.Some?
      modifies this
      ensures View() == KeyByte(old(View()), input)
    {
      maskingKey := Some(Append32(maskingKey.value, input));
      remainingFieldBytes := remainingFieldBytes - 1;
      if remainingFieldBytes == 0 {
        state := GOOD;
      }
    }

    /** consume(); an exception leaves the parser in FAILED. */
    method Consume(input: Octet)
      requires Proper(View()) && !Done(View())
      modifies this
      ensures View() == Step(old(View()), input)
    {
      match state {
        case MESSAGE_BYTE_0 => ConsumeByteZero(input);
        case MESSAGE_BYTE_1 => ConsumeByteOne((input & 0x7F) as nat, input & 0x80 != 0);
        case MESSAGE_LENGTH => ConsumeLengthByte(input);
        case MASKING_KEY => ConsumeKeyByte(input);
        case _ =>
      }
    }

    /** parse(begin, end) */
    method Parse(data: seq<Octet>) returns (count: nat)
      requires Proper(View())
      modifies this
      ensures Proper(View()) && (View(), count) == FeedHeader(old(View()), data)
    {
      count := 0;
      ghost var start := View();
      while count < |data| && state != GOOD && state != FAILED
        invariant Proper(View()) && count <= |data|
        invariant HeaderLeads(start, data[..count], View())
      {
        ghost var before := View();
        StepIsProper(before, data[count]);
        Consume(data[count]);
        LeadsExtended(Step, Done, start, data, count, before, View());
        count := count + 1;
      }
      LeadsFinished(Step, Done, start, data, count, View());
    }
  }

  // ---------- the round trip ----------

  lemma StepLeads(h: Header, x: Octet, t: Header)
    requires !Done(h) && t == Step(h, x)
    ensures HeaderLeads(h, [x], t)
  {
    FeedOne(Step, Done, h, x);
  }

  lemma OctetValue(n: nat)
    requires n < 256
    ensures (n as Octet) as nat == n
  {
    assert n % 256 == n;
  }

  /** What has been read of a length when n octets are still to come is Shift(w, n). */
  lemma ShiftGrows(w: nat, n: nat)
    requires w <= UINT64_MAX
    ensures Append64(Shift(w, n + 1), (Shift(w, n) % 256) as Octet) == Shift(w, n)
  {
    OctetValue(Shift(w, n) % 256);
  }

  lemma ShiftedOut2(w: nat)
    requires w < 65536
    ensures Shift(w, 2) == 0
  {
    assert Shift(w, 1) == Shift(w, 0) / 256;
  }

  lemma ShiftedOut8(w: nat)
    requires w <= UINT64_MAX
    ensures Shift(w, 8) == 0
  {
    assert Shift(w, 1) <= 0xFF_FFFF_FFFF_FFFF;
    assert Shift(w, 2) == Shift(w, 1) / 256 <= 0xFFFF_FFFF_FFFF;
    assert Shift(w, 3) == Shift(w, 2) / 256 <= 0xFF_FFFF_FFFF;
    assert Shift(w, 4) == Shift(w, 3) / 256 <= 0xFFFF_FFFF;
    assert Shift(w, 5) == Shift(w, 4) / 256 <= 0xFF_FFFF;
    assert Shift(w, 6) == Shift(w, 5) / 256 <= 0xFFFF;
    assert Shift(w, 7) == Shift(w, 6) / 256 <= 0xFF;
  }

  /** In MESSAGE_LENGTH, with the number so far and the octets to come. */
  function InLength(h: Header, len: nat, n: nat): Header {
    if n == 0 then AfterLength(h.(payloadLen := len))
    else h.(state := MESSAGE_LENGTH, payloadLen := len, remainingFieldBytes := n)
  }

  lemma LengthByteLeads(h: Header, u: nat, v: nat, n: nat, x: Octet)
    requires v == Append64(u, x)
    ensures HeaderLeads(InLength(h, u, n + 1), [x], InLength(h, v, n))
  {
    StepLeads(InLength(h, u, n + 1), x, InLength(h, v, n));
  }

  lemma {:induction false} LengthRead(h: Header, w: nat, n: nat)
    requires 0 < n && w <= UINT64_MAX
    ensures HeaderLeads(InLength(h, Shift(w, n), n), BigEndian(w, n), InLength(h, w, 0))
    decreases n
  {
    ShiftGrows(w, n - 1);
    var x := (Shift(w, n - 1) % 256) as Octet;
    LengthByteLeads(h, Shift(w, n), Shift(w, n - 1), n - 1, x);
    if n == 1 {
      assert BigEndian(w, n) == [x];
    } else {
      LengthRead(h, w, n - 1);
      LeadsTrans(Step, Done, InLength(h, Shift(w, n), n), [x], InLength(h, Shift(w, n - 1), n - 1), BigEndian(w, n - 1),
                 InLength(h, w, 0));
    }
  }

  lemma Key0(k: bv32) ensures Append32(0, K0(k)) == k >> 24 {}
  lemma Key1(k: bv32) ensures Append32(k >> 24, K1(k)) == k >> 16 {}
  lemma Key2(k: bv32) ensures Append32(k >> 16, K2(k)) == k >> 8 {}
  lemma Key3(k: bv32) ensures Append32(k >> 8, K3(k)) == k {}

  /** In MASKING_KEY, with the octets so far and the number of those to come. */
  function InKey(h: Header, key: bv32, n: nat): Header {
    h.(state := if n == 0 then GOOD else MASKING_KEY, maskingKey := Some(key), remainingFieldBytes := n)
  }

  lemma KeyByteLeads(h: Header, u: bv32, v: bv32, n: nat, x: Octet)
    requires v == Append32(u, x)
    ensures HeaderLeads(InKey(h, u, n + 1), [x], InKey(h, v, n))
  {
    StepLeads(InKey(h, u, n + 1), x, InKey(h, v, n));
  }

  lemma KeyTwo(h: Header, u: bv32, v: bv32, w: bv32, n: nat, x: Octet, y: Octet)
    requires v == Append32(u, x) && w == Append32(v, y)
    ensures HeaderLeads(InKey(h, u, n + 2), [x] + [y], InKey(h, w, n))
  {
    KeyByteLeads(h, u, v, n + 1, x);
    KeyByteLeads(h, v, w, n, y);
    LeadsTrans(Step, Done, InKey(h, u, n + 2), [x], InKey(h, v, n + 1), [y], InKey(h, w, n));
  }

  lemma KeyRead(h: Header, k: bv32, octets: seq<Octet>)
    requires octets == MaskBytes(k)
    ensures HeaderLeads(InKey(h, 0, 4), octets, InKey(h, k, 0))
  {
    Key0(k);
    Key1(k);
    Key2(k);
    Key3(k);
    KeyTwo(h, 0, k >> 24, k >> 16, 2, K0(k), K1(k));
    KeyTwo(h, k >> 16, k >> 8, k, 0, K2(k), K3(k));
    KeyFour(h, k >> 16, k, K0(k), K1(k), K2(k), K3(k));
  }

  lemma KeyFour(h: Header, v: bv32, k: bv32, x0: Octet, x1: Octet, x2: Octet, x3: Octet)
    requires HeaderLeads(InKey(h, 0, 4), [x0] + [x1], InKey(h, v, 2))
    requires HeaderLeads(InKey(h, v, 2), [x2] + [x3], InKey(h, k, 0))
    ensures HeaderLeads(InKey(h, 0, 4), [x0, x1, x2, x3], InKey(h, k, 0))
  {
    LeadsTrans(Step, Done, InKey(h, 0, 4), [x0] + [x1], InKey(h, v, 2), [x2] + [x3], InKey(h, k, 0));
    assert [x0] + [x1] + ([x2] + [x3]) == [x0, x1, x2, x3];
  }

  /** The frames the other side accepts: known opcodes, and control frames final and short. */
  predicate Sendable(fin: bool, opcode: Octet, len: nat) {
    IsOpcodeSupported(opcode) && (IsControl(opcode) ==> fin && len <= 125)
  }

  lemma SupportedFirstOctet(fin: bool, opcode: Octet)
    requires IsOpcodeSupported(opcode)
    ensures var x := FirstOctet(fin, opcode); x & 0x70 == 0 && x & 0x0F == opcode && (x & 0x80 != 0) == fin
  {}

  lemma OtherFirstOctet(fin: bool, opcode: Octet)
    requires !IsOpcodeSupported(opcode)
    ensures var x := FirstOctet(fin, opcode); x & 0x70 == 0 && IsOpcodeSupported(x & 0x0F) ==> x & 0x0F != opcode
    ensures opcode < 16 ==> FirstOctet(fin, opcode) & 0x0F == opcode
  {}

  lemma MaskedCode(x: Octet, masked: bool)
    requires x < 128
    ensures var y := x | if masked then 0x80 else 0; y & 0x7F == x && (y & 0x80 != 0) == masked
  {}

  lemma SmallValue(x: Octet)
    requires x as nat < 128
    ensures x < 128
  {}

  lemma SecondOctetRead(code: nat, masked: bool)
    requires code < 128
    ensures var y := SecondOctet(code, masked); (y & 0x7F) as nat == code && (y & 0x80 != 0) == masked
  {
    OctetValue(code);
    SmallValue(code as Octet);
    MaskedCode(code as Octet, masked);
  }

  /** After the second octet: what is still to be read of the length. */
  function AfterSecond(h: Header, len: nat, key: Option<bv32>): Header {
    InLength(h.(maskingKey := if key.Some? then Some(0) else None), Shift(len, LengthOctets(len)), LengthOctets(len))
  }

  lemma SecondRead(h: Header, len: nat, key: Option<bv32>, x: Octet)
    requires h.state == MESSAGE_BYTE_1 && h.maskingKey == None && h.remainingFieldBytes == 0 && len <= UINT64_MAX
    requires IsControl(h.opcode) ==> h.fin && len <= 125
    requires (x & 0x7F) as nat == LengthCode(len) && (x & 0x80 != 0) == key.Some?
    ensures HeaderLeads(h, [x], AfterSecond(h, len, key))
  {
    if len >= 65536 {
      ShiftedOut8(len);
    } else {
      ShiftedOut2(len);
    }
    StepLeads(h, x, AfterSecond(h, len, key));
  }

  lemma RestRead(h: Header, len: nat, key: Option<bv32>)
    requires h.state == MESSAGE_BYTE_1 && h.maskingKey == None && h.remainingFieldBytes == 0 && len <= UINT64_MAX
    requires IsControl(h.opcode) ==> h.fin && len <= 125
    ensures HeaderLeads(h, [SecondOctet(LengthCode(len), key.Some?)] + BigEndian(len, LengthOctets(len)) + KeyPart(key),
                        h.(state := GOOD, payloadLen := len, maskingKey := key))
  {
    var x, n := SecondOctet(LengthCode(len), key.Some?), LengthOctets(len);
    SecondOctetRead(LengthCode(len), key.Some?);
    SecondRead(h, len, key, x);
    FieldsRead(h, len, key, [x]);
  }

  lemma FieldsRead(h: Header, len: nat, key: Option<bv32>, row: seq<Octet>)
    requires h.maskingKey == None && h.remainingFieldBytes == 0 && len <= UINT64_MAX && h.state == MESSAGE_BYTE_1
    requires HeaderLeads(h, row, AfterSecond(h, len, key))
    ensures HeaderLeads(h, row + BigEndian(len, LengthOctets(len)) + KeyPart(key),
                        h.(state := GOOD, payloadLen := len, maskingKey := key))
  {
    var n, k := LengthOctets(len), h.(maskingKey := if key.Some? then Some(0) else None);
    var m := InLength(k, len, 0);
    var more := row + BigEndian(len, n);
    if n == 0 {
      assert more == row;
    } else {
      LengthRead(k, len, n);
      LeadsTrans(Step, Done, h, row, AfterSecond(h, len, key), BigEndian(len, n), m);
    }
    KeyFollows(h, m, key, more, h.(payloadLen := len));
  }

  lemma KeyFollows(start: Header, m: Header, key: Option<bv32>, row: seq<Octet>, h: Header)
    requires HeaderLeads(start, row, m)
    requires h.remainingFieldBytes == 0
    requires m == AfterLength(h.(maskingKey := if key.Some? then Some(0) else None))
    ensures HeaderLeads(start, row + KeyPart(key), h.(state := GOOD, maskingKey := key))
  {
    if key.Some? {
      KeyRead(h, key.value, KeyPart(key));
      LeadsTrans(Step, Done, start, row, m, KeyPart(key), h.(state := GOOD, maskingKey := key));
    } else {
      assert row + KeyPart(key) == row;
    }
  }

  lemma UnsupportedOpcode(fin: bool, opcode: Octet, rest: seq<Octet>)
    requires !IsOpcodeSupported(opcode)
    ensures var r := FeedHeader(START, [FirstOctet(fin, opcode)] + rest).0;
      (r.state == FAILED || r.opcode != opcode) && (opcode < 16 ==> r.state == FAILED)
  {
    var x := FirstOctet(fin, opcode);
    var h := ByteZero(START, x);
    OtherFirstOctet(fin, opcode);
    StepLeads(START, x, h);
    FeedSplit(Step, Done, START, [x], rest);
    OpcodeStays(h, rest);
  }

  /** Behind the first octet of a supported opcode. */
  function Second(fin: bool, opcode: Octet): Header {
    Header(MESSAGE_BYTE_1, fin, opcode, 0, None, 0)
  }

  lemma SupportedOpcode(fin: bool, opcode: Octet)
    requires IsOpcodeSupported(opcode)
    ensures HeaderLeads(START, [FirstOctet(fin, opcode)], Second(fin, opcode))
  {
    SupportedFirstOctet(fin, opcode);
    StepLeads(START, FirstOctet(fin, opcode), Second(fin, opcode));
  }

  lemma BadControl(fin: bool, opcode: Octet, len: nat, key: Option<bv32>, rest: seq<Octet>)
    requires IsOpcodeSupported(opcode) && IsControl(opcode) && !(fin && len <= 125)
    ensures FeedHeader(START, [FirstOctet(fin, opcode)] + [SecondOctet(LengthCode(len), key.Some?)] + rest).0.state == FAILED
  {
    var x, y, h := FirstOctet(fin, opcode), SecondOctet(LengthCode(len), key.Some?), Second(fin, opcode);
    var t := h.(state := FAILED);
    SupportedOpcode(fin, opcode);
    SecondOctetRead(LengthCode(len), key.Some?);
    StepLeads(h, y, t);
    LeadsTrans(Step, Done, START, [x], h, [y], t);
    LeadsThenRest(Step, Done, START, [x] + [y], t, rest);
  }

  lemma GoodHeader(fin: bool, opcode: Octet, len: nat, key: Option<bv32>, rest: seq<Octet>)
    requires Sendable(fin, opcode, len) && len <= UINT64_MAX
    requires rest == [SecondOctet(LengthCode(len), key.Some?)] + BigEndian(len, LengthOctets(len)) + KeyPart(key)
    ensures HeaderLeads(START, [FirstOctet(fin, opcode)] + rest, Header(GOOD, fin, opcode, len, key, 0))
  {
    var h := Second(fin, opcode);
    SupportedOpcode(fin, opcode);
    RestRead(h, len, key);
    LeadsTrans(Step, Done, START, [FirstOctet(fin, opcode)], h, rest, Header(GOOD, fin, opcode, len, key, 0));
  }

  lemma SaveParts(x: Octet, y: Octet, number: seq<Octet>, key: seq<Octet>, later: seq<Octet>)
    ensures [x, y] + number + key == [x] + ([y] + number + key)
    ensures [x, y] + number + key + later == [x] + ([y] + number + key + later)
    ensures [x, y] + number + key + later == [x] + [y] + (number + key + later)
  {}

  /** The header read is the header saved, and exactly its octets are consumed. */
  ghost predicate ReadsBack(fin: bool, opcode: Octet, len: nat, key: Option<bv32>, data: seq<Octet>, count: nat) {
    FeedHeader(START, data) == (Header(GOOD, fin, opcode, len, key, 0), count)
  }

  lemma NotReadBack(fin: bool, opcode: Octet, len: nat, key: Option<bv32>, data: seq<Octet>, count: nat)
    requires FeedHeader(START, data).0.state == FAILED || FeedHeader(START, data).0.opcode != opcode
    ensures !ReadsBack(fin, opcode, len, key, data, count)
  {}

  /** This is so if and only if the frame is sendable; others fail unless their opcode does not fit its four bits. */
  lemma HeaderRoundTrip(fin: bool, opcode: Octet, len: nat, key: Option<bv32>, later: seq<Octet>)
    requires len <= UINT64_MAX
    ensures var saved := Save(fin, opcode, len, key);
      ReadsBack(fin, opcode, len, key, saved + later, |saved|) <==> Sendable(fin, opcode, len)
    ensures !Sendable(fin, opcode, len) ==>
      var h := FeedHeader(START, Save(fin, opcode, len, key) + later).0;
      h.state == FAILED || (h.opcode != opcode && opcode >= 16)
  {
    var y, number := SecondOctet(LengthCode(len), key.Some?), BigEndian(len, LengthOctets(len));
    SaveParts(FirstOctet(fin, opcode), y, number, KeyPart(key), later);
    var saved := Save(fin, opcode, len, key);
    if Sendable(fin, opcode, len) {
      GoodHeader(fin, opcode, len, key, [y] + number + KeyPart(key));
      LeadsThenRest(Step, Done, START, saved, Header(GOOD, fin, opcode, len, key, 0), later);
    } else {
      if IsOpcodeSupported(opcode) {
        BadControl(fin, opcode, len, key, number + KeyPart(key) + later);
      } else {
        UnsupportedOpcode(fin, opcode, [y] + number + KeyPart(key) + later);
      }
      NotReadBack(fin, opcode, len, key, saved + later, |saved|);
    }
  }

  lemma StepKeepsOpcode(h: Header, x: Octet)
    requires h.state != MESSAGE_BYTE_0
    ensures Step(h, x).opcode == h.opcode && Step(h, x).fin == h.fin && Step(h, x).state != MESSAGE_BYTE_0
  {
    match h.state
    case MESSAGE_BYTE_1 => LengthKeepsOpcode(h, (x & 0x7F) as nat, x & 0x80 != 0);
    case MESSAGE_LENGTH =>
    case MASKING_KEY =>
    case GOOD =>
    case FAILED =>
  }

  lemma LengthKeepsOpcode(h: Header, len: nat, masked: bool)
    requires h.state != MESSAGE_BYTE_0
    ensures var t := LengthAndMask(h, len, masked); t.opcode == h.opcode && t.fin == h.fin && t.state != MESSAGE_BYTE_0
  {}

  /** Behind the first octet the opcode does not change. */
  lemma {:induction false} OpcodeStays(h: Header, data: seq<Octet>)
    requires h.state != MESSAGE_BYTE_0
    ensures FeedHeader(h, data).0.opcode == h.opcode
    decreases |data|
  {
    if !Done(h) && data != [] {
      StepKeepsOpcode(h, data[0]);
      OpcodeStays(Step(h, data[0]), data[1..]);
    }
  }

  // ---------- the shortest form ----------

  /** The octets a header still needs, once its second octet has been read. */
  function Needed(h: Header): nat {
    match h.state
    case MESSAGE_LENGTH => h.remainingFieldBytes + if h.maskingKey.Some? then 4 else 0
    case MASKING_KEY => h.remainingFieldBytes
    case _ => 0
  }

  /** A length of two octets at most. */
  predicate Small(h: Header) {
    if h.state == MESSAGE_LENGTH then
      (h.remainingFieldBytes == 2 && h.payloadLen == 0) || (h.remainingFieldBytes == 1 && h.payloadLen < 256)
    else h.payloadLen < 65536
  }

  lemma OctetBelow256(x: Octet)
    ensures x as nat < 256
  {}

  lemma SmallSum(len: nat, n: nat)
    requires n < 256
    ensures len == 0 ==> (len * 256 + n) % (UINT64_MAX + 1) < 256
    ensures len < 256 ==> (len * 256 + n) % (UINT64_MAX + 1) < 65536
  {}

  lemma SmallAppend(len: nat, x: Octet)
    ensures len == 0 ==> Append64(len, x) < 256
    ensures len < 256 ==> Append64(len, x) < 65536
  {
    OctetBelow256(x);
    SmallSum(len, x as nat);
  }

  predicate InFields(h: Header) {
    h.state == MESSAGE_LENGTH || h.state == MASKING_KEY || h.state == GOOD
  }

  lemma FieldStep(h: Header, x: Octet)
    requires Proper(h) && (h.state == MESSAGE_LENGTH || h.state == MASKING_KEY)
    ensures var t := Step(h, x);
      Proper(t) && InFields(t) && Needed(t) + 1 == Needed(h) && (t.maskingKey.Some? <==> h.maskingKey.Some?)
  {
    StepIsProper(h, x);
    if h.state == MESSAGE_LENGTH {
    } else {
    }
  }

  lemma LengthByteIsSmall(h: Header, x: Octet, len: nat)
    requires Proper(h) && h.state == MESSAGE_LENGTH && Small(h) && len == Append64(h.payloadLen, x)
    requires (h.payloadLen == 0 ==> len < 256) && (h.payloadLen < 256 ==> len < 65536)
    ensures Small(LengthByte(h, x))
  {
    assert LengthByte(h, x).payloadLen == len;
  }

  lemma FieldStepIsSmall(h: Header, x: Octet)
    requires Proper(h) && (h.state == MESSAGE_LENGTH || h.state == MASKING_KEY) && Small(h)
    ensures Small(Step(h, x))
  {
    if h.state == MESSAGE_LENGTH {
      SmallAppend(h.payloadLen, x);
      LengthByteIsSmall(h, x, Append64(h.payloadLen, x));
    } else {
      assert KeyByte(h, x).payloadLen == h.payloadLen;
    }
  }

  /** A header that is read to its end took what it needed. */
  lemma {:induction false} FieldsTake(h: Header, data: seq<Octet>)
    requires Proper(h) && InFields(h) && FeedHeader(h, data).0.state == GOOD
    ensures var r := FeedHeader(h, data);
      && r.1 == Needed(h) && (r.0.maskingKey.Some? <==> h.maskingKey.Some?)
      && (Small(h) ==> r.0.payloadLen < 65536)
      && (h.state == GOOD ==> r.0 == h)
    decreases |data|
  {
    if h.state != GOOD && data != [] {
      FieldStep(h, data[0]);
      if Small(h) {
        FieldStepIsSmall(h, data[0]);
      }
      FieldsTake(Step(h, data[0]), data[1..]);
    }
  }

  lemma SecondOctetTakes(h: Header, len: nat, masked: bool, data: seq<Octet>)
    requires h.state == MESSAGE_BYTE_1 && h.maskingKey == None && h.remainingFieldBytes == 0 && len < 128
    requires FeedHeader(LengthAndMask(h, len, masked), data).0.state == GOOD
    ensures var r := FeedHeader(LengthAndMask(h, len, masked), data);
      r.1 >= LengthOctets(r.0.payloadLen) + if r.0.maskingKey.Some? then 4 else 0
  {
    var t := LengthAndMask(h, len, masked);
    LengthAndMaskIsProper(h, len, masked);
    LengthAndMaskCases(h, len, masked);
    if t.state == FAILED {
      FeedDone(Step, Done, t, data);
    } else {
      FieldsTake(t, data);
      if len < 126 {
        LengthStays(t, data);
      }
    }
  }

  lemma LengthAndMaskCases(h: Header, len: nat, masked: bool)
    requires h.state == MESSAGE_BYTE_1 && h.maskingKey == None && h.remainingFieldBytes == 0 && len < 128
    ensures var t := LengthAndMask(h, len, masked);
      t.state == FAILED || (InFields(t) && t.maskingKey.Some? == masked
        && (len < 126 ==> t.state != MESSAGE_LENGTH && t.payloadLen < 126)
        && (len == 126 ==> t.state == MESSAGE_LENGTH && t.remainingFieldBytes == 2 && Small(t))
        && (len == 127 ==> t.state == MESSAGE_LENGTH && t.remainingFieldBytes == 8))
  {}

  lemma {:induction false} LengthStays(h: Header, data: seq<Octet>)
    requires h.state == MASKING_KEY || h.state == GOOD
    ensures FeedHeader(h, data).0.payloadLen == h.payloadLen
    decreases |data|
  {
    if h.state != GOOD && data != [] {
      LengthStays(Step(h, data[0]), data[1..]);
    }
  }

  lemma OctetBelow128(x: Octet)
    ensures (x & 0x7F) as nat < 128
  {}

  /** The first octet of the data consumed. */
  lemma OneOctet(h: Header, data: seq<Octet>, t: Header)
    requires !Done(h) && data != [] && t == Step(h, data[0])
    ensures var r := FeedHeader(t, data[1..]);
      FeedHeader(h, data) == (r.0, r.1 + 1) && (t.state == FAILED ==> r.0.state == FAILED)
  {}

  lemma SecondStepIs(h: Header, y: Octet, len: nat, masked: bool)
    requires h.state == MESSAGE_BYTE_1 && h.maskingKey == None && h.remainingFieldBytes == 0
    requires len == (y & 0x7F) as nat && masked == (y & 0x80 != 0)
    ensures Step(h, y) == LengthAndMask(h, len, masked)
  {}

  lemma BehindFirst(h: Header, data: seq<Octet>)
    requires h.state == MESSAGE_BYTE_1 && h.maskingKey == None && h.remainingFieldBytes == 0
    requires FeedHeader(h, data).0.state == GOOD
    ensures var r := FeedHeader(h, data);
      r.1 >= 1 + LengthOctets(r.0.payloadLen) + if r.0.maskingKey.Some? then 4 else 0
  {
    var y := data[0];
    OctetBelow128(y);
    var len, masked := (y & 0x7F) as nat, y & 0x80 != 0;
    SecondStepIs(h, y, len, masked);
    OneOctet(h, data, LengthAndMask(h, len, masked));
    SecondOctetTakes(h, len, masked, data[1..]);
  }

  /** No header that is read as the same fields is shorter than the one saved. */
  lemma SavedFormIsShortest(data: seq<Octet>)
    requires FeedHeader(START, data).0.state == GOOD
    ensures var r := FeedHeader(START, data);
      r.1 >= |Save(r.0.fin, r.0.opcode, r.0.payloadLen, r.0.maskingKey)|
  {
    var h := ByteZero(START, data[0]);
    OneOctet(START, data, h);
    BehindFirst(h, data[1..]);
  }
}
