/** base64::encode and base64::decode of include/crab/crypto/base64.hxx (section 4 of RFC 4648). */
module Base64 {
  import opened HttpChars

  type Byte = x: nat | x < 256

  // ---------- the tables ----------

  /** `tab` in rows of sixteen. */
  function TabRow(high: nat): (row: string)
    ensures |row| == 16
  {
    if high == 0 then "ABCDEFGHIJKLMNOP" else if high == 1 then "QRSTUVWXYZabcdef"
    else if high == 2 then "ghijklmnopqrstuv" else "wxyz0123456789+/"
  }

  function Tab(v: nat): char {
    TabRow(v / 16)[v % 16]
  }

  /** `inverse` in rows of sixteen; 64 for what is no symbol. */
  function InverseRow(high: nat): (row: seq<nat>)
    ensures |row| == 16
  {
    if high == 2 then [64, 64, 64, 64, 64, 64, 64, 64, 64, 64, 64, 62, 64, 64, 64, 63]
    else if high == 3 then [52, 53, 54, 55, 56, 57, 58, 59, 60, 61, 64, 64, 64, 64, 64, 64]
    else if high == 4 then [64, 0, 1, 2, 3, 4, 5, 6, 7, 8, 9, 10, 11, 12, 13, 14]
    else if high == 5 then [15, 16, 17, 18, 19, 20, 21, 22, 23, 24, 25, 64, 64, 64, 64, 64]
    else if high == 6 then [64, 26, 27, 28, 29, 30, 31, 32, 33, 34, 35, 36, 37, 38, 39, 40]
    else if high == 7 then [41, 42, 43, 44, 45, 46, 47, 48, 49, 50, 51, 64, 64, 64, 64, 64]
    else [64, 64, 64, 64, 64, 64, 64, 64, 64, 64, 64, 64, 64, 64, 64, 64]
  }

  function InverseTab(c: char): nat {
    InverseRow(c as int / 16)[c as int % 16]
  }

  /** The alphabet of RFC 4648, and its inverse. */
  function Symbol(v: nat): char
    requires v < 64
  {
    if v < 26 then ('A' as int + v) as char else if v < 52 then ('a' as int + (v - 26)) as char
    else if v < 62 then ('0' as int + (v - 52)) as char else if v == 62 then '+' else '/'
  }

  function Inverse(c: char): (v: nat)
    ensures v <= 64
  {
    if 'A' <= c <= 'Z' then c as int - 'A' as int
    else if 'a' <= c <= 'z' then c as int - 'a' as int + 26
    else if '0' <= c <= '9' then c as int - '0' as int + 52
    else if c == '+' then 62 else if c == '/' then 63 else 64
  }

  lemma InverseRows(c: char, high: nat, low: nat)
    requires c as int == high * 16 + low && low < 16 && high < 5
    ensures InverseRow(high)[low] == Inverse(c)
  {}

  lemma HighInverseRows(c: char, high: nat, low: nat)
    requires c as int == high * 16 + low && low < 16 && high >= 5
    ensures InverseRow(high)[low] == Inverse(c)
  {}

  lemma InverseTabIs(c: char)
    ensures InverseTab(c) == Inverse(c)
  {
    var high, low := c as int / 16, c as int % 16;
    if high < 5 {
      InverseRows(c, high, low);
    } else {
      HighInverseRows(c, high, low);
    }
  }

  lemma TabIs(v: nat)
    requires v < 64
    ensures Tab(v) == Symbol(v)
  {
    assert v == v / 16 * 16 + v % 16;
  }

  lemma InverseOfSymbol(v: nat)
    requires v < 64
    ensures Inverse(Symbol(v)) == v && Symbol(v) != '='
  {}

  // ---------- encoding ----------

  /** Three octets as a number, and a number as four symbols. */
  function Number(a: Byte, b: Byte, c: Byte): (n: nat)
    ensures n < 64 * 64 * 64 * 64
  {
    (a * 256 + b) * 256 + c
  }

  function S0(n: nat): nat { n / 64 / 64 / 64 }
  function S1(n: nat): nat { n / 64 / 64 % 64 }
  function S2(n: nat): nat { n / 64 % 64 }
  function S3(n: nat): nat { n % 64 }

  function Quad(n: nat): string
    requires n < 64 * 64 * 64 * 64
  {
    [Symbol(S0(n)), Symbol(S1(n)), Symbol(S2(n)), Symbol(S3(n))]
  }

  function Encode(data: seq<Byte>): (text: string)
    ensures |text| == EncodedSize(|data|)
    decreases |data|
  {
    EncodedSizeOf(|data|);
    if |data| >= 3 then Quad(Number(data[0], data[1], data[2])) + Encode(data[3..])
    else if |data| == 2 then Quad(Number(data[0], data[1], 0))[..3] + "="
    else if |data| == 1 then Quad(Number(data[0], 0, 0))[..2] + "=="
    else ""
  }

  function EncodedSize(n: nat): nat { 4 * ((n + 2) / 3) }

  lemma EncodedSizeOf(n: nat)
    ensures n >= 3 ==> EncodedSize(n) == 4 + EncodedSize(n - 3)
    ensures n < 3 ==> EncodedSize(n) == if n == 0 then 0 else 4
  {
    assert n >= 3 ==> n + 2 == (n - 3 + 2) + 3;
  }

  function MaxDecodedSize(n: nat): nat { 3 * ((n + 3) / 4) }

  // ---------- decoding ----------

  function Joined(c0: nat, c1: nat, c2: nat, c3: nat): nat {
    ((c0 * 64 + c1) * 64 + c2) * 64 + c3
  }

  function HighByte(v: nat): Byte
    requires v < 64 * 64 * 64 * 64
  {
    v / 256 / 256
  }

  function MiddleByte(v: nat): Byte { v / 256 % 256 }

  function LowByte(v: nat): Byte { v % 256 }

  /** Two, three or four symbols; nothing when one of them is none. */
  function Decode2(x: char, y: char): Option<seq<Byte>> {
    var c0, c1 := Inverse(x), Inverse(y);
    if c0 == 64 || c1 == 64 then None else Some([HighByte(Joined(c0, c1, 0, 0))])
  }

  function Decode3(x: char, y: char, z: char): Option<seq<Byte>> {
    var c0, c1, c2 := Inverse(x), Inverse(y), Inverse(z);
    if c0 == 64 || c1 == 64 || c2 == 64 then None
    else
      var v := Joined(c0, c1, c2, 0);
      Some([HighByte(v), MiddleByte(v)])
  }

  function Decode4(x: char, y: char, z: char, w: char): Option<seq<Byte>> {
    if w == '=' then
      if z == '=' then Decode2(x, y) else Decode3(x, y, z)
    else
      var c0, c1, c2, c3 := Inverse(x), Inverse(y), Inverse(z), Inverse(w);
      if c0 == 64 || c1 == 64 || c2 == 64 || c3 == 64 then None
      else
        var v := Joined(c0, c1, c2, c3);
        Some([HighByte(v), MiddleByte(v), LowByte(v)])
  }

  function Prepend(a: Option<seq<Byte>>, b: Option<seq<Byte>>): Option<seq<Byte>> {
    if a.None? || b.None? then None else Some(a.value + b.value)
  }

  /** Padding may stand in the middle; at the end it may be missing. */
  function Decode(text: string): (r: Option<seq<Byte>>)
    ensures r.Some? ==> |r.value| <= MaxDecodedSize(|text|)
    decreases |text|
  {
    if |text| >= 4 then Prepend(Decode4(text[0], text[1], text[2], text[3]), Decode(text[4..]))
    else if |text| == 3 then Decode3(text[0], text[1], text[2])
    else if |text| == 2 then Decode2(text[0], text[1])
    else if |text| == 1 then None
    else Some([])
  }

  // ---------- what is base64 ----------

  predicate IsSymbol(c: char) { Inverse(c) < 64 }

  /** A symbol, or padding: in a group of four the last character, or the last but one in front of padding. */
  predicate FitsAt(text: string, i: nat)
    requires i < |text|
  {
    || IsSymbol(text[i])
    || (text[i] == '=' && i / 4 * 4 + 4 <= |text| && (i % 4 == 3 || (i % 4 == 2 && text[i + 1] == '=')))
  }

  lemma FitsBehindGroup(text: string, i: nat)
    requires 4 <= i < |text|
    ensures FitsAt(text, i) <==> FitsAt(text[4..], i - 4)
  {
    assert i / 4 == (i - 4) / 4 + 1 && i % 4 == (i - 4) % 4;
  }

  predicate AllFit(text: string) {
    forall i :: 0 <= i < |text| ==> FitsAt(text, i)
  }

  lemma RestFits(text: string)
    requires |text| >= 4
    ensures AllFit(text[4..]) <==> forall i :: 4 <= i < |text| ==> FitsAt(text, i)
  {
    var rest := text[4..];
    forall i | 4 <= i < |text|
      ensures FitsAt(text, i) <==> FitsAt(rest, i - 4)
    {
      FitsBehindGroup(text, i);
    }
    if forall i :: 4 <= i < |text| ==> FitsAt(text, i) {
      forall i | 0 <= i < |rest|
        ensures FitsAt(rest, i)
      {
        assert FitsAt(text, i + 4);
      }
    }
  }

  lemma GroupDecodesIff(text: string)
    requires |text| >= 4
    ensures Decode4(text[0], text[1], text[2], text[3]).Some? <==> forall i :: 0 <= i < 4 ==> FitsAt(text, i)
  {
    assert FitsAt(text, 0) <==> IsSymbol(text[0]);
    assert FitsAt(text, 1) <==> IsSymbol(text[1]);
    assert FitsAt(text, 2) <==> IsSymbol(text[2]) || (text[2] == '=' && text[3] == '=');
    assert FitsAt(text, 3) <==> IsSymbol(text[3]) || text[3] == '=';
  }

  lemma AllFitIff(text: string)
    requires |text| >= 4
    ensures AllFit(text) <==> Decode4(text[0], text[1], text[2], text[3]).Some? && AllFit(text[4..])
  {
    GroupDecodesIff(text);
    RestFits(text);
  }

  lemma TailDecodesIff(text: string)
    requires |text| < 4
    ensures Decode(text).Some? <==> |text| != 1 && AllFit(text)
  {
    assert forall i :: 0 <= i < |text| ==> (FitsAt(text, i) <==> IsSymbol(text[i]));
  }

  lemma GroupAndRest(text: string)
    requires |text| >= 4
    ensures Decode(text).Some? <==> Decode4(text[0], text[1], text[2], text[3]).Some? && Decode(text[4..]).Some?
  {}

  lemma FourLess(n: nat)
    requires n >= 4
    ensures (n - 4) % 4 == n % 4
  {}

  /** Said by the alphabet, the places of padding and the length: a text is decoded if and only if every character fits where it
      stands and not a single one is left over. Padding in the middle is accepted, and so is padding left out at the end. */
  lemma {:induction false} DecodesIff(text: string)
    ensures Decode(text).Some? <==> |text| % 4 != 1 && AllFit(text)
    decreases |text|
  {
    if |text| >= 4 {
      AllFitIff(text);
      GroupAndRest(text);
      FourLess(|text|);
      DecodesIff(text[4..]);
    } else {
      TailDecodesIff(text);
    }
  }

  // ---------- the round trip ----------

  lemma JoinedAgain(n: nat)
    requires n < 64 * 64 * 64 * 64
    ensures Joined(S0(n), S1(n), S2(n), S3(n)) == n && S0(n) < 64
  {}

  lemma BytesOf(a: Byte, b: Byte, c: Byte)
    ensures var n := Number(a, b, c); HighByte(n) == a && MiddleByte(n) == b && LowByte(n) == c
  {
    assert Number(a, b, c) / 256 == a * 256 + b;
  }

  lemma LowSextets(a: Byte, b: Byte)
    ensures S3(Number(a, b, 0)) == 0 && S2(Number(a, 0, 0)) == 0 && S3(Number(a, 0, 0)) == 0
  {
    assert Number(a, b, 0) == 64 * (a * 1024 + b * 4);
    assert Number(a, 0, 0) == 64 * (64 * (a * 16));
  }

  lemma TripleBack(a: Byte, b: Byte, c: Byte, q: string)
    requires q == Quad(Number(a, b, c))
    ensures Decode4(q[0], q[1], q[2], q[3]) == Some([a, b, c])
  {
    var n := Number(a, b, c);
    JoinedAgain(n);
    BytesOf(a, b, c);
    InverseOfSymbol(S0(n));
    InverseOfSymbol(S1(n));
    InverseOfSymbol(S2(n));
    InverseOfSymbol(S3(n));
  }

  lemma PairBack(a: Byte, b: Byte, q: string)
    requires q == Quad(Number(a, b, 0))
    ensures Decode3(q[0], q[1], q[2]) == Some([a, b]) && q[2] != '='
  {
    var n := Number(a, b, 0);
    JoinedAgain(n);
    BytesOf(a, b, 0);
    LowSextets(a, b);
    InverseOfSymbol(S0(n));
    InverseOfSymbol(S1(n));
    InverseOfSymbol(S2(n));
  }

  lemma SingleBack(a: Byte, q: string)
    requires q == Quad(Number(a, 0, 0))
    ensures Decode2(q[0], q[1]) == Some([a])
  {
    var n := Number(a, 0, 0);
    JoinedAgain(n);
    BytesOf(a, 0, 0);
    LowSextets(a, 0);
    InverseOfSymbol(S0(n));
    InverseOfSymbol(S1(n));
  }

  lemma QuadDecoded(q: string, later: string)
    requires |q| == 4
    ensures Decode(q + later) == Prepend(Decode4(q[0], q[1], q[2], q[3]), Decode(later))
  {
    assert (q + later)[4..] == later;
  }

  /** A group in front of what is decoded. */
  lemma GroupDecoded(q: string, rest: string, later: string, x: seq<Byte>)
    requires |q| == 4 && |x| >= 3 && Decode4(q[0], q[1], q[2], q[3]) == Some([x[0], x[1], x[2]])
    requires Decode(rest + later) == Prepend(Some(x[3..]), Decode(later))
    ensures Decode(q + rest + later) == Prepend(Some(x), Decode(later))
  {
    QuadDecoded(q, rest + later);
    assert q + rest + later == q + (rest + later);
    PrependBoth([x[0], x[1], x[2]], x[3..], Decode(later), x);
  }

  /** The last group. */
  lemma TailDecoded(x: seq<Byte>, later: string)
    requires |x| < 3
    ensures Decode(Encode(x) + later) == Prepend(Some(x), Decode(later))
  {
    if |x| == 2 {
      var q := Quad(Number(x[0], x[1], 0));
      PairBack(x[0], x[1], q);
      QuadDecoded(q[..3] + "=", later);
      assert x == [x[0], x[1]];
    } else if |x| == 1 {
      var q := Quad(Number(x[0], 0, 0));
      SingleBack(x[0], q);
      QuadDecoded(q[..2] + "==", later);
      assert x == [x[0]];
    } else {
      assert Encode(x) + later == later;
      assert Decode(later).Some? ==> x + Decode(later).value == Decode(later).value;
    }
  }

  /** What has been encoded is decoded in front of whatever follows. */
  lemma {:induction false} DecodeOfEncode(x: seq<Byte>, later: string)
    ensures Decode(Encode(x) + later) == Prepend(Some(x), Decode(later))
    decreases |x|
  {
    if |x| >= 3 {
      var q := Quad(Number(x[0], x[1], x[2]));
      TripleBack(x[0], x[1], x[2], q);
      DecodeOfEncode(x[3..], later);
      GroupDecoded(q, Encode(x[3..]), later, x);
    } else {
      TailDecoded(x, later);
    }
  }

  lemma PrependBoth(a: seq<Byte>, b: seq<Byte>, later: Option<seq<Byte>>, x: seq<Byte>)
    requires |x| >= 3 && a == [x[0], x[1], x[2]] && b == x[3..]
    ensures Prepend(Some(a), Prepend(Some(b), later)) == Prepend(Some(x), later)
  {
    assert x == a + b;
    if later.Some? {
      assert a + (b + later.value) == a + b + later.value;
    }
  }

  /** Encodings one after the other are decoded as one. */
  lemma ConcatenationRoundTrip(x: seq<Byte>, y: seq<Byte>)
    ensures Decode(Encode(x) + Encode(y)) == Some(x + y)
  {
    DecodeOfEncode(x, Encode(y));
    DecodeOfEncode(y, "");
    assert Encode(y) + "" == Encode(y) && y + [] == y;
  }

  // ---------- the loops ----------

  method Put(out: array<char>, o: nat, text: string)
    requires o + |text| <= out.Length
    modifies out
    ensures out[..o] == old(out[..o]) && out[o..o + |text|] == text
  {
    for i := 0 to |text|
      invariant out[..o] == old(out[..o]) && out[o..o + i] == text[..i]
    {
      out[o + i] := text[i];
      assert out[o..o + i + 1] == out[o..o + i] + [out[o + i]];
    }
  }

  /** *out++ = tab[...], four times. */
  method QuadOf(n: nat) returns (q: string)
    requires n < 64 * 64 * 64 * 64
    ensures q == Quad(n)
  {
    JoinedAgain(n);
    TabIs(S0(n));
    TabIs(S1(n));
    TabIs(S2(n));
    TabIs(S3(n));
    q := [Tab(S0(n)), Tab(S1(n)), Tab(S2(n)), Tab(S3(n))];
  }

  /** The text so far, when the octets up to i have been encoded. */
  ghost predicate Encoded(sofar: string, data: seq<Byte>, i: nat)
    requires i <= |data|
  {
    sofar + Encode(data[i..]) == Encode(data)
  }

  lemma EncodedMore(sofar: string, data: seq<Byte>, i: nat, q: string)
    requires i + 3 <= |data| && Encoded(sofar, data, i) && q == Quad(Number(data[i], data[i + 1], data[i + 2]))
    ensures Encoded(sofar + q, data, i + 3)
  {
    assert data[i..][3..] == data[i + 3..];
    assert sofar + (q + Encode(data[i + 3..])) == sofar + q + Encode(data[i + 3..]);
  }

  method EncodeTriple(out: array<char>, o: nat, data: seq<Byte>, i: nat)
    requires i + 3 <= |data| && o + 4 <= out.Length && Encoded(out[..o], data, i)
    modifies out
    ensures Encoded(out[..o + 4], data, i + 3)
  {
    ghost var sofar := out[..o];
    ghost var q := PutQuad(out, o, Number(data[i], data[i + 1], data[i + 2]));
    EncodedMore(sofar, data, i, q);
  }

  method PutQuad(out: array<char>, o: nat, n: nat) returns (ghost q: string)
    requires o + 4 <= out.Length && n < 64 * 64 * 64 * 64
    modifies out
    ensures q == Quad(n) && out[..o + 4] == old(out[..o]) + q
  {
    ghost var sofar := out[..o];
    var symbols := QuadOf(n);
    Put(out, o, symbols);
    q := symbols;
    assert out[..o + 4] == sofar + q;
  }

  /** The rest of the buffer is as long as the rest of the text. */
  ghost predicate RoomIs(o: nat, length: nat, data: seq<Byte>, i: nat)
    requires i <= |data|
  {
    o + EncodedSize(|data[i..]|) == length
  }

  /** The loop over whole triples. */
  method EncodeTriples(out: array<char>, data: seq<Byte>) returns (i: nat, o: nat)
    requires out.Length == EncodedSize(|data|)
    modifies out
    ensures i <= |data| < i + 3 && RoomIs(o, out.Length, data, i) && Encoded(out[..o], data, i)
  {
    i, o := 0, 0;
    assert data[0..] == data && out[..0] == "";
    while i + 3 <= |data|
      invariant i <= |data| && RoomIs(o, out.Length, data, i)
      invariant Encoded(out[..o], data, i)
    {
      EncodedSizeStep(o, out.Length, data, i);
      EncodeTriple(out, o, data, i);
      i, o := i + 3, o + 4;
    }
  }

  /** encode(out, out_len, in, in_len): fills the buffer exactly. */
  method EncodeInto(out: array<char>, data: seq<Byte>) returns (mismatch: bool)
    requires out.Length == EncodedSize(|data|)
    modifies out
    ensures !mismatch && out[..] == Encode(data)
  {
    var i, o := EncodeTriples(out, data);
    var end := EncodeRest(out, o, data[i..], data);
    mismatch := end != out.Length;
  }

  lemma EncodedSizeStep(o: nat, length: nat, data: seq<Byte>, i: nat)
    requires i + 3 <= |data| && RoomIs(o, length, data, i)
    ensures o + 4 <= length && RoomIs(o + 4, length, data, i + 3)
  {
    EncodedSizeOf(|data[i..]|);
  }

  /** The first symbols of the last group, and the padding. */
  method PutPadded(out: array<char>, o: nat, n: nat, k: nat, padding: string)
    requires o + 4 == out.Length && n < 64 * 64 * 64 * 64 && k + |padding| == 4
    modifies out
    ensures out[..] == old(out[..o]) + (Quad(n)[..k] + padding)
  {
    ghost var before := out[..o];
    var q := QuadOf(n);
    Put(out, o, q[..k] + padding);
    assert out[..] == before + (q[..k] + padding);
  }

  method EncodeRest(out: array<char>, o: nat, rest: seq<Byte>, ghost data: seq<Byte>) returns (end: nat)
    requires |rest| < 3 && o + EncodedSize(|rest|) == out.Length && out[..o] + Encode(rest) == Encode(data)
    modifies out
    ensures end == out.Length && out[..] == Encode(data)
  {
    end := if rest == [] then o else o + 4;
    ghost var before := out[..o];
    EncodedSizeOf(|rest|);
    if |rest| == 2 {
      PutPadded(out, o, Number(rest[0], rest[1], 0), 3, "=");
    } else if |rest| == 1 {
      PutPadded(out, o, Number(rest[0], 0, 0), 2, "==");
    } else {
      assert out[..] == before + "";
    }
  }

  method PutBytes(out: array<Byte>, o: nat, bytes: seq<Byte>)
    requires o + |bytes| <= out.Length
    modifies out
    ensures out[..o + |bytes|] == old(out[..o]) + bytes
  {
    for i := 0 to |bytes|
      invariant out[..o + i] == old(out[..o]) + bytes[..i]
    {
      out[o + i] := bytes[i];
      assert out[..o + i + 1] == out[..o + i] + [out[o + i]];
    }
  }

  /** inverse[...] of four characters, and what is made of them. */
  method DecodeGroup(x: char, y: char, z: char, w: char) returns (r: Option<seq<Byte>>)
    ensures r == Decode4(x, y, z, w)
  {
    InverseTabIs(x);
    InverseTabIs(y);
    InverseTabIs(z);
    InverseTabIs(w);
    var c0, c1, c2, c3 := InverseTab(x), InverseTab(y), InverseTab(z), InverseTab(w);
    if w == '=' {
      if z == '=' {
        return if c0 == 64 || c1 == 64 then None else Some([HighByte(Joined(c0, c1, 0, 0))]);
      }
      if c0 == 64 || c1 == 64 || c2 == 64 {
        return None;
      }
      var v := Joined(c0, c1, c2, 0);
      return Some([HighByte(v), MiddleByte(v)]);
    }
    if c0 == 64 || c1 == 64 || c2 == 64 || c3 == 64 {
      return None;
    }
    var v := Joined(c0, c1, c2, c3);
    return Some([HighByte(v), MiddleByte(v), LowByte(v)]);
  }

  method DecodeTail(text: string) returns (r: Option<seq<Byte>>)
    requires |text| < 4
    ensures r == Decode(text)
  {
    if |text| == 3 {
      InverseTabIs(text[0]);
      InverseTabIs(text[1]);
      InverseTabIs(text[2]);
      var c0, c1, c2 := InverseTab(text[0]), InverseTab(text[1]), InverseTab(text[2]);
      if c0 == 64 || c1 == 64 || c2 == 64 {
        return None;
      }
      var v := Joined(c0, c1, c2, 0);
      return Some([HighByte(v), MiddleByte(v)]);
    }
    if |text| == 2 {
      InverseTabIs(text[0]);
      InverseTabIs(text[1]);
      var c0, c1 := InverseTab(text[0]), InverseTab(text[1]);
      return if c0 == 64 || c1 == 64 then None else Some([HighByte(Joined(c0, c1, 0, 0))]);
    }
    return if |text| == 1 then None else Some([]);
  }

  /** The octets so far, when the text up to i has been decoded. */
  ghost predicate Decoded(sofar: seq<Byte>, text: string, i: nat)
    requires i <= |text|
  {
    Decode(text) == Prepend(Some(sofar), Decode(text[i..]))
  }

  /** What is left of the text fits what is left of the buffer. */
  ghost predicate RoomFor(o: nat, length: nat, text: string, i: nat)
    requires i <= |text|
  {
    o + MaxDecodedSize(|text[i..]|) <= length
  }

  lemma DecodedMore(sofar: seq<Byte>, text: string, i: nat, group: Option<seq<Byte>>)
    requires i + 4 <= |text| && Decoded(sofar, text, i)
    requires group == Decode4(text[i], text[i + 1], text[i + 2], text[i + 3])
    ensures if group.Some? then Decoded(sofar + group.value, text, i + 4) else Decode(text).None?
  {
    NextGroup(text, i);
    if group.Some? {
      PrependBothAgain(sofar, group.value, Decode(text[i + 4..]));
    }
  }

  lemma RoomForGroup(o: nat, length: nat, text: string, i: nat, n: nat)
    requires i + 4 <= |text| && RoomFor(o, length, text, i) && n <= 3
    ensures o + n <= length && RoomFor(o + n, length, text, i + 4)
  {
    SizeStep(|text[i..]|);
  }

  lemma GroupIsShort(x: char, y: char, z: char, w: char)
    ensures Decode4(x, y, z, w).Some? ==> |Decode4(x, y, z, w).value| <= 3
  {}

  method GroupAt(text: string, i: nat, ghost sofar: seq<Byte>) returns (group: Option<seq<Byte>>)
    requires i + 4 <= |text| && Decoded(sofar, text, i)
    ensures if group.Some? then |group.value| <= 3 && Decoded(sofar + group.value, text, i + 4) else Decode(text).None?
  {
    group := DecodeGroup(text[i], text[i + 1], text[i + 2], text[i + 3]);
    GroupIsShort(text[i], text[i + 1], text[i + 2], text[i + 3]);
    DecodedMore(sofar, text, i, group);
  }

  /** A group of four, or false when it is none and so the text is none. */
  method DecodeNext(out: array<Byte>, o: nat, text: string, i: nat) returns (ok: bool, next: nat)
    requires i + 4 <= |text| && RoomFor(o, out.Length, text, i) && Decoded(out[..o], text, i)
    modifies out
    ensures if ok then RoomFor(next, out.Length, text, i + 4) && Decoded(out[..next], text, i + 4) else Decode(text).None?
  {
    var group := GroupAt(text, i, out[..o]);
    ok := group.Some?;
    next := o;
    if ok {
      RoomForGroup(o, out.Length, text, i, |group.value|);
      PutBytes(out, o, group.value);
      next := o + |group.value|;
    }
  }

  /** decode(out, out_len, in, in_len): the size, or nothing for npos. The buffer of max_decoded_size octets suffices on any
      input. */
  method DecodeInto(out: array<Byte>, text: string) returns (size: Option<nat>)
    requires out.Length == MaxDecodedSize(|text|)
    modifies out
    ensures size.Some? <==> Decode(text).Some?
    ensures size.Some? ==> size.value <= out.Length && out[..size.value] == Decode(text).value
  {
    var ok, i, o := DecodeGroups(out, text);
    if !ok {
      return None;
    }
    size := DecodeRest(out, o, text[i..], text);
  }

  /** The loop over whole groups. */
  method DecodeGroups(out: array<Byte>, text: string) returns (ok: bool, i: nat, o: nat)
    requires out.Length == MaxDecodedSize(|text|)
    modifies out
    ensures if ok then i <= |text| < i + 4 && RoomFor(o, out.Length, text, i) && Decoded(out[..o], text, i)
            else Decode(text).None?
  {
    ok, i, o := true, 0, 0;
    assert text[0..] == text && out[..0] == [];
    PrependNothing(Decode(text));
    while i + 4 <= |text|
      invariant i <= |text| && RoomFor(o, out.Length, text, i)
      invariant Decoded(out[..o], text, i)
    {
      var some, next := DecodeNext(out, o, text, i);
      if !some {
        return false, i, o;
      }
      i, o := i + 4, next;
    }
  }

  method DecodeRest(out: array<Byte>, o: nat, rest: string, ghost text: string) returns (size: Option<nat>)
    requires |rest| < 4 && o + MaxDecodedSize(|rest|) <= out.Length
    requires Decode(text) == Prepend(Some(out[..o]), Decode(rest))
    modifies out
    ensures size.Some? <==> Decode(text).Some?
    ensures size.Some? ==> size.value <= out.Length && out[..size.value] == Decode(text).value
  {
    var last := DecodeTail(rest);
    if last.None? {
      return None;
    }
    PutBytes(out, o, last.value);
    return Some(o + |last.value|);
  }

  lemma NextGroup(text: string, i: nat)
    requires i + 4 <= |text|
    ensures Decode(text[i..]) == Prepend(Decode4(text[i], text[i + 1], text[i + 2], text[i + 3]), Decode(text[i + 4..]))
  {
    assert text[i..][4..] == text[i + 4..];
  }

  lemma SizeStep(n: nat)
    requires n >= 4
    ensures MaxDecodedSize(n) == MaxDecodedSize(n - 4) + 3
  {}

  lemma PrependNothing(b: Option<seq<Byte>>)
    ensures Prepend(Some([]), b) == b
  {
    if b.Some? {
      assert [] + b.value == b.value;
    }
  }

  lemma PrependBothAgain(a: seq<Byte>, b: seq<Byte>, later: Option<seq<Byte>>)
    ensures Prepend(Some(a), Prepend(Some(b), later)) == Prepend(Some(a + b), later)
  {
    if later.Some? {
      assert a + (b + later.value) == a + b + later.value;
    }
  }
}
