/** The table-driven UTF-8 validator of include/crab/util.hxx (RFC 3629). */
module Utf8 {

  type Byte = x: nat | x < 256

  const ACCEPT: nat := 0
  const REJECT: nat := 12

  // ---------- the table ----------

  /** The first part of utf8d in its rows of sixteen: classes of octets. */
  function ClassRow(high: nat): (row: seq<nat>)
    requires high < 16
    ensures |row| == 16
  {
    if high < 8 then [0, 0, 0, 0, 0, 0, 0, 0, 0, 0, 0, 0, 0, 0, 0, 0]
    else if high == 8 then [1, 1, 1, 1, 1, 1, 1, 1, 1, 1, 1, 1, 1, 1, 1, 1]
    else if high == 9 then [9, 9, 9, 9, 9, 9, 9, 9, 9, 9, 9, 9, 9, 9, 9, 9]
    else if high < 12 then [7, 7, 7, 7, 7, 7, 7, 7, 7, 7, 7, 7, 7, 7, 7, 7]
    else if high == 12 then [8, 8, 2, 2, 2, 2, 2, 2, 2, 2, 2, 2, 2, 2, 2, 2]
    else if high == 13 then [2, 2, 2, 2, 2, 2, 2, 2, 2, 2, 2, 2, 2, 2, 2, 2]
    else if high == 14 then [10, 3, 3, 3, 3, 3, 3, 3, 3, 3, 3, 3, 3, 4, 3, 3]
    else [11, 6, 6, 6, 5, 8, 8, 8, 8, 8, 8, 8, 8, 8, 8, 8]
  }

  /** The second part in rows of twelve, one for each state: the next state by class. */
  function TransitionRow(state: nat): (row: seq<nat>)
    ensures |row| == 12
  {
    if state == 0 then [0, 12, 24, 36, 60, 96, 84, 12, 12, 12, 48, 72]
    else if state == 24 then [12, 0, 12, 12, 12, 12, 12, 0, 12, 0, 12, 12]
    else if state == 36 then [12, 24, 12, 12, 12, 12, 12, 24, 12, 24, 12, 12]
    else if state == 48 then [12, 12, 12, 12, 12, 12, 12, 24, 12, 12, 12, 12]
    else if state == 60 then [12, 24, 12, 12, 12, 12, 12, 12, 12, 24, 12, 12]
    else if state == 72 then [12, 12, 12, 12, 12, 12, 12, 36, 12, 36, 12, 12]
    else if state == 84 then [12, 36, 12, 12, 12, 12, 12, 36, 12, 36, 12, 12]
    else if state == 96 then [12, 36, 12, 12, 12, 12, 12, 12, 12, 12, 12, 12]
    else [12, 12, 12, 12, 12, 12, 12, 12, 12, 12, 12, 12]
  }

  function Class(byte: Byte): nat {
    ClassRow(byte / 16)[byte % 16]
  }

  /** What the classes are, by ranges of octets. */
  function ClassByRange(byte: Byte): (c: nat)
    ensures c < 12
  {
    if byte <= 0x7F then 0 else if byte <= 0x8F then 1 else if byte <= 0x9F then 9 else if byte <= 0xBF then 7
    else if byte <= 0xC1 then 8 else if byte <= 0xDF then 2 else if byte == 0xE0 then 10 else if byte == 0xED then 4
    else if byte <= 0xEF then 3 else if byte == 0xF0 then 11 else if byte <= 0xF3 then 6 else if byte == 0xF4 then 5 else 8
  }

  lemma ClassIs(byte: Byte)
    ensures Class(byte) == ClassByRange(byte)
  {
    var high, low := byte / 16, byte % 16;
    assert byte == high * 16 + low;
    if high < 12 {
      LowRows(byte, high, low);
    } else {
      HighRows(byte, high, low);
    }
  }

  lemma LowRows(byte: Byte, high: nat, low: nat)
    requires low < 16 && high < 12 && byte == high * 16 + low
    ensures ClassRow(high)[low] == ClassByRange(byte)
  {}

  lemma HighRows(byte: Byte, high: nat, low: nat)
    requires low < 16 && 12 <= high < 16 && byte == high * 16 + low
    ensures ClassRow(high)[low] == ClassByRange(byte)
  {}

  /** One step of utf8_decode, the state only. */
  function Step(state: nat, byte: Byte): nat {
    ClassIs(byte);
    TransitionRow(state)[Class(byte)]
  }

  predicate IsTail(byte: Byte) { 0x80 <= byte <= 0xBF }

  /** The same by ranges: after the first octet, and what may follow it. */
  function StepByRange(state: nat, byte: Byte): nat {
    if state == ACCEPT then
      if byte <= 0x7F then ACCEPT else if 0xC2 <= byte <= 0xDF then 24 else if byte == 0xE0 then 48
      else if byte == 0xED then 60 else if 0xE1 <= byte <= 0xEF then 36 else if byte == 0xF0 then 72
      else if 0xF1 <= byte <= 0xF3 then 84 else if byte == 0xF4 then 96 else REJECT
    else if state == 24 then if IsTail(byte) then ACCEPT else REJECT
    else if state == 36 then if IsTail(byte) then 24 else REJECT
    else if state == 48 then if 0xA0 <= byte <= 0xBF then 24 else REJECT
    else if state == 60 then if 0x80 <= byte <= 0x9F then 24 else REJECT
    else if state == 72 then if 0x90 <= byte <= 0xBF then 36 else REJECT
    else if state == 84 then if IsTail(byte) then 36 else REJECT
    else if state == 96 then if 0x80 <= byte <= 0x8F then 36 else REJECT
    else REJECT
  }

  lemma StepIs(state: nat, byte: Byte)
    ensures Step(state, byte) == StepByRange(state, byte)
  {
    ClassIs(byte);
    if state == ACCEPT {
      RowOfAccept(byte);
    } else {
      RowOfOther(state, byte);
    }
  }

  lemma RowOfAccept(byte: Byte)
    ensures TransitionRow(ACCEPT)[ClassByRange(byte)] == StepByRange(ACCEPT, byte)
  {}

  lemma RowOfOther(state: nat, byte: Byte)
    requires state != ACCEPT
    ensures TransitionRow(state)[ClassByRange(byte)] == StepByRange(state, byte)
  {}

  // ---------- runs ----------

  /** The state after a row of octets, by the table and by ranges. */
  function Run(state: nat, data: seq<Byte>): nat
    decreases |data|
  {
    if data == [] then state else Run(Step(state, data[0]), data[1..])
  }

  function Follow(state: nat, data: seq<Byte>): nat
    decreases |data|
  {
    if data == [] then state else Follow(StepByRange(state, data[0]), data[1..])
  }

  lemma {:induction false} RunIsFollow(state: nat, data: seq<Byte>)
    ensures Run(state, data) == Follow(state, data)
    decreases |data|
  {
    if data != [] {
      StepIs(state, data[0]);
      RunIsFollow(Step(state, data[0]), data[1..]);
    }
  }

  lemma {:induction false} FollowSplit(state: nat, a: seq<Byte>, b: seq<Byte>)
    ensures Follow(state, a + b) == Follow(Follow(state, a), b)
    decreases |a|
  {
    if a == [] {
      assert a + b == b;
    } else {
      assert (a + b)[0] == a[0] && (a + b)[1..] == a[1..] + b;
      FollowSplit(StepByRange(state, a[0]), a[1..], b);
    }
  }

  /** Nothing leads out of the reject state. */
  lemma {:induction false} RejectIsAbsorbing(data: seq<Byte>)
    ensures Follow(REJECT, data) == REJECT && Run(REJECT, data) == REJECT
    decreases |data|
  {
    if data != [] {
      RejectIsAbsorbing(data[1..]);
    }
    RunIsFollow(REJECT, data);
  }

  // ---------- what UTF-8 is ----------

  /** Unicode scalar values: no surrogates, nothing above 10FFFF. */
  predicate IsScalar(cp: nat) {
    cp <= 0x10FFFF && !(0xD800 <= cp <= 0xDFFF)
  }

  /** Section 3 of RFC 3629, the shortest form always. */
  function Encode(cp: nat): (r: seq<Byte>)
    requires cp <= 0x10FFFF
    ensures 1 <= |r| <= 4
  {
    if cp < 0x80 then [cp]
    else if cp < 0x800 then [0xC0 + cp / 64, 0x80 + cp % 64]
    else if cp < 0x10000 then [0xE0 + cp / 64 / 64, 0x80 + cp / 64 % 64, 0x80 + cp % 64]
    else [0xF0 + cp / 64 / 64 / 64, 0x80 + cp / 64 / 64 % 64, 0x80 + cp / 64 % 64, 0x80 + cp % 64]
  }

  predicate AllScalar(cps: seq<nat>) {
    forall i :: 0 <= i < |cps| ==> IsScalar(cps[i])
  }

  function EncodeAll(cps: seq<nat>): seq<Byte>
    requires AllScalar(cps)
  {
    if cps == [] then [] else Encode(cps[0]) + EncodeAll(cps[1..])
  }

  ghost predicate IsUtf8(data: seq<Byte>) {
    exists cps: seq<nat> :: AllScalar(cps) && EncodeAll(cps) == data
  }

  /** The state after a first octet and one, two or three more. */
  lemma RunBytes(state: nat, x: Byte, q: nat, rest: seq<Byte>)
    requires q == StepByRange(state, x)
    ensures Follow(state, [x] + rest) == Follow(q, rest)
  {
    assert ([x] + rest)[1..] == rest;
  }

  lemma TailAccepted(state: nat, x: Byte)
    requires StepByRange(state, x) == ACCEPT
    ensures Follow(state, [x]) == ACCEPT
  {
    RunBytes(state, x, ACCEPT, []);
    assert [x] + [] == [x];
  }

  /** What may follow the first octet of three, and of four. */
  lemma TwoAccepted(state: nat, x: Byte, y: Byte)
    requires StepByRange(state, x) == 24 && IsTail(y)
    ensures Follow(state, [x, y]) == ACCEPT
  {
    TailAccepted(24, y);
    RunBytes(state, x, 24, [y]);
    assert [x] + [y] == [x, y];
  }

  lemma ThreeAccepted(state: nat, x: Byte, q: nat, y: Byte, z: Byte)
    requires StepByRange(state, x) == q && StepByRange(q, y) == 24 && IsTail(z)
    ensures Follow(state, [x, y, z]) == ACCEPT
  {
    TwoAccepted(q, y, z);
    RunBytes(state, x, q, [y, z]);
    assert [x] + [y, z] == [x, y, z];
  }

  lemma FourAccepted(state: nat, x: Byte, q: nat, y: Byte, z: Byte, w: Byte)
    requires StepByRange(state, x) == q && StepByRange(q, y) == 36 && IsTail(z) && IsTail(w)
    ensures Follow(state, [x, y, z, w]) == ACCEPT
  {
    ThreeAccepted(q, y, 36, z, w);
    RunBytes(state, x, q, [y, z, w]);
    assert [x] + [y, z, w] == [x, y, z, w];
  }

  lemma StepsOfThree(b: nat, c: nat)
    requires b < 16 && c < 64 && (b == 0 ==> c >= 32) && (b == 13 ==> c < 32)
    ensures StepByRange(StepByRange(ACCEPT, 0xE0 + b), 0x80 + c) == 24
  {}

  lemma ThreeOctets(b: nat, c: nat, d: nat)
    requires b < 16 && c < 64 && d < 64 && (b == 0 ==> c >= 32) && (b == 13 ==> c < 32)
    ensures Follow(ACCEPT, [0xE0 + b, 0x80 + c, 0x80 + d]) == ACCEPT
  {
    StepsOfThree(b, c);
    ThreeAccepted(ACCEPT, 0xE0 + b, StepByRange(ACCEPT, 0xE0 + b), 0x80 + c, 0x80 + d);
  }

  lemma StepsOfFour(a: nat, b: nat)
    requires a <= 4 && b < 64 && (a == 0 ==> b >= 16) && (a == 4 ==> b < 16)
    ensures StepByRange(StepByRange(ACCEPT, 0xF0 + a), 0x80 + b) == 36
  {}

  lemma FourOctets(a: nat, b: nat, c: nat, d: nat)
    requires a <= 4 && b < 64 && c < 64 && d < 64 && (a == 0 ==> b >= 16) && (a == 4 ==> b < 16)
    ensures Follow(ACCEPT, [0xF0 + a, 0x80 + b, 0x80 + c, 0x80 + d]) == ACCEPT
  {
    StepsOfFour(a, b);
    FourAccepted(ACCEPT, 0xF0 + a, StepByRange(ACCEPT, 0xF0 + a), 0x80 + b, 0x80 + c, 0x80 + d);
  }

  lemma ThreeSextets(cp: nat, b: nat, c: nat, d: nat)
    requires IsScalar(cp) && 0x800 <= cp < 0x10000 && cp == (b * 64 + c) * 64 + d && c < 64 && d < 64
    ensures b < 16 && (b == 0 ==> c >= 32) && (b == 13 ==> c < 32)
  {}

  lemma FourSextets(cp: nat, a: nat, b: nat, c: nat, d: nat)
    requires 0x10000 <= cp <= 0x10FFFF && cp == ((a * 64 + b) * 64 + c) * 64 + d && b < 64 && c < 64 && d < 64
    ensures a <= 4 && (a == 0 ==> b >= 16) && (a == 4 ==> b < 16)
  {}

  lemma EncodedTwo(cp: nat)
    requires 0x80 <= cp < 0x800
    ensures Follow(ACCEPT, Encode(cp)) == ACCEPT
  {
    TwoAccepted(ACCEPT, 0xC0 + cp / 64, 0x80 + cp % 64);
  }

  lemma EncodedThree(cp: nat)
    requires IsScalar(cp) && 0x800 <= cp < 0x10000
    ensures Follow(ACCEPT, Encode(cp)) == ACCEPT
  {
    var m, d := cp / 64, cp % 64;
    var b, c := m / 64, m % 64;
    ThreeSextets(cp, b, c, d);
    ThreeOctets(b, c, d);
  }

  lemma EncodedFour(cp: nat)
    requires 0x10000 <= cp <= 0x10FFFF
    ensures Follow(ACCEPT, Encode(cp)) == ACCEPT
  {
    var m, d := cp / 64, cp % 64;
    var n, c := m / 64, m % 64;
    var a, b := n / 64, n % 64;
    FourSextets(cp, a, b, c, d);
    FourOctets(a, b, c, d);
  }

  lemma EncodedIsAccepted(cp: nat)
    requires IsScalar(cp)
    ensures Follow(ACCEPT, Encode(cp)) == ACCEPT
  {
    if cp < 0x80 {
      TailAccepted(ACCEPT, cp);
    } else if cp < 0x800 {
      EncodedTwo(cp);
    } else if cp < 0x10000 {
      EncodedThree(cp);
    } else {
      EncodedFour(cp);
    }
  }

  // ---------- what is accepted ----------

  /** The code point at the beginning of octets that are accepted. */
  ghost predicate StartsWith(data: seq<Byte>, cp: nat) {
    IsScalar(cp) && Encode(cp) <= data && Follow(ACCEPT, data[|Encode(cp)|..]) == ACCEPT
  }

  lemma FirstOfTwo(x: Byte, data: seq<Byte>) returns (cp: nat)
    requires StepByRange(ACCEPT, x) == 24 && Follow(24, data) == ACCEPT
    ensures StartsWith([x] + data, cp)
  {
    var y := TailOfAccepted(24, ACCEPT, data);
    cp := JoinTwo(x as int - 0xC0, y as int - 0x80);
    assert [x] + data == [x, y] + data[1..];
  }

  lemma FirstOfThree(x: Byte, q: nat, data: seq<Byte>) returns (cp: nat)
    requires StepByRange(ACCEPT, x) == q && (q == 36 || q == 48 || q == 60) && Follow(q, data) == ACCEPT
    ensures StartsWith([x] + data, cp)
  {
    var y := TailOfAccepted(q, 24, data);
    var z := TailOfAccepted(24, ACCEPT, data[1..]);
    cp := JoinThree(x as int - 0xE0, y as int - 0x80, z as int - 0x80);
    assert [x] + data == [x, y, z] + data[1..][1..];
  }

  lemma FirstOfFour(x: Byte, q: nat, data: seq<Byte>) returns (cp: nat)
    requires StepByRange(ACCEPT, x) == q && (q == 72 || q == 84 || q == 96) && Follow(q, data) == ACCEPT
    ensures StartsWith([x] + data, cp)
  {
    var y := TailOfAccepted(q, 36, data);
    var z := TailOfAccepted(36, 24, data[1..]);
    var w := TailOfAccepted(24, ACCEPT, data[1..][1..]);
    FirstFourOctets(x, q, y);
    cp := JoinFour(x as int - 0xF0, y as int - 0x80, z as int - 0x80, w as int - 0x80);
    Front(x, y, z, w, data, [x] + data);
  }

  lemma FirstFourOctets(x: Byte, q: nat, y: Byte)
    requires StepByRange(ACCEPT, x) == q && (q == 72 || q == 84 || q == 96) && StepByRange(q, y) == 36
    ensures 0xF0 <= x <= 0xF4 && IsTail(y) && (x == 0xF0 ==> y >= 0x90) && (x == 0xF4 ==> y < 0x90)
  {}

  lemma Front<T>(x: T, y: T, z: T, w: T, data: seq<T>, all: seq<T>)
    requires |data| >= 3 && y == data[0] && z == data[1..][0] && w == data[1..][1..][0] && all == [x] + data
    ensures [x, y, z, w] <= all && all[4..] == data[1..][1..][1..]
  {}

  lemma FirstOfAccepted(data: seq<Byte>) returns (cp: nat)
    requires data != [] && Follow(ACCEPT, data) == ACCEPT
    ensures StartsWith(data, cp)
  {
    var x, rest := data[0], data[1..];
    var q := StepByRange(ACCEPT, x);
    NotRejected(q, rest);
    assert data == [x] + rest;
    if q == ACCEPT {
      cp := x;
      assert Encode(cp) == [x];
    } else if q == 24 {
      cp := FirstOfTwo(x, rest);
    } else if q == 36 || q == 48 || q == 60 {
      cp := FirstOfThree(x, q, rest);
    } else {
      cp := FirstOfFour(x, q, rest);
    }
  }

  lemma JoinTwo(c: nat, d: nat) returns (cp: nat)
    requires 2 <= c < 32 && d < 64
    ensures IsScalar(cp) && Encode(cp) == [0xC0 + c, 0x80 + d]
  {
    cp := c * 64 + d;
  }

  lemma NotRejected(q: nat, data: seq<Byte>)
    requires Follow(q, data) == ACCEPT
    ensures q != REJECT
  {
    if q == REJECT {
      RejectIsAbsorbing(data);
    }
  }

  /** In the middle of a code point there is a next octet, and it does not lead to the reject state. */
  lemma TailOfAccepted(q: nat, next: nat, data: seq<Byte>) returns (y: Byte)
    requires q != ACCEPT && q != REJECT && Follow(q, data) == ACCEPT
    requires forall b: Byte :: StepByRange(q, b) == next || StepByRange(q, b) == REJECT
    ensures data != [] && y == data[0] && StepByRange(q, y) == next && IsTail(y) && Follow(next, data[1..]) == ACCEPT
  {
    y := data[0];
    NotRejected(StepByRange(q, y), data[1..]);
  }

  lemma JoinThree(b: nat, c: nat, d: nat) returns (cp: nat)
    requires b < 16 && c < 64 && d < 64 && (b == 0 ==> c >= 32) && (b == 13 ==> c < 32)
    ensures IsScalar(cp) && Encode(cp) == [0xE0 + b, 0x80 + c, 0x80 + d]
  {
    cp := (b * 64 + c) * 64 + d;
    assert cp / 64 == b * 64 + c;
  }

  lemma JoinFour(a: nat, b: nat, c: nat, d: nat) returns (cp: nat)
    requires a <= 4 && b < 64 && c < 64 && d < 64 && (a == 0 ==> b >= 16) && (a == 4 ==> b < 16)
    ensures IsScalar(cp) && Encode(cp) == [0xF0 + a, 0x80 + b, 0x80 + c, 0x80 + d]
  {
    var m := (a * 64 + b) * 64 + c;
    cp := m * 64 + d;
    assert cp / 64 == m;
    assert m / 64 == a * 64 + b;
  }

  lemma {:induction false} Utf8IsAccepted(cps: seq<nat>)
    requires AllScalar(cps)
    ensures Follow(ACCEPT, EncodeAll(cps)) == ACCEPT
    decreases |cps|
  {
    if cps != [] {
      EncodedIsAccepted(cps[0]);
      FollowSplit(ACCEPT, Encode(cps[0]), EncodeAll(cps[1..]));
      Utf8IsAccepted(cps[1..]);
    }
  }

  lemma {:induction false} AcceptedIsUtf8(data: seq<Byte>) returns (cps: seq<nat>)
    requires Follow(ACCEPT, data) == ACCEPT
    ensures AllScalar(cps) && EncodeAll(cps) == data
    decreases |data|
  {
    if data == [] {
      cps := [];
    } else {
      var cp := FirstOfAccepted(data);
      var rest := AcceptedIsUtf8(data[|Encode(cp)|..]);
      cps := [cp] + rest;
      assert cps[1..] == rest;
      assert data == Encode(cp) + data[|Encode(cp)|..];
    }
  }

  lemma FollowsExactlyUtf8(data: seq<Byte>)
    ensures Follow(ACCEPT, data) == ACCEPT <==> IsUtf8(data)
  {
    if Follow(ACCEPT, data) == ACCEPT {
      var cps := AcceptedIsUtf8(data);
    }
    forall cps: seq<nat> | AllScalar(cps) && EncodeAll(cps) == data
      ensures Follow(ACCEPT, data) == ACCEPT
    {
      Utf8IsAccepted(cps);
    }
  }

  /** The table accepts exactly the encodings of scalar values one after the other. */
  lemma AcceptsExactlyUtf8(data: seq<Byte>)
    ensures Run(ACCEPT, data) == ACCEPT <==> IsUtf8(data)
  {
    RunIsFollow(ACCEPT, data);
    FollowsExactlyUtf8(data);
  }

  lemma CutOfAccepted(a: seq<Byte>, b: seq<Byte>)
    requires b != [] && Follow(ACCEPT, a + b) == ACCEPT
    ensures Follow(ACCEPT, a) == ACCEPT <==> !IsTail(b[0])
  {
    var q := Follow(ACCEPT, a);
    FollowSplit(ACCEPT, a, b);
    NotRejected(q, b);
    NotRejected(StepByRange(q, b[0]), b[1..]);
  }

  /** Text cut at a place stays text if and only if the cut is in front of an octet that begins a code point. */
  lemma CutOfUtf8(data: seq<Byte>, n: nat)
    requires IsUtf8(data) && n < |data|
    ensures IsUtf8(data[..n]) <==> !IsTail(data[n])
  {
    FollowsExactlyUtf8(data);
    FollowsExactlyUtf8(data[..n]);
    assert data == data[..n] + data[n..];
    CutOfAccepted(data[..n], data[n..]);
  }

  /** is_valid_utf8 */
  method IsValidUtf8(data: seq<Byte>) returns (valid: bool)
    ensures valid <==> IsUtf8(data)
  {
    var state := ACCEPT;
    var pos := 0;
    assert data[0..] == data;
    while pos != |data|
      invariant 0 <= pos <= |data|
      invariant Run(state, data[pos..]) == Run(ACCEPT, data)
    {
      assert data[pos..][1..] == data[pos + 1..];
      state := Step(state, data[pos]);
      pos := pos + 1;
    }
    AcceptsExactlyUtf8(data);
    valid := state == ACCEPT;
  }
}
