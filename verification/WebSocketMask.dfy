/** Masking of WebSocket payloads (section 5.3 of RFC 6455): WebMessageHeaderParser::mask_data of
    include/crab/http/web_message_parser.hxx works on aligned machine words where it can. */
module WebSocketMask {

  type Octet = bv8

  function R1(m: bv32): bv32 { (m << 8) | (m >> 24) }
  function R2(m: bv32): bv32 { (m << 16) | (m >> 16) }
  function R3(m: bv32): bv32 { (m << 24) | (m >> 8) }

  function K0(m: bv32): Octet { ((m >> 24) & 0xFF) as Octet }
  function K1(m: bv32): Octet { ((m >> 16) & 0xFF) as Octet }
  function K2(m: bv32): Octet { ((m >> 8) & 0xFF) as Octet }
  function K3(m: bv32): Octet { (m & 0xFF) as Octet }

  /** crab::rol for the rotations by whole octets mask_data makes; by 0 it is the identity. */
  function Rol8(mask: bv32, octets: nat): bv32 {
    var a := octets % 4;
    if a == 0 then mask else if a == 1 then R1(mask) else if a == 2 then R2(mask) else R3(mask)
  }

  /** Octet i of the key as it is sent, the most significant one first. */
  function KeyOctet(key: bv32, i: nat): Octet {
    MaskBytes(key)[i % 4]
  }

  /** The octets of a mask, the most significant one first. */
  function MaskBytes(mask: bv32): (m: seq<Octet>)
    ensures |m| == 4
  {
    [K0(mask), K1(mask), K2(mask), K3(mask)]
  }

  /** Masking octet by octet, with the key repeated from place shift on. */
  function Masked(shift: nat, data: seq<Octet>, key: bv32): (r: seq<Octet>)
    ensures |r| == |data|
    decreases |data|
  {
    if data == [] then [] else [data[0] ^ KeyOctet(key, shift)] + Masked(shift + 1, data[1..], key)
  }

  /** The definition of section 5.3: octet i is combined with key octet (shift + i) mod 4. */
  lemma {:induction false} MaskedAt(shift: nat, data: seq<Octet>, key: bv32, i: nat)
    requires i < |data|
    ensures Masked(shift, data, key)[i] == data[i] ^ MaskBytes(key)[(shift + i) % 4]
    decreases |data|
  {
    if i > 0 {
      MaskedAt(shift + 1, data[1..], key, i - 1);
      assert shift + 1 + (i - 1) == shift + i;
    } else {
      assert shift + i == shift;
    }
  }

  lemma MaskedCons(shift: nat, x: Octet, rest: seq<Octet>, key: bv32)
    ensures Masked(shift, [x] + rest, key) == [x ^ KeyOctet(key, shift)] + Masked(shift + 1, rest, key)
  {
    assert ([x] + rest)[1..] == rest;
  }

  lemma FirstApart<T>(a: seq<T>, b: seq<T>)
    requires a != []
    ensures a == [a[0]] + a[1..] && a + b == [a[0]] + (a[1..] + b)
  {}

  lemma Regrouped<T>(a: seq<T>, b: seq<T>, c: seq<T>)
    ensures a + (b + c) == a + b + c
  {}

  lemma {:induction false} MaskedApart(shift: nat, n: nat, a: seq<Octet>, b: seq<Octet>, key: bv32)
    requires n == shift + |a|
    ensures Masked(shift, a + b, key) == Masked(shift, a, key) + Masked(n, b, key)
    decreases |a|
  {
    if a == [] {
      assert a + b == b;
    } else {
      var x, rest := a[0], a[1..];
      MaskedApart(shift + 1, n, rest, b, key);
      MaskedCons(shift, x, rest, key);
      MaskedCons(shift, x, rest + b, key);
      FirstApart(a, b);
      Regrouped([x ^ KeyOctet(key, shift)], Masked(shift + 1, rest, key), Masked(n, b, key));
    }
  }

  /** Data in two parts is masked with the shift advanced by the first. */
  lemma MaskedSplit(shift: nat, a: seq<Octet>, b: seq<Octet>, key: bv32)
    ensures Masked(shift, a + b, key) == Masked(shift, a, key) + Masked(shift + |a|, b, key)
  {
    MaskedApart(shift, shift + |a|, a, b, key);
  }

  lemma XorTwice(x: Octet, k: Octet)
    ensures (x ^ k) ^ k == x
  {}

  lemma {:induction false} MaskedTwice(shift: nat, data: seq<Octet>, key: bv32)
    ensures Masked(shift, Masked(shift, data, key), key) == data
    decreases |data|
  {
    if data != [] {
      var x, rest := data[0] ^ KeyOctet(key, shift), Masked(shift + 1, data[1..], key);
      assert ([x] + rest)[1..] == rest;
      MaskedTwice(shift + 1, data[1..], key);
      XorTwice(data[0], KeyOctet(key, shift));
    }
  }

  /** The key 0, for which the receiver does not call mask_data. */
  lemma {:induction false} MaskedByZero(shift: nat, data: seq<Octet>)
    ensures Masked(shift, data, 0) == data
    decreases |data|
  {
    if data != [] {
      ZeroKey(data[0], shift);
      MaskedByZero(shift + 1, data[1..]);
    }
  }

  lemma ZeroKey(x: Octet, i: nat)
    ensures x ^ KeyOctet(0, i) == x
  {
    assert K0(0) == 0 && K1(0) == 0 && K2(0) == 0 && K3(0) == 0;
    assert x ^ 0 == x;
  }

  // ---------- rotation of the key ----------

  lemma TwoIsOneAndOne(m: bv32) ensures R1(R1(m)) == R2(m) {}
  lemma ThreeIsTwoAndOne(m: bv32) ensures R1(R2(m)) == R3(m) {}
  lemma FourIsNone(m: bv32) ensures R1(R3(m)) == m {}

  /** Rotating by one octet more. */
  lemma RolStep(key: bv32, n: nat)
    ensures R1(Rol8(key, n)) == Rol8(key, n + 1)
  {
    TwoIsOneAndOne(key);
    ThreeIsTwoAndOne(key);
    FourIsNone(key);
  }

  lemma Turn1High(m: bv32) ensures K0(R1(m)) == K1(m) && K1(R1(m)) == K2(m) {}
  lemma Turn1Low(m: bv32) ensures K2(R1(m)) == K3(m) && K3(R1(m)) == K0(m) {}
  lemma Turn2High(m: bv32) ensures K0(R2(m)) == K2(m) && K1(R2(m)) == K3(m) {}
  lemma Turn2Low(m: bv32) ensures K2(R2(m)) == K0(m) && K3(R2(m)) == K1(m) {}
  lemma Turn3High(m: bv32) ensures K0(R3(m)) == K3(m) && K1(R3(m)) == K0(m) {}
  lemma Turn3Low(m: bv32) ensures K2(R3(m)) == K1(m) && K3(R3(m)) == K2(m) {}

  lemma MaskBytesOfR1(key: bv32, a: seq<Octet>, b: seq<Octet>)
    requires a == MaskBytes(key) && b == MaskBytes(R1(key))
    ensures b == a[1..] + a[..1]
  {
    Turn1High(key);
    Turn1Low(key);
  }

  lemma MaskBytesOfR2(key: bv32, a: seq<Octet>, b: seq<Octet>)
    requires a == MaskBytes(key) && b == MaskBytes(R2(key))
    ensures b == a[2..] + a[..2]
  {
    Turn2High(key);
    Turn2Low(key);
  }

  lemma MaskBytesOfR3(key: bv32, a: seq<Octet>, b: seq<Octet>)
    requires a == MaskBytes(key) && b == MaskBytes(R3(key))
    ensures b == a[3..] + a[..3]
  {
    Turn3High(key);
    Turn3Low(key);
  }

  /** The row of octets after n rotations. */
  lemma MaskBytesOfRol(key: bv32, n: nat, a: seq<Octet>, b: seq<Octet>)
    requires a == MaskBytes(key) && b == MaskBytes(Rol8(key, n))
    ensures b == a[n % 4..] + a[..n % 4]
  {
    if n % 4 == 0 {
    } else if n % 4 == 1 {
      MaskBytesOfR1(key, a, b);
    } else if n % 4 == 2 {
      MaskBytesOfR2(key, a, b);
    } else {
      MaskBytesOfR3(key, a, b);
    }
  }

  lemma RolOctets(key: bv32, n: nat, j: nat)
    ensures KeyOctet(Rol8(key, n), j) == KeyOctet(key, n + j)
  {
    var a, b := MaskBytes(key), MaskBytes(Rol8(key, n));
    MaskBytesOfRol(key, n, a, b);
    TurnedAt(a, b, n, j);
  }

  lemma TurnedAt(a: seq<Octet>, b: seq<Octet>, n: nat, j: nat)
    requires |a| == 4 && b == a[n % 4..] + a[..n % 4]
    ensures b[j % 4] == a[(n + j) % 4]
  {
    Turned(a, b, n % 4, j % 4);
    ModSum(n, j);
  }

  lemma Turned(a: seq<Octet>, b: seq<Octet>, p: nat, q: nat)
    requires p < 4 && q < 4 && |a| == 4 && b == a[p..] + a[..p]
    ensures b[q] == a[if p + q < 4 then p + q else p + q - 4]
  {}

  lemma ModSum(n: nat, j: nat)
    ensures var p, q := n % 4, j % 4; (n + j) % 4 == if p + q < 4 then p + q else p + q - 4
  {}

  /** The octet combined with the data after one more rotation, the least significant one. */
  lemma RolLast(key: bv32, n: nat)
    ensures (Rol8(key, n + 1) & 0xFF) as Octet == KeyOctet(key, n)
  {
    RolOctets(key, n + 1, 3);
    assert n + 1 + 3 == n + 4 && (n + 4) % 4 == n % 4;
    assert (Rol8(key, n + 1) & 0xFF) as Octet == K3(Rol8(key, n + 1));
  }

  // ---------- machine words ----------

  function Word32(m0: Octet, m1: Octet, m2: Octet, m3: Octet): bv32 {
    m0 as bv32 | (m1 as bv32 << 8) | (m2 as bv32 << 16) | (m3 as bv32 << 24)
  }

  function Word64(m0: Octet, m1: Octet, m2: Octet, m3: Octet, m4: Octet, m5: Octet, m6: Octet, m7: Octet): bv64 {
    m0 as bv64 | (m1 as bv64 << 8) | (m2 as bv64 << 16) | (m3 as bv64 << 24)
    | (m4 as bv64 << 32) | (m5 as bv64 << 40) | (m6 as bv64 << 48) | (m7 as bv64 << 56)
  }

  function O0(w: bv64): Octet { (w & 0xFF) as Octet }
  function O1(w: bv64): Octet { ((w >> 8) & 0xFF) as Octet }
  function O2(w: bv64): Octet { ((w >> 16) & 0xFF) as Octet }
  function O3(w: bv64): Octet { ((w >> 24) & 0xFF) as Octet }
  function O4(w: bv64): Octet { ((w >> 32) & 0xFF) as Octet }
  function O5(w: bv64): Octet { ((w >> 40) & 0xFF) as Octet }
  function O6(w: bv64): Octet { ((w >> 48) & 0xFF) as Octet }
  function O7(w: bv64): Octet { ((w >> 56) & 0xFF) as Octet }

  function Doubled(native: bv32): bv64 {
    (native as bv64 << 32) | native as bv64
  }

  /** Loading octets from memory, on a little-endian or a big-endian machine, and storing a word. */
  function Load32(m: seq<Octet>, little: bool): bv32
    requires |m| == 4
  {
    if little then Word32(m[0], m[1], m[2], m[3]) else Word32(m[3], m[2], m[1], m[0])
  }

  function Load64(m: seq<Octet>, little: bool): bv64
    requires |m| == 8
  {
    if little then Word64(m[0], m[1], m[2], m[3], m[4], m[5], m[6], m[7])
    else Word64(m[7], m[6], m[5], m[4], m[3], m[2], m[1], m[0])
  }

  function Store64(w: bv64, little: bool): (m: seq<Octet>)
    ensures |m| == 8
  {
    if little then [O0(w), O1(w), O2(w), O3(w), O4(w), O5(w), O6(w), O7(w)]
    else [O7(w), O6(w), O5(w), O4(w), O3(w), O2(w), O1(w), O0(w)]
  }

  lemma OctetsOfWord(m0: Octet, m1: Octet, m2: Octet, m3: Octet, m4: Octet, m5: Octet, m6: Octet, m7: Octet)
    ensures var w := Word64(m0, m1, m2, m3, m4, m5, m6, m7);
      && O0(w) == m0 && O1(w) == m1 && O2(w) == m2 && O3(w) == m3
      && O4(w) == m4 && O5(w) == m5 && O6(w) == m6 && O7(w) == m7
  {}

  lemma LoadThenStore(m: seq<Octet>, little: bool)
    requires |m| == 8
    ensures Store64(Load64(m, little), little) == m
  {
    if little {
      OctetsOfWord(m[0], m[1], m[2], m[3], m[4], m[5], m[6], m[7]);
    } else {
      OctetsOfWord(m[7], m[6], m[5], m[4], m[3], m[2], m[1], m[0]);
    }
  }

  lemma SameOctets(a: bv64, b: bv64)
    requires O0(a) == O0(b) && O1(a) == O1(b) && O2(a) == O2(b) && O3(a) == O3(b)
    requires O4(a) == O4(b) && O5(a) == O5(b) && O6(a) == O6(b) && O7(a) == O7(b)
    ensures a == b
  {}

  lemma OctetsOfHalfWord(m0: Octet, m1: Octet, m2: Octet, m3: Octet)
    ensures var n := Word32(m0, m1, m2, m3); K3(n) == m0 && K2(n) == m1 && K1(n) == m2 && K0(n) == m3
  {}

  lemma DoubledLow(n: bv32)
    ensures O0(Doubled(n)) == K3(n) && O1(Doubled(n)) == K2(n) && O2(Doubled(n)) == K1(n) && O3(Doubled(n)) == K0(n)
  {}

  lemma DoubledHigh(n: bv32)
    ensures O4(Doubled(n)) == K3(n) && O5(Doubled(n)) == K2(n) && O6(Doubled(n)) == K1(n) && O7(Doubled(n)) == K0(n)
  {}

  lemma DoubledWord(m0: Octet, m1: Octet, m2: Octet, m3: Octet)
    ensures Doubled(Word32(m0, m1, m2, m3)) == Word64(m0, m1, m2, m3, m0, m1, m2, m3)
  {
    var n, w := Word32(m0, m1, m2, m3), Word64(m0, m1, m2, m3, m0, m1, m2, m3);
    OctetsOfHalfWord(m0, m1, m2, m3);
    OctetsOfWord(m0, m1, m2, m3, m0, m1, m2, m3);
    DoubledLow(n);
    DoubledHigh(n);
    DoubledIsWord(Doubled(n), w, m0, m1, m2, m3);
  }

  lemma DoubledIsWord(a: bv64, b: bv64, m0: Octet, m1: Octet, m2: Octet, m3: Octet)
    requires O0(a) == O0(b) == m0 && O1(a) == O1(b) == m1 && O2(a) == O2(b) == m2 && O3(a) == O3(b) == m3
    requires O4(a) == O4(b) == m0 && O5(a) == O5(b) == m1 && O6(a) == O6(b) == m2 && O7(a) == O7(b) == m3
    ensures a == b
  {
    SameOctets(a, b);
  }

  lemma DoubledLoad(k: seq<Octet>, little: bool)
    requires |k| == 4
    ensures Doubled(Load32(k, little)) == Load64(k + k, little)
  {
    if little {
      DoubledWord(k[0], k[1], k[2], k[3]);
    } else {
      DoubledWord(k[3], k[2], k[1], k[0]);
    }
  }

  lemma XorO0(a: bv64, b: bv64) ensures O0(a ^ b) == O0(a) ^ O0(b) {}
  lemma XorO1(a: bv64, b: bv64) ensures O1(a ^ b) == O1(a) ^ O1(b) {}
  lemma XorO2(a: bv64, b: bv64) ensures O2(a ^ b) == O2(a) ^ O2(b) {}
  lemma XorO3(a: bv64, b: bv64) ensures O3(a ^ b) == O3(a) ^ O3(b) {}
  lemma XorO4(a: bv64, b: bv64) ensures O4(a ^ b) == O4(a) ^ O4(b) {}
  lemma XorO5(a: bv64, b: bv64) ensures O5(a ^ b) == O5(a) ^ O5(b) {}
  lemma XorO6(a: bv64, b: bv64) ensures O6(a ^ b) == O6(a) ^ O6(b) {}
  lemma XorO7(a: bv64, b: bv64) ensures O7(a ^ b) == O7(a) ^ O7(b) {}

  function XorEach(d: seq<Octet>, e: seq<Octet>): seq<Octet>
    requires |d| == 8 && |e| == 8
  {
    [d[0] ^ e[0], d[1] ^ e[1], d[2] ^ e[2], d[3] ^ e[3], d[4] ^ e[4], d[5] ^ e[5], d[6] ^ e[6], d[7] ^ e[7]]
  }

  lemma XorOctets(a: bv64, b: bv64)
    ensures [O0(a ^ b), O1(a ^ b), O2(a ^ b), O3(a ^ b), O4(a ^ b), O5(a ^ b), O6(a ^ b), O7(a ^ b)] ==
      [O0(a) ^ O0(b), O1(a) ^ O1(b), O2(a) ^ O2(b), O3(a) ^ O3(b), O4(a) ^ O4(b), O5(a) ^ O5(b), O6(a) ^ O6(b), O7(a) ^ O7(b)]
  {
    XorO0(a, b);
    XorO1(a, b);
    XorO2(a, b);
    XorO3(a, b);
    XorO4(a, b);
    XorO5(a, b);
    XorO6(a, b);
    XorO7(a, b);
  }

  lemma StoreXorLittle(a: bv64, b: bv64, d: seq<Octet>, e: seq<Octet>)
    requires d == Store64(a, true) && e == Store64(b, true)
    ensures Store64(a ^ b, true) == XorEach(d, e)
  {
    XorOctets(a, b);
  }

  lemma StoreXorBig(a: bv64, b: bv64, d: seq<Octet>, e: seq<Octet>)
    requires d == Store64(a, false) && e == Store64(b, false)
    ensures Store64(a ^ b, false) == XorEach(d, e)
  {
    XorOctets(a, b);
  }

  /** Words are combined octet by octet, in the order of memory. */
  lemma LoadXor(d: seq<Octet>, e: seq<Octet>, little: bool, a: bv64, b: bv64)
    requires |d| == 8 && |e| == 8 && a == Load64(d, little) && b == Load64(e, little)
    ensures Store64(a ^ b, little) == XorEach(d, e)
  {
    LoadThenStore(d, little);
    LoadThenStore(e, little);
    if little {
      StoreXorLittle(a, b, d, e);
    } else {
      StoreXorBig(a, b, d, e);
    }
  }

  lemma TwiceAt<T>(k: seq<T>, j: nat)
    requires |k| == 4 && j < 8
    ensures (k + k)[j] == k[j % 4]
  {}

  lemma MaskByteAt(key: bv32, shift: nat, j: nat, k: seq<Octet>)
    requires j < 8 && k == MaskBytes(Rol8(key, shift))
    ensures KeyOctet(key, shift + j) == (k + k)[j]
  {
    RolOctets(key, shift, j);
    TwiceAt(k, j);
  }

  lemma XorEachIs(d: seq<Octet>, e: seq<Octet>, r: seq<Octet>)
    requires |d| == |e| == |r| == 8
    requires forall j :: 0 <= j < 8 ==> r[j] == d[j] ^ e[j]
    ensures XorEach(d, e) == r
  {}

  lemma XorIsMasked(shift: nat, d: seq<Octet>, key: bv32, k: seq<Octet>, j: nat)
    requires |d| == 8 && k == MaskBytes(Rol8(key, shift)) && j < 8
    ensures Masked(shift, d, key)[j] == d[j] ^ (k + k)[j]
  {
    MaskByteAt(key, shift, j, k);
    MaskedAt(shift, d, key, j);
  }

  /** Combining the doubled mask octet by octet masks eight octets. */
  lemma XorEachIsMasked(shift: nat, d: seq<Octet>, key: bv32, k: seq<Octet>)
    requires |d| == 8 && k == MaskBytes(Rol8(key, shift))
    ensures XorEach(d, k + k) == Masked(shift, d, key)
  {
    var r, e := Masked(shift, d, key), k + k;
    forall j: nat | j < 8
      ensures r[j] == d[j] ^ e[j]
    {
      XorIsMasked(shift, d, key, k, j);
    }
    XorEachIs(d, e, r);
  }

  // ---------- mask_data ----------

  /** The octets from p to q are masked with the shift n, everything else is as it was. */
  ghost predicate MaskedPart(was: seq<Octet>, now: seq<Octet>, p: nat, q: nat, n: nat, key: bv32)
    requires p <= q <= |was|
  {
    now == was[..p] + Masked(n, was[p..q], key) + was[q..]
  }

  lemma MaskedPartGrows(was: seq<Octet>, now: seq<Octet>, next: seq<Octet>, from: nat, p: nat, q: nat, shift: nat, n: nat,
                        key: bv32)
    requires from <= p <= q <= |was| && n == shift + (p - from) && MaskedPart(was, now, from, p, shift, key)
    requires MaskedPart(now, next, p, q, n, key)
    ensures MaskedPart(was, next, from, q, shift, key)
  {
    var a, b := was[from..p], was[p..q];
    MaskedSplit(shift, a, b, key);
    assert was[from..q] == a + b;
    StillThere(was, now, from, p, q, Masked(shift, a, key));
    PatchedTwice(was, now, next, from, p, q, Masked(shift, a, key), Masked(n, b, key));
  }

  lemma StillThere<T>(was: seq<T>, now: seq<T>, from: nat, p: nat, q: nat, m: seq<T>)
    requires from <= p <= q <= |was| && |m| == p - from && now == was[..from] + m + was[p..]
    ensures |now| == |was| && now[p..q] == was[p..q]
  {}

  lemma PatchedTwice<T>(was: seq<T>, now: seq<T>, next: seq<T>, from: nat, p: nat, q: nat, m: seq<T>, n: seq<T>)
    requires from <= p <= q <= |was| == |now| && |m| == p - from && |n| == q - p
    requires now == was[..from] + m + was[p..] && next == now[..p] + n + now[q..]
    ensures next == was[..from] + (m + n) + was[q..]
  {
    assert now[..p] == was[..from] + m;
    assert now[q..] == was[q..];
  }

  lemma MaskedOne(shift: nat, d: seq<Octet>, key: bv32, x: Octet)
    requires |d| == 1 && x == d[0] ^ KeyOctet(key, shift)
    ensures [x] == Masked(shift, d, key)
  {
    assert shift + 0 == shift;
  }

  lemma MaskedWord(shift: nat, d: seq<Octet>, key: bv32, k: seq<Octet>, a: bv64, b: bv64, little: bool)
    requires |d| == 8 && k == MaskBytes(Rol8(key, shift)) && a == Load64(d, little) && b == Load64(k + k, little)
    ensures Store64(a ^ b, little) == Masked(shift, d, key)
  {
    LoadXor(d, k + k, little, a, b);
    XorEachIsMasked(shift, d, key, k);
  }

  /** Eight octets of the array, written from a row. */
  method Put8(data: array<Octet>, p: nat, m: seq<Octet>)
    requires p + 8 <= data.Length && |m| == 8
    modifies data
    ensures data[..] == old(data[..p]) + m + old(data[p + 8..])
  {
    forall i | 0 <= i < 8 {
      data[p + i] := m[i];
    }
    assert data[p..p + 8] == m;
    assert data[..] == data[..p] + data[p..p + 8] + data[p + 8..];
  }

  lemma OneIsMasked(now: seq<Octet>, next: seq<Octet>, p: nat, n: nat, key: bv32)
    requires p < |now| && next == now[p := now[p] ^ KeyOctet(key, n)]
    ensures MaskedPart(now, next, p, p + 1, n, key)
  {
    MaskedOne(n, now[p..p + 1], key, next[p]);
    assert next == now[..p] + [next[p]] + now[p + 1..];
  }

  lemma MaskedNone(was: seq<Octet>, p: nat, n: nat, key: bv32)
    requires p <= |was|
    ensures MaskedPart(was, was, p, p, n, key)
  {}

  /** One octet more: rotate, then combine. */
  method MaskOctet(data: array<Octet>, p: nat, mask: bv32, ghost key: bv32, ghost n: nat, ghost was: seq<Octet>,
                   ghost start: nat, ghost shift: nat)
    returns (rotated: bv32, ghost m: nat)
    requires start <= p < data.Length == |was| && mask == Rol8(key, n) && n == shift + (p - start)
    requires MaskedPart(was, data[..], start, p, shift, key)
    modifies data
    ensures m == n + 1 && rotated == Rol8(key, m)
    ensures MaskedPart(was, data[..], start, p + 1, shift, key)
  {
    ghost var now := data[..];
    m := n + 1;
    rotated := R1(mask);
    RolStep(key, n);
    RolLast(key, n);
    data[p] := data[p] ^ (rotated & 0xFF) as Octet;
    OneIsMasked(now, data[..], p, n, key);
    MaskedPartGrows(was, now, data[..], start, p, p + 1, shift, n, key);
  }

  /** Octets p and behind it up to q, one at a time. */
  method MaskOctets(data: array<Octet>, start: nat, end: nat, from: bv32, ghost key: bv32, ghost shift: nat)
    returns (mask: bv32, ghost n: nat)
    requires start <= end <= data.Length && from == Rol8(key, shift)
    modifies data
    ensures MaskedPart(old(data[..]), data[..], start, end, shift, key)
    ensures n == shift + (end - start) && mask == Rol8(key, n)
  {
    mask := from;
    ghost var was := data[..];
    var p := start;
    n := shift;
    MaskedNone(was, start, shift, key);
    while p < end
      invariant start <= p <= end && n == shift + (p - start)
      invariant mask == Rol8(key, n)
      invariant MaskedPart(was, data[..], start, p, shift, key)
    {
      mask, n := MaskOctet(data, p, mask, key, n, was, start, shift);
      p := p + 1;
    }
  }

  /** Eight octets further the mask is the same. */
  lemma RolWord(key: bv32, n: nat)
    ensures Rol8(key, n + 8) == Rol8(key, n)
  {
    assert (n + 8) % 4 == n % 4;
  }

  /** One aligned machine word more. */
  method MaskWord(data: array<Octet>, p: nat, mask64: bv64, little: bool, ghost key: bv32, ghost n: nat,
                  ghost was: seq<Octet>, ghost start: nat, ghost shift: nat)
    returns (ghost m: nat)
    requires start <= p <= p + 8 <= data.Length == |was| && n == shift + (p - start)
    requires IsWordMask(mask64, key, n, little) && MaskedPart(was, data[..], start, p, shift, key)
    modifies data
    ensures m == n + 8 && Rol8(key, m) == Rol8(key, n) && IsWordMask(mask64, key, m, little)
    ensures MaskedPart(was, data[..], start, p + 8, shift, key)
  {
    ghost var now := data[..];
    m := n + 8;
    var d := data[p..p + 8];
    var a := Load64(d, little);
    MaskedWord(n, d, key, MaskBytes(Rol8(key, n)), a, mask64, little);
    Put8(data, p, Store64(a ^ mask64, little));
    assert now[..p] == old(data[..p]) && now[p..p + 8] == d && now[p + 8..] == old(data[p + 8..]);
    MaskedPartGrows(was, now, data[..], start, p, p + 8, shift, n, key);
    RolWord(key, n);
  }

  /** The word that masks eight octets in memory at once, for the shift n. */
  ghost predicate IsWordMask(mask64: bv64, key: bv32, n: nat, little: bool) {
    mask64 == Load64(MaskBytes(Rol8(key, n)) + MaskBytes(Rol8(key, n)), little)
  }

  /** Whole words from start on, as many as fit before end. */
  method MaskWords(data: array<Octet>, start: nat, end: nat, mask: bv32, little: bool, ghost key: bv32, ghost shift: nat)
    returns (p: nat, ghost n: nat)
    requires start <= end <= data.Length && mask == Rol8(key, shift)
    modifies data
    ensures start <= p <= end < p + 8
    ensures MaskedPart(old(data[..]), data[..], start, p, shift, key)
    ensures n == shift + (p - start) && mask == Rol8(key, n)
  {
    var k := MaskBytes(mask);
    var mask64 := Doubled(Load32(k, little));
    DoubledLoad(k, little);
    ghost var was := data[..];
    p := start;
    n := shift;
    MaskedNone(was, start, shift, key);
    while p + 8 <= end
      invariant start <= p <= end && n == shift + (p - start)
      invariant mask == Rol8(key, n) && IsWordMask(mask64, key, n, little)
      invariant MaskedPart(was, data[..], start, p, shift, key)
    {
      n := MaskWord(data, p, mask64, little, key, n, was, start, shift);
      p := p + 8;
    }
  }

  /** The octets before the next aligned machine word. */
  function Pad(address: nat): (pad: nat)
    ensures pad < 8 && (address + pad) % 8 == 0
  {
    (8 - address % 8) % 8
  }

  /** mask_data on the octets from start to end, where start is at the machine address given: octets up to the next aligned
      word, whole words, and the octets behind the last of them; or octets alone if no aligned word fits. */
  method MaskData(shift: nat, data: array<Octet>, start: nat, end: nat, key: bv32, address: nat, little: bool)
    requires start <= end <= data.Length
    modifies data
    ensures MaskedPart(old(data[..]), data[..], start, end, shift, key)
  {
    var mask := Rol8(key, shift);
    var pad := Pad(address);
    if start + pad + 8 <= end {
      MaskAligned(data, start, start + pad, end, mask, little, key, shift);
    } else {
      ghost var n;
      mask, n := MaskOctets(data, start, end, mask, key, shift);
    }
  }

  method MaskAligned(data: array<Octet>, start: nat, aligned: nat, end: nat, from: bv32, little: bool, ghost key: bv32,
                     ghost shift: nat)
    requires start <= aligned <= end <= data.Length && from == Rol8(key, shift)
    modifies data
    ensures MaskedPart(old(data[..]), data[..], start, end, shift, key)
  {
    ghost var was := data[..];
    var mask, n := MaskOctets(data, start, aligned, from, key, shift);
    ghost var now := data[..];
    var p, m := MaskWords(data, aligned, end, mask, little, key, n);
    ghost var next := data[..];
    MaskedPartGrows(was, now, next, start, aligned, p, shift, n, key);
    ghost var last;
    mask, last := MaskOctets(data, p, end, mask, key, m);
    MaskedPartGrows(was, next, data[..], start, p, end, shift, m, key);
  }
}
