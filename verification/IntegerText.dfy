/** Decimal text to integers of every width and back: integer_parse_impl, max_to_string_length and IntegerSaver of
    include/crab/integer_cast.hpp. */
module IntegerText {
  import opened HttpChars

  // ---------- types and text ----------

  /** The integer types, by signedness and size in octets. */
  datatype IntType = IntType(signed: bool, size: nat) {
    ghost predicate Valid() { size == 1 || size == 2 || size == 4 || size == 8 }

    function Max(): nat {
      if signed then
        if size == 1 then 127 else if size == 2 then 32767 else if size == 4 then 0x7FFF_FFFF else 0x7FFF_FFFF_FFFF_FFFF
      else
        if size == 1 then 255 else if size == 2 then 65535 else if size == 4 then 0xFFFF_FFFF else 0xFFFF_FFFF_FFFF_FFFF
    }

    function Min(): int {
      if signed then 0 - Max() - 1 else 0
    }

    predicate Has(v: int) {
      Min() <= v <= Max()
    }
  }

  /** isspace(): more than the SPACE / TAB of the grammar in the source. */
  predicate IsSpace(c: char) { c == ' ' || 9 <= c as int <= 13 }

  /** The value of a row of digits. */
  function Value(ds: string): (v: nat)
    requires Digits(ds)
  {
    if ds == "" then 0 else Value(ds[..|ds| - 1]) * 10 + DigitValue(ds[|ds| - 1])
  }

  ghost predicate Digits(ds: string) { forall i :: 0 <= i < |ds| ==> IsDigit(ds[i]) }

  ghost predicate Spaces(s: string) { forall i :: 0 <= i < |s| ==> IsSpace(s[i]) }

  /** Ws* (+ / -)? Body Ws*, with Body <- 0 / [1-9] [0-9]* */
  datatype Numeral = Numeral(before: string, sign: string, body: string, after: string) {
    ghost predicate Valid() {
      && Spaces(before) && Spaces(after) && Digits(body) && (sign == "" || sign == "+" || sign == "-")
      && body != "" && (body[0] == '0' ==> |body| == 1)
    }

    function Text(): string { before + sign + body + after }

    ghost function Number(): int
      requires Valid()
    {
      if sign == "-" then 0 - Value(body) else Value(body)
    }

    /** What a type accepts: unsigned ones not even a negative zero. */
    ghost predicate Fits(t: IntType)
      requires Valid()
    {
      (sign == "-" ==> t.signed) && t.Has(Number())
    }
  }

  // ---------- the runs the parser walks over ----------

  /** The first position from i on that holds no space. */
  function SpaceEnd(s: string, i: nat): (e: nat)
    requires i <= |s|
    ensures i <= e <= |s| && Spaces(s[i..e])
    ensures e < |s| ==> !IsSpace(s[e])
    decreases |s| - i
  {
    if i < |s| && IsSpace(s[i]) then SpaceEnd(s, i + 1) else i
  }

  function DigitEnd(s: string, i: nat): (e: nat)
    requires i <= |s|
    ensures i <= e <= |s| && Digits(s[i..e])
    ensures e < |s| ==> !IsDigit(s[e])
    decreases |s| - i
  {
    if i < |s| && IsDigit(s[i]) then DigitEnd(s, i + 1) else i
  }

  /** Behind a zero there is no further digit. */
  function BodyEnd(s: string, i: nat): (e: nat)
    requires i < |s| && IsDigit(s[i])
    ensures i < e <= |s| && Digits(s[i..e]) && (s[i] == '0' ==> e == i + 1)
  {
    if s[i] == '0' then i + 1 else DigitEnd(s, i + 1)
  }

  /** The only numeral a text can be, if it is one. */
  ghost function Split(s: string): Numeral {
    var i := SpaceEnd(s, 0);
    var j := if i < |s| && (s[i] == '-' || s[i] == '+') then i + 1 else i;
    if j < |s| && IsDigit(s[j]) then
      var e := BodyEnd(s, j);
      Numeral(s[..i], s[i..j], s[j..e], s[e..])
    else Numeral(s[..i], s[i..j], "", s[j..])
  }

  lemma SplitIsWhole(s: string)
    ensures Split(s).Text() == s
  {
    var i := SpaceEnd(s, 0);
    var j := if i < |s| && (s[i] == '-' || s[i] == '+') then i + 1 else i;
    if j < |s| && IsDigit(s[j]) {
      CutInFour(s, i, j, BodyEnd(s, j));
    } else {
      CutInFour(s, i, j, j);
      assert s[j..j] == "";
    }
  }

  lemma CutInFour(s: string, i: nat, j: nat, e: nat)
    requires i <= j <= e <= |s|
    ensures s[..i] + s[i..j] + s[j..e] + s[e..] == s
  {
    assert s[..i] + s[i..j] == s[..j];
    assert s[..j] + s[j..e] == s[..e];
  }

  lemma {:induction false} SpaceEndIs(s: string, i: nat, e: nat)
    requires i <= e <= |s| && Spaces(s[i..e]) && (e < |s| ==> !IsSpace(s[e]))
    ensures SpaceEnd(s, i) == e
    decreases e - i
  {
    if i < e {
      assert s[i] == s[i..e][0];
      assert s[i + 1..e] == s[i..e][1..];
      SpaceEndIs(s, i + 1, e);
    }
  }

  lemma {:induction false} DigitEndIs(s: string, i: nat, e: nat)
    requires i <= e <= |s| && Digits(s[i..e]) && (e < |s| ==> !IsDigit(s[e]))
    ensures DigitEnd(s, i) == e
    decreases e - i
  {
    if i < e {
      assert s[i] == s[i..e][0];
      assert s[i + 1..e] == s[i..e][1..];
      DigitEndIs(s, i + 1, e);
    }
  }

  lemma PartsOf(a: string, b: string, c: string, d: string)
    ensures var s, i, j, e := a + b + c + d, |a|, |a| + |b|, |a| + |b| + |c|;
      s[..i] == a && s[i..j] == b && s[j..e] == c && s[e..] == d
  {}

  lemma SplitIs(s: string, n: Numeral)
    requires n.Valid() && s == n.Text()
    ensures var i := |n.before|; var j := i + |n.sign|; var e := j + |n.body|;
      SpaceEnd(s, 0) == i && j < |s| && IsDigit(s[j]) && BodyEnd(s, j) == e
      && (i < j <==> s[i] == '-' || s[i] == '+') && j <= i + 1
  {
    var i := |n.before|;
    var j := i + |n.sign|;
    var e := j + |n.body|;
    PartsOf(n.before, n.sign, n.body, n.after);
    FirstsOf(n, s);
    SpaceEndIs(s, 0, i);
    BodyEndIs(s, j, e, n.body);
  }

  /** The characters at the beginnings of the parts. */
  lemma FirstsOf(n: Numeral, s: string)
    requires n.Valid() && s == n.Text()
    ensures var i := |n.before|; var j := i + |n.sign|; var e := j + |n.body|;
      && j < e <= |s| && s[j] == n.body[0] && (e < |s| ==> s[e] == n.after[0] && IsSpace(s[e]))
      && (n.sign != "" ==> s[i] == n.sign[0])
  {}

  lemma BodyEndIs(s: string, j: nat, e: nat, body: string)
    requires j < e <= |s| && s[j..e] == body && Digits(body) && (body[0] == '0' ==> |body| == 1)
    requires e < |s| ==> !IsDigit(s[e])
    ensures s[j] == body[0] && BodyEnd(s, j) == e
  {
    assert s[j] == s[j..e][0];
    if body[0] != '0' {
      assert s[j + 1..e] == body[1..];
      DigitEndIs(s, j + 1, e);
    }
  }

  /** A text is a numeral in one way at most. */
  lemma NumeralIsUnique(n: Numeral)
    requires n.Valid()
    ensures Split(n.Text()) == n
  {
    SplitIs(n.Text(), n);
    PartsOf(n.before, n.sign, n.body, n.after);
  }

  // ---------- digits ----------

  lemma {:induction false} PrefixValue(ds: string, k: nat)
    requires Digits(ds) && k <= |ds|
    ensures Digits(ds[..k]) && Value(ds[..k]) <= Value(ds)
    decreases |ds|
  {
    if k < |ds| {
      PrefixValue(ds[..|ds| - 1], k);
      assert ds[..|ds| - 1][..k] == ds[..k];
    } else {
      assert ds[..k] == ds;
    }
  }

  function Pow10(n: nat): (p: nat)
    ensures p > 0
  {
    if n == 0 then 1 else 10 * Pow10(n - 1)
  }

  lemma {:induction false} ValueBound(ds: string)
    requires Digits(ds)
    ensures Value(ds) < Pow10(|ds|)
    decreases |ds|
  {
    if ds != "" {
      ValueBound(ds[..|ds| - 1]);
    }
  }

  lemma {:induction false} Pow10Grows(m: nat, n: nat)
    requires m <= n
    ensures Pow10(m) <= Pow10(n)
    decreases n
  {
    if m < n {
      Pow10Grows(m, n - 1);
    }
  }

  /** The digits that are read without a check fit every type. */
  lemma SafeDigitsFit(t: IntType)
    requires t.Valid()
    ensures Pow10(2 * t.size) - 1 <= t.Max()
  {
    assert Pow10(2) == 100;
    assert Pow10(4) == 10 * (10 * Pow10(2));
    assert Pow10(6) == 10 * (10 * Pow10(4));
    assert Pow10(8) == 10 * (10 * Pow10(6));
    assert Pow10(10) == 10 * (10 * Pow10(8));
    assert Pow10(12) == 10 * (10 * Pow10(10));
    assert Pow10(14) == 10 * (10 * Pow10(12));
    assert Pow10(16) == 10 * (10 * Pow10(14));
  }

  /** Reading one digit more. */
  lemma ValueAppend(s: string, i: nat, k: nat)
    requires i <= k < |s| && Digits(s[i..k]) && IsDigit(s[k])
    ensures Digits(s[i..k + 1]) && Value(s[i..k + 1]) == Value(s[i..k]) * 10 + DigitValue(s[k])
  {
    assert s[i..k + 1] == s[i..k] + [s[k]];
    assert s[i..k + 1][..k - i] == s[i..k];
  }

  function Signed(negative: bool, magnitude: nat): int {
    if negative then 0 - magnitude else magnitude
  }

  /** Division of C++, towards zero. */
  function TruncDiv(a: int, b: nat): int
    requires b > 0
  {
    if a < 0 then -((-a) / b) else a / b
  }

  /** The checks before another digit is taken: with them the result is in range, without it is not. */
  predicate TooFar(t: IntType, value: int, digit: nat, negative: bool) {
    if negative then
      var lastValue := TruncDiv(t.Min(), 10);
      value < lastValue || (value == lastValue && digit > (-t.Min()) % 10)
    else
      var lastValue := t.Max() / 10;
      value > lastValue || (value == lastValue && digit > t.Max() % 10)
  }

  lemma TooFarIsOutOfRange(t: IntType, magnitude: nat, digit: nat, negative: bool)
    requires digit <= 9 && (negative ==> t.signed)
    ensures TooFar(t, Signed(negative, magnitude), digit, negative) <==> !t.Has(Signed(negative, magnitude * 10 + digit))
  {
    if negative {
      DivMod(-t.Min(), magnitude, digit);
    } else {
      DivMod(t.Max(), magnitude, digit);
    }
  }

  lemma DivMod(limit: nat, m: nat, d: nat)
    requires d <= 9
    ensures m > limit / 10 || (m == limit / 10 && d > limit % 10) <==> m * 10 + d > limit
  {}

  // ---------- parsing ----------

  /** How far the digits behind start have been read: up to end, with their value. */
  ghost predicate ReadTo(s: string, start: nat, end: nat, value: int, negative: bool) {
    && start < end <= |s| && IsDigit(s[start]) && s[start] != '0' && Digits(s[start..end])
    && DigitEnd(s, end) == BodyEnd(s, start) && value == Signed(negative, Value(s[start..end]))
  }

  lemma FirstRead(s: string, start: nat, negative: bool)
    requires start < |s| && IsDigit(s[start])
    ensures Digits(s[start..start + 1]) && Value(s[start..start + 1]) == DigitValue(s[start])
    ensures s[start] != '0' ==> ReadTo(s, start, start + 1, Signed(negative, DigitValue(s[start])), negative)
  {
    assert s[start..start + 1] == [s[start]] && [s[start]][..0] == "";
  }

  lemma NextRead(s: string, start: nat, end: nat, value: int, negative: bool)
    requires ReadTo(s, start, end, value, negative) && end < |s| && IsDigit(s[end])
    ensures ReadTo(s, start, end + 1, if negative then value * 10 - DigitValue(s[end]) else value * 10 + DigitValue(s[end]),
                   negative)
  {
    ValueAppend(s, start, end);
  }

  /** The first loop: as many digits as fit the type in any case, without a check. No value is out of range. */
  method ParseSafe(t: IntType, s: string, start: nat, negative: bool, first: int) returns (value: int, end: nat)
    requires t.Valid() && (negative ==> t.signed) && ReadTo(s, start, start + 1, first, negative) && t.Has(first)
    ensures ReadTo(s, start, end, value, negative) && t.Has(value)
  {
    var safeEnd := if |s| < start + 2 * t.size then |s| else start + 2 * t.size;
    value, end := first, start + 1;
    while end < safeEnd && IsDigit(s[end])
      invariant ReadTo(s, start, end, value, negative) && t.Has(value)
      decreases safeEnd - end
    {
      NextRead(s, start, end, value, negative);
      value := if negative then value * 10 - DigitValue(s[end]) else value * 10 + DigitValue(s[end]);
      end := end + 1;
      SafeValue(t, s[start..end]);
    }
  }

  lemma TooFarForAll(t: IntType, s: string, start: nat, end: nat, value: int, negative: bool)
    requires (negative ==> t.signed) && ReadTo(s, start, end, value, negative) && end < |s| && IsDigit(s[end])
    requires TooFar(t, value, DigitValue(s[end]), negative)
    ensures !t.Has(Signed(negative, Value(s[start..BodyEnd(s, start)])))
  {
    var body := s[start..BodyEnd(s, start)];
    TooFarIsOutOfRange(t, Value(s[start..end]), DigitValue(s[end]), negative);
    ValueAppend(s, start, end);
    PrefixValue(body, end + 1 - start);
    assert body[..end + 1 - start] == s[start..end + 1];
  }

  /** The second loop: the rest with strict checks. */
  method ParseRest(t: IntType, s: string, start: nat, negative: bool, first: int, from: nat)
    returns (r: Option<int>, end: nat)
    requires (negative ==> t.signed) && ReadTo(s, start, from, first, negative) && t.Has(first)
    ensures end <= |s|
    ensures var number := Signed(negative, Value(s[start..BodyEnd(s, start)]));
      if t.Has(number) then r == Some(number) && end == BodyEnd(s, start) else r == None
  {
    var value := first;
    end := from;
    while end < |s| && IsDigit(s[end])
      invariant ReadTo(s, start, end, value, negative) && t.Has(value)
      decreases |s| - end
    {
      var digit := DigitValue(s[end]);
      if TooFar(t, value, digit, negative) {
        TooFarForAll(t, s, start, end, value, negative);
        return None, end;
      }
      TooFarIsOutOfRange(t, Value(s[start..end]), digit, negative);
      NextRead(s, start, end, value, negative);
      value := if negative then value * 10 - digit else value * 10 + digit;
      end := end + 1;
    }
    return Some(value), end;
  }

  /** The digits: nothing when their value is out of range. */
  method ParseBody(t: IntType, s: string, start: nat, negative: bool) returns (r: Option<int>, end: nat)
    requires t.Valid() && start < |s| && IsDigit(s[start]) && (negative ==> t.signed)
    ensures end <= |s|
    ensures var number := Signed(negative, Value(s[start..BodyEnd(s, start)]));
      if t.Has(number) then r == Some(number) && end == BodyEnd(s, start) else r == None
  {
    var value := Signed(negative, DigitValue(s[start]));
    FirstRead(s, start, negative);
    if value == 0 {
      return Some(value), start + 1;
    }
    value, end := ParseSafe(t, s, start, negative, value);
    r, end := ParseRest(t, s, start, negative, value, end);
  }

  lemma SafeValue(t: IntType, ds: string)
    requires t.Valid() && Digits(ds) && |ds| <= 2 * t.size
    ensures Value(ds) <= t.Max()
  {
    ValueBound(ds);
    Pow10Grows(|ds|, 2 * t.size);
    SafeDigitsFit(t);
  }

  /** What a text means to a type. */
  ghost function Meaning(t: IntType, s: string): (r: Option<int>)
    ensures r.Some? ==> t.Has(r.value)
  {
    var n := Split(s);
    if n.Valid() && n.Fits(t) then Some(n.Number()) else None
  }

  /** It means a number if and only if it is a numeral whose exact value is in the range of the type. */
  lemma MeaningIsExact(t: IntType, s: string, v: int)
    ensures Meaning(t, s) == Some(v) <==> exists n: Numeral :: n.Valid() && n.Text() == s && n.Fits(t) && n.Number() == v
  {
    SplitIsWhole(s);
    forall n: Numeral | n.Valid() && n.Text() == s && n.Fits(t) && n.Number() == v
      ensures Split(s) == n
    {
      NumeralIsUnique(n);
    }
  }

  predicate IsSign(c: char) { c == '-' || c == '+' }

  lemma BodyAt(s: string, j: nat, e: nat, body: string)
    requires j < |s| && IsDigit(s[j]) && e == BodyEnd(s, j) && body == s[j..e]
    ensures Digits(body) && body != "" && body[0] == s[j] && (body[0] == '0' ==> |body| == 1)
  {}

  lemma SignAt(s: string, i: nat, j: nat, sign: string)
    requires i <= j <= |s| && sign == s[i..j]
    requires j == if i < |s| && IsSign(s[i]) then i + 1 else i
    ensures (sign == "" || sign == "+" || sign == "-") && (i < |s| ==> (sign == "-" <==> s[i] == '-'))
  {
    if i < j {
      assert sign == [s[i]];
    }
  }

  lemma SplitAt(s: string, i: nat, j: nat)
    requires i == SpaceEnd(s, 0) && j == if i < |s| && IsSign(s[i]) then i + 1 else i
    ensures var n := Split(s);
      if j < |s| && IsDigit(s[j]) then
        var e := BodyEnd(s, j);
        && n.body == s[j..e] && n.before == s[..i] && n.sign == s[i..j] && n.after == s[e..]
      else !n.Valid()
  {}

  lemma SplitIsValid(s: string, i: nat, j: nat, n: Numeral)
    requires i == SpaceEnd(s, 0) && j == if i < |s| && IsSign(s[i]) then i + 1 else i
    requires j < |s| && IsDigit(s[j]) && n == Split(s)
    ensures n.body == s[j..BodyEnd(s, j)] && (n.sign == "-" <==> s[i] == '-')
    ensures n.Valid() <==> SpaceEnd(s, BodyEnd(s, j)) == |s|
  {
    var e := BodyEnd(s, j);
    SplitAt(s, i, j);
    BodyAt(s, j, e, n.body);
    SignAt(s, i, j, n.sign);
    SpacesIff(s, e);
    assert s[0..i] == s[..i];
  }

  lemma NumberOf(t: IntType, n: Numeral, negative: bool, ds: string)
    requires n.Valid() && (n.sign == "-" <==> negative) && n.body == ds && Digits(ds)
    ensures n.Number() == Signed(negative, Value(ds))
    ensures n.Fits(t) <==> (negative ==> t.signed) && t.Has(Signed(negative, Value(ds)))
  {}

  /** What the parser finds behind the spaces and the sign. */
  ghost function Found(t: IntType, s: string, j: nat, negative: bool): Option<int>
    requires j <= |s|
  {
    if j < |s| && IsDigit(s[j]) && SpaceEnd(s, BodyEnd(s, j)) == |s| && (negative ==> t.signed) then
      var number := Signed(negative, Value(s[j..BodyEnd(s, j)]));
      if t.Has(number) then Some(number) else None
    else None
  }

  /** The meaning in terms of the positions the parser finds. */
  lemma MeaningAt(t: IntType, s: string, i: nat, j: nat)
    requires i == SpaceEnd(s, 0) && j == if i < |s| && IsSign(s[i]) then i + 1 else i
    ensures Meaning(t, s) == Found(t, s, j, i < |s| && s[i] == '-')
  {
    if j < |s| && IsDigit(s[j]) {
      var n := Split(s);
      SplitIsValid(s, i, j, n);
      if n.Valid() {
        NumberOf(t, n, s[i] == '-', s[j..BodyEnd(s, j)]);
      }
    } else {
      SplitAt(s, i, j);
    }
  }

  /** integer_parse_impl; None stands for its messages. */
  method Parse(t: IntType, s: string) returns (r: Option<int>)
    requires t.Valid()
    ensures r == Meaning(t, s)
  {
    var first := SkipSpaces(s, 0);
    ghost var j := if first < |s| && IsSign(s[first]) then first + 1 else first;
    MeaningAt(t, s, first, j);
    if first == |s| {
      return None;
    }
    var negative := s[first] == '-';
    if negative && !t.signed {
      return None;
    }
    var begin := if negative || s[first] == '+' then first + 1 else first;
    if begin == |s| || !IsDigit(s[begin]) {
      return None;
    }
    var end;
    r, end := ParseBody(t, s, begin, negative);
    if r.Some? {
      end := SkipSpaces(s, end);
      r := if end == |s| then r else None;
    }
  }

  method SkipSpaces(s: string, start: nat) returns (end: nat)
    requires start <= |s|
    ensures end == SpaceEnd(s, start)
  {
    end := start;
    while end < |s| && IsSpace(s[end])
      invariant start <= end <= |s| && SpaceEnd(s, end) == SpaceEnd(s, start)
    {
      end := end + 1;
    }
  }

  lemma SpacesIff(s: string, i: nat)
    requires i <= |s|
    ensures SpaceEnd(s, i) == |s| <==> Spaces(s[i..])
  {
    var e := SpaceEnd(s, i);
    if e == |s| {
      assert s[i..] == s[i..e];
    } else {
      assert s[i..][e - i] == s[e];
    }
  }

  lemma TextOf(sign: string, body: string)
    ensures Numeral("", sign, body, "").Text() == sign + body
  {}

  lemma MeaningOfNumeral(t: IntType, n: Numeral)
    requires n.Valid() && n.Fits(t)
    ensures Meaning(t, n.Text()) == Some(n.Number())
  {
    NumeralIsUnique(n);
  }

  /** The spaces of the grammar written above the code: SPACE / TAB. */
  ghost predicate Blanks(s: string) { forall i :: 0 <= i < |s| ==> s[i] == ' ' || s[i] == '\t' }

  /** A numeral of that grammar. */
  ghost predicate AsWritten(s: string) {
    exists n: Numeral :: n.Valid() && n.Text() == s && Blanks(n.before) && Blanks(n.after)
  }

  /** Line feed, vertical tab, form feed or carriage return. */
  predicate IsLineSpace(c: char) { 10 <= c as int <= 13 }

  lemma PartOf(n: Numeral, i: nat)
    requires i < |n.before| + |n.sign| + |n.body| + |n.after|
    ensures n.Text()[i] in n.before || n.Text()[i] in n.sign || n.Text()[i] in n.body || n.Text()[i] in n.after
  {}

  lemma NoLineSpaces(n: Numeral, i: nat)
    requires n.Valid() && i < |n.Text()| && Blanks(n.before) && Blanks(n.after)
    ensures !IsLineSpace(n.Text()[i])
  {
    PartOf(n, i);
  }

  lemma AsWrittenIfNoLineSpace(t: IntType, s: string)
    requires Meaning(t, s).Some? && forall i :: 0 <= i < |s| ==> !IsLineSpace(s[i])
    ensures AsWritten(s)
  {
    var n := Split(s);
    SplitIsWhole(s);
    BlankParts(n, s);
    assert n.Text() == s;
  }

  lemma BlankParts(n: Numeral, s: string)
    requires n.Valid() && s == n.Text() && forall i :: 0 <= i < |s| ==> !IsLineSpace(s[i])
    ensures Blanks(n.before) && Blanks(n.after)
  {
    PartsOf(n.before, n.sign, n.body, n.after);
    BlankIfNoLineSpace(n.before, s, 0);
    BlankIfNoLineSpace(n.after, s, |s| - |n.after|);
  }

  lemma NoLineSpaceIfAsWritten(s: string, i: nat)
    requires AsWritten(s) && i < |s|
    ensures !IsLineSpace(s[i])
  {
    var w: Numeral :| w.Valid() && w.Text() == s && Blanks(w.before) && Blanks(w.after);
    NoLineSpaces(w, i);
  }

  /** How far the code departs from that grammar: what it accepts is as written if and only if it contains none of the four
      other characters isspace() knows. */
  lemma AcceptedAsWritten(t: IntType, s: string)
    requires Meaning(t, s).Some?
    ensures AsWritten(s) <==> forall i :: 0 <= i < |s| ==> !IsLineSpace(s[i])
  {
    if forall i :: 0 <= i < |s| ==> !IsLineSpace(s[i]) {
      AsWrittenIfNoLineSpace(t, s);
    }
    if AsWritten(s) {
      forall i | 0 <= i < |s|
        ensures !IsLineSpace(s[i])
      {
        NoLineSpaceIfAsWritten(s, i);
      }
    }
  }

  lemma BlankIfNoLineSpace(part: string, s: string, at: nat)
    requires Spaces(part) && at + |part| <= |s| && part == s[at..at + |part|]
    requires forall i :: 0 <= i < |s| ==> !IsLineSpace(s[i])
    ensures Blanks(part)
  {
    forall i | 0 <= i < |part|
      ensures part[i] == ' ' || part[i] == '\t'
    {
      assert part[i] == s[at + i] && IsSpace(part[i]);
    }
  }

  /** For instance a number on a line of its own. */
  lemma NumberOnALine(t: IntType)
    requires t.Valid()
    ensures Meaning(t, "\n5\r") == Some(5) && !AsWritten("\n5\r")
  {
    var n := Numeral("\n", "", "5", "\r");
    assert "5"[..0] == "" && Value("5") == 5;
    assert n.Text() == "\n5\r";
    MeaningOfNumeral(t, n);
    AcceptedAsWritten(t, "\n5\r");
    assert IsLineSpace("\n5\r"[0]);
  }

  // ---------- printing ----------

  function Digit(d: nat): (c: char)
    requires d <= 9
    ensures IsDigit(c) && DigitValue(c) == d
  {
    ('0' as int + d) as char
  }

  function DigitsOf(n: nat): (s: string)
    ensures Digits(s) && s != ""
  {
    if n < 10 then [Digit(n)] else DigitsOf(n / 10) + [Digit(n % 10)]
  }

  function Decimal(v: int): string {
    if v < 0 then "-" + DigitsOf(-v) else DigitsOf(v)
  }

  lemma {:induction false} DigitsOfValue(n: nat)
    ensures Value(DigitsOf(n)) == n && (DigitsOf(n)[0] == '0' <==> n == 0) && (n == 0 ==> |DigitsOf(n)| == 1)
  {
    var s := DigitsOf(n);
    if n >= 10 {
      DigitsOfValue(n / 10);
      assert s[..|s| - 1] == DigitsOf(n / 10);
    } else {
      assert s[..0] == "";
    }
  }

  /** Every printed value is read back. */
  lemma ParseOfDecimal(t: IntType, v: int)
    requires t.Valid() && t.Has(v)
    ensures Meaning(t, Decimal(v)) == Some(v)
  {
    DecimalIsNumeral(t, v);
    MeaningOfNumeral(t, DecimalNumeral(v));
  }

  function DecimalNumeral(v: int): Numeral {
    if v < 0 then Numeral("", "-", DigitsOf(-v), "") else Numeral("", "", DigitsOf(v), "")
  }

  lemma DecimalIsNumeral(t: IntType, v: int)
    requires t.Valid() && t.Has(v)
    ensures var n := DecimalNumeral(v); n.Valid() && n.Fits(t) && n.Text() == Decimal(v) && n.Number() == v
  {
    var m, sign := if v < 0 then -v else v, if v < 0 then "-" else "";
    DigitsOfValue(m);
    TextOf(sign, DigitsOf(m));
    assert "" + DigitsOf(m) == DigitsOf(m);
  }

  /** max_to_string_length_impl */
  function LengthImpl(signed: bool, value: int): nat
    requires value < 0 ==> signed
    decreases if value < 0 then -value else value
  {
    if 0 <= value < 10 then 1 else if signed && -10 < value < 0 then 2 else 1 + LengthImpl(signed, TruncDiv(value, 10))
  }

  function MaxToStringLength(t: IntType): nat {
    var a, b := LengthImpl(t.signed, t.Max()), LengthImpl(t.signed, t.Min());
    if a < b then b else a
  }

  lemma {:induction false} LengthIsExact(signed: bool, value: int)
    requires value < 0 ==> signed
    ensures LengthImpl(signed, value) == |Decimal(value)|
    decreases if value < 0 then -value else value
  {
    if value <= -10 || value >= 10 {
      LengthIsExact(signed, TruncDiv(value, 10));
    }
  }

  lemma {:induction false} LongerIfLarger(m: nat, n: nat)
    requires m <= n
    ensures |DigitsOf(m)| <= |DigitsOf(n)|
    decreases n
  {
    if m >= 10 {
      LongerIfLarger(m / 10, n / 10);
    }
  }

  /** The buffer is large enough for every value of the type. */
  lemma BufferSuffices(t: IntType, v: int)
    requires t.Has(v)
    ensures |Decimal(v)| <= MaxToStringLength(t)
  {
    if v < 0 {
      LongerIfLarger(-v, -t.Min());
      LengthIsExact(t.signed, t.Min());
    } else {
      LongerIfLarger(v, t.Max());
      LengthIsExact(t.signed, t.Max());
    }
  }

  /** What is to be in the buffer from p on when the number v is still to be written. */
  ghost predicate Written(all: string, tail: string, v: nat, more: bool) {
    all == if more then DigitsOf(v) + tail else tail
  }

  lemma DigitWritten(all: string, tail: string, v: nat, next: string)
    requires Written(all, tail, v, true) && next == [Digit(v % 10)] + tail
    ensures Written(all, next, v / 10, v / 10 != 0)
  {
    assert v >= 10 ==> DigitsOf(v / 10) + [Digit(v % 10)] + tail == DigitsOf(v / 10) + ([Digit(v % 10)] + tail);
  }

  method PutFront(buffer: array<char>, p: nat, c: char)
    requires 0 < p <= buffer.Length
    modifies buffer
    ensures buffer[p - 1..] == [c] + old(buffer[p..])
  {
    buffer[p - 1] := c;
    assert buffer[p - 1..] == [buffer[p - 1]] + buffer[p..];
  }

  /** The loop of IntegerSaver over a value that is not negative, from the end of the buffer; also stopped by its
      beginning, which is never the reason. */
  method SavePositive(buffer: array<char>, number: nat) returns (p: nat)
    requires |DigitsOf(number)| <= buffer.Length
    modifies buffer
    ensures p <= buffer.Length && buffer[p..] == DigitsOf(number)
  {
    p := buffer.Length;
    var value, more := number, true;
    while more
      invariant p <= buffer.Length && Written(DigitsOf(number), buffer[p..], value, more)
      decreases more, value
    {
      DigitWritten(DigitsOf(number), buffer[p..], value, [Digit(value % 10)] + buffer[p..]);
      PutFront(buffer, p, Digit(value % 10));
      p := p - 1;
      value := value / 10;
      more := value != 0 && p != 0;
    }
  }

  lemma NegativeDigit(value: int)
    requires value <= 0
    ensures 10 * TruncDiv(value, 10) - value == -value % 10 && TruncDiv(value, 10) == -(-value / 10)
  {}

  /** The loop over a negative value, which leaves room for the sign. */
  method SaveNegative(buffer: array<char>, number: int) returns (p: nat)
    requires number < 0 && |Decimal(number)| <= buffer.Length
    modifies buffer
    ensures p <= buffer.Length && buffer[p..] == Decimal(number)
  {
    p := buffer.Length;
    var value, more := number, true;
    while more
      invariant value <= 0 < p <= buffer.Length && Written(DigitsOf(-number), buffer[p..], -value, more)
      decreases more, -value
    {
      var digit := value - 10 * TruncDiv(value, 10);
      NegativeDigit(value);
      DigitWritten(DigitsOf(-number), buffer[p..], -value, [Digit(-digit)] + buffer[p..]);
      PutFront(buffer, p, Digit(-digit));
      p := p - 1;
      value := TruncDiv(value, 10);
      more := value != 0 && p != 1;
    }
    PutFront(buffer, p, '-');
    p := p - 1;
  }

  /** IntegerSaver: the text is the exact one, for every value of the type, and is read back. */
  method Save(t: IntType, value: int) returns (text: string)
    requires t.Valid() && t.Has(value)
    ensures text == Decimal(value)
    ensures Meaning(t, text) == Some(value)
  {
    BufferSuffices(t, value);
    ParseOfDecimal(t, value);
    var buffer := new char[MaxToStringLength(t)];
    var p;
    if t.signed && value < 0 {
      p := SaveNegative(buffer, value);
    } else {
      p := SavePositive(buffer, value);
    }
    text := buffer[p..];
  }

  // ---------- checked sums ----------

  /** safe_add and safe_add_opt; None for the exception. */
  function SafeAdd(t: IntType, a: int, b: int): Option<int> {
    if b >= 0 then (if a > t.Max() - b then None else Some(a + b))
    else if a < t.Min() - b then None else Some(a + b)
  }

  /** safe_sub and safe_sub_opt. */
  function SafeSub(t: IntType, a: int, b: int): Option<int> {
    if b <= 0 then (if a > t.Max() + b then None else Some(a - b))
    else if a < t.Min() + b then None else Some(a - b)
  }

  lemma SafeAddIsExact(t: IntType, a: int, b: int)
    requires t.Has(a) && t.Has(b)
    ensures SafeAdd(t, a, b) == if t.Has(a + b) then Some(a + b) else None
    ensures t.Has(if b >= 0 then t.Max() - b else t.Min() - b)
  {}

  lemma SafeSubIsExact(t: IntType, a: int, b: int)
    requires t.Has(a) && t.Has(b)
    ensures SafeSub(t, a, b) == if t.Has(a - b) then Some(a - b) else None
    ensures t.Has(if b <= 0 then t.Max() + b else t.Min() + b)
  {}
}
