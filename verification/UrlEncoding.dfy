/** Percent encoding and the query parser of include/crab/http/query_parser.hxx (section 2.1 of RFC 3986). */
module UrlEncoding {
  import opened HttpChars

  /** A char stands for an octet. */
  predicate IsOctets(s: string) { forall i :: 0 <= i < |s| ==> s[i] as int < 256 }

  function EncodeChar(c: char, path: bool): string
    requires c as int < 256
  {
    if !IsUriReserved(c) || (path && c == '/') then [c]
    else ['%', HexDigit(c as int / 16), HexDigit(c as int % 16)]
  }

  function Encode(s: string, path: bool): string
    requires IsOctets(s)
  {
    if s == "" then "" else EncodeChar(s[0], path) + Encode(s[1..], path)
  }

  predicate IsEscape(s: string) {
    |s| >= 3 && s[0] == '%' && FromHexDigit(s[1]) >= 0 && FromHexDigit(s[2]) >= 0
  }

  function Escaped(x: char, y: char): char
    requires FromHexDigit(x) >= 0 && FromHexDigit(y) >= 0
  {
    (FromHexDigit(x) * 16 + FromHexDigit(y)) as char
  }

  /** What is no complete escape stands for itself. */
  function Decode(s: string): string
    decreases |s|
  {
    if s == "" then "" else if IsEscape(s) then [Escaped(s[1], s[2])] + Decode(s[3..]) else [s[0]] + Decode(s[1..])
  }

  lemma PlainCharIs(c: char)
    requires !IsUriReserved(c) || c == '/'
    ensures c != '%' && c != '&' && c != '=' && c != '+'
  {}

  lemma EscapeOf(c: char)
    requires c as int < 256
    ensures var n := c as int;
      FromHexDigit(HexDigit(n / 16)) == n / 16 && Escaped(HexDigit(n / 16), HexDigit(n % 16)) == c
  {}

  lemma CharBack(c: char, path: bool, later: string)
    requires c as int < 256
    ensures Decode(EncodeChar(c, path) + later) == [c] + Decode(later)
  {
    var e := EncodeChar(c, path);
    if e == [c] {
      PlainCharIs(c);
      assert (e + later)[0] == c && (e + later)[1..] == later;
    } else {
      EscapeOf(c);
      assert (e + later)[3..] == later;
    }
  }

  lemma {:induction false} EncodedIsDecoded(s: string, path: bool)
    requires IsOctets(s)
    ensures Decode(Encode(s, path)) == s
    decreases |s|
  {
    if s != "" {
      CharBack(s[0], path, Encode(s[1..], path));
      EncodedIsDecoded(s[1..], path);
    }
  }

  // ---------- the loops ----------

  method AppendEncoded(before: string, c: char, path: bool) returns (result: string)
    requires c as int < 256
    ensures result == before + EncodeChar(c, path)
  {
    result := before;
    if !IsUriReserved(c) || (path && c == '/') {
      result := result + [c];
    } else {
      result := result + "%";
      result := result + [HexDigit(c as int / 16)];
      result := result + [HexDigit(c as int % 16)];
    }
  }

  lemma EncodeNext(before: string, s: string, path: bool)
    requires IsOctets(s) && s != ""
    ensures before + Encode(s, path) == before + EncodeChar(s[0], path) + Encode(s[1..], path)
  {}

  /** url_encode */
  method UrlEncode(str: string, path: bool) returns (result: string)
    requires IsOctets(str)
    ensures result == Encode(str, path)
    ensures Decode(result) == str
  {
    EncodedIsDecoded(str, path);
    result := "";
    assert str[0..] == str;
    for i := 0 to |str|
      invariant result + Encode(str[i..], path) == Encode(str, path)
    {
      EncodeNext(result, str[i..], path);
      assert str[i..][1..] == str[i + 1..];
      result := AppendEncoded(result, str[i], path);
    }
  }

  /** A character that stands for itself, or begins an escape. */
  lemma PlainDecoded(str: string, pos: nat)
    requires pos < |str|
    requires str[pos] == '%' && pos + 3 <= |str| ==> FromHexDigit(str[pos + 1]) < 0 || FromHexDigit(str[pos + 2]) < 0
    ensures Decode(str[pos..]) == [str[pos]] + Decode(str[pos + 1..])
  {
    assert str[pos..][1..] == str[pos + 1..];
  }

  lemma EscapeDecoded(str: string, pos: nat)
    requires pos + 3 <= |str| && str[pos] == '%'
    requires FromHexDigit(str[pos + 1]) >= 0 && FromHexDigit(str[pos + 2]) >= 0
    ensures Decode(str[pos..]) == [(FromHexDigit(str[pos + 1]) * 16 + FromHexDigit(str[pos + 2])) as char] + Decode(str[pos + 3..])
  {
    assert str[pos..][3..] == str[pos + 3..];
  }

  /** url_decode */
  method UrlDecode(str: string) returns (result: string)
    ensures result == Decode(str)
  {
    var pos := 0;
    result := "";
    assert str[0..] == str;
    while pos != |str|
      invariant 0 <= pos <= |str|
      invariant result + Decode(str[pos..]) == Decode(str)
      decreases |str| - pos
    {
      var c, n := DecodeAt(str, pos);
      Regrouped(result, [c], Decode(str[pos + n..]));
      result, pos := result + [c], pos + n;
    }
  }

  lemma Regrouped(a: string, b: string, c: string)
    ensures a + (b + c) == a + b + c
  {}

  /** One round of the loop. */
  method DecodeAt(str: string, pos: nat) returns (c: char, n: nat)
    requires pos < |str|
    ensures n >= 1 && pos + n <= |str| && Decode(str[pos..]) == [c] + Decode(str[pos + n..])
  {
    if str[pos] != '%' || pos + 3 > |str| {
      PlainDecoded(str, pos);
      return str[pos], 1;
    }
    var digit1, digit2 := FromHexDigit(str[pos + 1]), FromHexDigit(str[pos + 2]);
    if digit1 < 0 || digit2 < 0 {
      PlainDecoded(str, pos);
      return str[pos], 1;
    }
    EscapeDecoded(str, pos);
    return (digit1 * 16 + digit2) as char, 3;
  }
}

module QueryParsing {
  import opened HttpChars
  import opened UrlEncoding

  /** The first digit of an escape is part of the state that waits for the second. */
  datatype State = KEY | KEY_PERCENT1 | KEY_PERCENT2(keyDigit: char) | VALUE | VALUE_PERCENT1 | VALUE_PERCENT2(valueDigit: char) {
    ghost predicate Valid() {
      && (KEY_PERCENT2? ==> FromHexDigit(keyDigit) >= 0)
      && (VALUE_PERCENT2? ==> FromHexDigit(valueDigit) >= 0)
    }
  }

  datatype Query = Query(state: State, key: string, value: string, parsed: map<string, string>)

  const START := Query(KEY, "", "", map[])

  function Persist(q: Query): Query {
    q.(parsed := q.parsed[q.key := q.value], key := "", value := "")
  }

  function KeyStep(q: Query, c: char): Query
    requires q.state == KEY
  {
    if c == '&' then (if q.key != "" then Persist(q) else q)
    else if c == '%' then q.(state := KEY_PERCENT1)
    else if c == '=' then q.(state := VALUE)
    else q.(key := q.key + [if c == '+' then ' ' else c])
  }

  /** An ampersand behind a percent sign is part of the key. */
  function KeyPercentStep(q: Query, c: char): Query
    requires q.state.Valid() && (q.state == KEY_PERCENT1 || q.state.KEY_PERCENT2?)
  {
    var pending := if q.state == KEY_PERCENT1 then "%" else ['%', q.state.keyDigit];
    if c == '=' then q.(state := VALUE, key := q.key + pending)
    else if FromHexDigit(c) < 0 then q.(state := KEY, key := q.key + pending + [c])
    else if q.state == KEY_PERCENT1 then q.(state := KEY_PERCENT2(c))
    else q.(state := KEY, key := q.key + [Escaped(q.state.keyDigit, c)])
  }

  function ValueStep(q: Query, c: char): Query
    requires q.state == VALUE
  {
    if c == '&' then Persist(q).(state := KEY)
    else if c == '%' then q.(state := VALUE_PERCENT1)
    else q.(value := q.value + [if c == '+' then ' ' else c])
  }

  /** An ampersand behind a percent sign leads to the next key without storing the pair; an equals sign behind a percent sign
      and a digit is lost. */
  function ValuePercentStep(q: Query, c: char): Query
    requires q.state.Valid() && (q.state == VALUE_PERCENT1 || q.state.VALUE_PERCENT2?)
  {
    if q.state == VALUE_PERCENT1 then
      if c == '&' then q.(state := KEY, value := q.value + "%")
      else if FromHexDigit(c) < 0 then q.(state := VALUE, value := q.value + "%" + [c])
      else q.(state := VALUE_PERCENT2(c))
    else
      var pending := ['%', q.state.valueDigit];
      if c == '=' then q.(state := VALUE, value := q.value + pending)
      else if FromHexDigit(c) < 0 then q.(state := VALUE, value := q.value + pending + [c])
      else q.(state := VALUE, value := q.value + [Escaped(q.state.valueDigit, c)])
  }

  /** consume */
  function Step(q: Query, c: char): (r: Query)
    requires q.state.Valid()
    ensures r.state.Valid()
  {
    match q.state
    case KEY => KeyStep(q, c)
    case KEY_PERCENT1 => KeyPercentStep(q, c)
    case KEY_PERCENT2(_) => KeyPercentStep(q, c)
    case VALUE => ValueStep(q, c)
    case VALUE_PERCENT1 => ValuePercentStep(q, c)
    case VALUE_PERCENT2(_) => ValuePercentStep(q, c)
  }

  /** consume_end */
  function End(q: Query): Query {
    match q.state
    case KEY => if q.key != "" then Persist(q) else q
    case VALUE => Persist(q).(state := KEY)
    case KEY_PERCENT1 => Persist(q.(key := q.key + "%")).(state := KEY)
    case KEY_PERCENT2(d) => Persist(q.(key := q.key + ['%', d])).(state := KEY)
    case VALUE_PERCENT1 => Persist(q.(value := q.value + "%")).(state := KEY)
    case VALUE_PERCENT2(d) => Persist(q.(value := q.value + ['%', d])).(state := KEY)
  }

  function Run(q: Query, s: string): (r: Query)
    requires q.state.Valid()
    ensures r.state.Valid()
    decreases |s|
  {
    if s == "" then q else Run(Step(q, s[0]), s[1..])
  }

  /** Parsing on top of pairs found before. */
  function ParsedOn(m: map<string, string>, s: string): map<string, string> {
    End(Run(Query(KEY, "", "", m), s)).parsed
  }

  /** parse_query_string */
  function Parsed(s: string): map<string, string> {
    ParsedOn(map[], s)
  }

  lemma {:induction false} RunSplit(q: Query, a: string, b: string)
    requires q.state.Valid()
    ensures Run(q, a + b) == Run(Run(q, a), b)
    decreases |a|
  {
    if a == "" {
      assert a + b == b;
    } else {
      assert (a + b)[0] == a[0] && (a + b)[1..] == a[1..] + b;
      RunSplit(Step(q, a[0]), a[1..], b);
    }
  }

  lemma RunOne(q: Query, c: char)
    requires q.state.Valid()
    ensures Run(q, [c]) == Step(q, c)
  {
    assert [c][1..] == "";
  }

  lemma RunThree(q: Query, x: char, y: char, z: char)
    requires q.state.Valid()
    ensures Run(q, [x, y, z]) == Step(Step(Step(q, x), y), z)
  {
    assert [x, y, z][1..] == [y, z] && [y, z][1..] == [z];
    RunOne(Step(Step(q, x), y), z);
  }

  // ---------- encoded pairs ----------

  lemma KeyCharRead(q: Query, c: char, path: bool)
    requires q.state == KEY && c as int < 256
    ensures Run(q, EncodeChar(c, path)) == q.(key := q.key + [c])
  {
    var n := c as int;
    if EncodeChar(c, path) == [c] {
      PlainCharIs(c);
      RunOne(q, c);
    } else {
      EscapeOf(c);
      RunThree(q, '%', HexDigit(n / 16), HexDigit(n % 16));
    }
  }

  lemma ValueCharRead(q: Query, c: char, path: bool)
    requires q.state == VALUE && c as int < 256
    ensures Run(q, EncodeChar(c, path)) == q.(value := q.value + [c])
  {
    var n := c as int;
    if EncodeChar(c, path) == [c] {
      PlainCharIs(c);
      RunOne(q, c);
    } else {
      EscapeOf(c);
      RunThree(q, '%', HexDigit(n / 16), HexDigit(n % 16));
    }
  }

  lemma {:induction false} KeyRead(q: Query, s: string, path: bool)
    requires q.state == KEY && IsOctets(s)
    ensures Run(q, Encode(s, path)) == q.(key := q.key + s)
    decreases |s|
  {
    if s == "" {
      assert q.key + s == q.key;
    } else {
      var e, rest := EncodeChar(s[0], path), Encode(s[1..], path);
      KeyCharRead(q, s[0], path);
      RunSplit(q, e, rest);
      KeyRead(q.(key := q.key + [s[0]]), s[1..], path);
      assert q.key + [s[0]] + s[1..] == q.key + s;
    }
  }

  lemma {:induction false} ValueRead(q: Query, s: string, path: bool)
    requires q.state == VALUE && IsOctets(s)
    ensures Run(q, Encode(s, path)) == q.(value := q.value + s)
    decreases |s|
  {
    if s == "" {
      assert q.value + s == q.value;
    } else {
      var e, rest := EncodeChar(s[0], path), Encode(s[1..], path);
      ValueCharRead(q, s[0], path);
      RunSplit(q, e, rest);
      ValueRead(q.(value := q.value + [s[0]]), s[1..], path);
      assert q.value + [s[0]] + s[1..] == q.value + s;
    }
  }

  datatype Pair = Pair(key: string, value: string)

  predicate ArePairs(ps: seq<Pair>) {
    forall i :: 0 <= i < |ps| ==> IsOctets(ps[i].key) && IsOctets(ps[i].value)
  }

  function PairText(p: Pair, path: bool): string
    requires IsOctets(p.key) && IsOctets(p.value)
  {
    Encode(p.key, path) + "=" + Encode(p.value, path)
  }

  /** Joined with ampersands. */
  function QueryText(ps: seq<Pair>, path: bool): string
    requires ArePairs(ps)
  {
    if ps == [] then "" else if |ps| == 1 then PairText(ps[0], path)
    else PairText(ps[0], path) + "&" + QueryText(ps[1..], path)
  }

  /** The pairs one after the other; of equal keys the last one wins. */
  function PutAll(m: map<string, string>, ps: seq<Pair>): map<string, string>
    decreases |ps|
  {
    if ps == [] then m else PutAll(m[ps[0].key := ps[0].value], ps[1..])
  }

  lemma PairRead(m: map<string, string>, p: Pair, path: bool)
    requires IsOctets(p.key) && IsOctets(p.value)
    ensures Run(Query(KEY, "", "", m), PairText(p, path)) == Query(VALUE, p.key, p.value, m)
  {
    LatePairRead(Query(KEY, "", "", m), p, path);
    assert "" + p.key == p.key && "" + p.value == p.value;
  }

  lemma {:induction false} PairsRead(m: map<string, string>, ps: seq<Pair>, path: bool)
    requires ArePairs(ps) && ps != []
    ensures End(Run(Query(KEY, "", "", m), QueryText(ps, path))).parsed == PutAll(m, ps)
    decreases |ps|
  {
    var p := ps[0];
    PairRead(m, p, path);
    var n := m[p.key := p.value];
    if |ps| == 1 {
      assert ps[1..] == [];
    } else {
      var text, rest := PairText(p, path), QueryText(ps[1..], path);
      RunSplit(Query(KEY, "", "", m), text, "&");
      RunOne(Query(VALUE, p.key, p.value, m), '&');
      RunSplit(Query(KEY, "", "", m), text + "&", rest);
      PairsRead(n, ps[1..], path);
    }
  }

  /** Encoded pairs joined with ampersands are parsed to exactly their map, empty keys and values included. */
  lemma QueryRoundTrip(ps: seq<Pair>, path: bool)
    requires ArePairs(ps)
    ensures Parsed(QueryText(ps, path)) == PutAll(map[], ps)
  {
    if ps != [] {
      PairsRead(map[], ps, path);
    }
  }

  /** The last pair of a key decides. */
  lemma {:induction false} LastWins(m: map<string, string>, ps: seq<Pair>, i: nat)
    requires i < |ps| && forall j :: i < j < |ps| ==> ps[j].key != ps[i].key
    ensures ps[i].key in PutAll(m, ps) && PutAll(m, ps)[ps[i].key] == ps[i].value
    decreases |ps|
  {
    var n := m[ps[0].key := ps[0].value];
    if i > 0 {
      LastWins(n, ps[1..], i - 1);
    } else {
      OthersDoNotMatter(n, ps[1..], ps[0].key);
    }
  }

  lemma {:induction false} OthersDoNotMatter(m: map<string, string>, ps: seq<Pair>, key: string)
    requires key in m && forall j :: 0 <= j < |ps| ==> ps[j].key != key
    ensures key in PutAll(m, ps) && PutAll(m, ps)[key] == m[key]
    decreases |ps|
  {
    if ps != [] {
      OthersDoNotMatter(m[ps[0].key := ps[0].value], ps[1..], key);
    }
  }

  /** No pair comes from nowhere. */
  lemma {:induction false} NothingElse(m: map<string, string>, ps: seq<Pair>, key: string)
    requires key !in m && forall j :: 0 <= j < |ps| ==> ps[j].key != key
    ensures key !in PutAll(m, ps)
    decreases |ps|
  {
    if ps != [] {
      NothingElse(m[ps[0].key := ps[0].value], ps[1..], key);
    }
  }

  // ---------- where an ampersand ends a pair ----------

  function NextEscape(escape: nat, c: char): (n: nat)
    ensures n <= 2
  {
    if escape == 0 then (if c == '%' then 1 else 0) else if escape == 1 && FromHexDigit(c) >= 0 then 2 else 0
  }

  /** How much of an escape the text ends with: nothing, "%", or "%" and a hex digit. Any other character ends an escape,
      so that "%%" leaves none open. */
  function Escape(a: string): (n: nat)
    ensures n <= 2
  {
    if a == "" then 0 else NextEscape(Escape(a[..|a| - 1]), a[|a| - 1])
  }

  predicate OpenEscape(a: string) { Escape(a) != 0 }

  /** Where a text ends: at the start of a key, in a key that is not empty, in the value of such a key or of an empty one, or at
      the start of a key in front of which the value of an empty key has been left. */
  datatype Place = KEY_START | IN_KEY | IN_VALUE | IN_NAMELESS_VALUE | VALUE_LEFT {
    predicate IsValue() { this == IN_VALUE || this == IN_NAMELESS_VALUE }
  }

  function NextPlace(p: Place, escape: nat, c: char): Place {
    if c == '&' && escape == 0 then
      if p == VALUE_LEFT then VALUE_LEFT else KEY_START
    else if p.IsValue() then
      if c == '&' && escape == 1 then (if p == IN_VALUE then IN_KEY else VALUE_LEFT) else p
    else if c == '=' then
      if p == IN_KEY then IN_VALUE else IN_NAMELESS_VALUE
    else IN_KEY
  }

  function PlaceOf(a: string): Place {
    if a == "" then KEY_START else NextPlace(PlaceOf(a[..|a| - 1]), Escape(a[..|a| - 1]), a[|a| - 1])
  }

  /** Behind such a text an ampersand ends what is in front of it. */
  predicate Separates(a: string) {
    !OpenEscape(a) && PlaceOf(a) != VALUE_LEFT
  }

  /** The parser as far as the text alone tells it. */
  ghost predicate IsAt(q: Query, escape: nat, p: Place) {
    && (escape == 0 <==> q.state == KEY || q.state == VALUE)
    && (escape == 1 <==> q.state == KEY_PERCENT1 || q.state == VALUE_PERCENT1)
    && (p.IsValue() <==> q.state == VALUE || q.state == VALUE_PERCENT1 || q.state.VALUE_PERCENT2?)
    && (p == KEY_START ==> q.state == KEY && q.key == "" && q.value == "")
    && (p == VALUE_LEFT ==> q.state == KEY && q.key == "" && q.value != "")
    && (p == IN_KEY && escape == 0 ==> q.key != "")
    && (p == IN_VALUE ==> q.key != "")
    && (p == IN_NAMELESS_VALUE ==> q.key == "")
  }

  lemma StepIsAt(q: Query, escape: nat, p: Place, c: char)
    requires q.state.Valid() && escape <= 2 && IsAt(q, escape, p)
    ensures IsAt(Step(q, c), NextEscape(escape, c), NextPlace(p, escape, c))
  {}

  lemma {:induction false} RunIsAt(m: map<string, string>, a: string)
    ensures IsAt(Run(Query(KEY, "", "", m), a), Escape(a), PlaceOf(a))
    decreases |a|
  {
    if a != "" {
      var init, c, q := a[..|a| - 1], a[|a| - 1], Query(KEY, "", "", m);
      RunIsAt(m, init);
      StepIsAt(Run(q, init), Escape(init), PlaceOf(init), c);
      RunSplit(q, init, [c]);
      RunOne(Run(q, init), c);
      assert init + [c] == a;
    }
  }

  /** Behind such a text the ampersand does what the end of the input does. */
  lemma SeparatesEnds(q: Query, p: Place)
    requires q.state.Valid() && IsAt(q, 0, p) && p != VALUE_LEFT
    ensures Step(q, '&') == Query(KEY, "", "", End(q).parsed)
  {}

  lemma RunBehind(m: map<string, string>, a: string, b: string)
    ensures ParsedOn(m, a + "&" + b) == End(Run(Step(Run(Query(KEY, "", "", m), a), '&'), b)).parsed
  {
    var q := Query(KEY, "", "", m);
    RunSplit(q, a, "&");
    RunOne(Run(q, a), '&');
    RunSplit(q, a + "&", b);
  }

  lemma RunTwo(q: Query, x: char, y: char)
    requires q.state.Valid()
    ensures Run(q, [x, y]) == Step(Step(q, x), y)
  {
    assert [x, y][1..] == [y];
    RunOne(Step(q, x), y);
  }

  lemma NamedRead(q: Query)
    requires q.state == KEY
    ensures Run(q, ['x', '=']) == q.(state := VALUE, key := q.key + "x")
  {
    RunTwo(q, 'x', '=');
    assert Step(q, 'x') == q.(key := q.key + "x");
  }

  lemma ValuedRead(q: Query)
    requires q.state == KEY
    ensures Run(q, ['x', '=', 'z']) == q.(state := VALUE, key := q.key + "x", value := q.value + "z")
  {
    RunThree(q, 'x', '=', 'z');
    assert Step(q, 'x') == q.(key := q.key + "x");
    assert Step(q.(key := q.key + "x"), '=') == q.(state := VALUE, key := q.key + "x");
  }

  lemma PairEnds(q: Query)
    requires q.state == KEY
    ensures End(Run(q, "x=")).parsed == q.parsed[q.key + "x" := q.value]
    ensures End(Run(q, "x=z")).parsed == q.parsed[q.key + "x" := q.value + "z"]
  {
    NamedRead(q);
    ValuedRead(q);
    assert "x=" == ['x', '='] && "x=z" == ['x', '=', 'z'];
  }

  /** A pair behind a key or value kept: what becomes of two texts that differ in the value only. */
  lemma PairBehind(q: Query, m: map<string, string>)
    requires q.state == KEY
    ensures var k := q.key + "x";
      && End(Run(q, "x=")).parsed == q.parsed[k := q.value] && End(Run(q, "x=z")).parsed == q.parsed[k := q.value + "z"]
      && ParsedOn(m, "x=") == m["x" := ""] && ParsedOn(m, "x=z") == m["x" := "z"]
  {
    PairEnds(q);
    PairEnds(Query(KEY, "", "", m));
    assert "" + "x" == "x" && "" + "z" == "z";
  }

  lemma KeptKeyIsSeen(q: Query, m: map<string, string>)
    requires q.state == KEY && q.key != ""
    ensures End(Run(q, "x=")).parsed != ParsedOn(m, "x=") || End(Run(q, "x=z")).parsed != ParsedOn(m, "x=z")
  {
    PairBehind(q, m);
    var k := q.key + "x";
    assert |k| > |"x"| && |q.value + "z"| > |q.value|;
    assert q.parsed[k := q.value][k] != q.parsed[k := q.value + "z"][k];
    assert k in m["x" := ""] ==> k in m["x" := "z"] && m["x" := ""][k] == m["x" := "z"][k];
  }

  lemma KeptValueIsSeen(q: Query, m: map<string, string>)
    requires q.state == KEY && q.key == "" && q.value != ""
    ensures End(Run(q, "x=")).parsed != ParsedOn(m, "x=")
  {
    PairBehind(q, m);
    assert "" + "x" == "x";
    assert q.parsed["x" := q.value]["x"] != m["x" := ""]["x"];
  }

  /** Where an ampersand is not the end of what is in front of it, some text behind it shows that. */
  lemma NotSeparatingIsSeen(q: Query, escape: nat, p: Place) returns (b: string)
    requires q.state.Valid() && escape <= 2 && IsAt(q, escape, p) && (escape != 0 || p == VALUE_LEFT)
    ensures End(Run(Step(q, '&'), b)).parsed != ParsedOn(End(q).parsed, b)
  {
    var r, m := Step(q, '&'), End(q).parsed;
    if q.state.VALUE_PERCENT2? {
      assert r.value == q.value + ['%', q.state.valueDigit] + "&";
      assert End(r).parsed[q.key] != m[q.key];
      return "";
    }
    if r.key == "" {
      KeptValueIsSeen(r, m);
      return "x=";
    }
    KeptKeyIsSeen(r, m);
    b := if End(Run(r, "x=")).parsed != ParsedOn(m, "x=") then "x=" else "x=z";
  }

  /** An ampersand separates, whatever follows, if and only if no escape is open in front of it and no value has been left. */
  lemma AmpersandSeparatesIff(m: map<string, string>, a: string)
    ensures (forall b: string :: ParsedOn(m, a + "&" + b) == ParsedOn(ParsedOn(m, a), b)) <==> Separates(a)
  {
    var q := Run(Query(KEY, "", "", m), a);
    RunIsAt(m, a);
    if Separates(a) {
      forall b: string
        ensures ParsedOn(m, a + "&" + b) == ParsedOn(ParsedOn(m, a), b)
      {
        RunBehind(m, a, b);
        SeparatesEnds(q, PlaceOf(a));
      }
    } else {
      var b := NotSeparatingIsSeen(q, Escape(a), PlaceOf(a));
      RunBehind(m, a, b);
    }
  }

  /** A value is left only behind an open escape in front of an earlier ampersand. */
  lemma {:induction false} ValueLeftBehindEscape(a: string)
    requires PlaceOf(a) == VALUE_LEFT
    ensures exists i :: 0 <= i < |a| && a[i] == '&' && OpenEscape(a[..i])
    decreases |a|
  {
    var init := a[..|a| - 1];
    if Escape(init) == 0 {
      ValueLeftBehindEscape(init);
      var i :| 0 <= i < |init| && init[i] == '&' && OpenEscape(init[..i]);
      assert a[..i] == init[..i];
    } else {
      assert OpenEscape(a[..|a| - 1]);
    }
  }

  /** No ampersand of the text stands behind an open escape. */
  predicate AmpersandsAreClosed(s: string) {
    forall i :: 0 <= i < |s| && s[i] == '&' ==> !OpenEscape(s[..i])
  }

  lemma LeftValueIsNotClosed(a: string, b: string)
    requires PlaceOf(a) == VALUE_LEFT
    ensures !AmpersandsAreClosed(a + "&" + b)
  {
    var s := a + "&" + b;
    ValueLeftBehindEscape(a);
    var i :| 0 <= i < |a| && a[i] == '&' && OpenEscape(a[..i]);
    assert s[i] == '&' && s[..i] == a[..i];
  }

  /** In such a text every ampersand separates. */
  lemma EveryAmpersandSeparates(m: map<string, string>, a: string, b: string)
    requires AmpersandsAreClosed(a + "&" + b)
    ensures ParsedOn(m, a + "&" + b) == ParsedOn(ParsedOn(m, a), b)
  {
    var s := a + "&" + b;
    assert s[|a|] == '&' && s[..|a|] == a;
    if PlaceOf(a) == VALUE_LEFT {
      LeftValueIsNotClosed(a, b);
    }
    AmpersandSeparatesIff(m, a);
  }

  lemma LeftValueRead(q: Query)
    requires q == Query(KEY, "", "%", map[])
    ensures Step(q, '&') == q && End(q).parsed == map[] && End(Run(q, "x=y")).parsed == map["x" := "%y"]
  {
    RunThree(q, 'x', '=', 'y');
    assert "" + "x" == "x" && "%" + "y" == "%y";
  }

  lemma LeavingRead()
    ensures Run(START, "=%&") == Query(KEY, "", "%", map[])
  {
    RunThree(START, '=', '%', '&');
    assert "" + "%" == "%";
  }

  /** A text behind which no escape is open and an ampersand does not separate nevertheless. */
  lemma ValueIsLeft()
    ensures !OpenEscape("=%&") && !Separates("=%&")
    ensures Parsed("=%&") == map[] && Parsed("=%&" + "&" + "x=y") == map["x" := "%y"]
  {
    LeavingRead();
    LeftValueRead(Query(KEY, "", "%", map[]));
    RunBehind(map[], "=%&", "x=y");
    EscapeOfExample();
  }

  lemma EscapeOfExample()
    ensures Escape("=%&") == 0 && PlaceOf("=%&") == VALUE_LEFT
  {
    assert "=%&"[..2] == "=%" && "=%"[..1] == "=" && "="[..0] == "";
    assert Escape("=") == 0 && Escape("=%") == 1;
  }

  /** An equals sign in a value is part of it, unless it stands behind a percent sign and a hex digit: there it is lost. */
  lemma EqualsIsLostIff(m: map<string, string>, a: string)
    requires PlaceOf(a).IsValue()
    ensures ParsedOn(m, a + "=") == ParsedOn(m, a) <==> Escape(a) == 2
  {
    var q := Run(Query(KEY, "", "", m), a);
    RunIsAt(m, a);
    RunSplit(Query(KEY, "", "", m), a, "=");
    RunOne(q, '=');
    var before, behind := End(q).parsed, End(Step(q, '=')).parsed;
    if Escape(a) != 2 {
      assert |behind[q.key]| == |before[q.key]| + 1;
    }
  }

  /** What becomes of two pairs when the ampersand between them does not separate, for instance. */
  lemma PairIsLost(p: Pair, r: Pair, path: bool)
    requires IsOctets(p.key) && IsOctets(p.value) && IsOctets(r.key) && IsOctets(r.value)
    ensures Parsed(PairText(p, path) + "%" + "&" + PairText(r, path)) == map[p.key + r.key := p.value + "%" + r.value]
  {
    var first := PairText(p, path);
    PairRead(map[], p, path);
    RunSplit(START, first, "%");
    RunOne(Query(VALUE, p.key, p.value, map[]), '%');
    RunSplit(START, first + "%", "&");
    var q := Query(KEY, p.key, p.value + "%", map[]);
    RunOne(Query(VALUE_PERCENT1, p.key, p.value, map[]), '&');
    RunSplit(START, first + "%" + "&", PairText(r, path));
    LatePairRead(q, r, path);
  }

  lemma LatePairRead(q: Query, r: Pair, path: bool)
    requires q.state == KEY && IsOctets(r.key) && IsOctets(r.value)
    ensures Run(q, PairText(r, path)) == Query(VALUE, q.key + r.key, q.value + r.value, q.parsed)
  {
    var k := q.(key := q.key + r.key);
    KeyRead(q, r.key, path);
    RunSplit(q, Encode(r.key, path), "=");
    RunOne(k, '=');
    RunSplit(q, Encode(r.key, path) + "=", Encode(r.value, path));
    ValueRead(k.(state := VALUE), r.value, path);
  }

  /** The object. */
  class QueryParser {
    var parsed: map<string, string>
    var state: State
    var key: string
    var value: string

    ghost function View(): Query
      reads this
    {
      Query(state, key, value, parsed)
    }

    constructor ()
      ensures View() == START
    {
      parsed, state, key, value := map[], KEY, "", "";
    }

    method PersistPair()
      modifies this
      ensures View() == Persist(old(View()))
    {
      parsed := parsed[key := value];
      key, value := "", "";
    }

    method ConsumeKey(c: char)
      requires state == KEY
      modifies this
      ensures View() == KeyStep(old(View()), c)
    {
      if c == '&' {
        if key != "" {
          PersistPair();
        }
      } else if c == '%' {
        state := KEY_PERCENT1;
      } else if c == '=' {
        state := VALUE;
      } else if c == '+' {
        key := key + " ";
      } else {
        key := key + [c];
      }
    }

    method ConsumeKeyPercent(c: char)
      requires state.Valid() && (state == KEY_PERCENT1 || state.KEY_PERCENT2?)
      modifies this
      ensures View() == KeyPercentStep(old(View()), c)
    {
      var pending := if state == KEY_PERCENT1 then "%" else ['%', state.keyDigit];
      if c == '=' {
        key, state := key + pending, VALUE;
        return;
      }
      var digit := FromHexDigit(c);
      if digit < 0 {
        key, state := key + pending + [c], KEY;
      } else if state == KEY_PERCENT1 {
        state := KEY_PERCENT2(c);
      } else {
        key, state := key + [(FromHexDigit(state.keyDigit) * 16 + digit) as char], KEY;
      }
    }

    method ConsumeValue(c: char)
      requires state == VALUE
      modifies this
      ensures View() == ValueStep(old(View()), c)
    {
      if c == '&' {
        PersistPair();
        state := KEY;
      } else if c == '%' {
        state := VALUE_PERCENT1;
      } else if c == '+' {
        value := value + " ";
      } else {
        value := value + [c];
      }
    }

    method ConsumeValuePercent(c: char)
      requires state.Valid() && (state == VALUE_PERCENT1 || state.VALUE_PERCENT2?)
      modifies this
      ensures View() == ValuePercentStep(old(View()), c)
    {
      var digit := FromHexDigit(c);
      if state == VALUE_PERCENT1 {
        if c == '&' {
          value, state := value + "%", KEY;
        } else if digit < 0 {
          value, state := value + "%" + [c], VALUE;
        } else {
          state := VALUE_PERCENT2(c);
        }
        return;
      }
      var pending := ['%', state.valueDigit];
      if c == '=' {
        value, state := value + pending, VALUE;
      } else if digit < 0 {
        value, state := value + pending + [c], VALUE;
      } else {
        value, state := value + [(FromHexDigit(state.valueDigit) * 16 + digit) as char], VALUE;
      }
    }

    method Consume(c: char)
      requires state.Valid()
      modifies this
      ensures state.Valid() && View() == Step(old(View()), c)
    {
      match state {
        case KEY => ConsumeKey(c);
        case KEY_PERCENT1 => ConsumeKeyPercent(c);
        case KEY_PERCENT2(_) => ConsumeKeyPercent(c);
        case VALUE => ConsumeValue(c);
        case VALUE_PERCENT1 => ConsumeValuePercent(c);
        case VALUE_PERCENT2(_) => ConsumeValuePercent(c);
      }
    }

    method ConsumeEnd()
      requires state.Valid()
      modifies this
      ensures View() == End(old(View()))
    {
      match state {
        case KEY =>
          if key != "" {
            PersistPair();
          }
          return;
        case VALUE =>
        case KEY_PERCENT1 => key := key + "%";
        case KEY_PERCENT2(d) => key := key + ['%', d];
        case VALUE_PERCENT1 => value := value + "%";
        case VALUE_PERCENT2(d) => value := value + ['%', d];
      }
      PersistPair();
      state := KEY;
    }

    /** parse(str) */
    method Parse(str: string)
      requires View() == START
      modifies this
      ensures parsed == Parsed(str)
    {
      assert str[..0] == "";
      for i := 0 to |str|
        invariant state.Valid() && View() == Run(START, str[..i])
      {
        RunSplit(START, str[..i], [str[i]]);
        RunOne(View(), str[i]);
        assert str[..i] + [str[i]] == str[..i + 1];
        Consume(str[i]);
      }
      assert str[..|str|] == str;
      ConsumeEnd();
    }
  }
}
