/** What ResponseHeader::to_string prints, ResponseParser reads back. */
module ResponseRoundTrip {
  import opened HttpChars
  import opened Automaton
  import opened IntegerText
  import opened ResponseHeaders
  import opened ResponseParsing

  // ---------- what can be printed ----------

  predicate NoControls(s: string) { forall i :: 0 <= i < |s| ==> !IsCtl(s[i]) }

  /** Text without control characters and without spaces at its ends. A tab is a control character to the parser. */
  predicate Plain(s: string) {
    NoControls(s) && (s != "" ==> !IsSp(s[0]) && !IsSp(s[|s| - 1]))
  }

  predicate IsLowerNameChar(c: char) { IsNameChar(c) && ToLowerChar(c) == c }

  predicate IsName(name: string) {
    name != "" && forall i :: 0 <= i < |name| ==> IsLowerNameChar(name[i])
  }

  /** The names that have a field of their own. */
  predicate IsReserved(name: string) {
    name == "content-length" || name == "transfer-encoding" || name == "content-type" || name == "connection"
    || name == "upgrade" || name == "sec-websocket-accept" || name == "date" || name == "server"
  }

  /** A line that is read as one header. */
  predicate IsLine(l: Header) {
    IsName(l.name) && Plain(l.value) && (IsCmsList(l.name) ==> ',' !in l.value)
  }

  predicate IsMime(s: string) {
    Plain(s) && ToLower(s) == s && forall i :: 0 <= i < |s| ==> s[i] != ';' && !IsSp(s[i])
  }

  predicate AreOther(headers: seq<Header>) {
    forall i :: 0 <= i < |headers| ==> IsLine(headers[i]) && !IsReserved(headers[i].name)
  }

  /** HTTP/1.0 or 1.1 and a status of three digits. */
  predicate HasVersionAndStatus(h: ResponseHeader) {
    h.httpVersionMajor == 1 && h.httpVersionMinor <= 1 && 100 <= h.status <= 999
  }

  /** A name that is read as itself, and not as one of the two that are transparent to the user. */
  predicate IsEncoding(s: string) {
    Plain(s) && s != "" && ',' !in s && ToLower(s) == s && s != "chunked" && s != "identity"
  }

  predicate AreEncodings(names: seq<string>) {
    forall i :: 0 <= i < |names| ==> IsEncoding(names[i])
  }

  /** Version and status and well-formed fields. */
  predicate Printable(h: ResponseHeader) {
    && HasVersionAndStatus(h) && Plain(h.statusText)
    && (h.contentLength.Some? ==> h.contentLength.value <= UINT64.Max()) && AreEncodings(h.transferEncodings)
    && IsMime(h.contentTypeMime) && Plain(h.contentTypeSuffix) && Plain(h.date) && Plain(h.secWebsocketAccept)
    && AreOther(h.headers)
  }

  /** The parser refuses the encoding it calls last behind any other. */
  predicate EncodingsAreReadBack(h: ResponseHeader) {
    h.transferEncodingChunked ==> h.transferEncodings == []
  }

  /** What the other side has of it: the status text is filled in, `server` and what stands for nothing is lost. */
  function Restored(h: ResponseHeader): ResponseHeader {
    var upgrade := !SaysOtherwise(h) && h.connectionUpgrade && h.upgradeWebsocket;
    h.(statusText := StatusText(h), connectionUpgrade := upgrade, upgradeWebsocket := upgrade, server := "",
       contentTypeSuffix := if h.contentTypeMime == "" then "" else h.contentTypeSuffix)
  }

  // ---------- reading pieces ----------

  lemma ReadOne(p: Parser, c: char, q: Parser)
    requires !Done(p) && q == Step(p, c)
    ensures Reads(p, [c], q)
  {
    FeedOne(Step, Done, p, c);
  }

  lemma ReadTwo(p: Parser, c: char, q: Parser, d: char, r: Parser)
    requires !Done(p) && q == Step(p, c) && !Done(q) && r == Step(q, d)
    ensures Reads(p, [c, d], r)
  {
    ReadOne(q, d, r);
    LeadsCons(Step, Done, p, c, q, [d], r);
    assert [c] + [d] == [c, d];
  }

  lemma ReadBoth(p: Parser, a: string, q: Parser, b: string, r: Parser)
    requires Reads(p, a, q) && Reads(q, b, r)
    ensures Reads(p, a + b, r)
  {
    LeadsTrans(Step, Done, p, a, q, b, r);
  }

  function Versioned(minor: nat): ResponseHeader {
    EMPTY.(httpVersionMinor := minor, keepAlive := minor >= 1)
  }

  lemma HttpSteps(a: Parser)
    requires a.state == HTTP_VERSION_H
    ensures StepsTo(Step, Done, a, 'H', a.(state := HTTP_VERSION_HT))
    ensures StepsTo(Step, Done, a.(state := HTTP_VERSION_HT), 'T', a.(state := HTTP_VERSION_HTT))
    ensures StepsTo(Step, Done, a.(state := HTTP_VERSION_HTT), 'T', a.(state := HTTP_VERSION_HTTP))
  {}

  lemma SlashSteps(a: Parser)
    requires a.state == HTTP_VERSION_HTTP
    ensures StepsTo(Step, Done, a, 'P', a.(state := HTTP_VERSION_SLASH))
    ensures StepsTo(Step, Done, a.(state := HTTP_VERSION_SLASH), '/', a.(state := HTTP_VERSION_MAJOR_START))
  {}

  lemma FiveSteps(a: Parser, b: Parser, c: Parser, d: Parser, e: Parser, f: Parser, text: string)
    requires |text| == 5
    requires StepsTo(Step, Done, a, text[0], b) && StepsTo(Step, Done, b, text[1], c)
    requires StepsTo(Step, Done, c, text[2], d) && StepsTo(Step, Done, d, text[3], e) && StepsTo(Step, Done, e, text[4], f)
    ensures Reads(a, text, f)
  {
    LeadsAlong(Step, Done, [a, b, c, d, e, f], text);
  }

  lemma HttpRead()
    ensures Reads(START, "HTTP/", START.(state := HTTP_VERSION_MAJOR_START))
  {
    ProtocolRead(START);
  }

  lemma ProtocolRead(a: Parser)
    requires a.state == HTTP_VERSION_H
    ensures Reads(a, "HTTP/", a.(state := HTTP_VERSION_MAJOR_START))
  {
    HttpSteps(a);
    SlashSteps(a.(state := HTTP_VERSION_HTTP));
    FiveSteps(a, a.(state := HTTP_VERSION_HT), a.(state := HTTP_VERSION_HTT), a.(state := HTTP_VERSION_HTTP),
              a.(state := HTTP_VERSION_SLASH), a.(state := HTTP_VERSION_MAJOR_START), "HTTP/");
  }

  lemma FourSteps(a: Parser, b: Parser, c: Parser, d: Parser, e: Parser, x: char, y: char, z: char, w: char)
    requires StepsTo(Step, Done, a, x, b) && StepsTo(Step, Done, b, y, c)
    requires StepsTo(Step, Done, c, z, d) && StepsTo(Step, Done, d, w, e)
    ensures Reads(a, [x, y, z, w], e)
  {
    LeadsAlong(Step, Done, [a, b, c, d, e], [x, y, z, w]);
  }

  lemma MajorSteps(a: Parser)
    requires a.state == HTTP_VERSION_MAJOR_START
    ensures var b := a.(state := HTTP_VERSION_MAJOR, req := a.req.(httpVersionMajor := 1));
      StepsTo(Step, Done, a, '1', b) && StepsTo(Step, Done, b, '.', b.(state := HTTP_VERSION_MINOR_START))
  {}

  lemma MinorSteps(a: Parser, minor: nat)
    requires a.state == HTTP_VERSION_MINOR_START && minor <= 1 && a.req.httpVersionMajor == 1
    ensures var b := a.(state := HTTP_VERSION_MINOR, req := a.req.(httpVersionMinor := minor));
      && StepsTo(Step, Done, a, Digit(minor), b)
      && StepsTo(Step, Done, b, ' ', b.(state := STATUS_CODE_1, req := b.req.(keepAlive := minor >= 1)))
  {}

  lemma NumbersRead(minor: nat)
    requires minor <= 1
    ensures Reads(START.(state := HTTP_VERSION_MAJOR_START), ['1', '.', Digit(minor), ' '],
                  START.(state := STATUS_CODE_1, req := Versioned(minor)))
  {
    var a, b := START.(state := HTTP_VERSION_MAJOR_START), START.(state := HTTP_VERSION_MAJOR);
    var c := START.(state := HTTP_VERSION_MINOR_START);
    var d := START.(state := HTTP_VERSION_MINOR, req := EMPTY.(httpVersionMinor := minor));
    MajorSteps(a);
    MinorSteps(c, minor);
    FourSteps(a, b, c, d, START.(state := STATUS_CODE_1, req := Versioned(minor)), '1', '.', Digit(minor), ' ');
  }

  lemma VersionText(minor: nat)
    requires minor <= 1
    ensures "HTTP/" + DigitsOf(1) + "." + DigitsOf(minor) + " " == "HTTP/" + ['1', '.', Digit(minor), ' ']
  {}

  lemma VersionRead(minor: nat)
    requires minor <= 1
    ensures Reads(START, "HTTP/" + DigitsOf(1) + "." + DigitsOf(minor) + " ",
                  START.(state := STATUS_CODE_1, req := Versioned(minor)))
  {
    HttpRead();
    NumbersRead(minor);
    VersionText(minor);
    ReadBoth(START, "HTTP/", START.(state := HTTP_VERSION_MAJOR_START), ['1', '.', Digit(minor), ' '],
             START.(state := STATUS_CODE_1, req := Versioned(minor)));
  }

  lemma ThreeDigits(n: nat) returns (x: nat, y: nat, z: nat, m: nat)
    requires 100 <= n <= 999
    ensures 1 <= x <= 9 && y <= 9 && z <= 9 && m == x * 10 + y && n == m * 10 + z
    ensures DigitsOf(n) + " " == [Digit(x), Digit(y), Digit(z), ' ']
  {
    m, z := n / 10, n % 10;
    x, y := m / 10, m % 10;
    assert DigitsOf(m) == [Digit(x)] + [Digit(y)];
  }

  lemma StatusDigitStep(p: Parser, n: nat, d: nat, m: nat, next: State)
    requires d <= 9 && p.req.status == n && m == n * 10 + d
    requires (p.state == STATUS_CODE_1 && next == STATUS_CODE_2) || (p.state == STATUS_CODE_2 && next == STATUS_CODE_3)
             || (p.state == STATUS_CODE_3 && next == STATUS_CODE_SPACE)
    ensures StepsTo(Step, Done, p, Digit(d), p.(state := next, req := p.req.(status := m)))
  {}

  lemma StatusSpaceStep(p: Parser)
    requires p.state == STATUS_CODE_SPACE
    ensures StepsTo(Step, Done, p, ' ', p.(state := STATUS_TEXT_START))
  {}

  lemma StatusDigitsRead(a: Parser, x: nat, y: nat, z: nat, m: nat, n: nat)
    requires a.state == STATUS_CODE_1 && a.req.status == 0 && x <= 9 && y <= 9 && z <= 9
    requires m == x * 10 + y && n == m * 10 + z
    ensures Reads(a, [Digit(x), Digit(y), Digit(z), ' '], a.(state := STATUS_TEXT_START, req := a.req.(status := n)))
  {
    var b := a.(state := STATUS_CODE_2, req := a.req.(status := x));
    var c := a.(state := STATUS_CODE_3, req := a.req.(status := m));
    var d := a.(state := STATUS_CODE_SPACE, req := a.req.(status := n));
    StatusDigitStep(a, 0, x, x, STATUS_CODE_2);
    StatusDigitStep(b, x, y, m, STATUS_CODE_3);
    StatusDigitStep(c, m, z, n, STATUS_CODE_SPACE);
    StatusSpaceStep(d);
    FourSteps(a, b, c, d, d.(state := STATUS_TEXT_START), Digit(x), Digit(y), Digit(z), ' ');
  }

  lemma StatusRead(req: ResponseHeader, n: nat)
    requires 100 <= n <= 999 && req.status == 0
    ensures Reads(START.(state := STATUS_CODE_1, req := req), DigitsOf(n) + " ",
                  START.(state := STATUS_TEXT_START, req := req.(status := n)))
  {
    var x, y, z, m := ThreeDigits(n);
    StatusDigitsRead(START.(state := STATUS_CODE_1, req := req), x, y, z, m, n);
  }

  /** A row of states that grow by the text read. */
  function Along(f: string -> Parser, text: string): seq<Parser> {
    seq(|text| + 1, i requires 0 <= i <= |text| => f(text[..i]))
  }

  lemma ReadsAlong(f: string -> Parser, text: string)
    requires forall t: string, c :: t + [c] <= text ==> StepsTo(Step, Done, f(t), c, f(t + [c]))
    ensures Reads(f(""), text, f(text))
  {
    var states := Along(f, text);
    forall i | 0 <= i < |text|
      ensures StepsTo(Step, Done, states[i], text[i], states[i + 1])
    {
      assert text[..i] + [text[i]] == text[..i + 1];
      assert text[..i] + [text[i]] <= text;
    }
    LeadsAlong(Step, Done, states, text);
    assert text[..0] == "" && text[..|text|] == text;
  }

  lemma TextStepIs(p: Parser, t: string, c: char)
    requires p.state == STATUS_TEXT && !IsCtl(c)
    ensures StepsTo(Step, Done, p.(req := p.req.(statusText := p.req.statusText + t)), c,
                    p.(req := p.req.(statusText := p.req.statusText + (t + [c]))))
  {
    assert p.req.statusText + t + [c] == p.req.statusText + (t + [c]);
  }

  lemma TextRead(p: Parser, text: string)
    requires p.state == STATUS_TEXT && NoControls(text)
    ensures Reads(p, text, p.(req := p.req.(statusText := p.req.statusText + text)))
  {
    var f := (t: string) => p.(req := p.req.(statusText := p.req.statusText + t));
    forall t: string, c | t + [c] <= text
      ensures StepsTo(Step, Done, f(t), c, f(t + [c]))
    {
      assert text[|t|] == (t + [c])[|t|];
      TextStepIs(p, t, c);
    }
    ReadsAlong(f, text);
    assert p.req.statusText + "" == p.req.statusText;
  }

  lemma FirstOfText(p: Parser, c: char)
    requires p.state == STATUS_TEXT_START && p.req.statusText == "" && !IsCtl(c) && !IsSp(c)
    ensures Reads(p, [c], p.(state := STATUS_TEXT, req := p.req.(statusText := [c])))
  {
    assert p.req.statusText + [c] == [c];
    ReadOne(p, c, p.(state := STATUS_TEXT, req := p.req.(statusText := [c])));
  }

  lemma EndOfText(p: Parser)
    requires p.state == STATUS_TEXT
    ensures Reads(p, CRLF, p.(state := FIRST_HEADER_LINE_START))
  {
    ReadTwo(p, CR, p.(state := STATUS_LINE_LF), LF, p.(state := FIRST_HEADER_LINE_START));
  }

  lemma StatusTextRead(p: Parser, text: string)
    requires p.state == STATUS_TEXT_START && p.req.statusText == "" && Plain(text) && text != ""
    ensures Reads(p, text + CRLF, p.(state := FIRST_HEADER_LINE_START, req := p.req.(statusText := text)))
  {
    var a := p.(state := STATUS_TEXT, req := p.req.(statusText := text));
    TextBeginningRead(p, text);
    EndOfText(a);
    ReadBoth(p, text, a, CRLF, a.(state := FIRST_HEADER_LINE_START));
  }

  // ---------- reading lines ----------

  lemma NameCharIs(c: char)
    requires IsNameChar(c)
    ensures !IsSp(c) && c != ':' && c != CR && c != LF
  {}

  lemma NameStepIs(p: Parser, t: string, c: char)
    requires p.state == HEADER_NAME && IsLowerNameChar(c)
    ensures StepsTo(Step, Done, p.(name := p.name + t), c, p.(name := p.name + (t + [c])))
  {
    NameCharIs(c);
    assert p.name + t + [c] == p.name + (t + [c]);
  }

  lemma NameRead(p: Parser, name: string)
    requires p.state == HEADER_NAME && forall i :: 0 <= i < |name| ==> IsLowerNameChar(name[i])
    ensures Reads(p, name, p.(name := p.name + name))
  {
    var f := (t: string) => p.(name := p.name + t);
    forall t: string, c | t + [c] <= name
      ensures StepsTo(Step, Done, f(t), c, f(t + [c]))
    {
      assert name[|t|] == (t + [c])[|t|];
      NameStepIs(p, t, c);
    }
    ReadsAlong(f, name);
    assert p.name + "" == p.name;
  }

  lemma ValueStepIs(p: Parser, t: string, c: char)
    requires p.state == HEADER_VALUE && !IsCtl(c) && (p.cmsList ==> c != ',')
    ensures StepsTo(Step, Done, p.(value := p.value + t), c, p.(value := p.value + (t + [c])))
  {
    assert p.value + t + [c] == p.value + (t + [c]);
  }

  lemma ValueRead(p: Parser, value: string)
    requires p.state == HEADER_VALUE && NoControls(value) && (p.cmsList ==> ',' !in value)
    ensures Reads(p, value, p.(value := p.value + value))
  {
    var f := (t: string) => p.(value := p.value + t);
    forall t: string, c | t + [c] <= value
      ensures StepsTo(Step, Done, f(t), c, f(t + [c]))
    {
      assert value[|t|] == (t + [c])[|t|];
      ValueStepIs(p, t, c);
    }
    ReadsAlong(f, value);
    assert p.value + "" == p.value;
  }

  lemma FirstOfValue(p: Parser, c: char)
    requires p.state == SPACE_BEFORE_HEADER_VALUE && p.value == "" && !IsCtl(c) && !IsSp(c) && (p.cmsList ==> c != ',')
    ensures Reads(p, [c], p.(state := HEADER_VALUE, value := [c]))
  {
    assert p.value + [c] == [c];
    ReadOne(p, c, p.(state := HEADER_VALUE, value := [c]));
  }

  lemma EndOfValue(p: Parser)
    requires p.state == SPACE_BEFORE_HEADER_VALUE || p.state == HEADER_VALUE
    ensures Reads(p, CRLF, p.(state := HEADER_LINE_START))
  {
    ReadTwo(p, CR, p.(state := HEADER_LF), LF, p.(state := HEADER_LINE_START));
  }

  lemma FirstAndRest(s: string)
    requires s != ""
    ensures [s[0]] + s[1..] == s
  {}

  lemma SomeValueRead(p: Parser, value: string)
    requires p.state == SPACE_BEFORE_HEADER_VALUE && p.value == "" && Plain(value) && (p.cmsList ==> ',' !in value)
    requires value != ""
    ensures Reads(p, value + CRLF, p.(state := HEADER_LINE_START, value := value))
  {
    var a := p.(state := HEADER_VALUE, value := value);
    BeginningRead(p, value);
    EndOfValue(a);
    ReadBoth(p, value, a, CRLF, p.(state := HEADER_LINE_START, value := value));
  }

  /** The value and the end of its line. */
  lemma ValueLineRead(p: Parser, value: string)
    requires p.state == SPACE_BEFORE_HEADER_VALUE && p.value == "" && Plain(value) && (p.cmsList ==> ',' !in value)
    ensures Reads(p, value + CRLF, p.(state := HEADER_LINE_START, value := value))
  {
    if value == "" {
      EndOfValue(p);
      assert value + CRLF == CRLF;
    } else {
      SomeValueRead(p, value);
    }
  }

  /** At the start of a line, with the request header as it is once the line before has been taken over. */
  ghost predicate Ready(p: Parser, req: ResponseHeader) {
    if p.state == FIRST_HEADER_LINE_START then
      p.name == "" && p.value == "" && req == p.req.(statusText := TrimRight(p.req.statusText))
    else p.state == HEADER_LINE_START && Apply(p.req, p.name, TrimRight(p.value)) == Some(req)
  }

  lemma ReadyStep(p: Parser, req: ResponseHeader, c: char)
    requires Ready(p, req) && !IsSp(c)
    ensures !Done(p) && Step(p, c) == LineStart(Parser(p.state, req, "", "", p.cmsList), c)
  {
    if p.state == HEADER_LINE_START {
      NextLineStep(p, req, c);
    }
  }

  lemma NextLineStep(p: Parser, req: ResponseHeader, c: char)
    requires p.state == HEADER_LINE_START && Apply(p.req, p.name, TrimRight(p.value)) == Some(req) && !IsSp(c)
    ensures Step(p, c) == LineStart(Parser(p.state, req, "", "", p.cmsList), c)
  {
    assert Process(p) == p.(req := req);
  }

  lemma FirstOfName(p: Parser, req: ResponseHeader, c: char)
    requires Ready(p, req) && IsLowerNameChar(c)
    ensures Reads(p, [c], Parser(HEADER_NAME, req, [c], "", p.cmsList))
  {
    assert "" + [c] == [c];
    NameCharIs(c);
    ReadyStep(p, req, c);
    ReadOne(p, c, Parser(HEADER_NAME, req, [c], "", p.cmsList));
  }

  lemma ColonRead(p: Parser)
    requires p.state == HEADER_NAME
    ensures Reads(p, ": ", p.(state := SPACE_BEFORE_HEADER_VALUE, cmsList := IsCmsList(p.name)))
  {
    var c := p.(state := SPACE_BEFORE_HEADER_VALUE, cmsList := IsCmsList(p.name));
    ReadTwo(p, ':', c, ' ', c);
  }

  lemma RestOfNameRead(a: Parser, name: string, b: Parser)
    requires IsName(name) && a.state == HEADER_NAME && a.name == [name[0]] && b == a.(name := name)
    ensures Reads(a, name[1..], b)
  {
    NameRead(a, name[1..]);
    FirstAndRest(name);
  }

  lemma LettersOfNameRead(p: Parser, req: ResponseHeader, name: string, b: Parser)
    requires Ready(p, req) && IsName(name) && b == Parser(HEADER_NAME, req, name, "", p.cmsList)
    ensures Reads(p, name, b)
  {
    var a := Parser(HEADER_NAME, req, [name[0]], "", p.cmsList);
    FirstOfName(p, req, name[0]);
    RestOfNameRead(a, name, b);
    LeadsFirst(Step, Done, p, name, a, b);
  }

  lemma LineNameRead(p: Parser, req: ResponseHeader, name: string)
    requires Ready(p, req) && IsName(name)
    ensures Reads(p, name + ": ", Parser(SPACE_BEFORE_HEADER_VALUE, req, name, "", IsCmsList(name)))
  {
    var b := Parser(HEADER_NAME, req, name, "", p.cmsList);
    LettersOfNameRead(p, req, name, b);
    ColonRead(b);
    ReadBoth(p, name, b, ": ", Parser(SPACE_BEFORE_HEADER_VALUE, req, name, "", IsCmsList(name)));
  }

  lemma LineRead(p: Parser, req: ResponseHeader, l: Header)
    requires Ready(p, req) && IsLine(l)
    ensures Reads(p, LineText(l), Parser(HEADER_LINE_START, req, l.name, l.value, IsCmsList(l.name)))
  {
    var c := Parser(SPACE_BEFORE_HEADER_VALUE, req, l.name, "", IsCmsList(l.name));
    LineNameRead(p, req, l.name);
    ValueLineRead(c, l.value);
    ReadBoth(p, l.name + ": ", c, l.value + CRLF, c.(state := HEADER_LINE_START, value := l.value));
    assert l.name + ": " + l.value + CRLF == l.name + ": " + (l.value + CRLF);
  }

  /** The beginning of a text that is collected character by character. */
  predicate IsBeginning(s: string) { s != "" && NoControls(s) && !IsSp(s[0]) }

  lemma BeginningRead(a: Parser, before: string)
    requires a.state == SPACE_BEFORE_HEADER_VALUE && a.value == "" && IsBeginning(before)
    requires a.cmsList ==> ',' !in before
    ensures Reads(a, before, a.(state := HEADER_VALUE, value := before))
  {
    var b := a.(state := HEADER_VALUE, value := [before[0]]);
    FirstOfValue(a, before[0]);
    ValueRead(b, before[1..]);
    FirstAndRest(before);
    LeadsFirst(Step, Done, a, before, b, a.(state := HEADER_VALUE, value := before));
  }

  lemma TabRead(c: Parser)
    requires c.state == HEADER_VALUE || c.state == STATUS_TEXT
    ensures Reads(c, "\t", c.(state := FAILED))
  {
    ReadOne(c, '\t', c.(state := FAILED));
  }

  /** A tab behind the beginning of a value is a control character to the parser. */
  lemma TabIsRefused(p: Parser, req: ResponseHeader, name: string, before: string)
    requires Ready(p, req) && IsName(name) && IsBeginning(before) && (IsCmsList(name) ==> ',' !in before)
    ensures Reads(p, name + ": " + before + "\t", Parser(FAILED, req, name, before, IsCmsList(name)))
  {
    var a := Parser(SPACE_BEFORE_HEADER_VALUE, req, name, "", IsCmsList(name));
    var c := a.(state := HEADER_VALUE, value := before);
    LineNameRead(p, req, name);
    BeginningRead(a, before);
    TabRead(c);
    LeadsThree(Step, Done, p, name + ": ", a, before, c, "\t", c.(state := FAILED));
  }

  lemma TextBeginningRead(p: Parser, before: string)
    requires p.state == STATUS_TEXT_START && p.req.statusText == "" && IsBeginning(before)
    ensures Reads(p, before, p.(state := STATUS_TEXT, req := p.req.(statusText := before)))
  {
    var a := p.(state := STATUS_TEXT, req := p.req.(statusText := [before[0]]));
    FirstOfText(p, before[0]);
    TextRead(a, before[1..]);
    FirstAndRest(before);
    LeadsFirst(Step, Done, p, before, a, p.(state := STATUS_TEXT, req := p.req.(statusText := before)));
  }

  /** So it is behind the beginning of a status text. */
  lemma TabInStatusTextIsRefused(p: Parser, before: string)
    requires p.state == STATUS_TEXT_START && p.req.statusText == "" && IsBeginning(before)
    ensures Reads(p, before + "\t", p.(state := FAILED, req := p.req.(statusText := before)))
  {
    var a := p.(state := STATUS_TEXT, req := p.req.(statusText := before));
    TextBeginningRead(p, before);
    TabRead(a);
    ReadBoth(p, before, a, "\t", a.(state := FAILED));
  }

  // ---------- what is taken over as it is printed ----------

  /** The line is read to its end, and behind it process_ready_header is given exactly its name and value. */
  ghost predicate ArrivesAs(p: Parser, req: ResponseHeader, l: Header, q: Parser) {
    Reads(p, LineText(l), q) && q.state == HEADER_LINE_START && q.req == req && q.name == l.name && TrimRight(q.value) == l.value
  }

  lemma ApplyKeepsStatusText(req: ResponseHeader, name: string, value: string)
    ensures Apply(req, name, value).Some? ==> Apply(req, name, value).value.statusText == req.statusText
  {}

  lemma ProcessKeepsTexts(p: Parser)
    ensures Process(p).value == p.value && Process(p).req.statusText == p.req.statusText
  {
    ApplyKeepsStatusText(p.req, p.name, TrimRight(p.value));
  }

  lemma LineStartKeepsTexts(p: Parser, c: char)
    ensures LineStart(p, c).value == p.value && LineStart(p, c).req == p.req
  {}

  lemma ValueStepGrowsByOne(p: Parser, c: char)
    ensures |ValueStep(p, c).value| <= |p.value| + (if c == CR || c == LF then 0 else 1)
    ensures ValueStep(p, c).req.statusText == p.req.statusText
  {
    ProcessKeepsTexts(p);
  }

  lemma OtherHeaderStepKeepsTexts(p: Parser, c: char)
    ensures OtherHeaderStep(p, c).value == p.value
    ensures |OtherHeaderStep(p, c).req.statusText| <= |p.req.statusText|
  {
    LineStartKeepsTexts(p.(req := p.req.(statusText := TrimRight(p.req.statusText))), c);
  }

  lemma HeaderLineStartGrowsByOne(p: Parser, c: char)
    requires p.state == HEADER_LINE_START
    ensures |HeaderStep(p, c).value| <= |p.value| + (if c == CR || c == LF then 0 else 1)
    ensures HeaderStep(p, c).req.statusText == p.req.statusText
  {
    ProcessKeepsTexts(p);
    LineStartKeepsTexts(Process(p).(name := "", value := ""), c);
  }

  lemma HeaderStepGrowsByOne(p: Parser, c: char)
    ensures |HeaderStep(p, c).value| <= |p.value| + (if c == CR || c == LF then 0 else 1)
    ensures |HeaderStep(p, c).req.statusText| <= |p.req.statusText|
  {
    if p.state == HEADER_LINE_START {
      HeaderLineStartGrowsByOne(p, c);
    } else if p.state == SPACE_BEFORE_HEADER_VALUE || p.state == HEADER_VALUE {
      ValueStepGrowsByOne(p, c);
    } else {
      OtherHeaderStepKeepsTexts(p, c);
    }
  }

  lemma VersionStepKeepsTexts(p: Parser, c: char)
    ensures VersionStep(p, c).value == p.value && VersionStep(p, c).req.statusText == p.req.statusText
  {}

  lemma TextStepGrowsByOne(p: Parser, c: char)
    ensures TextStep(p, c).value == p.value
    ensures |TextStep(p, c).req.statusText| <= |p.req.statusText| + (if c == CR || c == LF then 0 else 1)
  {}

  lemma StatusStepGrowsByOne(p: Parser, c: char)
    ensures StatusStep(p, c).value == p.value
    ensures |StatusStep(p, c).req.statusText| <= |p.req.statusText| + (if c == CR || c == LF then 0 else 1)
  {
    if p.state == STATUS_TEXT_START || p.state == STATUS_TEXT {
      TextStepGrowsByOne(p, c);
    }
  }

  /** One character makes a text longer by one character at most, and the end of a line makes none longer. */
  lemma TextsGrowByOne(p: Parser, c: char)
    ensures |Step(p, c).value| <= |p.value| + (if c == CR || c == LF then 0 else 1)
    ensures |Step(p, c).req.statusText| <= |p.req.statusText| + (if c == CR || c == LF then 0 else 1)
  {
    VersionStepKeepsTexts(p, c);
    StatusStepGrowsByOne(p, c);
    HeaderStepGrowsByOne(p, c);
  }

  lemma {:induction false} TextsGrow(p: Parser, text: string, q: Parser)
    requires Reads(p, text, q)
    ensures |q.value| <= |p.value| + |text| && |q.req.statusText| <= |p.req.statusText| + |text|
    decreases |text|
  {
    if text != "" {
      LeadsUncons(Step, Done, p, text, q);
      TextsGrowByOne(p, text[0]);
      TextsGrow(Step(p, text[0]), text[1..], q);
    }
  }

  lemma EndOfLineAddsNothing(p: Parser, q: Parser)
    requires Reads(p, CRLF, q)
    ensures |q.value| <= |p.value| && |q.req.statusText| <= |p.req.statusText|
  {
    LeadsUncons(Step, Done, p, CRLF, q);
    TextsGrowByOne(p, CR);
    var r := Step(p, CR);
    assert CRLF[1..] == [LF];
    LeadsUncons(Step, Done, r, [LF], q);
    TextsGrowByOne(r, LF);
  }

  lemma CollectedStep(p: Parser, c: char)
    requires p.state == SPACE_BEFORE_HEADER_VALUE || p.state == HEADER_VALUE
    requires |Step(p, c).value| == |p.value| + 1
    ensures !IsCtl(c) && (p.state == SPACE_BEFORE_HEADER_VALUE ==> !IsSp(c)) && (p.cmsList ==> c != ',')
    ensures Step(p, c).state == HEADER_VALUE && Step(p, c).cmsList == p.cmsList
  {}

  /** A value as long as its text has been collected character by character. */
  lemma {:induction false} Collected(p: Parser, text: string, q: Parser)
    requires p.state == SPACE_BEFORE_HEADER_VALUE || p.state == HEADER_VALUE
    requires Reads(p, text, q) && |q.value| == |p.value| + |text|
    ensures NoControls(text) && (p.state == SPACE_BEFORE_HEADER_VALUE && text != "" ==> !IsSp(text[0]))
    ensures p.cmsList ==> ',' !in text
    decreases |text|
  {
    if text != "" {
      var r := Step(p, text[0]);
      LeadsUncons(Step, Done, p, text, q);
      TextsGrowByOne(p, text[0]);
      TextsGrow(r, text[1..], q);
      CollectedStep(p, text[0]);
      Collected(r, text[1..], q);
      assert text == [text[0]] + text[1..];
    }
  }

  lemma ReadsOnlyOnce(p: Parser, text: string, q: Parser, r: Parser)
    requires Reads(p, text, q) && Reads(p, text, r)
    ensures q == r
  {}

  lemma OnlyLinesArrive(p: Parser, req: ResponseHeader, l: Header, q: Parser)
    requires Ready(p, req) && IsName(l.name) && ArrivesAs(p, req, l, q)
    ensures IsLine(l)
  {
    assert l.name + ": " + l.value + CRLF == l.name + ": " + (l.value + CRLF);
    var a := LeadsBetween(Step, Done, p, l.name + ": ", l.value + CRLF, q);
    LineNameRead(p, req, l.name);
    ReadsOnlyOnce(p, l.name + ": ", a, Parser(SPACE_BEFORE_HEADER_VALUE, req, l.name, "", IsCmsList(l.name)));
    var b := LeadsBetween(Step, Done, a, l.value, CRLF, q);
    EndOfLineAddsNothing(b, q);
    TextsGrow(a, l.value, b);
    Collected(a, l.value, b);
  }

  /** A header line printed is handed to process_ready_header as its name and value if and only if the value is plain and,
      in a list, has no comma. */
  lemma LineArrivesIffPlain(p: Parser, req: ResponseHeader, l: Header)
    requires Ready(p, req) && IsName(l.name)
    ensures (exists q :: ArrivesAs(p, req, l, q)) <==> Plain(l.value) && (IsCmsList(l.name) ==> ',' !in l.value)
  {
    if IsLine(l) {
      LineRead(p, req, l);
      PlainIsTrimmed(l.value);
      assert ArrivesAs(p, req, l, Parser(HEADER_LINE_START, req, l.name, l.value, IsCmsList(l.name)));
    }
    if q :| ArrivesAs(p, req, l, q) {
      OnlyLinesArrive(p, req, l, q);
    }
  }

  /** It is taken over in that way if and only if, besides, process_ready_header accepts the two. */
  lemma LineTakenOverIff(p: Parser, req: ResponseHeader, l: Header, r: ResponseHeader)
    requires Ready(p, req) && IsName(l.name)
    ensures (exists q :: ArrivesAs(p, req, l, q) && Ready(q, r)) <==> IsLine(l) && Apply(req, l.name, l.value) == Some(r)
  {
    LineArrivesIffPlain(p, req, l);
    if q :| ArrivesAs(p, req, l, q) {
      assert Ready(q, r) <==> Apply(req, l.name, l.value) == Some(r);
    }
  }

  lemma CollectedTextStep(p: Parser, c: char)
    requires p.state == STATUS_TEXT_START || p.state == STATUS_TEXT
    requires |Step(p, c).req.statusText| == |p.req.statusText| + 1
    ensures !IsCtl(c) && (p.state == STATUS_TEXT_START ==> !IsSp(c)) && Step(p, c).state == STATUS_TEXT
  {}

  lemma {:induction false} CollectedText(p: Parser, text: string, q: Parser)
    requires p.state == STATUS_TEXT_START || p.state == STATUS_TEXT
    requires Reads(p, text, q) && |q.req.statusText| == |p.req.statusText| + |text|
    ensures NoControls(text) && (p.state == STATUS_TEXT_START && text != "" ==> !IsSp(text[0]))
    decreases |text|
  {
    if text != "" {
      var r := Step(p, text[0]);
      LeadsUncons(Step, Done, p, text, q);
      TextsGrowByOne(p, text[0]);
      TextsGrow(r, text[1..], q);
      CollectedTextStep(p, text[0]);
      CollectedText(r, text[1..], q);
      assert text == [text[0]] + text[1..];
    }
  }

  // ---------- lines taken over ----------

  lemma {:induction false} PlainIsTrimmed(s: string)
    requires Plain(s)
    ensures TrimRight(s) == s
  {}

  /** The lines are read, and `r` is what becomes of the header. */
  ghost predicate Takes(req: ResponseHeader, ls: seq<Header>, r: ResponseHeader) {
    forall p :: Ready(p, req) ==> exists q :: Reads(p, LinesText(ls), q) && Ready(q, r)
  }

  lemma TakesNone(req: ResponseHeader)
    ensures Takes(req, [], req)
  {
    forall p | Ready(p, req)
      ensures Reads(p, "", p)
    {
      LeadsNowhere(Step, Done, p);
    }
  }

  lemma LineReady(p: Parser, req: ResponseHeader, l: Header, r: ResponseHeader) returns (q: Parser)
    requires Ready(p, req) && IsLine(l) && Apply(req, l.name, l.value) == Some(r)
    ensures Reads(p, LinesText([l]), q) && Ready(q, r)
  {
    q := Parser(HEADER_LINE_START, req, l.name, l.value, IsCmsList(l.name));
    LineRead(p, req, l);
    PlainIsTrimmed(l.value);
    OneLine(l);
  }

  lemma TakesOne(req: ResponseHeader, l: Header, r: ResponseHeader)
    requires IsLine(l) && Apply(req, l.name, l.value) == Some(r)
    ensures Takes(req, [l], r)
  {
    forall p | Ready(p, req)
      ensures exists q :: Reads(p, LinesText([l]), q) && Ready(q, r)
    {
      var q := LineReady(p, req, l, r);
    }
  }

  lemma LinesRead(p: Parser, req: ResponseHeader, ls: seq<Header>, r: ResponseHeader) returns (q: Parser)
    requires Ready(p, req) && Takes(req, ls, r)
    ensures Reads(p, LinesText(ls), q) && Ready(q, r)
  {
    q :| Reads(p, LinesText(ls), q) && Ready(q, r);
  }

  lemma TakesBoth(req: ResponseHeader, a: seq<Header>, q: ResponseHeader, b: seq<Header>, r: ResponseHeader)
    requires Takes(req, a, q) && Takes(q, b, r)
    ensures Takes(req, a + b, r)
  {
    LinesTextAppend(a, b);
    forall p | Ready(p, req)
      ensures exists t :: Reads(p, LinesText(a + b), t) && Ready(t, r)
    {
      var s := LinesRead(p, req, a, q);
      var t := LinesRead(s, q, b, r);
      ReadBoth(p, LinesText(a), s, LinesText(b), t);
    }
  }

  /** The empty line at the end. */
  lemma EndRead(p: Parser, req: ResponseHeader)
    requires Ready(p, req)
    ensures Reads(p, CRLF, Parser(GOOD, req, "", "", p.cmsList))
  {
    var a := Parser(FINAL_LF, req, "", "", p.cmsList);
    ReadyStep(p, req, CR);
    FinalSteps(Parser(p.state, req, "", "", p.cmsList));
    ReadTwo(p, CR, a, LF, a.(state := GOOD));
  }

  lemma FinalSteps(p: Parser)
    ensures LineStart(p, CR) == p.(state := FINAL_LF) && Step(p.(state := FINAL_LF), LF) == p.(state := GOOD)
  {}

  // ---------- the fields ----------

  lemma LetterIsLowerNameChar(c: char)
    requires 'a' <= c <= 'z' || c == '-'
    ensures IsLowerNameChar(c)
  {}

  predicate IsWord(s: string) {
    s != "" && forall i :: 0 <= i < |s| ==> 'a' <= s[i] <= 'z' || s[i] == '-'
  }

  lemma WordIsName(s: string)
    requires IsWord(s)
    ensures IsName(s) && Plain(s) && ',' !in s && ToLower(s) == s
  {
    forall i | 0 <= i < |s|
      ensures IsLowerNameChar(s[i])
    {
      LetterIsLowerNameChar(s[i]);
    }
  }

  lemma FieldNames()
    ensures IsWord("date") && IsWord("connection") && IsWord("upgrade") && IsWord("content-type")
    ensures IsWord("content-length") && IsWord("transfer-encoding") && IsWord("sec-websocket-accept")
    ensures IsWord("keep-alive") && IsWord("close") && IsWord("websocket") && IsWord("chunked")
  {}

  lemma FieldTakes(req: ResponseHeader, name: string, value: string, r: ResponseHeader)
    requires IsWord(name) && Plain(value) && (IsCmsList(name) ==> ',' !in value)
    requires if value == "" then r == req else Apply(req, name, value) == Some(r)
    ensures Takes(req, TextLine(name, value), r)
  {
    WordIsName(name);
    if value == "" {
      TakesNone(req);
    } else {
      TakesOne(req, Header(name, value), r);
    }
  }

  // A content type

  lemma {:induction false} FirstSeparatorIs(value: string, i: nat)
    requires i <= |value| && forall j :: 0 <= j < i ==> value[j] != ';' && !IsSp(value[j])
    requires i < |value| ==> value[i] == ';'
    ensures FirstSeparator(value) == i
    decreases i
  {
    if i > 0 {
      FirstSeparatorIs(value[1..], i - 1);
    }
  }

  lemma MimeAlone(mime: string)
    requires IsMime(mime)
    ensures ContentType(mime) == (mime, "")
  {
    FirstSeparatorIs(mime, |mime|);
    assert mime[..|mime|] == mime && mime[|mime|..] == "";
  }

  lemma Halves(a: string, b: string)
    ensures (a + b)[..|a|] == a && (a + b)[|a|..] == b
  {}

  /** What stands behind the type without the semicolon and the spaces. */
  lemma SuffixOf(suffix: string)
    requires suffix != "" && !IsSp(suffix[0])
    ensures ("; " + suffix)[0] == ';' && TrimLeft("; " + suffix) == "; " + suffix && TrimLeft(("; " + suffix)[1..]) == suffix
  {
    assert ("; " + suffix)[1..] == " " + suffix && (" " + suffix)[1..] == suffix;
    assert TrimLeft(suffix) == suffix;
  }

  lemma MimeAndSuffix(mime: string, suffix: string)
    requires IsMime(mime) && Plain(suffix) && suffix != ""
    ensures ContentType(mime + "; " + suffix) == (mime, suffix)
  {
    var value := mime + ("; " + suffix);
    assert mime + "; " + suffix == value;
    Halves(mime, "; " + suffix);
    SuffixOf(suffix);
    FirstSeparatorIs(value, |mime|);
  }

  lemma JoinedIsPlain(mime: string, suffix: string)
    requires IsMime(mime) && mime != "" && Plain(suffix) && suffix != ""
    ensures Plain(mime + "; " + suffix)
  {
    var value := mime + "; " + suffix;
    assert value[0] == mime[0] && value[|value| - 1] == suffix[|suffix| - 1];
  }

  lemma TypeTakes(req: ResponseHeader, h: ResponseHeader)
    requires IsMime(h.contentTypeMime) && Plain(h.contentTypeSuffix) && req.contentTypeMime == req.contentTypeSuffix == ""
    ensures Takes(req, TypeLine(h), req.(contentTypeMime := h.contentTypeMime,
      contentTypeSuffix := if h.contentTypeMime == "" then "" else h.contentTypeSuffix))
  {
    var mime, suffix := h.contentTypeMime, h.contentTypeSuffix;
    FieldNames();
    if mime != "" && suffix != "" {
      MimeAndSuffix(mime, suffix);
      JoinedIsPlain(mime, suffix);
      FieldTakes(req, "content-type", mime + "; " + suffix, req.(contentTypeMime := mime, contentTypeSuffix := suffix));
    } else {
      MimeAlone(mime);
      FieldTakes(req, "content-type", mime, req.(contentTypeMime := mime));
    }
  }

  lemma DigitsArePlain(s: string)
    requires Digits(s)
    ensures Plain(s)
  {}

  lemma LengthTakes(req: ResponseHeader, h: ResponseHeader)
    requires h.contentLength.Some? ==> h.contentLength.value <= UINT64.Max()
    requires req.contentLength.None?
    ensures Takes(req, LengthLine(h), req.(contentLength := h.contentLength))
  {
    FieldNames();
    WordIsName("content-length");
    if h.contentLength.Some? {
      var n := h.contentLength.value;
      DigitsArePlain(DigitsOf(n));
      ParseOfDecimal(UINT64, n);
      TakesOne(req, Header("content-length", DigitsOf(n)), req.(contentLength := h.contentLength));
    } else {
      TakesNone(req);
    }
  }

  lemma WordTakes(req: ResponseHeader, name: string, value: string, r: ResponseHeader)
    requires IsWord(name) && IsWord(value) && Apply(req, name, value) == Some(r)
    ensures Takes(req, [Header(name, value)], r)
  {
    WordIsName(name);
    WordIsName(value);
    TakesOne(req, Header(name, value), r);
  }

  lemma KeepAliveTakes(req: ResponseHeader, keepAlive: bool)
    ensures Takes(req, [Header("connection", if keepAlive then "keep-alive" else "close")], req.(keepAlive := keepAlive))
  {
    FieldNames();
    WordIsName("close");
    WordIsName("keep-alive");
    WordTakes(req, "connection", if keepAlive then "keep-alive" else "close", req.(keepAlive := keepAlive));
  }

  lemma UpgradeTakes(req: ResponseHeader)
    ensures Takes(req, [Header("connection", "upgrade"), Header("upgrade", "websocket")],
                  req.(connectionUpgrade := true, upgradeWebsocket := true))
  {
    var q := req.(connectionUpgrade := true);
    FieldNames();
    WordIsName("upgrade");
    WordIsName("websocket");
    WordTakes(req, "connection", "upgrade", q);
    WordTakes(q, "upgrade", "websocket", q.(upgradeWebsocket := true));
    TakesBoth(req, [Header("connection", "upgrade")], q, [Header("upgrade", "websocket")], q.(upgradeWebsocket := true));
    assert [Header("connection", "upgrade"), Header("upgrade", "websocket")]
           == [Header("connection", "upgrade")] + [Header("upgrade", "websocket")];
  }

  lemma ConnectionTakes(req: ResponseHeader, h: ResponseHeader)
    requires h.httpVersionMajor == 1 && h.httpVersionMinor <= 1 && req.keepAlive == (h.httpVersionMinor >= 1)
    requires !req.connectionUpgrade && !req.upgradeWebsocket
    ensures var upgrade := !SaysOtherwise(h) && h.connectionUpgrade && h.upgradeWebsocket;
      Takes(req, ConnectionLines(h), req.(keepAlive := h.keepAlive, connectionUpgrade := upgrade, upgradeWebsocket := upgrade))
  {
    var upgrade := !SaysOtherwise(h) && h.connectionUpgrade && h.upgradeWebsocket;
    var r := req.(keepAlive := h.keepAlive, connectionUpgrade := upgrade, upgradeWebsocket := upgrade);
    if SaysOtherwise(h) {
      assert r == req.(keepAlive := h.keepAlive);
      KeepAliveTakes(req, h.keepAlive);
    } else if upgrade {
      assert r == req.(connectionUpgrade := true, upgradeWebsocket := true);
      UpgradeTakes(req);
    } else {
      assert r == req;
      TakesNone(req);
    }
  }

  predicate IsItem(s: string) { Plain(s) && s != "" && ',' !in s }

  /** Names of which all but the last are added to the encodings. */
  predicate AreItems(items: seq<string>) {
    items != [] && AreEncodings(items[..|items| - 1]) && IsItem(items[|items| - 1])
  }

  /** In the value of a list of encodings, at the start of an item. */
  predicate AtItem(p: Parser) {
    p.state == SPACE_BEFORE_HEADER_VALUE && p.value == "" && p.cmsList && p.name == "transfer-encoding"
  }

  function WithEncodings(p: Parser, names: seq<string>): Parser {
    p.(req := p.req.(transferEncodings := p.req.transferEncodings + names))
  }

  lemma EncodingApplied(req: ResponseHeader, name: string)
    requires IsEncoding(name)
    ensures Apply(req, "transfer-encoding", name) == Some(req.(transferEncodings := req.transferEncodings + [name]))
  {}

  lemma CommaRead(p: Parser, name: string)
    requires AtItem(p) && IsEncoding(name)
    ensures Reads(p.(state := HEADER_VALUE, value := name), ", ", WithEncodings(p, [name]))
  {
    EncodingApplied(p.req, name);
    PlainIsTrimmed(name);
    ReadTwo(p.(state := HEADER_VALUE, value := name), ',', WithEncodings(p, [name]), ' ', WithEncodings(p, [name]));
  }

  lemma ItemRead(p: Parser, item: string)
    requires AtItem(p) && IsItem(item)
    ensures Reads(p, item, p.(state := HEADER_VALUE, value := item))
  {
    BeginningRead(p, item);
  }

  lemma {:induction false} ItemsRead(p: Parser, items: seq<string>)
    requires AtItem(p) && AreItems(items)
    ensures Reads(p, JoinComma(items),
                  WithEncodings(p, items[..|items| - 1]).(state := HEADER_VALUE, value := items[|items| - 1]))
    decreases |items|
  {
    if |items| == 1 {
      assert p.req.transferEncodings + items[..0] == p.req.transferEncodings;
      ItemRead(p, items[0]);
    } else {
      var rest, q := items[1..], WithEncodings(p, [items[0]]);
      assert rest[..|rest| - 1] == items[..|items| - 1][1..];
      assert IsEncoding(items[..|items| - 1][0]);
      ItemRead(p, items[0]);
      CommaRead(p, items[0]);
      ItemsRead(q, rest);
      SameEncodings(p, items);
      LeadsThree(Step, Done, p, items[0], p.(state := HEADER_VALUE, value := items[0]), ", ", q, JoinComma(rest),
                 WithEncodings(q, rest[..|rest| - 1]).(state := HEADER_VALUE, value := rest[|rest| - 1]));
    }
  }

  lemma SameEncodings(p: Parser, items: seq<string>)
    requires |items| > 1
    ensures var rest := items[1..];
      WithEncodings(WithEncodings(p, [items[0]]), rest[..|rest| - 1]) == WithEncodings(p, items[..|items| - 1])
  {
    var rest := items[1..];
    assert p.req.transferEncodings + [items[0]] + rest[..|rest| - 1] == p.req.transferEncodings + items[..|items| - 1];
  }

  /** The line of a list of encodings, of which the last has not been taken over yet. */
  lemma ItemsLineRead(p: Parser, req: ResponseHeader, items: seq<string>) returns (q: Parser)
    requires Ready(p, req) && AreItems(items)
    ensures Reads(p, LinesText([Header("transfer-encoding", JoinComma(items))]), q)
    ensures q == Parser(HEADER_LINE_START, req.(transferEncodings := req.transferEncodings + items[..|items| - 1]),
                        "transfer-encoding", items[|items| - 1], true)
  {
    var a := Parser(SPACE_BEFORE_HEADER_VALUE, req, "transfer-encoding", "", true);
    var b := WithEncodings(a, items[..|items| - 1]).(state := HEADER_VALUE, value := items[|items| - 1]);
    q := b.(state := HEADER_LINE_START);
    FieldNames();
    WordIsName("transfer-encoding");
    LineNameRead(p, req, "transfer-encoding");
    ItemsRead(a, items);
    EndOfValue(b);
    LeadsThree(Step, Done, p, "transfer-encoding" + ": ", a, JoinComma(items), b, CRLF, q);
    OneLine(Header("transfer-encoding", JoinComma(items)));
  }

  lemma EncodingsTake(req: ResponseHeader, items: seq<string>, r: ResponseHeader)
    requires AreItems(items)
    requires Apply(req.(transferEncodings := req.transferEncodings + items[..|items| - 1]), "transfer-encoding",
                   items[|items| - 1]) == Some(r)
    ensures Takes(req, [Header("transfer-encoding", JoinComma(items))], r)
  {
    PlainIsTrimmed(items[|items| - 1]);
    forall p | Ready(p, req)
      ensures exists q :: Reads(p, LinesText([Header("transfer-encoding", JoinComma(items))]), q) && Ready(q, r)
    {
      var q := ItemsLineRead(p, req, items);
    }
  }

  lemma EncodingsAreItems(names: seq<string>)
    requires AreEncodings(names) && names != []
    ensures AreItems(names) && names[..|names| - 1] + [names[|names| - 1]] == names
    ensures IsEncoding(names[|names| - 1])
  {}

  lemma EncodingTakes(req: ResponseHeader, h: ResponseHeader)
    requires AreEncodings(h.transferEncodings) && EncodingsAreReadBack(h)
    requires req.transferEncodings == [] && !req.transferEncodingChunked
    ensures Takes(req, EncodingLine(h), req.(transferEncodings := h.transferEncodings,
                                             transferEncodingChunked := h.transferEncodingChunked))
  {
    var names := h.transferEncodings;
    FieldNames();
    WordIsName("chunked");
    if h.transferEncodingChunked {
      assert names + ["chunked"] == ["chunked"];
      WordTakes(req, "transfer-encoding", "chunked", req.(transferEncodingChunked := true));
    } else if names != [] {
      assert names + [] == names;
      EncodingsAreItems(names);
      EncodingApplied(req.(transferEncodings := names[..|names| - 1]), names[|names| - 1]);
      assert [] + names[..|names| - 1] == names[..|names| - 1];
      EncodingsTake(req, names, req.(transferEncodings := names));
    } else {
      assert names + [] == [];
      TakesNone(req);
    }
  }

  /** Behind other encodings chunked is read and then refused. */
  lemma EncodingRefused(p: Parser, req: ResponseHeader, h: ResponseHeader) returns (q: Parser)
    requires Ready(p, req) && AreEncodings(h.transferEncodings) && !EncodingsAreReadBack(h)
    ensures Reads(p, LinesText(EncodingLine(h)), q) && q.state == HEADER_LINE_START
    ensures Apply(q.req, q.name, TrimRight(q.value)).None?
  {
    var items := h.transferEncodings + ["chunked"];
    FieldNames();
    WordIsName("chunked");
    assert items[..|items| - 1] == h.transferEncodings;
    q := ItemsLineRead(p, req, items);
    PlainIsTrimmed("chunked");
  }

  lemma OtherTakes(req: ResponseHeader, l: Header)
    requires IsLine(l) && !IsReserved(l.name)
    ensures Takes(req, [l], req.(headers := req.headers + [l]))
  {
    TakesOne(req, l, req.(headers := req.headers + [l]));
  }

  lemma RestIsOther(headers: seq<Header>)
    requires AreOther(headers) && headers != []
    ensures IsLine(headers[0]) && !IsReserved(headers[0].name) && AreOther(headers[1..]) && [headers[0]] + headers[1..] == headers
  {}

  lemma {:induction false} OthersTake(req: ResponseHeader, headers: seq<Header>)
    requires AreOther(headers)
    ensures Takes(req, headers, req.(headers := req.headers + headers))
    decreases |headers|
  {
    if headers == [] {
      assert req.headers + headers == req.headers;
      TakesNone(req);
    } else {
      var l, rest := headers[0], headers[1..];
      var q := req.(headers := req.headers + [l]);
      RestIsOther(headers);
      OtherTakes(req, l);
      OthersTake(q, rest);
      TakesBoth(req, [l], q, rest, q.(headers := q.headers + rest));
      assert q.headers + rest == req.headers + headers;
    }
  }

  // ---------- the whole head ----------

  /** The header after the status line. */
  function Opened(h: ResponseHeader): ResponseHeader {
    Versioned(h.httpVersionMinor).(status := h.status, statusText := StatusText(h))
  }

  lemma StatusTextsArePlain()
    ensures Plain("Switching Protocols") && Plain("OK") && Plain("Bad request") && Plain("Unauthorized")
    ensures Plain("Forbidden") && Plain("Not found")
  {}

  lemma OtherStatusTextsArePlain()
    ensures Plain("Unprocessable Entity") && Plain("Internal Error") && Plain("Not implemented") && Plain("Unknown")
  {}

  lemma LongStatusTextsArePlain()
    ensures Plain("Service temporarily overloaded") && Plain("Gateway timeout")
  {}

  lemma StatusToStringIsPlain(status: nat)
    ensures Plain(StatusToString(status))
  {
    StatusTextsArePlain();
    OtherStatusTextsArePlain();
    LongStatusTextsArePlain();
  }

  function VersionAndStatus(h: ResponseHeader): string
    requires HasVersionAndStatus(h)
  {
    "HTTP/" + DigitsOf(1) + "." + DigitsOf(h.httpVersionMinor) + " " + (DigitsOf(h.status) + " ")
  }

  /** Behind them the text begins. */
  function AtText(h: ResponseHeader): Parser {
    START.(state := STATUS_TEXT_START, req := Versioned(h.httpVersionMinor).(status := h.status))
  }

  lemma StatusLineParts(h: ResponseHeader)
    requires HasVersionAndStatus(h)
    ensures StatusLine(h) == VersionAndStatus(h) + (StatusText(h) + CRLF)
  {
    var version, status, text := "HTTP/" + DigitsOf(1) + "." + DigitsOf(h.httpVersionMinor) + " ", DigitsOf(h.status), StatusText(h);
    assert version + status + " " + text + CRLF == version + (status + " ") + (text + CRLF);
  }

  lemma VersionAndStatusRead(h: ResponseHeader)
    requires HasVersionAndStatus(h)
    ensures Reads(START, VersionAndStatus(h), AtText(h))
  {
    var m := h.httpVersionMinor;
    VersionRead(m);
    StatusRead(Versioned(m), h.status);
    ReadBoth(START, "HTTP/" + DigitsOf(1) + "." + DigitsOf(m) + " ", START.(state := STATUS_CODE_1, req := Versioned(m)),
             DigitsOf(h.status) + " ", AtText(h));
  }

  lemma StatusLineRead(h: ResponseHeader)
    requires HasVersionAndStatus(h) && Plain(StatusText(h))
    ensures Reads(START, StatusLine(h), START.(state := FIRST_HEADER_LINE_START, req := Opened(h)))
  {
    var c := START.(state := FIRST_HEADER_LINE_START, req := Opened(h));
    VersionAndStatusRead(h);
    StatusTextRead(AtText(h), StatusText(h));
    StatusLineParts(h);
    ReadBoth(START, VersionAndStatus(h), AtText(h), StatusText(h) + CRLF, c);
  }

  /** The status line is read to its end, and behind it the status text is taken over. */
  ghost predicate StatusArrivesAs(h: ResponseHeader, q: Parser) {
    Reads(START, StatusLine(h), q) && q.state == FIRST_HEADER_LINE_START && TrimRight(q.req.statusText) == StatusText(h)
  }

  lemma OnlyPlainStatusArrives(h: ResponseHeader, q: Parser)
    requires HasVersionAndStatus(h) && StatusArrivesAs(h, q)
    ensures Plain(StatusText(h))
  {
    var text := StatusText(h);
    StatusLineParts(h);
    var a := LeadsBetween(Step, Done, START, VersionAndStatus(h), text + CRLF, q);
    VersionAndStatusRead(h);
    ReadsOnlyOnce(START, VersionAndStatus(h), a, AtText(h));
    var b := LeadsBetween(Step, Done, a, text, CRLF, q);
    EndOfLineAddsNothing(b, q);
    TextsGrow(a, text, b);
    CollectedText(a, text, b);
  }

  /** The status text printed arrives if and only if it is plain. */
  lemma StatusArrivesIffPlain(h: ResponseHeader)
    requires HasVersionAndStatus(h)
    ensures (exists q :: StatusArrivesAs(h, q)) <==> Plain(StatusText(h))
  {
    if Plain(StatusText(h)) {
      StatusLineRead(h);
      PlainIsTrimmed(StatusText(h));
      assert StatusArrivesAs(h, START.(state := FIRST_HEADER_LINE_START, req := Opened(h)));
    }
    if q :| StatusArrivesAs(h, q) {
      OnlyPlainStatusArrives(h, q);
    }
  }

  lemma DateTakes(req: ResponseHeader, date: string)
    requires Plain(date) && req.date == ""
    ensures Takes(req, TextLine("date", date), req.(date := date))
  {
    FieldNames();
    FieldTakes(req, "date", date, req.(date := date));
  }

  lemma AcceptTakes(req: ResponseHeader, accept: string)
    requires Plain(accept) && req.secWebsocketAccept == ""
    ensures Takes(req, TextLine("sec-websocket-accept", accept), req.(secWebsocketAccept := accept))
  {
    FieldNames();
    FieldTakes(req, "sec-websocket-accept", accept, req.(secWebsocketAccept := accept));
  }

  lemma TakesFour(r0: ResponseHeader, a: seq<Header>, r1: ResponseHeader, b: seq<Header>, r2: ResponseHeader,
                  c: seq<Header>, r3: ResponseHeader, d: seq<Header>, r4: ResponseHeader)
    requires Takes(r0, a, r1) && Takes(r1, b, r2) && Takes(r2, c, r3) && Takes(r3, d, r4)
    ensures Takes(r0, a + b + c + d, r4)
  {
    TakesBoth(r0, a, r1, b, r2);
    TakesBoth(r0, a + b, r2, c, r3);
    TakesBoth(r0, a + b + c, r3, d, r4);
  }

  /** The lines in front of the transfer encodings, and the header behind them. */
  function FrontLines(h: ResponseHeader): seq<Header> {
    TextLine("date", h.date) + TypeLine(h) + LengthLine(h) + ConnectionLines(h)
  }

  function BehindFront(h: ResponseHeader): ResponseHeader {
    Restored(h).(headers := [], secWebsocketAccept := "", transferEncodings := [], transferEncodingChunked := false)
  }

  lemma FrontTakes(h: ResponseHeader)
    requires Printable(h)
    ensures Takes(Opened(h), FrontLines(h), BehindFront(h))
  {
    var req := Opened(h).(date := h.date);
    var a := req.(contentTypeMime := h.contentTypeMime,
                  contentTypeSuffix := if h.contentTypeMime == "" then "" else h.contentTypeSuffix);
    var b := a.(contentLength := h.contentLength);
    DateTakes(Opened(h), h.date);
    TypeTakes(req, h);
    LengthTakes(a, h);
    ConnectionTakes(b, h);
    TakesFour(Opened(h), TextLine("date", h.date), req, TypeLine(h), a, LengthLine(h), b, ConnectionLines(h), BehindFront(h));
  }

  lemma LinesTake(h: ResponseHeader)
    requires Printable(h) && EncodingsAreReadBack(h)
    ensures Takes(Opened(h), Lines(h), Restored(h))
  {
    var a := Restored(h).(headers := [], secWebsocketAccept := "");
    var b := a.(headers := h.headers);
    FrontTakes(h);
    EncodingTakes(BehindFront(h), h);
    OthersTake(a, h.headers);
    assert [] + h.headers == h.headers;
    AcceptTakes(b, h.secWebsocketAccept);
    TakesFour(Opened(h), FrontLines(h), BehindFront(h), EncodingLine(h), a, h.headers, b,
              TextLine("sec-websocket-accept", h.secWebsocketAccept), Restored(h));
  }

  lemma StatusRestored(h: ResponseHeader)
    requires Printable(h)
    ensures Reads(START, StatusLine(h), START.(state := FIRST_HEADER_LINE_START, req := Opened(h)))
    ensures Ready(START.(state := FIRST_HEADER_LINE_START, req := Opened(h)), Opened(h))
  {
    StatusToStringIsPlain(h.status);
    StatusLineRead(h);
    PlainIsTrimmed(StatusText(h));
  }

  lemma HeadRead(h: ResponseHeader) returns (cmsList: bool)
    requires Printable(h) && EncodingsAreReadBack(h)
    ensures Reads(START, Text(h), Parser(GOOD, Restored(h), "", "", cmsList))
  {
    var a := START.(state := FIRST_HEADER_LINE_START, req := Opened(h));
    StatusRestored(h);
    LinesTake(h);
    var q := LinesRead(a, Opened(h), Lines(h), Restored(h));
    EndRead(q, Restored(h));
    cmsList := q.cmsList;
    LeadsThree(Step, Done, START, StatusLine(h), a, LinesText(Lines(h)), q, CRLF, Parser(GOOD, Restored(h), "", "", cmsList));
  }

  /** What follows the line of encodings. */
  function Behind(h: ResponseHeader): string {
    LinesText(h.headers + TextLine("sec-websocket-accept", h.secWebsocketAccept)) + CRLF
  }

  lemma BehindIsNoSpace(h: ResponseHeader)
    requires Printable(h)
    ensures !IsSp(Behind(h)[0])
  {
    var ls := h.headers + TextLine("sec-websocket-accept", h.secWebsocketAccept);
    FieldNames();
    WordIsName("sec-websocket-accept");
    if ls != [] {
      assert IsName(ls[0].name);
      NameCharIs(ls[0].name[0]);
      assert Behind(h)[0] == LineText(ls[0])[0] == ls[0].name[0];
    }
  }

  /** The head up to the transfer encodings. */
  function Front(h: ResponseHeader): string {
    StatusLine(h) + LinesText(FrontLines(h)) + LinesText(EncodingLine(h))
  }

  lemma HeadParts(h: ResponseHeader)
    ensures Text(h) == Front(h) + Behind(h)
  {
    var ls := h.headers + TextLine("sec-websocket-accept", h.secWebsocketAccept);
    assert Lines(h) == FrontLines(h) + EncodingLine(h) + ls;
    LinesTextAppend(FrontLines(h) + EncodingLine(h), ls);
    LinesTextAppend(FrontLines(h), EncodingLine(h));
    FiveParts(StatusLine(h), LinesText(FrontLines(h)), LinesText(EncodingLine(h)), LinesText(ls), CRLF);
  }

  lemma FiveParts(a: string, b: string, c: string, d: string, e: string)
    ensures a + (b + c + d) + e == a + b + c + (d + e)
  {}

  lemma EncodingsReached(h: ResponseHeader) returns (q: Parser)
    requires Printable(h) && !EncodingsAreReadBack(h)
    ensures Reads(START, Front(h), q) && q.state == HEADER_LINE_START
    ensures Apply(q.req, q.name, TrimRight(q.value)).None?
  {
    var a := START.(state := FIRST_HEADER_LINE_START, req := Opened(h));
    StatusRestored(h);
    FrontTakes(h);
    var b := LinesRead(a, Opened(h), FrontLines(h), BehindFront(h));
    q := EncodingRefused(b, BehindFront(h), h);
    LeadsThree(Step, Done, START, StatusLine(h), a, LinesText(FrontLines(h)), b, LinesText(EncodingLine(h)), q);
  }

  lemma RefusedAtNextLine(p: Parser, c: char)
    requires p.state == HEADER_LINE_START && Apply(p.req, p.name, TrimRight(p.value)).None? && !IsSp(c)
    ensures Reads(p, [c], Fail(p))
  {
    ReadOne(p, c, Fail(p));
  }

  /** A head that names chunked behind other encodings fails the parser at the line that follows. */
  lemma HeadFails(h: ResponseHeader) returns (text: string, rest: string, q: Parser)
    requires Printable(h) && !EncodingsAreReadBack(h)
    ensures Reads(START, text, q) && q.state == FAILED && Text(h) == text + rest
  {
    var behind := Behind(h);
    var c := EncodingsReached(h);
    BehindIsNoSpace(h);
    RefusedAtNextLine(c, behind[0]);
    ReadBoth(START, Front(h), c, [behind[0]], Fail(c));
    HeadParts(h);
    text, rest, q := Front(h) + [behind[0]], behind[1..], Fail(c);
    FirstMoved(Front(h), behind);
  }

  lemma FirstMoved(a: string, b: string)
    requires b != ""
    ensures a + b == a + [b[0]] + b[1..]
  {}

  lemma ShortHead(text: string, q: Parser, later: string)
    requires Reads(START, text, q) && Done(q) && |text| <= MAX_TOTAL_LENGTH
    ensures FeedResponse(Limited(START, 0), text + later) == (Limited(q, |text|), |text|)
  {
    WithinLimit(START, 0, text, q);
    LeadsThenRest(LimitedStep, LimitedDone, Limited(START, 0), text, Limited(q, |text|), later);
  }

  lemma LongHead(text: string, q: Parser, later: string)
    requires Reads(START, text, q) && |text| > MAX_TOTAL_LENGTH
    ensures FeedResponse(Limited(START, 0), text + later).0.parser.state == FAILED
  {
    BeyondLimit(START, text, q);
    FeedSplit(LimitedStep, LimitedDone, Limited(START, 0), text, later);
    FeedDone(LimitedStep, LimitedDone, FeedResponse(Limited(START, 0), text).0, later);
  }

  lemma FailedHead(text: string, q: Parser, later: string)
    requires Reads(START, text, q) && q.state == FAILED
    ensures FeedResponse(Limited(START, 0), text + later).0.parser.state == FAILED
  {
    if |text| <= MAX_TOTAL_LENGTH {
      ShortHead(text, q, later);
    } else {
      LongHead(text, q, later);
    }
  }

  lemma WholeFails(all: string, text: string, rest: string, q: Parser, later: string)
    requires all == text + rest && Reads(START, text, q) && q.state == FAILED
    ensures FeedResponse(Limited(START, 0), all + later).0.parser.state == FAILED
  {
    FailedHead(text, q, rest + later);
    assert text + rest + later == text + (rest + later);
  }

  lemma HeadIsRefused(h: ResponseHeader, later: string)
    requires Printable(h) && !EncodingsAreReadBack(h)
    ensures FeedResponse(Limited(START, 0), Text(h) + later).0.parser.state == FAILED
  {
    var text, rest, q := HeadFails(h);
    WholeFails(Text(h), text, rest, q, later);
  }

  /** The head printed is read up to its end and not further, and the header is restored, if and only if the text is within
      the parser's limit and does not name chunked behind other encodings. */
  lemma HeadRoundTrip(h: ResponseHeader, later: string)
    requires Printable(h)
    ensures var r := FeedResponse(Limited(START, 0), Text(h) + later);
      (r.0.parser.state == GOOD && r.0.parser.req == Restored(h) && r.1 == |Text(h)|)
      <==> |Text(h)| <= MAX_TOTAL_LENGTH && EncodingsAreReadBack(h)
  {
    if EncodingsAreReadBack(h) {
      var cmsList := HeadRead(h);
      var q := Parser(GOOD, Restored(h), "", "", cmsList);
      if |Text(h)| <= MAX_TOTAL_LENGTH {
        ShortHead(Text(h), q, later);
      } else {
        LongHead(Text(h), q, later);
      }
    } else {
      HeadIsRefused(h, later);
    }
  }

  /** In any fragments. */
  lemma FragmentedHeadRoundTrip(h: ResponseHeader, later: string, fragments: seq<string>)
    requires Printable(h) && Join(fragments) == Text(h) + later
    ensures var r := FeedFragments(LimitedStep, LimitedDone, Limited(START, 0), fragments);
      (r.0.parser.state == GOOD && r.0.parser.req == Restored(h) && r.1 == |Text(h)|)
      <==> |Text(h)| <= MAX_TOTAL_LENGTH && EncodingsAreReadBack(h)
  {
    FragmentsDoNotMatter(LimitedStep, LimitedDone, Limited(START, 0), fragments);
    HeadRoundTrip(h, later);
  }

  /** What is kept without loss. */
  lemma RestoredFields(h: ResponseHeader)
    requires Printable(h)
    ensures var r := Restored(h);
      && r.status == h.status && r.httpVersionMajor == h.httpVersionMajor && r.httpVersionMinor == h.httpVersionMinor
      && r.contentLength == h.contentLength && r.transferEncodingChunked == h.transferEncodingChunked
      && r.transferEncodings == h.transferEncodings
      && r.keepAlive == h.keepAlive && r.date == h.date && r.headers == h.headers
  {}
}
