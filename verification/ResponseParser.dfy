/** ResponseParser of include/crab/http/response_parser.hxx. */
module ResponseParsing {
  import opened HttpChars
  import opened Automaton
  import opened IntegerText
  import opened ResponseHeaders

  const MAX_TOTAL_LENGTH := 8192

  /** FAILED stands for the exceptions. */
  datatype State =
    | HTTP_VERSION_H | HTTP_VERSION_HT | HTTP_VERSION_HTT | HTTP_VERSION_HTTP | HTTP_VERSION_SLASH
    | HTTP_VERSION_MAJOR_START | HTTP_VERSION_MAJOR | HTTP_VERSION_MINOR_START | HTTP_VERSION_MINOR
    | STATUS_CODE_1 | STATUS_CODE_2 | STATUS_CODE_3 | STATUS_CODE_SPACE | STATUS_TEXT_START | STATUS_TEXT | STATUS_LINE_LF
    | FIRST_HEADER_LINE_START | HEADER_LINE_START | HEADER_NAME | HEADER_COLON | SPACE_BEFORE_HEADER_VALUE
    | HEADER_VALUE | HEADER_LF | FINAL_LF | GOOD | FAILED

  datatype Parser = Parser(state: State, req: ResponseHeader, name: string, value: string, cmsList: bool)

  const START := Parser(HTTP_VERSION_H, EMPTY, "", "", false)

  // ---------- header lines taken over ----------

  predicate IsCmsList(name: string) { name == "connection" || name == "transfer-encoding" }

  /** process_ready_header for a value without spaces at its end; None stands for the exceptions. */
  ghost function Apply(req: ResponseHeader, name: string, value: string): Option<ResponseHeader> {
    if IsCmsList(name) && value == "" then Some(req)
    else if name == "content-length" then
      var number := Meaning(UINT64, value);
      if req.contentLength.Some? || number.None? then None else Some(req.(contentLength := Some(number.value)))
    else if name == "transfer-encoding" then ApplyEncoding(req, ToLower(value))
    else if name == "content-type" then
      Some(req.(contentTypeMime := ContentType(value).0, contentTypeSuffix := ContentType(value).1))
    else if name == "connection" then ApplyConnection(req, ToLower(value))
    else if name == "upgrade" then
      if ToLower(value) == "websocket" then Some(req.(upgradeWebsocket := true)) else None
    else if name == "sec-websocket-accept" then Some(req.(secWebsocketAccept := value))
    else if name == "date" then Some(req.(date := value))
    else if name == "server" then Some(req.(server := value))
    else Some(req.(headers := req.headers + [Header(name, value)]))
  }

  function ApplyEncoding(req: ResponseHeader, value: string): Option<ResponseHeader> {
    if value == "chunked" then
      if req.transferEncodings != [] then None else Some(req.(transferEncodingChunked := true))
    else if value == "identity" then Some(req)
    else Some(req.(transferEncodings := req.transferEncodings + [value]))
  }

  function ApplyConnection(req: ResponseHeader, value: string): Option<ResponseHeader> {
    if value == "close" then Some(req.(keepAlive := false))
    else if value == "keep-alive" then Some(req.(keepAlive := true))
    else if value == "upgrade" then Some(req.(connectionUpgrade := true))
    else None
  }

  // ---------- one character ----------

  function Fail(p: Parser): Parser { p.(state := FAILED) }

  function Expect(p: Parser, ok: bool, next: State): Parser { if ok then p.(state := next) else Fail(p) }

  function VersionStep(p: Parser, c: char): Parser {
    match p.state
    case HTTP_VERSION_H => Expect(p, c == 'H', HTTP_VERSION_HT)
    case HTTP_VERSION_HT => Expect(p, c == 'T', HTTP_VERSION_HTT)
    case HTTP_VERSION_HTT => Expect(p, c == 'T', HTTP_VERSION_HTTP)
    case HTTP_VERSION_HTTP => Expect(p, c == 'P', HTTP_VERSION_SLASH)
    case HTTP_VERSION_SLASH => Expect(p, c == '/', HTTP_VERSION_MAJOR_START)
    case HTTP_VERSION_MAJOR_START =>
      if !IsDigit(c) then Fail(p)
      else p.(state := HTTP_VERSION_MAJOR, req := p.req.(httpVersionMajor := DigitValue(c)))
    case HTTP_VERSION_MAJOR =>
      if c == '.' then p.(state := HTTP_VERSION_MINOR_START)
      else if !IsDigit(c) || p.req.httpVersionMajor * 10 + DigitValue(c) > 1 then Fail(p)
      else p.(req := p.req.(httpVersionMajor := p.req.httpVersionMajor * 10 + DigitValue(c)))
    case HTTP_VERSION_MINOR_START =>
      if !IsDigit(c) then Fail(p)
      else p.(state := HTTP_VERSION_MINOR, req := p.req.(httpVersionMinor := DigitValue(c)))
    case HTTP_VERSION_MINOR =>
      if IsSp(c) then
        p.(state := STATUS_CODE_1, req := p.req.(keepAlive := p.req.httpVersionMajor == 1 && p.req.httpVersionMinor >= 1))
      else if !IsDigit(c) || p.req.httpVersionMinor * 10 + DigitValue(c) > 99 then Fail(p)
      else p.(req := p.req.(httpVersionMinor := p.req.httpVersionMinor * 10 + DigitValue(c)))
    case _ => p
  }

  function StatusDigit(p: Parser, c: char, next: State): Parser {
    if !IsDigit(c) then Fail(p) else p.(state := next, req := p.req.(status := p.req.status * 10 + DigitValue(c)))
  }

  /** The end of a line, with or without the carriage return. */
  function TextStep(p: Parser, c: char): Parser {
    if c == CR then p.(state := STATUS_LINE_LF)
    else if c == LF then p.(state := FIRST_HEADER_LINE_START)
    else if IsCtl(c) then Fail(p)
    else p.(state := STATUS_TEXT, req := p.req.(statusText := p.req.statusText + [c]))
  }

  function StatusStep(p: Parser, c: char): Parser {
    match p.state
    case STATUS_CODE_1 => if IsSp(c) then p else StatusDigit(p, c, STATUS_CODE_2)
    case STATUS_CODE_2 => StatusDigit(p, c, STATUS_CODE_3)
    case STATUS_CODE_3 => StatusDigit(p, c, STATUS_CODE_SPACE)
    case STATUS_CODE_SPACE =>
      if c == CR then p.(state := STATUS_LINE_LF)
      else if c == LF then p.(state := FIRST_HEADER_LINE_START)
      else Expect(p, IsSp(c), STATUS_TEXT_START)
    case STATUS_TEXT_START => if IsSp(c) then p else TextStep(p, c)
    case STATUS_TEXT => TextStep(p, c)
    case STATUS_LINE_LF => Expect(p, c == LF, FIRST_HEADER_LINE_START)
    case _ => p
  }

  predicate IsNameChar(c: char) { IsChar(c) && !IsCtl(c) && !IsTspecial(c) }

  /** The first character of a line behind the line before it. */
  function LineStart(p: Parser, c: char): Parser {
    if c == CR then p.(state := FINAL_LF)
    else if c == LF then p.(state := GOOD)
    else if !IsNameChar(c) then Fail(p)
    else p.(state := HEADER_NAME, name := p.name + [ToLowerChar(c)])
  }

  /** The header read last taken over. */
  ghost function Process(p: Parser): Parser {
    var r := Apply(p.req, p.name, TrimRight(p.value));
    if r.None? then Fail(p) else p.(req := r.value)
  }

  function Colon(p: Parser, c: char): Parser {
    if IsSp(c) then p.(state := HEADER_COLON)
    else if c != ':' then Fail(p)
    else p.(state := SPACE_BEFORE_HEADER_VALUE, cmsList := IsCmsList(p.name))
  }

  /** A character of a value that does not end an item of a list. */
  function PlainValueStep(p: Parser, c: char): Parser {
    if c == CR then p.(state := HEADER_LF)
    else if c == LF then p.(state := HEADER_LINE_START)
    else if IsCtl(c) then Fail(p)
    else p.(state := HEADER_VALUE, value := p.value + [c])
  }

  ghost function ValueStep(p: Parser, c: char): Parser {
    if p.cmsList && c == ',' then
      var q := Process(p);
      if q.state == FAILED then q else q.(state := SPACE_BEFORE_HEADER_VALUE, value := "")
    else PlainValueStep(p, c)
  }

  /** The states in which no header is taken over. */
  function OtherHeaderStep(p: Parser, c: char): Parser {
    match p.state
    case FIRST_HEADER_LINE_START => LineStart(p.(req := p.req.(statusText := TrimRight(p.req.statusText))), c)
    case HEADER_NAME =>
      if IsSp(c) || c == ':' then Colon(p, c)
      else if !IsNameChar(c) then Fail(p)
      else p.(name := p.name + [ToLowerChar(c)])
    case HEADER_COLON => Colon(p, c)
    case HEADER_LF => Expect(p, c == LF, HEADER_LINE_START)
    case FINAL_LF => Expect(p, c == LF, GOOD)
    case _ => p
  }

  ghost function HeaderStep(p: Parser, c: char): Parser {
    match p.state
    case HEADER_LINE_START =>
      if IsSp(c) then p.(state := HEADER_VALUE, value := p.value + [c])
      else
        var q := Process(p);
        if q.state == FAILED then q else LineStart(q.(name := "", value := ""), c)
    case SPACE_BEFORE_HEADER_VALUE => if IsSp(c) then p else ValueStep(p, c)
    case HEADER_VALUE => ValueStep(p, c)
    case _ => OtherHeaderStep(p, c)
  }

  predicate InVersion(s: State) {
    s == HTTP_VERSION_H || s == HTTP_VERSION_HT || s == HTTP_VERSION_HTT || s == HTTP_VERSION_HTTP || s == HTTP_VERSION_SLASH
    || s == HTTP_VERSION_MAJOR_START || s == HTTP_VERSION_MAJOR || s == HTTP_VERSION_MINOR_START || s == HTTP_VERSION_MINOR
  }

  predicate InStatus(s: State) {
    s == STATUS_CODE_1 || s == STATUS_CODE_2 || s == STATUS_CODE_3 || s == STATUS_CODE_SPACE || s == STATUS_TEXT_START
    || s == STATUS_TEXT || s == STATUS_LINE_LF
  }

  ghost function Step(p: Parser, c: char): Parser {
    if InVersion(p.state) then VersionStep(p, c) else if InStatus(p.state) then StatusStep(p, c) else HeaderStep(p, c)
  }

  predicate Done(p: Parser) { p.state == GOOD || p.state == FAILED }

  ghost predicate Reads(p: Parser, text: string, q: Parser) {
    Leads(Step, Done, p, text, q)
  }

  // ---------- the limit on the length ----------

  datatype Limited = Limited(parser: Parser, totalLength: nat)

  ghost function LimitedStep(l: Limited, c: char): Limited {
    Limited(if l.totalLength + 1 > MAX_TOTAL_LENGTH then Fail(l.parser) else Step(l.parser, c), l.totalLength + 1)
  }

  predicate LimitedDone(l: Limited) { Done(l.parser) }

  ghost function FeedResponse(l: Limited, text: string): (Limited, nat) {
    Feed(LimitedStep, LimitedDone, l, text)
  }

  function Lift(): (Parser, nat) -> Limited {
    (p: Parser, n: nat) => Limited(p, n)
  }

  lemma LimitedStepIs(p: Parser, n: nat, c: char)
    requires n < MAX_TOTAL_LENGTH
    ensures LimitedStep(Lift()(p, n), c) == Lift()(Step(p, c), n + 1)
  {}

  lemma LimitedSteps()
    ensures Counts(Step, Done, LimitedStep, LimitedDone, Lift(), MAX_TOTAL_LENGTH)
  {
    forall p, n: nat, c | n < MAX_TOTAL_LENGTH
      ensures LimitedStep(Lift()(p, n), c) == Lift()(Step(p, c), n + 1)
    {
      LimitedStepIs(p, n, c);
    }
  }

  /** Within the limit the length does not matter. */
  lemma WithinLimit(p: Parser, n: nat, text: string, q: Parser)
    requires Reads(p, text, q) && n + |text| <= MAX_TOTAL_LENGTH
    ensures Leads(LimitedStep, LimitedDone, Limited(p, n), text, Limited(q, n + |text|))
  {
    LimitedSteps();
    assert Lift()(p, n) == Limited(p, n) && Lift()(q, n + |text|) == Limited(q, n + |text|);
    LeadsCounted(Step, Done, LimitedStep, LimitedDone, Lift(), MAX_TOTAL_LENGTH, p, n, text, q);
  }

  /** Beyond it the parser fails. */
  lemma BeyondLimit(p: Parser, text: string, q: Parser)
    requires Reads(p, text, q) && |text| > MAX_TOTAL_LENGTH
    ensures FeedResponse(Limited(p, 0), text).0.parser.state == FAILED
  {
    var a, b := text[..MAX_TOTAL_LENGTH], text[MAX_TOTAL_LENGTH..];
    assert text == a + b;
    var t := LeadsBetween(Step, Done, p, a, b, q);
    WithinLimit(p, 0, a, t);
    FeedSplit(LimitedStep, LimitedDone, Limited(p, 0), a, b);
    LeadsUncons(Step, Done, t, b, q);
    FailsAtOnce(t, b);
  }

  lemma FailsAtOnce(t: Parser, text: string)
    requires !Done(t) && text != []
    ensures FeedResponse(Limited(t, MAX_TOTAL_LENGTH), text).0.parser.state == FAILED
  {
    FeedDone(LimitedStep, LimitedDone, Limited(Fail(t), MAX_TOTAL_LENGTH + 1), text[1..]);
  }

  // ---------- the object ----------

  class ResponseParser {
    var req: ResponseHeader
    var name: string
    var value: string
    var headerCmsList: bool
    var state: State
    var totalLength: nat

    ghost function View(): Limited
      reads this
    {
      Limited(Core(), totalLength)
    }

    function Core(): Parser
      reads this
    {
      Parser(state, req, name, value, headerCmsList)
    }

    constructor ()
      ensures View() == Limited(START, 0)
    {
      req, name, value, headerCmsList, state, totalLength := EMPTY, "", "", false, HTTP_VERSION_H, 0;
    }

    method Become(p: Parser)
      modifies `state, `req, `name, `value, `headerCmsList
      ensures Core() == p
    {
      state, req, name, value, headerCmsList := p.state, p.req, p.name, p.value, p.cmsList;
    }

    /** process_ready_header() */
    method ProcessReadyHeader() returns (ok: bool)
      modifies `req, `state
      ensures Core() == Process(old(Core())) && (ok <==> Apply(old(req), name, TrimRight(value)).Some?)
    {
      var trimmed := TrimRight(value);
      ok := true;
      if IsCmsList(name) && trimmed == "" {
        return;
      }
      if name == "content-length" {
        ok := TakeContentLength(trimmed);
      } else if name == "transfer-encoding" {
        ok := TakeEncoding(ToLower(trimmed));
      } else if name == "content-type" {
        req := req.(contentTypeMime := ContentType(trimmed).0, contentTypeSuffix := ContentType(trimmed).1);
      } else if name == "connection" {
        ok := TakeConnection(ToLower(trimmed));
      } else if name == "upgrade" {
        if ToLower(trimmed) == "websocket" {
          req := req.(upgradeWebsocket := true);
        } else {
          ok := false;
        }
      } else if name == "sec-websocket-accept" {
        req := req.(secWebsocketAccept := trimmed);
      } else if name == "date" {
        req := req.(date := trimmed);
      } else if name == "server" {
        req := req.(server := trimmed);
      } else {
        req := req.(headers := req.headers + [Header(name, trimmed)]);
      }
      if !ok {
        state := FAILED;
      }
    }

    method TakeContentLength(number: string) returns (ok: bool)
      modifies `req
      ensures var r := Apply(old(req), "content-length", number);
        if r.Some? then ok && req == r.value else !ok && req == old(req)
    {
      if req.contentLength.Some? {
        return false;
      }
      var length := Parse(UINT64, number);
      ok := length.Some?;
      if ok {
        req := req.(contentLength := length);
      }
    }

    method TakeEncoding(encoding: string) returns (ok: bool)
      modifies `req
      ensures var r := ApplyEncoding(old(req), encoding);
        if r.Some? then ok && req == r.value else !ok && req == old(req)
    {
      ok := true;
      if encoding == "chunked" {
        ok := req.transferEncodings == [];
        if ok {
          req := req.(transferEncodingChunked := true);
        }
      } else if encoding != "identity" {
        req := req.(transferEncodings := req.transferEncodings + [encoding]);
      }
    }

    method TakeConnection(option: string) returns (ok: bool)
      modifies `req
      ensures var r := ApplyConnection(old(req), option);
        if r.Some? then ok && req == r.value else !ok && req == old(req)
    {
      ok := true;
      if option == "close" {
        req := req.(keepAlive := false);
      } else if option == "keep-alive" {
        req := req.(keepAlive := true);
      } else if option == "upgrade" {
        req := req.(connectionUpgrade := true);
      } else {
        ok := false;
      }
    }

    method ConsumeValue(c: char)
      requires state != FAILED
      modifies `state, `req, `name, `value, `headerCmsList
      ensures Core() == ValueStep(old(Core()), c)
    {
      if headerCmsList && c == ',' {
        var ok := ProcessReadyHeader();
        if ok {
          value, state := "", SPACE_BEFORE_HEADER_VALUE;
        }
      } else {
        Become(PlainValueStep(Core(), c));
      }
    }

    method ConsumeLineStart(c: char)
      requires state == HEADER_LINE_START
      modifies `state, `req, `name, `value, `headerCmsList
      ensures Core() == HeaderStep(old(Core()), c)
    {
      if IsSp(c) {
        value, state := value + [c], HEADER_VALUE;
        return;
      }
      var ok := ProcessReadyHeader();
      if ok {
        name, value := "", "";
        Become(LineStart(Core(), c));
      }
    }

    method ConsumeHeader(c: char)
      requires !InVersion(state) && !InStatus(state) && !Done(Core())
      modifies `state, `req, `name, `value, `headerCmsList
      ensures Core() == HeaderStep(old(Core()), c)
    {
      if state == HEADER_LINE_START {
        ConsumeLineStart(c);
      } else if state == HEADER_VALUE || (state == SPACE_BEFORE_HEADER_VALUE && !IsSp(c)) {
        ConsumeValue(c);
      } else if state != SPACE_BEFORE_HEADER_VALUE {
        Become(OtherHeaderStep(Core(), c));
      }
    }

    /** consume(); an exception leaves the parser in FAILED. */
    method Consume(c: char)
      requires !Done(Core())
      modifies this
      ensures View() == LimitedStep(old(View()), c)
    {
      totalLength := totalLength + 1;
      if totalLength > MAX_TOTAL_LENGTH {
        state := FAILED;
      } else if InVersion(state) {
        Become(VersionStep(Core(), c));
      } else if InStatus(state) {
        Become(StatusStep(Core(), c));
      } else {
        ConsumeHeader(c);
      }
    }

    /** parse(begin, end) */
    method ParseText(text: string) returns (count: nat)
      modifies this
      ensures (View(), count) == FeedResponse(old(View()), text)
    {
      count := 0;
      ghost var start := View();
      LeadsNowhere(LimitedStep, LimitedDone, start);
      while count < |text| && state != GOOD && state != FAILED
        invariant count <= |text| && Leads(LimitedStep, LimitedDone, start, text[..count], View())
      {
        ghost var before := View();
        Consume(text[count]);
        LeadsExtended(LimitedStep, LimitedDone, start, text, count, before, View());
        count := count + 1;
      }
      LeadsFinished(LimitedStep, LimitedDone, start, text, count, View());
    }
  }
}
