/** The two programs as objects: MDGate (examples/md_gate.cpp) and MDSourceApp with its
    generator (examples/md_tcp_source.cpp). */
module MarketGate {
  import opened MarketData
  import opened MarketRecovery

  /** The messages in the successful answers, in order. */
  function Bodies(responses: seq<Response>): seq<Msg> {
    if responses == [] then []
    else (if responses[0].Messages? then responses[0].ms else []) + Bodies(responses[1..])
  }

  lemma BodiesStep(held: seq<Msg>, responses: seq<Response>, i: nat)
    requires i < |responses|
    ensures KeepAll(held, Bodies(responses[i..])) ==
      KeepAll(if responses[i].Messages? then KeepAll(held, responses[i].ms) else held, Bodies(responses[i + 1..]))
  {
    assert responses[i..][0] == responses[i] && responses[i..][1..] == responses[i + 1..];
    if responses[i].Messages? {
      KeepAllJoin(held, responses[i].ms, Bodies(responses[i + 1..]));
    } else {
      assert Bodies(responses[i..]) == Bodies(responses[i + 1..]);
    }
  }

  class MDGate {
    var messages: seq<Msg>
    var chunks: seq<seq<Msg>>
    var fastQueue: seq<Msg>

    ghost function View(): Store
      reads this
    {
      Store(messages, chunks)
    }

    ghost predicate Valid()
      reads this
    {
      WellFormed(View())
    }

    constructor ()
      ensures Valid() && View() == Store([], []) && fastQueue == []
    {
      messages, chunks, fastQueue := [], [], [];
    }

    /** Called by the thread of the live link, under the mutex. */
    method AddMessage(msg: Msg)
      modifies this`fastQueue
      ensures fastQueue == old(fastQueue) + [msg]
    {
      fastQueue := fastQueue + [msg];
    }

    method AddMessageFromAnySource(msg: Msg)
      requires Valid()
      modifies this`messages, this`chunks
      ensures Valid() && View() == MarketData.AddMessage(old(View()), msg)
    {
      AddMessageIsWellFormed(View(), msg);
      if messages == [] {
        messages := messages + [msg];
        return;
      }
      var nextSeq := Last(messages).seqnum + 1;
      if msg.seqnum < nextSeq {
        return;
      }
      if msg.seqnum == nextSeq {
        messages := messages + [msg];
        if chunks != [] && chunks[0][0].seqnum == msg.seqnum + 1 {
          messages := messages + chunks[0];
          chunks := chunks[1..];
        }
        return;
      }
      AddToChunks(msg);
    }

    /** Behind a gap: the last chunk grows or a new one is begun. */
    method AddToChunks(msg: Msg)
      requires Valid() && messages != [] && msg.seqnum > Last(messages).seqnum + 1
      modifies this`chunks
      ensures View() == MarketData.AddMessage(old(View()), msg)
    {
      if chunks == [] {
        chunks := chunks + [[msg]];
        return;
      }
      var last := |chunks| - 1;
      var nextSeq := Last(chunks[last]).seqnum + 1;
      if msg.seqnum < nextSeq {
        return;
      }
      if msg.seqnum > nextSeq {
        chunks := chunks + [[]];
      }
      last := |chunks| - 1;
      chunks := chunks[last := chunks[last] + [msg]];
      assert [] + [msg] == [msg];
    }

    /** The request, when the http connection can take one and there is a gap. */
    method BroadcastRetransmission(idle: bool) returns (request: Option<MDRequest>)
      requires Valid()
      ensures request.Some? <==> idle && Missing(Flat(View())) != {}
      ensures request.Some? ==> chunks != [] && request.value == FirstGap(View())
    {
      RequestIsFirstGap(View());
      if idle && chunks != [] {
        return Some(MDRequest(Last(messages).seqnum + 1, chunks[0][0].seqnum));
      }
      return None;
    }

    method OnFastQueueChanged(idle: bool) returns (request: Option<MDRequest>)
      requires Valid()
      modifies this
      ensures Valid() && fastQueue == []
      ensures Flat(View()) == KeepAll(Flat(old(View())), old(fastQueue))
      ensures request.Some? <==> idle && Missing(Flat(View())) != {}
      ensures request.Some? ==> chunks != [] && request.value == FirstGap(View())
    {
      var fq := fastQueue;
      fastQueue := [];
      AddEach(fq);
      request := BroadcastRetransmission(idle);
    }

    method OnHttpClientData(responses: seq<Response>, idle: bool) returns (request: Option<MDRequest>)
      requires Valid()
      modifies this`messages, this`chunks
      ensures Valid()
      ensures Flat(View()) == KeepAll(Flat(old(View())), Bodies(responses))
      ensures request.Some? <==> idle && Missing(Flat(View())) != {}
      ensures request.Some? ==> chunks != [] && request.value == FirstGap(View())
    {
      var i := 0;
      while i < |responses|
        invariant 0 <= i <= |responses| && Valid()
        invariant KeepAll(Flat(View()), Bodies(responses[i..])) == KeepAll(Flat(old(View())), Bodies(responses))
      {
        BodiesStep(Flat(View()), responses, i);
        if responses[i].Messages? {
          AddEach(responses[i].ms);
        }
        i := i + 1;
      }
      request := BroadcastRetransmission(idle);
    }

    /** The loop both handlers run. */
    method AddEach(ms: seq<Msg>)
      requires Valid()
      modifies this`messages, this`chunks
      ensures Valid()
      ensures Flat(View()) == KeepAll(Flat(old(View())), ms)
    {
      var rest := ms;
      while rest != []
        invariant Valid()
        invariant KeepAll(Flat(View()), rest) == KeepAll(Flat(old(View())), ms)
        decreases |rest|
      {
        AddMessageRefines(View(), rest[0]);
        AddMessageFromAnySource(rest[0]);
        rest := rest[1..];
      }
    }
  }

  lemma {:induction false} KeepAllJoin(held: seq<Msg>, a: seq<Msg>, b: seq<Msg>)
    ensures KeepAll(held, a + b) == KeepAll(KeepAll(held, a), b)
    decreases |a|
  {
    if a != [] {
      assert (a + b)[1..] == a[1..] + b;
      KeepAllJoin(Keep(held, a[0]), a[1..], b);
    } else {
      assert a + b == b;
    }
  }
}

module MarketSource {
  import opened MarketData
  import opened MarketRecovery

  /** A client whose answer is postponed; `req` is capped. */
  datatype Waiter = Waiter(req: MDRequest, who: nat)

  datatype Answer = Answer(who: nat, response: Response)

  /** The generator numbers messages 1, 2, 3, ... */
  ghost predicate Numbered(ms: seq<Msg>) {
    forall i :: 0 <= i < |ms| ==> ms[i].seqnum == i + 1
  }

  lemma NumberedIsContiguous(ms: seq<Msg>, n: nat)
    requires Numbered(ms) && n <= |ms|
    ensures Contiguous(ms[..n]) && Numbered(ms[..n])
  {}

  /** The order of the multimap: by end, equal ends in order of arrival. */
  ghost predicate SortedByEnd(waiting: seq<Waiter>) {
    forall i, j :: 0 <= i < j < |waiting| ==> waiting[i].req.end <= waiting[j].req.end
  }

  /** The range starts no earlier than the stored messages and is not complete enough to be woken. */
  ghost predicate MayWait(messages: seq<Msg>, w: Waiter) {
    && messages != [] && 1 <= w.req.begin < w.req.end <= w.req.begin + MAX_RESPONSE_COUNT
    && |messages| < w.req.end
  }

  lemma InsertSorted(ws: seq<Waiter>, k: nat, w: Waiter)
    requires SortedByEnd(ws) && k <= |ws|
    requires k > 0 ==> ws[k - 1].req.end <= w.req.end
    requires k < |ws| ==> w.req.end < ws[k].req.end
    ensures SortedByEnd(ws[..k] + [w] + ws[k..])
  {
    var r := ws[..k] + [w] + ws[k..];
    forall i, j | 0 <= i < j < |r|
      ensures r[i].req.end <= r[j].req.end
    {
      assert i < k ==> r[i] == ws[i] && ws[i].req.end <= ws[k - 1].req.end;
      assert j > k ==> r[j] == ws[j - 1] && ws[k].req.end <= ws[j - 1].req.end;
    }
  }

  lemma InsertAdds(ws: seq<Waiter>, k: nat, w: Waiter)
    requires k <= |ws|
    ensures multiset(ws[..k] + [w] + ws[k..]) == multiset(ws) + multiset{w}
    ensures forall x :: x in ws[..k] + [w] + ws[k..] ==> x in ws || x == w
  {
    assert ws == ws[..k] + ws[k..];
  }

  class MDSourceApp {
    var seqnum: nat
    var fastQueue: seq<Msg>
    var messages: seq<Msg>
    var waiting: seq<Waiter>

    ghost predicate Valid()
      reads this
    {
      && Numbered(messages + fastQueue) && seqnum == |messages| + |fastQueue|
      && SortedByEnd(waiting)
      && forall w :: w in waiting ==> MayWait(messages, w)
    }

    constructor ()
      ensures Valid() && messages == fastQueue == [] && waiting == []
    {
      seqnum, fastQueue, messages, waiting := 0, [], [], [];
    }

    /** One message of MDGenerator::on_idle, handed over under the mutex. */
    method Generate(payload: int) returns (msg: Msg)
      requires Valid()
      modifies this`seqnum, this`fastQueue
      ensures Valid() && fastQueue == old(fastQueue) + [msg]
      ensures msg == Msg(old(seqnum) + 1, payload)
    {
      seqnum := seqnum + 1;
      msg := Msg(seqnum, payload);
      fastQueue := fastQueue + [msg];
      assert messages + fastQueue == old(messages + fastQueue) + [msg];
    }

    /** create_response: no index is out of range, whatever is asked. */
    method Respond(req: MDRequest) returns (response: Option<Response>)
      requires Valid() && req.begin < req.end
      ensures Contiguous(messages) && response == CreateResponse(messages, req)
    {
      assert (messages + fastQueue)[..|messages|] == messages;
      NumberedIsContiguous(messages + fastQueue, |messages|);
      if messages == [] || req.begin < messages[0].seqnum {
        return Some(BeforeStart);
      }
      if req.end > Last(messages).seqnum + 1 {
        return None;
      }
      var messagesStart := messages[0].seqnum;
      var body: seq<Msg> := [];
      var s := req.begin;
      while s != req.end
        invariant req.begin <= s <= req.end
        invariant body == messages[req.begin - messagesStart..s - messagesStart]
        decreases req.end - s
      {
        body := body + [messages[s - messagesStart]];
        s := s + 1;
      }
      return Some(Messages(body));
    }

    /** The http request handler; None postpones the answer. */
    method OnRequest(request: MDRequest, who: nat) returns (reply: Option<Response>)
      requires Valid()
      modifies this`waiting
      ensures Valid()
      ensures reply == Some(BadRequest) <==> request.end <= request.begin
      ensures reply.Some? ==> waiting == old(waiting)
      ensures reply.Some? && reply.value.Messages? ==> IsRange(messages, Cap(request), reply.value.ms)
      ensures request.begin < request.end ==>
        (reply == Some(BeforeStart) <==> messages == [] || request.begin < 1)
        && (reply.None? <==> messages != [] && 1 <= request.begin && |messages| + 1 < Cap(request).end)
      ensures reply.None? ==> multiset(waiting) == multiset(old(waiting)) + multiset{Waiter(Cap(request), who)}
    {
      if request.end <= request.begin {
        return Some(BadRequest);
      }
      var req := request;
      if req.end - req.begin > MAX_RESPONSE_COUNT {
        req := MDRequest(req.begin, req.begin + MAX_RESPONSE_COUNT);
      }
      reply := Respond(req);
      FirstAndLast(messages, fastQueue);
      ResponseIsRange(messages, req);
      if reply.None? {
        Postpone(Waiter(req, who));
      }
    }

    /** waiting_clients_inv.emplace: behind all equal ends. */
    method Postpone(w: Waiter)
      requires Valid() && MayWait(messages, w)
      modifies this`waiting
      ensures Valid() && multiset(waiting) == multiset(old(waiting)) + multiset{w}
    {
      var k := |waiting|;
      while k > 0 && w.req.end < waiting[k - 1].req.end
        invariant 0 <= k <= |waiting|
        invariant k < |waiting| ==> w.req.end < waiting[k].req.end
      {
        k := k - 1;
      }
      InsertSorted(waiting, k, w);
      InsertAdds(waiting, k, w);
      waiting := waiting[..k] + [w] + waiting[k..];
    }

    /** The client of a postponed answer is gone. */
    method Forget(k: nat)
      requires Valid() && k < |waiting|
      modifies this`waiting
      ensures Valid() && waiting == old(waiting)[..k] + old(waiting)[k + 1..]
    {
      waiting := waiting[..k] + waiting[k + 1..];
    }

    /** Takes the queue over and answers the clients whose range has come in: they are the first in
        the map, each gets exactly its range, and those with a later end go on waiting. */
    method OnFastQueueChanged() returns (answers: seq<Answer>, threw: bool)
      requires Valid()
      modifies this`fastQueue, this`messages, this`waiting
      ensures Valid() && !threw
      ensures messages == old(messages) + old(fastQueue) && fastQueue == []
      ensures |answers| <= |old(waiting)| && waiting == old(waiting)[|answers|..]
      ensures forall i :: 0 <= i < |answers| ==> AnswersWaiter(messages, answers[i], old(waiting)[i])
    {
      answers, threw := [], false;
      var fq := fastQueue;
      fastQueue := [];
      ghost var all := messages + fq;
      while fq != []
        invariant messages + fq == all && Numbered(all) && !threw
        invariant waiting == old(waiting) && fastQueue == []
        decreases |fq|
      {
        assert fq[0] == all[|messages|] && (messages != [] ==> Last(messages) == all[|messages| - 1]);
        if messages != [] && fq[0].seqnum != Last(messages).seqnum + 1 {
          threw := true;
        }
        messages := messages + [fq[0]];
        fq := fq[1..];
      }
      answers := Wake(all);
    }

    /** The second loop of on_fast_queue_changed. */
    method Wake(ghost all: seq<Msg>) returns (answers: seq<Answer>)
      requires messages == all && Numbered(all) && fastQueue == [] && seqnum == |messages|
      requires SortedByEnd(waiting)
      requires forall w :: w in waiting ==> messages != [] && 1 <= w.req.begin < w.req.end <= w.req.begin + MAX_RESPONSE_COUNT
      modifies this`waiting
      ensures Valid()
      ensures |answers| <= |old(waiting)| && waiting == old(waiting)[|answers|..]
      ensures forall i :: 0 <= i < |answers| ==> AnswersWaiter(messages, answers[i], old(waiting)[i])
    {
      answers := [];
      NumberedIsContiguous(messages, |messages|);
      assert messages[..|messages|] == messages == messages + fastQueue == messages + [];
      while waiting != [] && waiting[0].req.end <= Last(messages).seqnum
        invariant |answers| <= |old(waiting)| && waiting == old(waiting)[|answers|..]
        invariant forall i :: 0 <= i < |answers| ==> AnswersWaiter(messages, answers[i], old(waiting)[i])
        decreases |waiting|
      {
        var w := waiting[0];
        assert w in old(waiting);
        FirstAndLast(messages, []);
        ResponseIsRange(messages, w.req);
        var response := CreateResponse(messages, w.req);
        answers := answers + [Answer(w.who, response.value)];
        waiting := waiting[1..];
      }
      forall w | w in waiting
        ensures MayWait(messages, w)
      {
        assert w in old(waiting);
        assert waiting[0].req.end <= w.req.end;
      }
    }
  }

  lemma FirstAndLast(messages: seq<Msg>, fastQueue: seq<Msg>)
    requires Numbered(messages + fastQueue)
    ensures Contiguous(messages)
    ensures messages != [] ==> messages[0].seqnum == 1 && Last(messages).seqnum == |messages|
  {
    assert (messages + fastQueue)[..|messages|] == messages;
    NumberedIsContiguous(messages + fastQueue, |messages|);
  }

  ghost predicate AnswersWaiter(messages: seq<Msg>, a: Answer, w: Waiter) {
    && a.who == w.who && w.req.end <= |messages|
    && a.response.Messages? && IsRange(messages, w.req, a.response.ms)
  }

  /** A client goes on waiting although its range is complete exactly when the last message is the
      last one of its range: the comparison with the exclusive end wakes it one message late. */
  lemma WokenOneMessageLate(messages: seq<Msg>, w: Waiter)
    requires Numbered(messages) && Contiguous(messages) && MayWait(messages, w)
    ensures CreateResponse(messages, w.req).Some? <==> w.req.end == |messages| + 1
  {}

  /** A client asks for message 2 before it is there. */
  method WaitForSecond() returns (app: MDSourceApp)
    ensures fresh(app) && app.Valid() && app.seqnum == 1 && |app.messages| == 1 && app.fastQueue == []
    ensures app.waiting == [Waiter(MDRequest(2, 3), 7)]
  {
    app := new MDSourceApp();
    var first := app.Generate(4);
    var answers, threw := app.OnFastQueueChanged();
    var reply := app.OnRequest(MDRequest(2, 3), 7);
    OnlyOne(app.waiting, Waiter(MDRequest(2, 3), 7));
  }

  /** It still waits when the message is there and could be answered. */
  method WokenLateExample() returns (app: MDSourceApp)
    ensures app.Valid() && app.waiting == [Waiter(MDRequest(2, 3), 7)]
    ensures Contiguous(app.messages) && CreateResponse(app.messages, MDRequest(2, 3)) == Some(Messages([Msg(2, 5)]))
  {
    app := WaitForSecond();
    ghost var first := app.messages[0];
    assert (app.messages + app.fastQueue)[0].seqnum == 1;
    var second := app.Generate(5);
    var answers, threw := app.OnFastQueueChanged();
    assert app.messages == [first, second];
    assert |answers| > 0 ==> AnswersWaiter(app.messages, answers[0], Waiter(MDRequest(2, 3), 7));
    assert app.messages[1..2] == [Msg(2, 5)];
  }

  lemma OnlyOne<T>(s: seq<T>, x: T)
    requires multiset(s) == multiset{} + multiset{x}
    ensures s == [x]
  {
    assert |s| == |multiset(s)| == 1;
    assert s[0] in multiset(s);
  }
}
