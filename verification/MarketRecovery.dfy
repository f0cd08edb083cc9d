/** Retransmission: the gate's request for its first gap, the source's answer, and what
    applying the answer does. */
module MarketRecovery {
  import opened MarketData

  // ---------- the gate's side ----------

  ghost predicate Has(held: seq<Msg>, s: int) {
    exists i :: 0 <= i < |held| && held[i].seqnum == s
  }

  /** A sequence number between the first and the last held message that is not held. */
  ghost predicate IsMissing(held: seq<Msg>, s: int) {
    held != [] && held[0].seqnum <= s <= Last(held).seqnum && !Has(held, s)
  }

  ghost function Interval(lo: int, hi: int): (r: set<int>)
    ensures forall s :: s in r <==> lo <= s < hi
    ensures |r| == if lo <= hi then hi - lo else 0
    decreases hi - lo
  {
    if lo >= hi then {} else Interval(lo, hi - 1) + {hi - 1}
  }

  ghost function Missing(held: seq<Msg>): (r: set<int>)
    ensures forall s :: s in r <==> IsMissing(held, s)
  {
    if held == [] then {} else set s | s in Interval(held[0].seqnum, Last(held).seqnum + 1) && IsMissing(held, s)
  }

  /** The request of MDGate::broadcast_retransmission. */
  function FirstGap(g: Store): MDRequest
    requires WellFormed(g) && g.chunks != []
  {
    MDRequest(Last(g.messages).seqnum + 1, g.chunks[0][0].seqnum)
  }

  lemma HeldBelowNext(held: seq<Msg>, s: int)
    requires Increasing(held) && held != [] && held[0].seqnum <= s < Next(held)
    ensures Has(held, s)
  {
    GapAfterPrefix(held, s - held[0].seqnum);
    assert held[s - held[0].seqnum].seqnum == s;
  }

  lemma NotHeldInGap(held: seq<Msg>, s: int)
    requires Increasing(held) && held != [] && PrefixLen(held) < |held|
    requires Next(held) <= s < held[PrefixLen(held)].seqnum
    ensures !Has(held, s)
  {
    var p := PrefixLen(held);
    forall i | 0 <= i < |held|
      ensures held[i].seqnum != s
    {
      GapAfterPrefix(held, i);
      assert p < i ==> held[p].seqnum < held[i].seqnum;
    }
  }

  /** With no gap the message waited for is behind the last one, else in front of it. */
  lemma NextAndLast(held: seq<Msg>)
    requires Increasing(held) && held != []
    ensures PrefixLen(held) == |held| ==> Last(held).seqnum < Next(held)
    ensures PrefixLen(held) < |held| ==> Next(held) < held[PrefixLen(held)].seqnum <= Last(held).seqnum
  {
    var p := PrefixLen(held);
    NextBelongs(held);
    assert p < |held| - 1 ==> held[p].seqnum < held[|held| - 1].seqnum;
  }

  /** Below the message waited for everything is held, from there to the first later one nothing is. */
  lemma FirstMissing(held: seq<Msg>, s: int)
    requires Increasing(held) && held != []
    ensures held[0].seqnum <= s < Next(held) ==> Has(held, s)
    ensures IsMissing(held, s) ==> Next(held) <= s && PrefixLen(held) < |held|
    ensures PrefixLen(held) < |held| && Next(held) <= s < held[PrefixLen(held)].seqnum ==> IsMissing(held, s)
  {
    NextAndLast(held);
    if held[0].seqnum <= s < Next(held) {
      HeldBelowNext(held, s);
    } else if PrefixLen(held) < |held| && Next(held) <= s < held[PrefixLen(held)].seqnum {
      NotHeldInGap(held, s);
    }
  }

  /** The gate asks exactly when something is missing, and then for the whole first missing interval:
      its ends touch held messages and nothing is missing before it. */
  lemma RequestIsFirstGap(g: Store)
    requires WellFormed(g)
    ensures g.chunks != [] <==> Missing(Flat(g)) != {}
    ensures g.chunks != [] ==>
      var r := FirstGap(g);
      && r.begin == Next(Flat(g)) && r.begin < r.end <= Last(Flat(g)).seqnum
      && Interval(r.begin, r.end) <= Missing(Flat(g))
      && Has(Flat(g), r.begin - 1) && Has(Flat(g), r.end)
      && (forall s :: s in Missing(Flat(g)) ==> r.begin <= s)
  {
    StoreIsIncreasing(g);
    var held := Flat(g);
    if held != [] {
      forall s
        ensures IsMissing(held, s) ==> Next(held) <= s && PrefixLen(held) < |held|
        ensures PrefixLen(held) < |held| && Next(held) <= s < held[PrefixLen(held)].seqnum ==> IsMissing(held, s)
      {
        FirstMissing(held, s);
      }
    }
    if g.chunks != [] {
      FirstGapIsHere(g);
      assert FirstGap(g).begin in Missing(held);
    } else {
      assert held == g.messages;
    }
  }

  /** The first chunk begins where the prefix ends. */
  lemma ChunksBegin(g: Store)
    requires WellFormed(g) && g.chunks != []
    ensures var held, p := Flat(g), |g.messages|;
      1 <= p < |held| && PrefixLen(held) == p && held[p] == g.chunks[0][0] && held[p - 1] == Last(g.messages)
  {
    StoreIsIncreasing(g);
    ConcatIsIncreasing(g.chunks);
    assert Flat(g)[|g.messages|] == Concat(g.chunks)[0];
  }

  lemma FirstGapIsHere(g: Store)
    requires WellFormed(g) && g.chunks != []
    ensures var held, p, r := Flat(g), |g.messages|, FirstGap(g);
      && PrefixLen(held) == p && p < |held| && held[p] == g.chunks[0][0] && held[p - 1] == Last(g.messages)
      && r.begin == Next(held) && r.begin < r.end <= Last(held).seqnum
      && Has(held, r.begin - 1) && Has(held, r.end)
  {
    var held, p := Flat(g), |g.messages|;
    ChunksBegin(g);
    StoreIsIncreasing(g);
    NextAndLast(held);
    GapAfterPrefix(held, p - 1);
    assert held[p - 1].seqnum == FirstGap(g).begin - 1 && held[p].seqnum == FirstGap(g).end;
  }

  function KeepAll(held: seq<Msg>, ms: seq<Msg>): seq<Msg>
    decreases |ms|
  {
    if ms == [] then held else KeepAll(Keep(held, ms[0]), ms[1..])
  }

  function AddAll(g: Store, ms: seq<Msg>): (r: Store)
    requires WellFormed(g)
    ensures WellFormed(r)
    decreases |ms|
  {
    if ms == [] then g
    else
      AddMessageIsWellFormed(g, ms[0]);
      AddAll(AddMessage(g, ms[0]), ms[1..])
  }

  lemma {:induction false} AddAllRefines(g: Store, ms: seq<Msg>)
    requires WellFormed(g)
    ensures Flat(AddAll(g, ms)) == KeepAll(Flat(g), ms)
    decreases |ms|
  {
    if ms != [] {
      AddMessageIsWellFormed(g, ms[0]);
      AddMessageRefines(g, ms[0]);
      AddAllRefines(AddMessage(g, ms[0]), ms[1..]);
    }
  }

  lemma {:induction false} KeepAllAppend(held: seq<Msg>, ms: seq<Msg>, m: Msg)
    ensures KeepAll(held, ms + [m]) == Keep(KeepAll(held, ms), m)
    decreases |ms|
  {
    if ms != [] {
      assert (ms + [m])[1..] == ms[1..] + [m];
      KeepAllAppend(Keep(held, ms[0]), ms[1..], m);
    }
  }

  lemma {:induction false} AddAllAppend(g: Store, ms: seq<Msg>, m: Msg)
    requires WellFormed(g)
    ensures AddAll(g, ms + [m]) == AddMessage(AddAll(g, ms), m)
    decreases |ms|
  {
    if ms != [] {
      AddMessageIsWellFormed(g, ms[0]);
      assert (ms + [m])[1..] == ms[1..] + [m];
      AddAllAppend(AddMessage(g, ms[0]), ms[1..], m);
    } else {
      assert [m][1..] == [];
    }
  }

  /** Whatever arrives in whatever order, nothing held is lost and everything new came in. */
  lemma {:induction false} KeepAllOnlyAdds(held: seq<Msg>, ms: seq<Msg>)
    requires Increasing(held)
    ensures Increasing(KeepAll(held, ms))
    ensures forall m :: m in held ==> m in KeepAll(held, ms)
    ensures forall m :: m in KeepAll(held, ms) ==> m in held || m in ms
    ensures held != [] ==> KeepAll(held, ms) != [] && KeepAll(held, ms)[0] == held[0]
                           && Next(held) <= Next(KeepAll(held, ms))
                           && Last(held).seqnum <= Last(KeepAll(held, ms)).seqnum
    decreases |ms|
  {
    if ms != [] {
      KeepIsIncreasing(held, ms[0]);
      if held != [] {
        KeepAdvances(held, ms[0]);
      }
      KeepAllOnlyAdds(Keep(held, ms[0]), ms[1..]);
    }
  }

  lemma HasInserted(held: seq<Msg>, p: nat, m: Msg, s: int)
    requires p <= |held|
    ensures Has(Inserted(held, p, m), s) <==> Has(held, s) || s == m.seqnum
  {
    var kept := Inserted(held, p, m);
    InsertedAt(held, p, m, p);
    if Has(held, s) {
      var i :| 0 <= i < |held| && held[i].seqnum == s;
      InsertedAt(held, p, m, if i < p then i else i + 1);
      assert kept[if i < p then i else i + 1].seqnum == s;
    }
    if Has(kept, s) && s != m.seqnum {
      var i :| 0 <= i < |kept| && kept[i].seqnum == s;
      InsertedAt(held, p, m, i);
      assert held[if i < p then i else i - 1].seqnum == s;
    }
  }

  /** The message waited for is no longer missing. */
  lemma NextShrinksMissing(held: seq<Msg>, m: Msg, s: int)
    requires Increasing(held) && held != [] && m.seqnum == Next(held) <= Last(held).seqnum
    ensures IsMissing(Keep(held, m), s) <==> IsMissing(held, s) && s != m.seqnum
    ensures Keep(held, m) != [] && Last(Keep(held, m)) == Last(held)
  {
    NextAndLast(held);
    InsertedEnds(held, PrefixLen(held), m);
    HasInserted(held, PrefixLen(held), m, s);
  }

  lemma KeepShrinksMissing(held: seq<Msg>, m: Msg, s: int)
    requires Increasing(held) && held != []
    requires held[0].seqnum <= m.seqnum <= Next(held) && m.seqnum <= Last(held).seqnum
    ensures IsMissing(Keep(held, m), s) <==> IsMissing(held, s) && s != m.seqnum
    ensures Keep(held, m) != [] && Last(Keep(held, m)) == Last(held)
  {
    if m.seqnum == Next(held) {
      NextShrinksMissing(held, m, s);
    } else {
      HeldBelowNext(held, m.seqnum);
    }
  }

  lemma RestIsContiguous(ms: seq<Msg>)
    requires Contiguous(ms) && ms != []
    ensures Contiguous(ms[1..]) && (|ms| > 1 ==> ms[1].seqnum == ms[0].seqnum + 1)
    ensures |ms| > 1 ==> Last(ms[1..]) == Last(ms)
  {
    forall i | 0 <= i < |ms| - 1
      ensures ms[1..][i].seqnum == ms[1].seqnum + i
    {
      assert ms[1..][i] == ms[i + 1];
    }
  }

  lemma FirstOfAnswer(held: seq<Msg>, m: Msg, s: int)
    requires Increasing(held) && held != []
    requires held[0].seqnum <= m.seqnum <= Next(held) && m.seqnum <= Last(held).seqnum
    ensures var k := Keep(held, m);
      && Increasing(k) && k != [] && k[0] == held[0] && Last(k) == Last(held) && m.seqnum < Next(k)
      && (IsMissing(k, s) <==> IsMissing(held, s) && s != m.seqnum)
  {
    KeepIsIncreasing(held, m);
    KeepAdvances(held, m);
    KeepShrinksMissing(held, m, s);
  }

  /** Applying an answer that starts no later than the message waited for, and lies within what is
      held, removes exactly its range from the missing numbers. */
  lemma {:induction false} AnswerFillsItsRange(held: seq<Msg>, ms: seq<Msg>, s: int)
    requires Increasing(held) && held != []
    requires ms != [] && Contiguous(ms)
    requires held[0].seqnum <= ms[0].seqnum <= Next(held) && Last(ms).seqnum <= Last(held).seqnum
    ensures KeepAll(held, ms) != [] && Last(KeepAll(held, ms)) == Last(held)
    ensures IsMissing(KeepAll(held, ms), s) <==> IsMissing(held, s) && !(ms[0].seqnum <= s <= Last(ms).seqnum)
    ensures Last(ms).seqnum < Next(KeepAll(held, ms))
    decreases |ms|
  {
    var k := Keep(held, ms[0]);
    FirstOfAnswer(held, ms[0], s);
    RestIsContiguous(ms);
    if |ms| > 1 {
      AnswerFillsItsRange(k, ms[1..], s);
    } else {
      assert KeepAll(held, ms) == KeepAll(k, []) == k;
    }
  }

  // ---------- the source's side ----------

  datatype Response = BadRequest | BeforeStart | Messages(ms: seq<Msg>)

  /** The limit on the size of one answer. */
  function Cap(req: MDRequest): MDRequest {
    if req.end - req.begin > MAX_RESPONSE_COUNT then MDRequest(req.begin, req.begin + MAX_RESPONSE_COUNT) else req
  }

  /** MDSourceApp::create_response; None when the range is not complete yet. */
  function CreateResponse(messages: seq<Msg>, req: MDRequest): Option<Response>
    requires Contiguous(messages) && req.begin < req.end
  {
    if messages == [] || req.begin < messages[0].seqnum then Some(BeforeStart)
    else if req.end > Last(messages).seqnum + 1 then None
    else Some(Messages(messages[req.begin - messages[0].seqnum..req.end - messages[0].seqnum]))
  }

  /** `ms` is the range of the request, complete and in order, out of `messages`. */
  predicate IsRange(messages: seq<Msg>, req: MDRequest, ms: seq<Msg>) {
    && |ms| == req.end - req.begin
    && forall i :: 0 <= i < |ms| ==> ms[i] in messages && ms[i].seqnum == req.begin + i
  }

  lemma ResponseIsRange(messages: seq<Msg>, req: MDRequest)
    requires Contiguous(messages) && req.begin < req.end
    ensures var r := CreateResponse(messages, req);
      && (r.Some? && r.value.Messages? ==> IsRange(messages, req, r.value.ms) && Contiguous(r.value.ms))
      && (r.Some? && r.value.Messages? <==>
          messages != [] && messages[0].seqnum <= req.begin && req.end <= Last(messages).seqnum + 1)
  {
    var r := CreateResponse(messages, req);
    if r.Some? && r.value.Messages? {
      var ms, b := r.value.ms, req.begin - messages[0].seqnum;
      forall i | 0 <= i < |ms|
        ensures ms[i] in messages && ms[i].seqnum == req.begin + i
      {
        assert ms[i] == messages[b + i];
      }
    }
  }

  // ---------- one round of recovery ----------

  /** The answer to the gate's current request strictly shrinks what is missing. */
  lemma RoundShrinksMissing(g: Store, messages: seq<Msg>)
    requires WellFormed(g) && g.chunks != [] && Contiguous(messages)
    requires var r := CreateResponse(messages, Cap(FirstGap(g))); r.Some? && r.value.Messages?
    ensures var r := Cap(FirstGap(g));
      var g' := AddAll(g, CreateResponse(messages, r).value.ms);
      && WellFormed(g')
      && Missing(Flat(g')) == Missing(Flat(g)) - Interval(r.begin, r.end)
      && |Missing(Flat(g'))| == |Missing(Flat(g))| - (r.end - r.begin) < |Missing(Flat(g))|
  {
    var r := Cap(FirstGap(g));
    RequestIsFirstGap(g);
    ResponseIsRange(messages, r);
    GapIsFilled(g, r, CreateResponse(messages, r).value.ms);
  }

  lemma GapIsFilled(g: Store, r: MDRequest, ms: seq<Msg>)
    requires WellFormed(g) && g.chunks != [] && Contiguous(ms) && ms != []
    requires r.begin == FirstGap(g).begin && r.end <= FirstGap(g).end
    requires ms[0].seqnum == r.begin && Last(ms).seqnum + 1 == r.end
    requires Interval(FirstGap(g).begin, FirstGap(g).end) <= Missing(Flat(g))
    ensures var held := Flat(AddAll(g, ms));
      && Missing(held) == Missing(Flat(g)) - Interval(r.begin, r.end)
      && |Missing(held)| == |Missing(Flat(g))| - (r.end - r.begin)
  {
    GapIsRemoved(g, r, ms);
    assert Interval(r.begin, r.end) <= Interval(FirstGap(g).begin, FirstGap(g).end);
  }

  lemma GapIsRemoved(g: Store, r: MDRequest, ms: seq<Msg>)
    requires WellFormed(g) && g.chunks != [] && Contiguous(ms) && ms != []
    requires r.begin == FirstGap(g).begin && r.end <= FirstGap(g).end
    requires ms[0].seqnum == r.begin && Last(ms).seqnum + 1 == r.end
    ensures Missing(Flat(AddAll(g, ms))) == Missing(Flat(g)) - Interval(r.begin, r.end)
  {
    forall s
      ensures IsMissing(Flat(AddAll(g, ms)), s) <==> IsMissing(Flat(g), s) && !(r.begin <= s < r.end)
    {
      AnswerFillsGap(g, ms, s);
    }
  }

  /** The answer applied to the store, seen at one sequence number. */
  lemma AnswerFillsGap(g: Store, ms: seq<Msg>, s: int)
    requires WellFormed(g) && g.chunks != []
    requires ms != [] && Contiguous(ms) && ms[0].seqnum == FirstGap(g).begin && Last(ms).seqnum < FirstGap(g).end
    ensures IsMissing(Flat(AddAll(g, ms)), s) <==> IsMissing(Flat(g), s) && !(ms[0].seqnum <= s <= Last(ms).seqnum)
    ensures Flat(AddAll(g, ms)) != [] && Last(Flat(AddAll(g, ms))) == Last(Flat(g))
  {
    StoreIsIncreasing(g);
    FirstGapIsHere(g);
    AddAllRefines(g, ms);
    FirstMissing(Flat(g), FirstGap(g).begin);
    AnswerFillsItsRange(Flat(g), ms, s);
  }

  /** An answer that was not cut closes the gap: the first chunk joins the continuous stream. */
  lemma UncappedAnswerMergesChunk(g: Store, ms: seq<Msg>)
    requires WellFormed(g) && g.chunks != []
    requires Contiguous(ms) && ms != [] && ms[0].seqnum == FirstGap(g).begin && Last(ms).seqnum + 1 == FirstGap(g).end
    ensures var g' := AddAll(g, ms);
      g'.messages != [] && Last(g.chunks[0]).seqnum <= Last(g'.messages).seqnum
  {
    var g', top := AddAll(g, ms), Last(g.chunks[0]).seqnum;
    StoreIsIncreasing(g');
    forall s | Flat(g)[0].seqnum <= s <= top
      ensures !IsMissing(Flat(g'), s)
    {
      NothingMissingInChunk(g, ms, s);
    }
    StartIsKept(g, ms, top);
    NothingMissingBelow(Flat(g'), top);
    assert Flat(g')[..|g'.messages|] == g'.messages;
    GapAfterPrefix(Flat(g'), |g'.messages| - 1);
  }

  lemma NothingMissingInChunk(g: Store, ms: seq<Msg>, s: int)
    requires WellFormed(g) && g.chunks != []
    requires Contiguous(ms) && ms != [] && ms[0].seqnum == FirstGap(g).begin && Last(ms).seqnum + 1 == FirstGap(g).end
    requires s <= Last(g.chunks[0]).seqnum
    ensures !IsMissing(Flat(AddAll(g, ms)), s)
  {
    AnswerFillsGap(g, ms, s);
    StoreIsIncreasing(g);
    FirstGapIsHere(g);
    FirstMissing(Flat(g), s);
    if g.chunks[0][0].seqnum <= s {
      ChunkIsHeld(g, s);
    }
  }

  lemma StartIsKept(g: Store, ms: seq<Msg>, s: int)
    requires WellFormed(g) && g.chunks != []
    requires Contiguous(ms) && ms != [] && ms[0].seqnum == FirstGap(g).begin && Last(ms).seqnum + 1 == FirstGap(g).end
    requires g.chunks[0][0].seqnum <= s <= Last(g.chunks[0]).seqnum
    ensures var kept := Flat(AddAll(g, ms));
      kept != [] && kept[0] == Flat(g)[0] && s <= Last(kept).seqnum
  {
    AnswerFillsGap(g, ms, s);
    StoreIsIncreasing(g);
    AddAllRefines(g, ms);
    KeepAllOnlyAdds(Flat(g), ms);
    ChunkIsHeld(g, s);
  }

  lemma ChunkIsHeld(g: Store, s: int)
    requires WellFormed(g) && g.chunks != []
    requires g.chunks[0][0].seqnum <= s <= Last(g.chunks[0]).seqnum
    ensures Has(Flat(g), s) && s <= Last(Flat(g)).seqnum
  {
    var c, p := g.chunks[0], |g.messages|;
    var k := s - c[0].seqnum;
    assert Flat(g) == g.messages + c + Concat(g.chunks[1..]);
    assert Flat(g)[p + k] == c[k] && c[k].seqnum == s;
    StoreIsIncreasing(g);
    assert p + k < |Flat(g)| - 1 ==> Flat(g)[p + k].seqnum < Last(Flat(g)).seqnum;
  }

  lemma NothingMissingBelow(held: seq<Msg>, top: int)
    requires Increasing(held) && held != [] && top <= Last(held).seqnum
    requires forall s :: held[0].seqnum <= s <= top ==> !IsMissing(held, s)
    ensures top < Next(held)
  {
    GapAfterPrefix(held, |held| - 1);
    if PrefixLen(held) < |held| {
      GapAfterPrefix(held, PrefixLen(held));
      FirstMissing(held, Next(held));
    }
  }
}
