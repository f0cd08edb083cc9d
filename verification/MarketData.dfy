/** The market-data example: a source of consecutively numbered messages and a gate that
    recovers what its live link lost (examples/md_tcp_source.cpp, examples/md_gate.cpp). */
module MarketData {

  datatype Option<+T> = None | Some(value: T)

  /** Sequence numbers are unbounded here; 64 bits do not wrap in the life of a process. */
  datatype Msg = Msg(seqnum: nat, payload: int)

  /** The half-open range [begin, end). */
  datatype MDRequest = MDRequest(begin: nat, end: nat)

  const MAX_RESPONSE_COUNT: nat := 10000

  // ---------- runs of consecutive messages ----------

  predicate Contiguous(ms: seq<Msg>) {
    forall i :: 0 <= i < |ms| ==> ms[i].seqnum == ms[0].seqnum + i
  }

  predicate Increasing(ms: seq<Msg>) {
    forall i, j :: 0 <= i < j < |ms| ==> ms[i].seqnum < ms[j].seqnum
  }

  function Last(ms: seq<Msg>): Msg
    requires ms != []
  {
    ms[|ms| - 1]
  }

  // ---------- the simple model: everything the gate holds, in one increasing sequence ----------

  /** The length of the longest contiguous prefix. */
  function PrefixLen(held: seq<Msg>): (n: nat)
    ensures n <= |held| && Contiguous(held[..n])
    ensures held != [] ==> n >= 1
    ensures n < |held| && held != [] ==> held[n].seqnum != held[0].seqnum + n
  {
    if |held| <= 1 then |held|
    else
      var n := PrefixLen(held[..|held| - 1]);
      if n == |held| - 1 && Last(held).seqnum == held[0].seqnum + n then
        assert held[..|held| - 1][..n] == held[..n];
        assert Contiguous(held[..n]);
        |held|
      else
        assert held[..|held| - 1][..n] == held[..n];
        n
  }

  /** The sequence number the gate waits for. */
  function Next(held: seq<Msg>): nat
    requires held != []
  {
    held[0].seqnum + PrefixLen(held)
  }

  /** A message is kept when it is the first one, the one waited for, or newer than all others. */
  predicate Wanted(held: seq<Msg>, msg: Msg) {
    held == [] || msg.seqnum == Next(held) || msg.seqnum > Last(held).seqnum
  }

  function Inserted(held: seq<Msg>, p: nat, msg: Msg): seq<Msg>
    requires p <= |held|
  {
    held[..p] + [msg] + held[p..]
  }

  function Keep(held: seq<Msg>, msg: Msg): seq<Msg> {
    if held == [] then [msg]
    else if msg.seqnum == Next(held) then Inserted(held, PrefixLen(held), msg)
    else if msg.seqnum > Last(held).seqnum then held + [msg]
    else held
  }

  lemma PrefixIsUnique(held: seq<Msg>, n: nat)
    requires 1 <= n <= |held| && Contiguous(held[..n])
    requires n < |held| ==> held[n].seqnum != held[0].seqnum + n
    ensures PrefixLen(held) == n
  {
    ContiguousAgain(held, n);
    ContiguousAgain(held, PrefixLen(held));
  }

  lemma ContiguousAgain(held: seq<Msg>, n: nat)
    requires n <= |held|
    ensures Contiguous(held[..n]) <==> forall i :: 0 <= i < n ==> held[i].seqnum == held[0].seqnum + i
  {
    assert forall i :: 0 <= i < n ==> held[..n][i] == held[i];
  }

  /** Beyond the prefix there is a gap, then everything is later than the message waited for. */
  lemma GapAfterPrefix(held: seq<Msg>, i: nat)
    requires Increasing(held) && i < |held|
    ensures i < PrefixLen(held) ==> held[i].seqnum == held[0].seqnum + i
    ensures PrefixLen(held) <= i ==> Next(held) < held[i].seqnum
  {
    var p := PrefixLen(held);
    ContiguousAgain(held, p);
    if p <= i {
      assert held[p - 1].seqnum == held[0].seqnum + (p - 1);
      assert held[p - 1].seqnum < held[p].seqnum;
    }
  }

  lemma InsertedAt(held: seq<Msg>, p: nat, msg: Msg, i: nat)
    requires p <= |held| && i <= |held|
    ensures Inserted(held, p, msg)[i] == if i < p then held[i] else if i == p then msg else held[i - 1]
  {}

  lemma InsertedMembers(held: seq<Msg>, p: nat, msg: Msg, m: Msg)
    requires p <= |held|
    ensures m in Inserted(held, p, msg) <==> m in held || m == msg
  {
    assert held == held[..p] + held[p..];
  }

  lemma InsertedIsIncreasing(held: seq<Msg>, p: nat, msg: Msg)
    requires Increasing(held) && p <= |held|
    requires p > 0 ==> held[p - 1].seqnum < msg.seqnum
    requires p < |held| ==> msg.seqnum < held[p].seqnum
    ensures Increasing(Inserted(held, p, msg))
  {
    var kept := Inserted(held, p, msg);
    forall i, j | 0 <= i < j < |kept|
      ensures kept[i].seqnum < kept[j].seqnum
    {
      InsertedAt(held, p, msg, i);
      InsertedAt(held, p, msg, j);
      assert i < p - 1 ==> held[i].seqnum < held[p - 1].seqnum;
      assert p < j - 1 ==> held[p].seqnum < held[j - 1].seqnum;
    }
  }

  lemma AppendedIsIncreasing(held: seq<Msg>, msg: Msg)
    requires Increasing(held) && held != [] && Last(held).seqnum < msg.seqnum
    ensures Increasing(held + [msg])
  {
    assert Inserted(held, |held|, msg) == held + [msg];
    InsertedIsIncreasing(held, |held|, msg);
  }

  /** The message waited for belongs behind the prefix. */
  lemma NextBelongs(held: seq<Msg>)
    requires Increasing(held) && held != []
    ensures var p := PrefixLen(held);
      1 <= p <= |held| && held[p - 1].seqnum < Next(held) && (p < |held| ==> Next(held) < held[p].seqnum)
  {
    GapAfterPrefix(held, PrefixLen(held) - 1);
    if PrefixLen(held) < |held| {
      GapAfterPrefix(held, PrefixLen(held));
    }
  }

  lemma KeepIsIncreasing(held: seq<Msg>, msg: Msg)
    requires Increasing(held)
    ensures Increasing(Keep(held, msg))
    ensures forall m :: m in Keep(held, msg) <==> m in held || (m == msg && Wanted(held, msg))
  {
    if held != [] {
      if msg.seqnum == Next(held) {
        NextBelongs(held);
        InsertedIsIncreasing(held, PrefixLen(held), msg);
        forall m
          ensures m in Keep(held, msg) <==> m in held || m == msg
        {
          InsertedMembers(held, PrefixLen(held), msg, m);
        }
      } else if msg.seqnum > Last(held).seqnum {
        AppendedIsIncreasing(held, msg);
      }
    }
  }

  lemma InsertedEnds(held: seq<Msg>, p: nat, msg: Msg)
    requires 1 <= p <= |held|
    ensures Inserted(held, p, msg)[0] == held[0]
    ensures Last(Inserted(held, p, msg)) == if p < |held| then Last(held) else msg
  {
    InsertedAt(held, p, msg, 0);
    InsertedAt(held, p, msg, |held|);
  }

  /** The prefix is longer by the message waited for. */
  lemma PrefixAdvances(held: seq<Msg>, msg: Msg, kept: seq<Msg>)
    requires Increasing(held) && held != [] && msg.seqnum == Next(held) && kept == Inserted(held, PrefixLen(held), msg)
    ensures PrefixLen(held) < PrefixLen(kept)
  {
    var p := PrefixLen(held);
    forall i | 0 <= i <= p
      ensures kept[i].seqnum == held[0].seqnum + i
    {
      InsertedAt(held, p, msg, i);
      if i < p {
        GapAfterPrefix(held, i);
      }
    }
    assert kept[0].seqnum == held[0].seqnum + 0;
    ContiguousAgain(kept, p + 1);
    PrefixAtLeast(kept, p + 1);
  }

  /** The message waited for never goes back, and a message newer than all others does not move it
      unless it is the one waited for. */
  lemma KeepAdvances(held: seq<Msg>, msg: Msg)
    requires Increasing(held) && held != []
    ensures Keep(held, msg) != [] && Keep(held, msg)[0] == held[0]
    ensures Last(Keep(held, msg)).seqnum >= Last(held).seqnum
    ensures if msg.seqnum == Next(held) then Next(Keep(held, msg)) > Next(held) else Next(Keep(held, msg)) == Next(held)
  {
    if msg.seqnum == Next(held) {
      NextBelongs(held);
      InsertedEnds(held, PrefixLen(held), msg);
      PrefixAdvances(held, msg, Keep(held, msg));
    } else if msg.seqnum > Last(held).seqnum {
      GapStays(held, msg, held + [msg]);
    }
  }

  lemma GapStays(held: seq<Msg>, msg: Msg, kept: seq<Msg>)
    requires Increasing(held) && held != [] && msg.seqnum > Last(held).seqnum && msg.seqnum != Next(held)
    requires kept == held + [msg]
    ensures Next(kept) == Next(held)
  {
    var p := PrefixLen(held);
    assert kept[..p] == held[..p];
    PrefixIsUnique(kept, p);
  }

  lemma PrefixAtLeast(held: seq<Msg>, n: nat)
    requires n <= |held| && Contiguous(held[..n])
    ensures n <= PrefixLen(held)
  {
    ContiguousAgain(held, n);
  }

  // ---------- the gate's two-level store refines it ----------

  /** `messages` is the continuous stream, `chunks` what came after gaps. */
  datatype Store = Store(messages: seq<Msg>, chunks: seq<seq<Msg>>)

  function Concat(chunks: seq<seq<Msg>>): seq<Msg> {
    if chunks == [] then [] else chunks[0] + Concat(chunks[1..])
  }

  function Flat(g: Store): seq<Msg> {
    g.messages + Concat(g.chunks)
  }

  /** Contiguous parts, in order, with non-empty gaps between them. */
  predicate WellFormed(g: Store) {
    && (g.messages == [] ==> g.chunks == [])
    && Contiguous(g.messages)
    && (forall i :: 0 <= i < |g.chunks| ==> g.chunks[i] != [] && Contiguous(g.chunks[i]))
    && (forall i :: 0 <= i < |g.chunks| - 1 ==> Last(g.chunks[i]).seqnum + 1 < g.chunks[i + 1][0].seqnum)
    && (g.chunks != [] ==> Last(g.messages).seqnum + 1 < g.chunks[0][0].seqnum)
  }

  lemma {:induction false} ConcatAppend(chunks: seq<seq<Msg>>, c: seq<Msg>)
    ensures Concat(chunks + [c]) == Concat(chunks) + c
  {
    if chunks == [] {
      assert Concat([c]) == c + Concat([]);
    } else {
      assert (chunks + [c])[1..] == chunks[1..] + [c];
      ConcatAppend(chunks[1..], c);
    }
  }

  lemma {:induction false} ConcatIsIncreasing(chunks: seq<seq<Msg>>)
    requires forall i :: 0 <= i < |chunks| ==> chunks[i] != [] && Contiguous(chunks[i])
    requires forall i :: 0 <= i < |chunks| - 1 ==> Last(chunks[i]).seqnum + 1 < chunks[i + 1][0].seqnum
    ensures Increasing(Concat(chunks))
    ensures chunks != [] ==> Concat(chunks) != [] && Concat(chunks)[0] == chunks[0][0]
                             && Last(Concat(chunks)) == Last(chunks[|chunks| - 1])
  {
    if chunks != [] {
      var rest := chunks[1..];
      ConcatIsIncreasing(rest);
      JoinIncreasing(chunks[0], Concat(rest));
    }
  }

  lemma JoinIncreasing(a: seq<Msg>, b: seq<Msg>)
    requires Contiguous(a) && Increasing(b)
    requires a != [] && b != [] ==> Last(a).seqnum < b[0].seqnum
    ensures Increasing(a + b)
  {
    var s := a + b;
    forall i, j | 0 <= i < j < |s|
      ensures s[i].seqnum < s[j].seqnum
    {
      if i < |a| <= j {
        assert a[i].seqnum <= Last(a).seqnum < b[0].seqnum <= b[j - |a|].seqnum;
      }
    }
  }

  /** The stored sequence numbers increase strictly, so none is stored twice; `messages` is the
      longest contiguous prefix. */
  lemma StoreIsIncreasing(g: Store)
    requires WellFormed(g)
    ensures Increasing(Flat(g))
    ensures PrefixLen(Flat(g)) == |g.messages|
    ensures g.chunks != [] ==> Last(Flat(g)) == Last(g.chunks[|g.chunks| - 1])
    ensures g.chunks == [] && g.messages != [] ==> Last(Flat(g)) == Last(g.messages)
  {
    ConcatIsIncreasing(g.chunks);
    JoinIncreasing(g.messages, Concat(g.chunks));
    var held := Flat(g);
    if g.messages != [] {
      assert held[..|g.messages|] == g.messages;
      PrefixIsUnique(held, |g.messages|);
    }
  }

  /** MDGate::add_message_from_any_source. */
  function AddMessage(g: Store, msg: Msg): Store
    requires WellFormed(g)
  {
    if g.messages == [] then Store([msg], [])
    else
      var next := Last(g.messages).seqnum + 1;
      if msg.seqnum < next then g
      else if msg.seqnum == next then
        if g.chunks != [] && g.chunks[0][0].seqnum == msg.seqnum + 1
        then Store(g.messages + [msg] + g.chunks[0], g.chunks[1..])
        else Store(g.messages + [msg], g.chunks)
      else if g.chunks == [] then Store(g.messages, [[msg]])
      else
        var last := |g.chunks| - 1;
        var nextChunk := Last(g.chunks[last]).seqnum + 1;
        if msg.seqnum < nextChunk then g
        else if msg.seqnum > nextChunk then Store(g.messages, g.chunks + [[msg]])
        else Store(g.messages, g.chunks[last := g.chunks[last] + [msg]])
  }

  lemma NextMessageFits(g: Store, msg: Msg)
    requires WellFormed(g) && g.messages != [] && msg.seqnum == Last(g.messages).seqnum + 1
    ensures WellFormed(AddMessage(g, msg))
  {
    if g.chunks != [] && g.chunks[0][0].seqnum == msg.seqnum + 1 {
      var more := g.messages + [msg] + g.chunks[0];
      assert Contiguous(more) && Last(more) == Last(g.chunks[0]);
    }
  }

  lemma LaterMessageFits(g: Store, msg: Msg)
    requires WellFormed(g) && g.messages != [] && msg.seqnum > Last(g.messages).seqnum + 1
    ensures WellFormed(AddMessage(g, msg))
  {}

  lemma AddMessageIsWellFormed(g: Store, msg: Msg)
    requires WellFormed(g)
    ensures WellFormed(AddMessage(g, msg))
  {
    if g.messages != [] {
      if msg.seqnum == Last(g.messages).seqnum + 1 {
        NextMessageFits(g, msg);
      } else if msg.seqnum > Last(g.messages).seqnum + 1 {
        LaterMessageFits(g, msg);
      }
    }
  }

  /** The refinement: the two-level store always spells out what the simple model holds. */
  lemma AddMessageRefines(g: Store, msg: Msg)
    requires WellFormed(g)
    ensures Flat(AddMessage(g, msg)) == Keep(Flat(g), msg)
  {
    if g.messages == [] {
      assert Flat(AddMessage(g, msg)) == [msg] + Concat([]);
    } else {
      NextOfStore(g);
      if msg.seqnum == Last(g.messages).seqnum + 1 {
        PrefixGrows(g, msg);
      } else if Last(g.messages).seqnum + 1 < msg.seqnum
                && (g.chunks == [] || Last(g.chunks[|g.chunks| - 1]).seqnum < msg.seqnum) {
        AppendedChunk(g, msg);
      } else {
        OldIsIgnored(g, msg);
      }
    }
  }

  lemma NextOfStore(g: Store)
    requires WellFormed(g) && g.messages != []
    ensures Flat(g) != [] && PrefixLen(Flat(g)) == |g.messages| && Next(Flat(g)) == Last(g.messages).seqnum + 1
    ensures Last(Flat(g)) == if g.chunks == [] then Last(g.messages) else Last(g.chunks[|g.chunks| - 1])
    ensures Last(g.messages).seqnum <= Last(Flat(g)).seqnum
  {
    StoreIsIncreasing(g);
    assert Flat(g)[0] == g.messages[0];
    assert Flat(g)[|g.messages| - 1] == Last(g.messages);
  }

  lemma OldIsIgnored(g: Store, msg: Msg)
    requires WellFormed(g) && g.messages != [] && msg.seqnum != Next(Flat(g)) && msg.seqnum <= Last(Flat(g)).seqnum
    ensures AddMessage(g, msg) == g && Keep(Flat(g), msg) == Flat(g)
  {
    NextOfStore(g);
  }

  lemma PrefixGrows(g: Store, msg: Msg)
    requires WellFormed(g) && g.messages != []
    requires msg.seqnum == Last(g.messages).seqnum + 1
    ensures Flat(AddMessage(g, msg)) == g.messages + [msg] + Concat(g.chunks)
    ensures Flat(g)[..|g.messages|] == g.messages && Flat(g)[|g.messages|..] == Concat(g.chunks)
  {
    if g.chunks != [] && g.chunks[0][0].seqnum == msg.seqnum + 1 {
      assert g.messages + [msg] + g.chunks[0] + Concat(g.chunks[1..]) == g.messages + [msg] + Concat(g.chunks);
    }
  }

  lemma AppendedChunk(g: Store, msg: Msg)
    requires WellFormed(g) && g.messages != []
    requires Last(g.messages).seqnum + 1 < msg.seqnum
    requires g.chunks != [] ==> Last(g.chunks[|g.chunks| - 1]).seqnum < msg.seqnum
    ensures Flat(AddMessage(g, msg)) == Flat(g) + [msg]
  {
    if g.chunks == [] {
      assert Concat([[msg]]) == [msg] + Concat([]);
    } else if msg.seqnum > Last(g.chunks[|g.chunks| - 1]).seqnum + 1 {
      ConcatAppend(g.chunks, [msg]);
    } else {
      LastChunkGrows(g.chunks, msg);
    }
  }

  lemma LastChunkGrows(chunks: seq<seq<Msg>>, msg: Msg)
    requires chunks != []
    ensures var last := |chunks| - 1; Concat(chunks[last := chunks[last] + [msg]]) == Concat(chunks) + [msg]
  {
    var last, init := |chunks| - 1, chunks[..|chunks| - 1];
    assert chunks == init + [chunks[last]];
    assert chunks[last := chunks[last] + [msg]] == init + [chunks[last] + [msg]];
    ConcatAppend(init, chunks[last]);
    ConcatAppend(init, chunks[last] + [msg]);
  }

  lemma SameFront(g: Store, h: Store)
    requires WellFormed(g) && WellFormed(h) && Flat(g) == Flat(h)
    ensures g.messages == h.messages && Concat(g.chunks) == Concat(h.chunks)
  {
    StoreIsIncreasing(g);
    StoreIsIncreasing(h);
    assert g.messages == Flat(g)[..|g.messages|] && h.messages == Flat(h)[..|h.messages|];
    assert Concat(g.chunks) == Flat(g)[|g.messages|..] && Concat(h.chunks) == Flat(h)[|h.messages|..];
  }

  /** The chunks are a store by themselves. */
  lemma ChunksAreStore(g: Store)
    requires WellFormed(g) && g.chunks != []
    ensures WellFormed(Store(g.chunks[0], g.chunks[1..])) && Concat(g.chunks) != []
  {
    var rest: seq<seq<Msg>> := g.chunks[1..];
    forall i | 0 <= i < |rest|
      ensures rest[i] != [] && Contiguous(rest[i])
    {
      assert rest[i] == g.chunks[i + 1];
    }
    forall i | 0 <= i < |rest| - 1
      ensures Last(rest[i]).seqnum + 1 < rest[i + 1][0].seqnum
    {
      assert rest[i] == g.chunks[i + 1] && rest[i + 1] == g.chunks[i + 2];
    }
  }

  /** The store is a canonical form: it is determined by what it holds. */
  lemma {:induction false} StoreIsCanonical(g: Store, h: Store)
    requires WellFormed(g) && WellFormed(h) && Flat(g) == Flat(h)
    ensures g == h
    decreases |g.chunks|
  {
    SameFront(g, h);
    if g.chunks != [] {
      ChunksAreStore(g);
    }
    if h.chunks != [] {
      ChunksAreStore(h);
    }
    if g.chunks != [] && h.chunks != [] {
      StoreIsCanonical(Store(g.chunks[0], g.chunks[1..]), Store(h.chunks[0], h.chunks[1..]));
      SameRow(g.chunks, h.chunks);
    }
  }

  lemma SameRow<T>(a: seq<T>, b: seq<T>)
    requires a != [] && b != [] && a[0] == b[0] && a[1..] == b[1..]
    ensures a == b
  {
    assert a == [a[0]] + a[1..] && b == [b[0]] + b[1..];
  }
}
