/** BufferedTCPSocket (include/crab/http/connection.hxx): a socket that writes short, a queue for
    the rest, and a FIN that waits for the queue. */
module BufferedSocket {

  /** The socket underneath. It takes any prefix of what it is offered; `sent` is everything it took,
      `fins` the lengths of `sent` at the calls of write_shutdown(). */
  class Socket {
    var open: bool
    var sent: string
    var fins: seq<nat>

    constructor ()
      ensures open && sent == "" && fins == []
    {
      open, sent, fins := true, "", [];
    }

    method WriteSome(val: string) returns (count: nat)
      modifies this`sent
      ensures count <= |val| && sent == old(sent) + val[..count]
    {
      count :| count <= |val|;
      sent := sent + val[..count];
    }

    method WriteShutdown()
      modifies this`fins
      ensures fins == old(fins) + [|sent|]
    {
      fins := fins + [|sent|];
    }

    method Close()
      modifies this`open
      ensures !open
    {
      open := false;
    }
  }

  function Flatten(chunks: seq<string>): string {
    if chunks == [] then "" else chunks[0] + Flatten(chunks[1..])
  }

  lemma {:induction false} FlattenAppend(chunks: seq<string>, c: string)
    ensures Flatten(chunks + [c]) == Flatten(chunks) + c
  {
    if chunks == [] {
      assert chunks + [c] == [c];
    } else {
      assert (chunks + [c])[1..] == chunks[1..] + [c];
      FlattenAppend(chunks[1..], c);
    }
  }

  /** Writing on into the last chunk. */
  lemma FlattenExtendLast(chunks: seq<string>, c: string)
    requires chunks != []
    ensures Flatten(chunks[|chunks| - 1 := chunks[|chunks| - 1] + c]) == Flatten(chunks) + c
  {
    var last := |chunks| - 1;
    FlattenAppend(chunks[..last], chunks[last]);
    FlattenAppend(chunks[..last], chunks[last] + c);
    assert chunks == chunks[..last] + [chunks[last]];
    assert chunks[last := chunks[last] + c] == chunks[..last] + [chunks[last] + c];
  }

  datatype BufferOptions = WRITE | BUFFER_ONLY

  const COALESCE_LIMIT := 1024

  class BufferedTCPSocket {
    const sock: Socket
    var dataToWrite: seq<string>
    var totalDataToWrite: nat
    var writeShutdownAsked: bool
    var shutdownTimerSet: bool
    /** Every byte accepted since the connection was opened. */
    ghost var accepted: string

    /** Until close: what the socket took and what is queued are what was accepted, in that order; the
        FIN was asked of the socket once, behind the last byte, if it is wanted and nothing is queued. */
    ghost predicate Valid()
      reads this, sock
    {
      && (forall i :: 0 <= i < |dataToWrite| ==> dataToWrite[i] != "")
      && totalDataToWrite == |Flatten(dataToWrite)|
      && (sock.open ==>
          && accepted == sock.sent + Flatten(dataToWrite)
          && sock.fins == if writeShutdownAsked && dataToWrite == [] then [|accepted|] else [])
      && (!sock.open ==> dataToWrite == [] && !writeShutdownAsked)
    }

    constructor ()
      ensures Valid() && fresh(sock) && sock.open && accepted == "" && !writeShutdownAsked
    {
      sock := new Socket();
      dataToWrite, totalDataToWrite, writeShutdownAsked, shutdownTimerSet := [], 0, false, false;
      accepted := "";
    }

    predicate Accepts()
      reads this, sock
    {
      sock.open && !writeShutdownAsked
    }

    method Close()
      requires Valid()
      modifies this, sock`open
      ensures Valid() && !sock.open && totalDataToWrite == 0
    {
      shutdownTimerSet := false;
      dataToWrite := [];
      totalDataToWrite := 0;
      writeShutdownAsked := false;
      sock.Close();
    }

    /** Direct writing: only past an empty queue. */
    method WriteSome(val: string) returns (count: nat)
      requires Valid()
      modifies this`accepted, sock`sent
      ensures Valid() && count <= |val|
      ensures sock.open ==> accepted == old(accepted) + val[..count]
      ensures old(writeShutdownAsked) || old(totalDataToWrite) > 0 ==> count == 0
    {
      if writeShutdownAsked || dataToWrite != [] {
        FlattenNonEmpty(dataToWrite);
        return 0;
      }
      count := sock.WriteSome(val);
      accepted := accepted + val[..count];
      assert Flatten(dataToWrite) == "";
    }

    /** buffer(): takes all or, closed or shut down, nothing. Small pieces go on in the last chunk. */
    method Buffer(val: string)
      requires Valid()
      modifies this`dataToWrite, this`totalDataToWrite, this`accepted
      ensures Valid()
      ensures accepted == if Accepts() then old(accepted) + val else old(accepted)
    {
      if !sock.open || writeShutdownAsked || val == "" {
        return;
      }
      totalDataToWrite := totalDataToWrite + |val|;
      if dataToWrite != [] && |dataToWrite[|dataToWrite| - 1]| < COALESCE_LIMIT && |val| < COALESCE_LIMIT {
        FlattenExtendLast(dataToWrite, val);
        var last := |dataToWrite| - 1;
        dataToWrite := dataToWrite[last := dataToWrite[last] + val];
      } else {
        FlattenAppend(dataToWrite, val);
        dataToWrite := dataToWrite + [val];
      }
      accepted := accepted + val;
    }

    /** write(val, count, bo): past an empty queue straight to the socket, the rest into the queue. */
    method Write(val: string, bo: BufferOptions)
      requires Valid()
      modifies this, sock`sent, sock`fins
      ensures Valid() && writeShutdownAsked == old(writeShutdownAsked)
      ensures accepted == if Accepts() then old(accepted) + val else old(accepted)
    {
      if bo == BUFFER_ONLY {
        Buffer(val);
        return;
      }
      if !sock.open || writeShutdownAsked {
        return;
      }
      var wr := 0;
      if dataToWrite == [] {
        wr := WriteSome(val);
      }
      assert accepted + val[wr..] == old(accepted) + val by {
        assert val == val[..wr] + val[wr..];
      }
      Buffer(val[wr..]);
      Flush();
    }

    /** write(string, bo). */
    method WriteString(ss: string, bo: BufferOptions)
      requires Valid()
      modifies this, sock`sent, sock`fins
      ensures Valid() && writeShutdownAsked == old(writeShutdownAsked)
      ensures accepted == if Accepts() then old(accepted) + ss else old(accepted)
    {
      Buffer(ss);
      if bo != BUFFER_ONLY {
        Flush();
      }
    }

    /** The FIN is deferred while data is queued; from here on nothing more is accepted. */
    method WriteShutdown()
      requires Valid()
      modifies this`writeShutdownAsked, this`shutdownTimerSet, sock`fins
      ensures Valid() && writeShutdownAsked == sock.open
    {
      if !sock.open || writeShutdownAsked {
        return;
      }
      writeShutdownAsked := true;
      if dataToWrite == [] {
        assert Flatten(dataToWrite) == "";
        sock.WriteShutdown();
        shutdownTimerSet := true;
      }
    }

    /** StringStream::write_to: offers the front chunk again and again until it is out or nothing is taken. */
    method WriteFront() returns (total: nat)
      requires dataToWrite != []
      modifies this`dataToWrite, sock`sent
      ensures |dataToWrite| == |old(dataToWrite)| && dataToWrite[1..] == old(dataToWrite)[1..]
      ensures total + |dataToWrite[0]| == |old(dataToWrite[0])|
      ensures sock.sent + dataToWrite[0] == old(sock.sent + dataToWrite[0])
    {
      total := 0;
      while dataToWrite[0] != ""
        invariant |dataToWrite| == |old(dataToWrite)| && dataToWrite[1..] == old(dataToWrite)[1..]
        invariant total + |dataToWrite[0]| == |old(dataToWrite[0])|
        invariant sock.sent + dataToWrite[0] == old(sock.sent + dataToWrite[0])
        decreases |dataToWrite[0]|
      {
        var front := dataToWrite[0];
        var count := sock.WriteSome(front);
        assert front == front[..count] + front[count..];
        dataToWrite := dataToWrite[0 := front[count..]];
        total := total + count;
        if count == 0 {
          break;
        }
      }
    }

    /** write(): as much of the queue as the socket takes, then perhaps the FIN. */
    method Flush()
      requires Valid()
      modifies this`dataToWrite, this`totalDataToWrite, this`shutdownTimerSet, sock`sent, sock`fins
      ensures Valid()
      ensures totalDataToWrite <= old(totalDataToWrite)
    {
      var wasEmpty := dataToWrite == [];
      while dataToWrite != []
        invariant forall i :: 0 <= i < |dataToWrite| ==> dataToWrite[i] != ""
        invariant totalDataToWrite == |Flatten(dataToWrite)| <= old(totalDataToWrite)
        invariant sock.sent + Flatten(dataToWrite) == old(sock.sent + Flatten(dataToWrite))
        invariant sock.fins == old(sock.fins)
        invariant wasEmpty ==> dataToWrite == []
        decreases |dataToWrite|
      {
        ghost var sent, front, tail := sock.sent, dataToWrite[0], Flatten(dataToWrite[1..]);
        var written := WriteFront();
        Reassociate(sent, front, sock.sent, dataToWrite[0], tail);
        totalDataToWrite := totalDataToWrite - written;
        if dataToWrite[0] != "" {
          break;
        }
        assert dataToWrite[0] + tail == tail;
        dataToWrite := dataToWrite[1..];
      }
      if writeShutdownAsked && dataToWrite == [] && !wasEmpty {
        assert Flatten(dataToWrite) == "";
        sock.WriteShutdown();
        shutdownTimerSet := true;
      }
    }

    /** The socket's event: either it can be written or read, or it has been closed. */
    method SockHandler(stillOpen: bool)
      requires Valid() && (stillOpen ==> sock.open)
      modifies this, sock
      ensures Valid()
      ensures stillOpen ==> sock.open && accepted == old(accepted) && writeShutdownAsked == old(writeShutdownAsked)
      ensures !stillOpen ==> !sock.open
    {
      if stillOpen {
        Flush();
      } else {
        Close();
      }
    }

    method ShutdownTimerHandler()
      requires Valid()
      modifies this, sock`open
      ensures Valid() && !sock.open
    {
      Close();
    }
  }

  lemma Reassociate(a: string, b: string, c: string, d: string, tail: string)
    requires a + b == c + d
    ensures a + (b + tail) == c + (d + tail)
  {
    assert a + (b + tail) == (a + b) + tail;
    assert c + (d + tail) == (c + d) + tail;
  }

  lemma FlattenNonEmpty(chunks: seq<string>)
    requires forall i :: 0 <= i < |chunks| ==> chunks[i] != ""
    ensures Flatten(chunks) == "" <==> chunks == []
  {}

  /** What the contract of the class means on the wire: a FIN is behind every accepted byte, there
      never are two, and once it is out the queue is empty. */
  lemma FinIsLast(s: BufferedTCPSocket)
    requires s.Valid() && s.sock.open
    ensures |s.sock.fins| <= 1
    ensures s.sock.fins != [] ==> s.sock.sent == s.accepted && s.sock.fins == [|s.accepted|] && s.totalDataToWrite == 0
    ensures s.writeShutdownAsked && s.totalDataToWrite == 0 ==> s.sock.fins != []
  {
    FlattenNonEmpty(s.dataToWrite);
  }
}
