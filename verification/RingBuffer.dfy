/** The circular byte buffer of include/crab/streams.hpp and streams.hxx, between streams that
    may read and write short. */
module RingBuffer {

  /** An input stream that hands over any part of what is left, possibly nothing. */
  class InStream<T> {
    ghost var left: seq<T>
    var impl: seq<T>

    ghost predicate Valid()
      reads this
    {
      left == impl
    }

    constructor (data: seq<T>)
      ensures Valid() && left == data
    {
      left, impl := data, data;
    }

    method ReadSome(count: nat) returns (val: seq<T>)
      requires Valid()
      modifies this
      ensures Valid() && |val| <= count && old(left) == val + left
    {
      var n: nat :| n <= count && n <= |impl|;
      val := impl[..n];
      impl := impl[n..];
      left := impl;
    }
  }

  /** An output stream that accepts any prefix of what it is offered, possibly nothing. */
  class OutStream<T> {
    var taken: seq<T>

    constructor ()
      ensures taken == []
    {
      taken := [];
    }

    method WriteSome(val: seq<T>) returns (count: nat)
      modifies this
      ensures count <= |val| && taken == old(taken) + val[..count]
    {
      count :| count <= |val|;
      taken := taken + val[..count];
    }
  }

  function Min(a: nat, b: nat): nat {
    if a < b then a else b
  }

  /** A sequence and itself again: a wrapped queue is a slice of it. */
  function Twice<T>(s: seq<T>): seq<T> {
    s + s
  }

  lemma TwiceParts<T>(s: seq<T>, lo: nat, hi: nat)
    requires lo <= hi <= lo + |s| && hi <= 2 * |s|
    ensures Twice(s)[lo..hi] ==
      if hi <= |s| then s[lo..hi]
      else if lo < |s| then s[lo..] + s[..hi - |s|]
      else s[lo - |s|..hi - |s|]
  {
    var t, r := Twice(s)[lo..hi], if hi <= |s| then s[lo..hi] else if lo < |s| then s[lo..] + s[..hi - |s|] else s[lo - |s|..hi - |s|];
    forall i | 0 <= i < |r|
      ensures t[i] == r[i]
    {
      assert t[i] == Twice(s)[lo + i];
    }
    SameItems(t, r);
  }

  /** A slice of the repetition is a slice of the sequence. */
  lemma TwiceAgain<T>(s: seq<T>, lo: nat, hi: nat)
    requires |s| <= lo <= hi <= 2 * |s|
    ensures Twice(s)[lo..hi] == Twice(s)[lo - |s|..hi - |s|]
  {
    var t, r := Twice(s)[lo..hi], Twice(s)[lo - |s|..hi - |s|];
    forall i | 0 <= i < |r|
      ensures t[i] == r[i]
    {
      assert t[i] == Twice(s)[lo + i] && r[i] == Twice(s)[lo - |s| + i];
    }
    SameItems(t, r);
  }

  lemma SameItems<T>(a: seq<T>, b: seq<T>)
    requires |a| == |b| && forall i :: 0 <= i < |b| ==> a[i] == b[i]
    ensures a == b
  {}

  function Overwrite<T>(s: seq<T>, at: nat, val: seq<T>): (r: seq<T>)
    requires at + |val| <= |s|
  {
    s[..at] + val + s[at + |val|..]
  }

  /** `at` is the place behind the queue from lo to hi, and `val` fits there. */
  predicate FitsBehind<T>(s: seq<T>, lo: nat, hi: nat, at: nat, val: seq<T>) {
    && lo <= hi <= lo + |s| && lo <= |s| && (lo == |s| ==> s == [])
    && at == (if hi < |s| then hi else hi - |s|)
    && |val| <= (if hi < |s| then |s| - hi else lo - (hi - |s|))
  }

  lemma OverwriteKeepsQueue<T>(s: seq<T>, lo: nat, hi: nat, at: nat, val: seq<T>)
    requires FitsBehind(s, lo, hi, at, val)
    ensures at + |val| <= |s| && Twice(Overwrite(s, at, val))[lo..hi] == Twice(s)[lo..hi]
  {
    var r := Overwrite(s, at, val);
    forall i | lo <= i < hi
      ensures Twice(r)[i] == Twice(s)[i]
    {
      OverwriteAt(s, at, val, if i < |s| then i else i - |s|);
    }
    SameItems(Twice(r)[lo..hi], Twice(s)[lo..hi]);
  }

  lemma OverwriteIsNext<T>(s: seq<T>, lo: nat, hi: nat, at: nat, val: seq<T>)
    requires FitsBehind(s, lo, hi, at, val)
    ensures at + |val| <= |s| && Twice(Overwrite(s, at, val))[hi..lo + |s|][..|val|] == val
  {
    var r := Overwrite(s, at, val);
    forall i | 0 <= i < |val|
      ensures Twice(r)[hi + i] == val[i]
    {
      OverwriteAt(s, at, val, at + i);
    }
    SameItems(Twice(r)[hi..lo + |s|][..|val|], val);
  }

  /** Writing into the free places leaves the queue alone and puts the bytes first in line. */
  lemma OverwriteFree<T>(s: seq<T>, lo: nat, hi: nat, at: nat, val: seq<T>)
    requires FitsBehind(s, lo, hi, at, val)
    ensures at + |val| <= |s|
    ensures Twice(Overwrite(s, at, val))[lo..hi] == Twice(s)[lo..hi]
    ensures Twice(Overwrite(s, at, val))[hi..lo + |s|][..|val|] == val
  {
    OverwriteKeepsQueue(s, lo, hi, at, val);
    OverwriteIsNext(s, lo, hi, at, val);
  }

  lemma OverwriteAt<T>(s: seq<T>, at: nat, val: seq<T>, i: nat)
    requires at + |val| <= |s| && i < |s|
    ensures |Overwrite(s, at, val)| == |s|
    ensures Overwrite(s, at, val)[i] == if at <= i < at + |val| then val[i - at] else s[i]
  {}

  lemma TakenSlice<T>(t: seq<T>, a: nat, b: nat, c: nat)
    requires a <= b <= c <= |t|
    ensures t[a..c][..b - a] == t[a..b]
  {
    SameItems(t[a..c][..b - a], t[a..b]);
  }

  lemma Taken<T>(s: seq<T>, done: nat, count: nat)
    requires done + count <= |s|
    ensures s[..done] + s[done..][..count] == s[..done + count]
    ensures s[done..][count..] == s[done + count..]
  {}

  class Buffer<T(0)> {
    const impl: array<T>
    var readPos: nat
    var writePos: nat

    ghost predicate Valid()
      reads this
    {
      && readPos <= writePos <= readPos + impl.Length
      && (readPos < impl.Length || readPos == impl.Length == 0)
    }

    constructor (si: nat)
      ensures Valid() && fresh(impl) && Capacity() == si && Contents() == []
    {
      impl := new T[si];
      readPos, writePos := 0, 0;
    }

    function Capacity(): nat
      reads this
    {
      impl.Length
    }

    function Size(): nat
      requires Valid()
      reads this
    {
      writePos - readPos
    }

    predicate Full()
      requires Valid()
      reads this
      ensures Full() <==> Size() == Capacity()
    {
      readPos + impl.Length == writePos
    }

    // ---------- the two parts ----------

    function ReadCount(): nat
      requires Valid()
      reads this
    {
      if writePos < impl.Length then writePos - readPos else impl.Length - readPos
    }

    function ReadCount2(): nat
      requires Valid()
      reads this
    {
      if writePos < impl.Length then 0 else writePos - impl.Length
    }

    function WriteCount(): nat
      requires Valid()
      reads this
    {
      if writePos < impl.Length then impl.Length - writePos else readPos - (writePos - impl.Length)
    }

    function WriteCount2(): nat
      requires Valid()
      reads this
    {
      if writePos < impl.Length then readPos else 0
    }

    /** Index of write_ptr(). */
    function WriteIndex(): nat
      requires Valid()
      reads this
    {
      if writePos < impl.Length then writePos else writePos - impl.Length
    }

    /** The queue the buffer stands for. */
    ghost function Contents(): (c: seq<T>)
      requires Valid()
      reads this, impl
      ensures |c| == Size()
    {
      Twice(impl[..])[readPos..writePos]
    }

    /** The free places, in the order they are filled. */
    ghost function Free(): (f: seq<T>)
      requires Valid()
      reads this, impl
      ensures |f| == Capacity() - Size()
    {
      Twice(impl[..])[writePos..readPos + impl.Length]
    }

    /** read_ptr() with read_count() and read_ptr2() with read_count2() spell out the contents. */
    lemma ReadPartsSpellContents()
      requires Valid()
      ensures readPos + ReadCount() <= impl.Length && ReadCount2() <= impl.Length
      ensures Contents() == impl[readPos..readPos + ReadCount()] + impl[..ReadCount2()]
    {
      TwiceParts(impl[..], readPos, writePos);
      assert impl[..][readPos..readPos + ReadCount()] == impl[readPos..readPos + ReadCount()];
      assert impl[..][..ReadCount2()] == impl[..ReadCount2()];
    }

    /** The write pointers with their counts spell out the free places. */
    lemma WritePartsSpellFree()
      requires Valid()
      ensures WriteIndex() + WriteCount() <= impl.Length && WriteCount2() <= impl.Length
      ensures Free() == impl[WriteIndex()..WriteIndex() + WriteCount()] + impl[..WriteCount2()]
    {
      TwiceParts(impl[..], writePos, readPos + impl.Length);
      assert impl[..][WriteIndex()..WriteIndex() + WriteCount()] == impl[WriteIndex()..WriteIndex() + WriteCount()];
      assert impl[..][..WriteCount2()] == impl[..WriteCount2()];
    }

    lemma FirstPart(n: nat)
      requires Valid() && n <= ReadCount()
      ensures n <= Size() && readPos + n <= impl.Length
      ensures impl[readPos..readPos + n] == Contents()[..n]
    {
      TwiceParts(impl[..], readPos, readPos + n);
      assert Contents()[..n] == Twice(impl[..])[readPos..readPos + n];
      assert impl[..][readPos..readPos + n] == impl[readPos..readPos + n];
    }

    // ---------- moving the positions ----------

    /** Takes over what was written to the free places; throws on more than there are. */
    method DidWrite(count: nat) returns (threw: bool)
      requires Valid()
      modifies this`writePos
      ensures threw <==> count > old(Capacity() - Size())
      ensures !threw ==> Valid() && Contents() == old(Contents() + Free()[..count])
    {
      writePos := writePos + count;
      threw := !(writePos <= readPos + impl.Length);
    }

    /** Gives the last bytes back; throws on more than there are. */
    method DidWriteUndo(count: nat) returns (threw: bool)
      requires Valid()
      modifies this`writePos
      ensures threw <==> count > old(Size())
      ensures Valid() && Contents() == old(if count > Size() then Contents() else Contents()[..Size() - count])
    {
      if !(writePos >= readPos + count) {
        return true;
      }
      TakenSlice(Twice(impl[..]), readPos, writePos - count, writePos);
      writePos := writePos - count;
      return false;
    }

    /** Drops bytes from the front, from one or both parts; throws on more than there are. */
    method DidRead(count: nat) returns (threw: bool)
      requires Valid()
      modifies this`readPos, this`writePos
      ensures threw <==> count > old(Size())
      ensures !threw ==> Valid() && Contents() == old(Contents()[count..])
    {
      ghost var left := if count <= Size() then Contents()[count..] else [];
      readPos := readPos + count;
      if !(readPos <= writePos) {
        return true;
      }
      assert left == Twice(impl[..])[readPos..writePos];
      if readPos >= impl.Length {
        TwiceAgain(impl[..], readPos, writePos);
        readPos := readPos - impl.Length;
        writePos := writePos - impl.Length;
      }
      if readPos == writePos {
        readPos, writePos := 0, 0;
      }
      return false;
    }

    method Clear()
      modifies this`readPos, this`writePos
      ensures Valid() && Contents() == []
    {
      readPos, writePos := 0, 0;
    }

    // ---------- reading and writing ----------

    /** Up to `count` bytes of the first part. */
    method ReadSome(count: nat) returns (val: seq<T>)
      requires Valid()
      modifies this`readPos, this`writePos
      ensures Valid() && old(Contents()) == val + Contents()
      ensures |val| == Min(count, old(ReadCount()))
      ensures old(Size()) > 0 && count > 0 ==> val != []
    {
      var rc := Min(count, ReadCount());
      FirstPart(rc);
      val := impl[readPos..readPos + rc];
      var _ := DidRead(rc);
    }

    /** memcpy to write_ptr(). */
    method Fill(val: seq<T>)
      requires Valid() && |val| <= WriteCount()
      modifies impl
      ensures Contents() == old(Contents())
      ensures |val| <= |Free()| && Free()[..|val|] == val
    {
      var at := WriteIndex();
      forall i | 0 <= i < |val| {
        impl[at + i] := val[i];
      }
      assert impl[..] == Overwrite(old(impl[..]), at, val);
      OverwriteFree(old(impl[..]), readPos, writePos, at, val);
    }

    method WriteSome(val: seq<T>) returns (rc: nat)
      requires Valid()
      modifies this`writePos, impl
      ensures Valid() && rc == Min(|val|, old(WriteCount()))
      ensures Contents() == old(Contents()) + val[..rc]
      ensures val != [] && !old(Full()) ==> rc > 0
    {
      rc := Min(|val|, WriteCount());
      Fill(val[..rc]);
      var _ := DidWrite(rc);
    }

    /** One round of the loop below. */
    method ReadPart(input: InStream<T>, wc: nat) returns (count: nat)
      requires Valid() && input.Valid() && wc == WriteCount()
      modifies this`writePos, impl, input
      ensures Valid() && input.Valid() && count <= |old(input.left)|
      ensures Contents() == old(Contents()) + old(input.left)[..count]
      ensures input.left == old(input.left)[count..]
    {
      var val := input.ReadSome(wc);
      Fill(val);
      var _ := DidWrite(|val|);
      count := |val|;
    }

    /** Reads until the buffer is full or the stream gives nothing: no byte is lost, repeated or reordered. */
    method ReadFrom(input: InStream<T>) returns (total: nat)
      requires Valid() && input.Valid()
      modifies this`writePos, impl, input
      ensures Valid() && input.Valid() && total <= |old(input.left)|
      ensures Contents() == old(Contents()) + old(input.left)[..total]
      ensures input.left == old(input.left)[total..]
    {
      total := 0;
      while true
        invariant Valid() && input.Valid()
        invariant total <= |old(input.left)|
        invariant Contents() == old(Contents()) + old(input.left)[..total]
        invariant input.left == old(input.left)[total..]
        decreases Capacity() - Size()
      {
        var wc := WriteCount();
        if wc == 0 {
          break;
        }
        var count := ReadPart(input, wc);
        Taken(old(input.left), total, count);
        total := total + count;
        if count == 0 {
          break;
        }
      }
    }

    /** One round of the loop below. */
    method WritePart(out: OutStream<T>, rc: nat) returns (count: nat)
      requires Valid() && rc <= ReadCount()
      modifies this`readPos, this`writePos, out
      ensures Valid() && count <= rc <= |old(Contents())|
      ensures out.taken == old(out.taken) + old(Contents())[..count]
      ensures Contents() == old(Contents())[count..]
    {
      FirstPart(rc);
      count := out.WriteSome(impl[readPos..readPos + rc]);
      assert Contents()[..rc][..count] == Contents()[..count];
      var _ := DidRead(count);
    }

    /** Writes until `maxCount` bytes are out, the buffer is empty or the stream takes nothing. */
    method WriteTo(out: OutStream<T>, maxCount: nat) returns (total: nat)
      requires Valid()
      modifies this`readPos, this`writePos, out
      ensures Valid() && total <= maxCount && total <= |old(Contents())|
      ensures out.taken == old(out.taken) + old(Contents())[..total]
      ensures Contents() == old(Contents())[total..]
    {
      total := 0;
      var left := maxCount;
      while true
        invariant Valid() && total + left == maxCount && total <= |old(Contents())|
        invariant out.taken == old(out.taken) + old(Contents())[..total]
        invariant Contents() == old(Contents())[total..]
        decreases left
      {
        var rc := Min(ReadCount(), left);
        if rc == 0 {
          break;
        }
        var count := WritePart(out, rc);
        Taken(old(Contents()), total, count);
        left := left - count;
        total := total + count;
        if count == 0 {
          break;
        }
      }
    }

    method ReadEnoughData(input: InStream<T>, count: nat) returns (enough: bool)
      requires Valid() && input.Valid()
      modifies this`writePos, impl, input
      ensures Valid() && enough == (Size() >= count)
      ensures exists n: nat :: n <= |old(input.left)| && Contents() == old(Contents()) + old(input.left)[..n]
                          && input.left == old(input.left)[n..] && (old(Size()) >= count ==> n == 0)
    {
      var n := 0;
      if Size() < count {
        n := ReadFrom(input);
      }
      assert Contents() == old(Contents()) + old(input.left)[..n];
      return Size() >= count;
    }

    /** Copies from both parts without moving the positions. */
    method Peek(count: nat) returns (ok: bool, val: seq<T>)
      requires Valid()
      ensures ok <==> count <= Size()
      ensures ok ==> val == Contents()[..count]
    {
      if Size() < count {
        return false, [];
      }
      var rc := ReadCount();
      if rc >= count {
        FirstPart(count);
        return true, impl[readPos..readPos + count];
      }
      ReadPartsSpellContents();
      val := impl[readPos..readPos + rc] + impl[..count - rc];
      assert val == Contents()[..count];
      return true, val;
    }
  }
}
