/**
  Pipes of kernel/pipe.c.  Each method is one stretch of code under the pipe's lock, from
  acquiring it (or waking up with it) to releasing it (or going to sleep), so that any
  sequence of calls is an interleaving of readers and writers.
 */
module Pipe {

  const PIPESIZE := 512
  const UINT_RANGE := 0x1_0000_0000

  type Pid = nat

  /** How a stretch ends: with a return value, with -1, or asleep. */
  datatype Outcome = Returned | Failed | Asleep

  function Min(a: nat, b: nat): nat { if a < b then a else b }

  function Inc(x: nat): nat { (x + 1) % UINT_RANGE }

  lemma Wrapped(x: nat)
    ensures x % UINT_RANGE % PIPESIZE == x % PIPESIZE && Inc(x % UINT_RANGE) == (x + 1) % UINT_RANGE
  {
    var q := x / UINT_RANGE;
    assert x == UINT_RANGE * q + x % UINT_RANGE;
    assert UINT_RANGE == PIPESIZE * 0x80_0000;
    assert x == PIPESIZE * (0x80_0000 * q) + x % UINT_RANGE;
    ModShift(x % UINT_RANGE, 0x80_0000 * q);
  }

  lemma ModShift(x: nat, k: nat)
    ensures (PIPESIZE * k + x) % PIPESIZE == x % PIPESIZE
  {
    var r := x % PIPESIZE;
    assert PIPESIZE * k + x == PIPESIZE * (k + x / PIPESIZE) + r;
  }

  /** Wrapping counters compare as the numbers they stand for. */
  lemma Distance(r: nat, w: nat)
    requires r <= w <= r + PIPESIZE
    ensures r % UINT_RANGE == w % UINT_RANGE <==> r == w
    ensures (r % UINT_RANGE + PIPESIZE) % UINT_RANGE == w % UINT_RANGE <==> w == r + PIPESIZE
  {
  }

  /** Distinct bytes in the pipe have distinct places. */
  lemma Places(j: nat, k: nat)
    requires j < k < j + PIPESIZE
    ensures j % PIPESIZE != k % PIPESIZE
  {
  }

  /** Where a write of n bytes, begun at i0, stops: at the end of the bytes, where it is found
      killed, when there is no room left, or where a byte cannot be read. */
  function WriteStop(n: nat, i0: nat, room: nat, copyLimit: nat, killAt: int): nat {
    Min(Min(n, if killAt < i0 then n else killAt), Min(i0 + room, if copyLimit < i0 then i0 else copyLimit))
  }

  lemma StopsThere(n: nat, i0: nat, room: nat, copyLimit: nat, killAt: int, i: nat)
    requires i0 <= i <= n && i - i0 <= room && (killAt < i0 || i <= killAt) && (i == i0 || i <= copyLimit)
    requires i == n || i == killAt || i - i0 == room || i >= copyLimit
    ensures i == WriteStop(n, i0, room, copyLimit, killAt)
  {
  }

  class PipeState {
    const data: array<int>
    var nread: nat
    var nwrite: nat
    var readopen: bool
    var writeopen: bool
    var readers: set<Pid>        // asleep on &nread
    var writers: set<Pid>        // asleep on &nwrite
    ghost var inserted: seq<int> // all bytes ever written
    ghost var removed: seq<int>  // all bytes ever read

    /** The bytes removed are a prefix of those inserted, and the at most PIPESIZE others are
        in the buffer. */
    ghost predicate Valid()
      reads this, data
    {
      && data.Length == PIPESIZE
      && |removed| <= |inserted| <= |removed| + PIPESIZE && removed <= inserted
      && nread == |removed| % UINT_RANGE && nwrite == |inserted| % UINT_RANGE
      && forall j: nat :: |removed| <= j < |inserted| ==> data[j % PIPESIZE] == inserted[j]
    }

    ghost predicate Empty()
      reads this
    {
      |inserted| == |removed|
    }

    ghost predicate Full()
      reads this
    {
      |inserted| == |removed| + PIPESIZE
    }

    /** No reader sleeps on a non-empty or write-closed pipe, and no writer on a non-full or
        read-closed one. */
    ghost predicate NoLostWakeup()
      reads this
    {
      (readers != {} ==> Empty() && writeopen) && (writers != {} ==> Full() && readopen)
    }

    constructor ()
      ensures Valid() && NoLostWakeup() && inserted == [] && readopen && writeopen && readers == writers == {}
        && fresh(data)
    {
      data := new int[PIPESIZE];
      nread, nwrite, readopen, writeopen := 0, 0, true, true;
      readers, writers, inserted, removed := {}, {}, [], [];
    }

    method Put(ch: int)
      requires Valid() && !Full()
      modifies this`nwrite, this`inserted, data
      ensures Valid() && inserted == old(inserted) + [ch]
    {
      Wrapped(|inserted|);
      data[nwrite % PIPESIZE] := ch;
      forall j: nat | |removed| <= j < |inserted| ensures data[j % PIPESIZE] == inserted[j] { Places(j, |inserted|); }
      nwrite := Inc(nwrite);
      inserted := inserted + [ch];
    }

    method Take() returns (ch: int)
      requires Valid() && !Empty()
      modifies this`nread, this`removed
      ensures Valid() && removed == old(removed) + [ch]
    {
      Wrapped(|removed|);
      ch := data[nread % PIPESIZE];
      nread := Inc(nread);
      removed := removed + [ch];
    }

    /** How many bytes fit. */
    ghost function Room(): nat
      requires |removed| <= |inserted| <= |removed| + PIPESIZE
      reads this
    {
      |removed| + PIPESIZE - |inserted|
    }

    /** A write that stores at least one byte for a sleeping reader and is then found
        killed, which it is tested for only while bytes are left and before it would sleep. */
    ghost predicate KilledWithReader(src: seq<int>, i0: nat, copyLimit: nat, killAt: int)
      reads this
    {
      readers != {} && readopen && i0 < killAt < |src| && killAt <= copyLimit && killAt <= i0 + PIPESIZE
    }

    /** pipewrite, from byte i0 of src: copyLimit bytes of src can be read, and killed() is
        true when killAt bytes are written (never, if killAt is negative). */
    method Write(p: Pid, src: seq<int>, i0: nat, copyLimit: nat, killAt: int) returns (out: Outcome, i: nat)
      requires Valid() && NoLostWakeup() && i0 <= |src| && p !in writers
      modifies this, data
      ensures Valid() && i0 <= i <= |src| && inserted == old(inserted) + src[i0..i] && removed == old(removed)
        && (i == i0 || i <= copyLimit)
      ensures readopen == old(readopen) && writeopen == old(writeopen)
      ensures i == if readopen then WriteStop(|src|, i0, old(Room()), copyLimit, killAt) else i0
      ensures out == if i == |src| then Returned else if !readopen || i == killAt then Failed
                     else if Full() then Asleep else Returned
      ensures out == Returned ==> readers == {} && writers == old(writers)
      ensures out == Failed ==> readers == old(readers) && writers == old(writers)
      ensures out == Asleep ==> readers == {} && writers == old(writers) + {p}
      ensures NoLostWakeup() <==> !old(KilledWithReader(src, i0, copyLimit, killAt))
    {
      i := i0;
      ghost var room := Room();
      while i < |src|
        invariant i0 <= i <= |src| && Valid() && inserted == old(inserted) + src[i0..i] && (i == i0 || i <= copyLimit)
        invariant (killAt < i0 || i <= killAt) && removed == old(removed) && readers == old(readers)
          && writers == old(writers)
        invariant readopen == old(readopen) && writeopen == old(writeopen)
          && (i > i0 ==> readopen && old(writers) == {})
        invariant |inserted| == |old(inserted)| + (i - i0)
      {
        if !readopen || i == killAt {
          if readopen { StopsThere(|src|, i0, room, copyLimit, killAt, i); }
          return Failed, i;
        }
        Distance(|removed|, |inserted|);
        if nwrite == (nread + PIPESIZE) % UINT_RANGE {
          readers := {};
          writers := writers + {p};
          StopsThere(|src|, i0, room, copyLimit, killAt, i);
          return Asleep, i;
        }
        if i >= copyLimit {
          break;
        }
        Put(src[i]);
        i := i + 1;
      }
      readers := {};
      if readopen { StopsThere(|src|, i0, room, copyLimit, killAt, i); }
      return Returned, i;
    }

    /** piperead of n bytes; copyLimit of them can be stored.  The bytes `got` are taken out of
        the pipe, and r of them are stored: one that cannot be stored is lost. */
    method Read(p: Pid, n: nat, copyLimit: nat, killed: bool) returns (out: Outcome, got: seq<int>, r: nat)
      requires Valid() && NoLostWakeup() && p !in readers
      modifies this
      ensures Valid() && NoLostWakeup() && inserted == old(inserted) && removed == old(removed) + got
      ensures readopen == old(readopen) && writeopen == old(writeopen) && data[..] == old(data[..])
      ensures out == (if old(Empty()) && writeopen then if killed then Failed else Asleep else Returned)
      ensures out == Asleep ==> got == [] && readers == old(readers) + {p} && writers == old(writers)
      ensures out == Failed ==> got == [] && readers == old(readers) && writers == old(writers)
      ensures out == Returned ==> writers == {} && readers == old(readers)
      ensures out == Returned ==> |got| == Min(Min(n, |old(inserted)| - |old(removed)|), copyLimit + 1)
      ensures r == Min(|got|, copyLimit)
    {
      got, r := [], 0;
      Distance(|removed|, |inserted|);
      if nread == nwrite && writeopen {
        if killed {
          return Failed, got, r;
        }
        readers := readers + {p};
        return Asleep, got, r;
      }
      while |got| < n
        invariant Valid() && r == |got| <= n && |got| <= copyLimit && inserted == old(inserted)
          && removed == old(removed) + got
        invariant readers == old(readers) && writers == old(writers) && readopen == old(readopen)
          && writeopen == old(writeopen)
        decreases n - |got|
      {
        Distance(|removed|, |inserted|);
        if nread == nwrite {
          break;
        }
        var ch := Take();
        got := got + [ch];
        if |got| > copyLimit {
          break;
        }
        r := r + 1;
      }
      writers := {};
      return Returned, got, r;
    }

    /** pipeclose of one end: the sleepers on the other end wake up. */
    method Close(writable: bool) returns (freed: bool)
      requires Valid() && NoLostWakeup()
      modifies this`readopen, this`writeopen, this`readers, this`writers
      ensures Valid() && NoLostWakeup() && (freed <==> !readopen && !writeopen)
      ensures writable ==> !writeopen && readopen == old(readopen) && readers == {} && writers == old(writers)
      ensures !writable ==> !readopen && writeopen == old(writeopen) && writers == {} && readers == old(readers)
    {
      if writable {
        writeopen := false;
        readers := {};
      } else {
        readopen := false;
        writers := {};
      }
      freed := !readopen && !writeopen;
    }
  }

  /** A reader sleeps, a writer stores one byte and is killed: the reader sleeps on. */
  method KilledWriter() returns (pipe: PipeState)
    ensures pipe.Valid() && !pipe.NoLostWakeup() && pipe.readers == {1} && |pipe.inserted| == 1
  {
    pipe := new PipeState();
    var out, got, r := pipe.Read(1, 1, 1, false);
    var i;
    out, i := pipe.Write(2, [7, 8], 0, 2, 1);
  }
}
