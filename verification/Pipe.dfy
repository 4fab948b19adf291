/** pipe.c: the ring buffer. Each method is what one process does between taking p->lock and
    giving it up, so any interleaving of readers and writers is a sequence of calls. */
module Pipe {
  import opened Basics

  const PIPESIZE: nat := 512
  const WRAP: nat := 0x1_0000_0000

  function Place(n: nat): nat { n % PIPESIZE }

  /** `s` lies in the ring, the first byte at the place of the `from`-th ever written. */
  ghost predicate Rings(data: seq<Byte>, from: nat, s: seq<Byte>)
    requires |data| == PIPESIZE
  {
    forall k | 0 <= k < |s| :: data[Place(from + k)] == s[k]
  }

  datatype Write = Wrote | Full | Broken
  datatype Read = Got(bytes: seq<Byte>) | Empty | Killed

  class Pipe {
    var data: seq<Byte>
    var nread: Uint
    var nwrite: Uint
    var readopen: bool
    var writeopen: bool
    /** Who sleeps on p->nread, and who on p->nwrite. Anyone may be woken spuriously. */
    var readers: set<nat>
    var writers: set<nat>
    ghost var accepted: seq<Byte>
    ghost var delivered: seq<Byte>
    ghost var freed: nat

    /** A writer sleeps only while there is no room and someone may read; who sleeps has an end
        open. */
    ghost predicate Valid()
      reads this
    {
      && Ringed()
      && freed == (if readopen || writeopen then 0 else 1)
      && (writers != {} ==> |accepted| == |delivered| + PIPESIZE && readopen && writeopen)
      && (readers != {} ==> readopen)
    }

    /** A reader sleeps only while there is nothing to read and someone may write. */
    ghost predicate ReadersAwake()
      reads this
    {
      readers != {} ==> delivered == accepted && writeopen
    }

    /** The bytes delivered are the first ones accepted, and the rest are in the ring. The
        counters are those numbers of bytes, but 32 bits wide. */
    ghost predicate Ringed()
      reads this
    {
      && |data| == PIPESIZE
      && |delivered| <= |accepted| <= |delivered| + PIPESIZE && delivered == accepted[..|delivered|]
      && nread == |delivered| % WRAP && nwrite == |accepted| % WRAP
      && Rings(data, |delivered|, accepted[|delivered|..])
    }

    constructor ()
      ensures Valid() && readopen && writeopen && accepted == delivered == [] && readers == writers == {}
    {
      data := seq(PIPESIZE, _ => 0);
      nread, nwrite, readopen, writeopen := 0, 0, true, true;
      readers, writers := {}, {};
      accepted, delivered, freed := [], [], 0;
    }

    /** A process woken by kill or SIGCONT. */
    method Spurious(pid: nat)
      requires Valid()
      modifies this`readers, this`writers
      ensures Valid() && readers == old(readers) - {pid} && writers == old(writers) - {pid}
    {
      readers, writers := readers - {pid}, writers - {pid};
    }

    /** pipewrite from addr[i] on, until it is done, must sleep, or gives up. Giving up, it does
        not wake the readers: with readers asleep that leaves bytes nobody is told of exactly
        when it is killed and has more to write than fits. */
    method Pipewrite(addr: seq<Byte>, i: nat, pid: nat, killed: bool) returns (r: Write, j: nat)
      requires Valid() && writeopen && i <= |addr|
      modifies this`data, this`nwrite, this`accepted, this`readers, this`writers
      ensures Valid() && i <= j <= |addr| && accepted == old(accepted) + addr[i..j]
      ensures r.Wrote? <==> j == |addr|
      ensures !r.Wrote? ==> |accepted| == |delivered| + PIPESIZE && (r.Broken? <==> !readopen || killed)
      ensures writers == (if r.Full? then old(writers) + {pid} else old(writers))
      ensures readers == (if r.Broken? then old(readers) else {})
      ensures old(ReadersAwake()) ==> (ReadersAwake() <==> !(old(readers) != {} && killed && |addr| - i > PIPESIZE))
    {
      hide Rings;
      j := i;
      while j < |addr|
        invariant i <= j <= |addr| && accepted == old(accepted) + addr[i..j] && Ringed()
        invariant readers == old(readers) && writers == old(writers)
        invariant j > i ==> writers == {} && |accepted| == |old(accepted)| + (j - i)
      {
        CountersMeet(|delivered|, |accepted|);
        if nwrite == (nread + PIPESIZE) % WRAP {
          if !readopen || killed {
            return Broken, j;
          }
          readers := {};
          writers := writers + {pid};
          return Full, j;
        }
        Accept(addr[j]);
        assert addr[i..j + 1] == addr[i..j] + [addr[j]];
        j := j + 1;
      }
      readers := {};
      r := Wrote;
    }

    /** One byte into the ring. */
    method Accept(b: Byte)
      requires Ringed() && |accepted| < |delivered| + PIPESIZE
      modifies this`data, this`nwrite, this`accepted
      ensures Ringed() && accepted == old(accepted) + [b]
    {
      Pushed(data, |delivered|, accepted[|delivered|..], nwrite, b);
      assert (accepted + [b])[|delivered|..] == accepted[|delivered|..] + [b];
      data := data[nwrite % PIPESIZE := b];
      nwrite := (nwrite + 1) % WRAP;
      accepted := accepted + [b];
    }

    /** One byte out of it. */
    method Deliver() returns (b: Byte)
      requires Ringed() && |delivered| < |accepted|
      modifies this`nread, this`delivered
      ensures Ringed() && delivered == old(delivered) + [b]
    {
      Popped(data, |delivered|, accepted[|delivered|..], nread);
      assert accepted[|delivered|..][1..] == accepted[|delivered| + 1..];
      b := data[nread % PIPESIZE];
      nread := (nread + 1) % WRAP;
      delivered := accepted[..|delivered| + 1];
    }

    /** piperead: what is there, up to `n` bytes, or a reason to sleep or give up. */
    method Piperead(n: nat, pid: nat, killed: bool) returns (r: Read)
      requires Valid() && readopen
      modifies this`nread, this`delivered, this`readers, this`writers
      ensures Valid() && (old(ReadersAwake()) ==> ReadersAwake())
      ensures r.Got? ==>
                && delivered == old(delivered) + r.bytes && readers == old(readers) && writers == {}
                && |r.bytes| == (if n < |accepted| - |old(delivered)| then n else |accepted| - |old(delivered)|)
      ensures !r.Got? ==>
                && delivered == old(delivered) == accepted && writeopen
                && (r.Killed? <==> killed) && writers == old(writers)
      ensures !r.Got? ==> readers == if killed then old(readers) else old(readers) + {pid}
      ensures r.Got? && r.bytes == [] ==> n == 0 || (!writeopen && delivered == accepted)
    {
      hide Rings;
      CountersMeet(|delivered|, |accepted|);
      if nread == nwrite && writeopen {
        if killed {
          return Killed;
        }
        readers := readers + {pid};
        return Empty;
      }
      var bytes := [];
      while |bytes| < n
        invariant Ringed() && |bytes| <= n && delivered == old(delivered) + bytes && readers == old(readers)
      {
        CountersMeet(|delivered|, |accepted|);
        if nread == nwrite {
          break;
        }
        var b := Deliver();
        bytes := bytes + [b];
      }
      writers := {};
      r := Got(bytes);
    }

    /** One end is closed, with nobody inside it; the page goes back once, when both are. */
    method Pipeclose(writable: bool)
      requires Valid() && if writable then writeopen && writers == {} else readopen && readers == {}
      modifies this`writeopen, this`readopen, this`freed, this`readers, this`writers
      ensures Valid() && ReadersAwake()
      ensures writeopen == (old(writeopen) && !writable) && readopen == (old(readopen) && writable)
      ensures readers == {} && (if writable then writers == old(writers) else writers == {})
    {
      if writable {
        writeopen := false;
        readers := {};
      } else {
        readopen := false;
        writers := {};
      }
      if !readopen && !writeopen {
        freed := freed + 1;
      }
    }
  }

  /** A reader goes to sleep; a writer of 513 bytes, killed meanwhile, fills the pipe and gives
      up: the reader sleeps on with 512 bytes to read. */
  method LostReader() returns (p: Pipe)
    ensures p.Valid() && p.readers == {1} && |p.accepted| == 512 && p.delivered == []
  {
    p := new Pipe();
    var r := p.Piperead(1, 1, false);
    var w, j := p.Pipewrite(seq(513, _ => 0), 0, 2, true);
  }

  /** The wrapped counters are equal, or PIPESIZE apart, exactly when the true ones are. */
  lemma {:induction false} CountersMeet(r: nat, w: nat)
    requires r <= w <= r + PIPESIZE
    ensures r % WRAP == w % WRAP <==> r == w
    ensures w % WRAP == (r % WRAP + PIPESIZE) % WRAP <==> w == r + PIPESIZE
  {
  }

  /** Wrapping at 2^32 does not disturb the place in the ring. */
  lemma {:induction false} SamePlace(n: nat)
    ensures n % WRAP % PIPESIZE == n % PIPESIZE
    ensures (n % WRAP + 1) % WRAP == (n + 1) % WRAP
  {
  }

  lemma {:induction false} Pushed(data: seq<Byte>, from: nat, s: seq<Byte>, nwrite: Uint, b: Byte)
    requires |data| == PIPESIZE && Rings(data, from, s) && |s| < PIPESIZE && nwrite == (from + |s|) % WRAP
    ensures Rings(data[nwrite % PIPESIZE := b], from, s + [b]) && (nwrite + 1) % WRAP == (from + |s| + 1) % WRAP
  {
    SamePlace(from + |s|);
    var data', t := data[nwrite % PIPESIZE := b], s + [b];
    assert nwrite % PIPESIZE == Place(from + |s|);
    forall k | 0 <= k < |t| ensures data'[Place(from + k)] == t[k] {
      if k < |s| {
        Apart(from + k, |s| - k);
        assert data[Place(from + k)] == s[k];
      }
    }
  }

  lemma {:induction false} Apart(a: nat, d: nat)
    requires 0 < d < PIPESIZE
    ensures Place(a) != Place(a + d)
  {
  }

  lemma {:induction false} Popped(data: seq<Byte>, from: nat, s: seq<Byte>, nread: Uint)
    requires |data| == PIPESIZE && Rings(data, from, s) && s != [] && nread == from % WRAP
    ensures data[nread % PIPESIZE] == s[0] && Rings(data, from + 1, s[1..]) && (nread + 1) % WRAP == (from + 1) % WRAP
  {
    SamePlace(from);
    assert data[Place(from + 0)] == s[0];
    forall k | 0 <= k < |s[1..]| ensures data[Place(from + 1 + k)] == s[1..][k] {
      assert data[Place(from + (k + 1))] == s[k + 1];
    }
  }
}
