/** Pipes: a ring of PIPESIZE bytes between readers and writers that sleep on it.
    A method is one critical section under p->lock: from acquiring the lock, at the
    start of a call or after a sleep, to the next sleep or the return. */
module Pipe {
  import opened Types

  const PIPESIZE: nat := 512

  /** How a critical section ends. */
  datatype Ending = Done | Asleep | Failed

  // ---------------------------------------------------------------------------
  // The 32-bit counters nwrite and nread, for w bytes written and r bytes read

  /** Where byte n goes in the ring. */
  function Place(n: nat): (r: nat)
    ensures r < PIPESIZE
  {
    n % PIPESIZE
  }

  /** n as a 32-bit counter. */
  function Wrap(n: nat): (r: nat)
    ensures r < UINT_LIMIT
  {
    n % UINT_LIMIT
  }

  lemma WrapAdd(n: nat, k: nat)
    ensures Wrap(Wrap(n) + k) == Wrap(n + k)
  {}

  lemma WrapApart(a: nat, b: nat)
    requires a <= b < a + UINT_LIMIT
    ensures Wrap(a) == Wrap(b) <==> a == b
  {
    assert b - a == UINT_LIMIT * (b / UINT_LIMIT - a / UINT_LIMIT) + Wrap(b) - Wrap(a);
  }

  /** Wrapping around at 2^32 does not disturb positions in the ring. */
  lemma WrapKeepsPosition(n: nat)
    ensures Place(Wrap(n)) == Place(n)
  {}

  /** The counters tell an empty and a full pipe apart, wherever they wrapped. */
  lemma CountersTell(w: nat, r: nat)
    requires r <= w <= r + PIPESIZE
    ensures Wrap(r) == Wrap(w) <==> w == r
    ensures Wrap(Wrap(r) + PIPESIZE) == Wrap(w) <==> w == r + PIPESIZE
  {
    hide Wrap;
    WrapApart(r, w);
    WrapApart(w, r + PIPESIZE);
    WrapAdd(r, PIPESIZE);
  }

  /** Bytes in flight sit at different positions of the ring. */
  lemma PositionsDiffer(i: nat, j: nat)
    requires i < j < i + PIPESIZE
    ensures Place(i) != Place(j)
  {}

  // ---------------------------------------------------------------------------

  class Pipe {
    const data: array<Byte>
    var nread: nat
    var nwrite: nat
    var readopen: bool
    var writeopen: bool
    ghost var accepted: seq<Byte>    // every byte ever written
    ghost var delivered: seq<Byte>   // every byte ever read
    ghost var readers: set<nat>      // processes asleep on &p->nread
    ghost var writers: set<nat>      // processes asleep on &p->nwrite

    /** Delivered bytes are a prefix of accepted bytes, at most PIPESIZE are in flight,
        and the ring holds just those. */
    ghost predicate Valid()
      reads this, data
    {
      && data.Length == PIPESIZE
      && nwrite == Wrap(|accepted|) && nread == Wrap(|delivered|)
      && delivered <= accepted && |accepted| <= |delivered| + PIPESIZE
      && (forall i :: |delivered| <= i < |accepted| ==> data[Place(i)] == accepted[i])
    }

    /** No wakeup is lost: a sleeping reader means an empty pipe that can still be
        written, a sleeping writer a full one that can still be read. */
    ghost predicate Restful()
      reads this
    {
      && (readers != {} ==> accepted == delivered && readopen && writeopen)
      && (writers != {} ==> |accepted| == |delivered| + PIPESIZE && readopen && writeopen)
    }

    /** Readers and writers are never all asleep on the same pipe. */
    lemma NeverBoth()
      requires Restful()
      ensures readers == {} || writers == {}
    {}

    /** pipealloc. */
    constructor ()
      ensures Valid() && Restful() && fresh(data) && accepted == delivered == []
      ensures readopen && writeopen && readers == writers == {}
    {
      data := new Byte[PIPESIZE];
      nread, nwrite, readopen, writeopen := 0, 0, true, true;
      accepted, delivered, readers, writers := [], [], {}, {};
    }

    /** pipewrite by process me, which has copied the first i bytes of addr so far.
        It ends there exactly when the rest fits. A reader is left asleep over bytes exactly
        when the writer has more than a pipe of them and may not sleep: it was killed, or
        nobody reads. */
    method Write(me: nat, addr: seq<Byte>, i: nat, killed: bool) returns (e: Ending, j: nat)
      requires Valid() && writeopen && i <= |addr|
      modifies this, data
      ensures Valid() && readopen == old(readopen) && writeopen
      ensures i <= j <= |addr| && accepted == old(accepted) + addr[i..j] && delivered == old(delivered)
      ensures e.Done? <==> |addr| - i <= |old(delivered)| + PIPESIZE - |old(accepted)|
      ensures e.Failed? <==> !e.Done? && (killed || !readopen)
      ensures e.Done? ==> j == |addr| && readers == {} && writers == old(writers)
      ensures !e.Done? ==> |accepted| == |delivered| + PIPESIZE && j < |addr|
      ensures e.Asleep? ==> readers == {} && writers == old(writers) + {me}
      ensures e.Failed? ==> readers == old(readers) && writers == old(writers)
      ensures old(Restful()) ==>
                (Restful() <==> !((killed || !old(readopen)) && old(readers) != {} && |addr| - i > PIPESIZE))
    {
      j := i;
      while j < |addr|
        invariant Valid() && i <= j <= |addr|
        invariant accepted == old(accepted) + addr[i..j] && delivered == old(delivered)
        invariant readers == old(readers) && writers == old(writers) && readopen == old(readopen) && writeopen
        invariant j > i ==> |old(accepted)| < |delivered| + PIPESIZE
      {
        CountersTell(|accepted|, |delivered|);
        if nwrite == Wrap(nread + PIPESIZE) {
          if !readopen || killed {
            return Failed, j;
          }
          readers := {};
          writers := writers + {me};
          return Asleep, j;
        }
        Put(addr[j]);
        assert addr[i..j + 1] == addr[i..j] + [addr[j]];
        j := j + 1;
      }
      readers := {};
      return Done, j;
    }

    /** p->data[p->nwrite++ % PIPESIZE] = b, when the pipe is not full. */
    method Put(b: Byte)
      requires Valid() && |accepted| < |delivered| + PIPESIZE
      modifies this`nwrite, this`accepted, data
      ensures Valid() && accepted == old(accepted) + [b]
    {
      hide Place, Wrap;
      WrapKeepsPosition(|accepted|);
      WrapAdd(|accepted|, 1);
      forall i | |delivered| <= i < |accepted| ensures Place(i) != Place(|accepted|) {
        PositionsDiffer(i, |accepted|);
      }
      data[Place(nwrite)] := b;
      nwrite := Wrap(nwrite + 1);
      accepted := accepted + [b];
    }

    /** p->data[p->nread++ % PIPESIZE], when the pipe is not empty. */
    method Get() returns (b: Byte)
      requires Valid() && |delivered| < |accepted|
      modifies this`nread, this`delivered
      ensures Valid() && delivered == old(delivered) + [b]
    {
      hide Place, Wrap;
      WrapKeepsPosition(|delivered|);
      WrapAdd(|delivered|, 1);
      b := data[Place(nread)];
      nread := Wrap(nread + 1);
      delivered := delivered + [b];
    }

    /** piperead by process me, which asks for n bytes. */
    method Read(me: nat, n: nat, killed: bool) returns (e: Ending, addr: seq<Byte>)
      requires Valid() && readopen
      modifies this
      ensures Valid() && readopen && writeopen == old(writeopen) && accepted == old(accepted)
      ensures delivered == old(delivered) + addr
      ensures e.Done? <==> !(old(accepted) == old(delivered) && writeopen)
      ensures e.Done? ==> |addr| == if n <= |accepted| - |old(delivered)| then n else |accepted| - |old(delivered)|
      ensures e.Done? ==> writers == {} && readers == old(readers)
      ensures !e.Done? ==> addr == [] && accepted == delivered && writeopen && writers == old(writers)
      ensures e.Asleep? ==> !killed && readers == old(readers) + {me}
      ensures e.Failed? ==> killed && readers == old(readers)
      ensures old(Restful()) ==> Restful()
    {
      CountersTell(|accepted|, |delivered|);
      if nread == nwrite && writeopen {
        if killed {
          return Failed, [];
        }
        readers := readers + {me};
        return Asleep, [];
      }
      addr := [];
      var i := 0;
      while i < n && nread != nwrite
        invariant 0 <= i <= n && |addr| == i && Valid()
        invariant delivered == old(delivered) + addr && accepted == old(accepted)
        invariant readers == old(readers) && writers == old(writers) && readopen && writeopen == old(writeopen)
        invariant nread == nwrite <==> |accepted| == |delivered|
        decreases n - i
      {
        var b := Get();
        addr := addr + [b];
        CountersTell(|accepted|, |delivered|);
        i := i + 1;
      }
      writers := {};
      return Done, addr;
    }

    /** pipeclose, by the last holder of the write end. */
    method CloseWrite()
      requires Valid() && writeopen && writers == {}
      modifies this
      ensures Valid() && !writeopen && readopen == old(readopen) && readers == {} && writers == {}
      ensures accepted == old(accepted) && delivered == old(delivered) && Restful()
    {
      writeopen := false;
      readers := {};
    }

    /** pipeclose, by the last holder of the read end. */
    method CloseRead()
      requires Valid() && readopen && readers == {}
      modifies this
      ensures Valid() && !readopen && writeopen == old(writeopen) && readers == {} && writers == {}
      ensures accepted == old(accepted) && delivered == old(delivered) && Restful()
    {
      readopen := false;
      writers := {};
    }

    /** kill makes a sleeping process runnable whatever it waits for. */
    method Kill(p: nat)
      requires Valid()
      modifies this`readers, this`writers
      ensures Valid() && readers == old(readers) - {p} && writers == old(writers) - {p}
      ensures old(Restful()) ==> Restful()
    {
      readers := readers - {p};
      writers := writers - {p};
    }
  }

  /** A reader sleeps on the empty pipe; a killed writer then fills it and leaves:
      the reader stays asleep over PIPESIZE bytes. */
  method LostWakeup() returns (p: Pipe)
    ensures p.Valid() && 1 in p.readers && p.accepted != p.delivered && !p.Restful()
  {
    p := new Pipe();
    var e, addr := p.Read(1, 1, false);
    assert e.Asleep?;
    var text: seq<Byte> := seq(PIPESIZE + 1, _ => 0);
    var e2, j := p.Write(2, text, 0, true);
  }
}
