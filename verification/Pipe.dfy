/** The ring of a pipe: its bytes come out in the order in which they went in, also when its 32-bit counters
    wrap around. */
module Pipe {
  import opened Common

  const PIPESIZE: nat := 512
  const UINT: nat := 0x1_0000_0000

  /** Why pipewrite leaves its loop, for the time being or for good. */
  datatype Why = Ended | Full | GivenUp

  lemma WrapEqual(a: nat, b: nat)
    requires b <= a <= b + PIPESIZE
    ensures a % UINT == b % UINT <==> a == b
    ensures a % UINT == (b % UINT + PIPESIZE) % UINT <==> a == b + PIPESIZE
  {
  }

  /** A counter that has wrapped still says where in the ring the next byte is. */
  lemma SlotOf(a: nat)
    ensures a % UINT % PIPESIZE == a % PIPESIZE && (a % UINT + 1) % UINT == (a + 1) % UINT
  {
    ModOfMod(a, PIPESIZE, 0x80_0000, UINT);
    ModPlus(a, 1, UINT);
  }

  class Pipe {
    const data: array<byte>
    var nread: nat
    var nwrite: nat
    var readopen: bool
    var writeopen: bool
    // everything that has been put in and taken out
    ghost var put: seq<byte>
    ghost var got: seq<byte>

    ghost predicate Valid()
      reads this, data
    {
      && data.Length == PIPESIZE && nread == |got| % UINT && nwrite == |put| % UINT
      && |got| <= |put| <= |got| + PIPESIZE && got <= put
      && forall k :: |got| <= k < |put| ==> data[k % PIPESIZE] == put[k]
    }

    /** pipealloc. */
    constructor ()
      ensures Valid() && fresh(data) && put == [] && got == [] && readopen && writeopen
    {
      data := new byte[PIPESIZE](_ => 0);
      nread, nwrite := 0, 0;
      readopen, writeopen := true, true;
      put, got := [], [];
    }

    /** A byte goes into the ring. */
    method PutByte(ch: byte)
      requires Valid() && |put| < |got| + PIPESIZE
      modifies this`nwrite, this`put, data
      ensures Valid() && put == old(put) + [ch]
    {
      SlotOf(|put|);
      RingSlots(|got|, |put|);
      data[nwrite % PIPESIZE] := ch;
      nwrite := (nwrite + 1) % UINT;
      put := put + [ch];
    }

    /** pipewrite from position i of src up to its next sleep or its end: bytes go into the ring until the source
        ends or cannot be read, from position stop on, the ring is full, or the writer gives up, because there is no
        reader or it has been killed, as it notices at position dead. */
    method WriteSome(src: seq<byte>, i: nat, stop: nat, dead: nat) returns (i': nat, why: Why)
      requires Valid() && i <= |src| && i <= stop
      modifies this`nwrite, this`put, data
      ensures Valid() && i <= i' <= |src| && i' <= stop && put == old(put) + src[i..i']
      ensures i < i' ==> readopen && i' <= dead
      ensures why.GivenUp? <==> i' < |src| && (!readopen || dead <= i')
      ensures why.Full? <==> i' < |src| && readopen && i' < dead && |put| == |got| + PIPESIZE
      ensures why.Ended? ==> i' == |src| || i' == stop
    {
      i' := i;
      while i' < |src|
        invariant Valid() && i <= i' <= |src| && i' <= stop && put == old(put) + src[i..i']
        invariant i < i' ==> readopen && i' <= dead
      {
        if !readopen || dead <= i' {
          return i', GivenUp;
        }
        WrapEqual(|put|, |got|);
        if nwrite == (nread + PIPESIZE) % UINT {
          return i', Full;
        }
        if i' == stop {
          return i', Ended;
        }
        PutByte(src[i']);
        i' := i' + 1;
      }
      why := Ended;
    }

    /** The copying loop of piperead: up to n bytes, fewer if the ring runs empty or the destination cannot be written from
        position stop on. A byte that cannot be delivered is gone. */
    method ReadSome(n: nat, stop: nat) returns (dst: seq<byte>, ghost taken: seq<byte>)
      requires Valid()
      modifies this`nread, this`got
      ensures Valid() && got == old(got) + taken && dst <= taken && |dst| <= n && |dst| <= stop
      ensures |taken| == if |dst| < n && |dst| == stop && stop < |put| - |old(got)| then |dst| + 1 else |dst|
      ensures |dst| < n && |dst| < stop ==> got == put
    {
      dst, taken := [], [];
      while |dst| < n
        invariant Valid() && got == old(got) + taken && dst == taken && |dst| <= n && |dst| <= stop
      {
        WrapEqual(|put|, |got|);
        if nread == nwrite {
          break;
        }
        SlotOf(|got|);
        var ch := data[nread % PIPESIZE];
        nread := (nread + 1) % UINT;
        got := got + [ch];
        taken := taken + [ch];
        if |dst| == stop {
          return;
        }
        dst := dst + [ch];
      }
    }
  }

  /** While the ring is not full, the slot for the next byte holds none that is still to be read. */
  lemma RingSlots(r: nat, w: nat)
    requires r <= w < r + PIPESIZE
    ensures forall k :: r <= k < w ==> k % PIPESIZE != w % PIPESIZE
  {
  }
}
