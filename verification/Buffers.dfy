/**
 * Picture memory.  The program moves pictures around by passing the address of
 * a block; the machines in this project name a block by its number, and the
 * classes hold it as a `Buffer` object with that number.
 */
module Buffers {
  type Byte = b: int | 0 <= b < 256
  type Picture = seq<Byte>

  class Buffer {
    ghost const id: nat
    var bytes: Picture

    constructor (ghost id: nat, bytes: Picture)
      ensures this.id == id && this.bytes == bytes
    {
      this.id := id;
      this.bytes := bytes;
    }
  }

  /** Block `i` of the pool carries number `i`, so distinct numbers are distinct blocks. */
  ghost predicate Numbered(pool: seq<Buffer>) {
    forall i :: 0 <= i < |pool| ==> pool[i].id == i
  }

  /** Every address in the queue is the address of a block of the pool. */
  ghost predicate From(q: seq<Buffer>, pool: seq<Buffer>) {
    forall i :: 0 <= i < |q| ==> q[i].id < |pool| && pool[q[i].id] == q[i]
  }

  lemma {:induction false} FromSomewhere(q: seq<Buffer>, pool: seq<Buffer>)
    requires From(q, pool)
    ensures q != [] ==> pool != []
  {
    assert q != [] ==> q[0].id < |pool|;
  }

  ghost function Ids(q: seq<Buffer>): seq<nat> {
    seq(|q|, i requires 0 <= i < |q| => q[i].id)
  }

  ghost function Memory(pool: seq<Buffer>): seq<Picture>
    reads pool
  {
    seq(|pool|, i requires 0 <= i < |pool| reads pool => pool[i].bytes)
  }

  /** `memcpy(dst, src, n)` on whole blocks. */
  method MemCpy(dst: Buffer, src: Picture, n: nat)
    requires n <= |src| && n <= |dst.bytes|
    modifies dst
    ensures dst.bytes == src[..n] + old(dst.bytes)[n..]
  {
    dst.bytes := src[..n] + dst.bytes[n..];
  }

  // The same memory seen as a value: `store[b]` holds the bytes of block `b`.

  function Peek(store: seq<Picture>, b: nat): Picture {
    if b < |store| then store[b] else []
  }

  function Poke(store: seq<Picture>, b: nat, p: Picture): seq<Picture> {
    if b < |store| then store[b := p] else store
  }

  /** The pictures a queue of addresses points to. */
  function Contents(store: seq<Picture>, ids: seq<nat>): seq<Picture> {
    seq(|ids|, i requires 0 <= i < |ids| => Peek(store, ids[i]))
  }

  /** A `memcpy` that fills a whole block of the pool. */
  method Fill(ghost pool: seq<Buffer>, dst: Buffer, src: Picture, n: nat)
    requires Numbered(pool) && dst.id < |pool| && pool[dst.id] == dst
    requires |dst.bytes| == n <= |src|
    modifies dst
    ensures dst.bytes == src[..n]
    ensures Memory(pool) == Poke(old(Memory(pool)), dst.id, src[..n])
  {
    MemCpy(dst, src, n);
    assert forall i :: 0 <= i < |pool| && i != dst.id ==> pool[i] != dst;
  }
}
