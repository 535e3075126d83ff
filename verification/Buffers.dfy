/** `udtcp_new_buffer` and `udtcp_free_buffer`, with the account of what is allocated. */
module Buffers {
  import opened Wire

  class Allocator {
    /** In a reliable run no allocation fails. */
    const reliable: bool
    /** The buffers allocated and not yet freed. */
    ghost var live: set<array<byte>>
    /** How many allocations have failed. */
    ghost var refused: nat

    constructor (reliable: bool)
      ensures this.reliable == reliable && live == {} && refused == 0
    {
      this.reliable := reliable;
      this.live := {};
      this.refused := 0;
    }

    /** The size parameter is a `uint32_t`, so a larger request is truncated. */
    method New(size: nat) returns (b: array?<byte>)
      modifies this`live, this`refused
      ensures b == null ==> live == old(live) && !reliable && refused == old(refused) + 1
      ensures b != null ==> refused == old(refused) && fresh(b) && b.Length == size % LIMIT32 && live == old(live) + {b}
    {
      var exhausted: bool := *;
      if exhausted && !reliable {
        refused := refused + 1;
        return null;
      }
      var buffer := new byte[size % LIMIT32];
      live := live + {buffer};
      return buffer;
    }

    /** Frees a buffer; it must be allocated, so nothing is freed twice. */
    method Free(b: array<byte>)
      requires b in live
      modifies this`live
      ensures live == old(live) - {b}
    {
      live := live - {b};
    }
  }
}
