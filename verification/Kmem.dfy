/** The allocator behind ESE_MALLOC and ESE_FREE. A buffer is filled when it is allocated and never
    written again, as everywhere on the secure-element path. The allocator remembers which objects
    are live; Free's precondition rules out freeing one that is not, so a verified caller never
    frees an object twice. */
module Kmem {
  import opened Bytes

  class Buffer {
    const bytes: seq<byte>

    constructor (bytes: seq<byte>)
      ensures this.bytes == bytes
    {
      this.bytes := bytes;
    }
  }

  class Allocator {
    ghost var live: set<object>

    constructor ()
      ensures live == {}
    {
      live := {};
    }

    method Malloc(bytes: seq<byte>) returns (buffer: Buffer)
      modifies this
      ensures fresh(buffer) && buffer.bytes == bytes
      ensures live == old(live) + {buffer}
    {
      buffer := new Buffer(bytes);
      live := live + {buffer};
    }

    /** Records an object the caller has just allocated with `new`. */
    method Register(block: object)
      modifies this
      ensures live == old(live) + {block}
    {
      live := live + {block};
    }

    method Free(block: object)
      requires block in live
      modifies this
      ensures live == old(live) - {block}
    {
      live := live - {block};
    }
  }
}
