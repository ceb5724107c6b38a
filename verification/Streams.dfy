/** The sequential readers that uploads consume: a fixed content and a position that only moves forward. */
module Streams {
  type byte = bv8

  class Reader {
    const data: seq<byte>
    var pos: nat

    ghost predicate Valid()
      reads this
    {
      pos <= |data|
    }

    /** What has not been read yet. */
    ghost function Rest(): seq<byte>
      reads this
      requires Valid()
    {
      data[pos..]
    }

    constructor (content: seq<byte>)
      ensures Valid() && Rest() == content
    {
      data, pos := content, 0;
    }

    /** Reads up to `limit` bytes, fewer only at the end of the content. */
    method Read(limit: nat) returns (b: seq<byte>)
      requires Valid()
      modifies this
      ensures Valid()
      ensures b == if limit <= |old(Rest())| then old(Rest())[..limit] else old(Rest())
      ensures Rest() == old(Rest())[|b|..]
    {
      var end := if limit <= |data| - pos then pos + limit else |data|;
      b := data[pos..end];
      pos := end;
    }
  }
}
