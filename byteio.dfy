/**
 * The byte sinks and sources the codec works over: a growable buffer written with
 * `write_all` (a `Vec<u8>`) and a byte slice consumed with `read_exact` (a `&[u8]`).
 */
module ByteIo {
  import opened Wrappers
  import opened Bytes
  import opened MantaError

  class ByteWriter {
    var buf: seq<uint8>

    constructor ()
      ensures buf == []
    {
      buf := [];
    }

    /** `write_all`: appends every byte; writing into a growable buffer does not fail. */
    method WriteAll(bytes: seq<uint8>)
      modifies this
      ensures buf == old(buf) + bytes
    {
      buf := buf + bytes;
    }
  }

  class ByteReader {
    const data: seq<uint8>
    var pos: nat

    ghost predicate Valid()
      reads this
    {
      pos <= |data|
    }

    constructor (input: seq<uint8>)
      ensures Valid() && data == input && pos == 0
    {
      data := input;
      pos := 0;
    }

    /**
     * `read_exact(&mut [u8; n])`: takes the next `n` bytes; when fewer remain it fails
     * with an unexpected end of input and consumes nothing.
     */
    method ReadExact(n: nat) returns (r: Result<seq<uint8>, Error>)
      requires Valid()
      modifies this
      ensures Valid()
      ensures old(pos) + n <= |data| ==> r == Ok(data[old(pos)..old(pos) + n]) && pos == old(pos) + n
      ensures old(pos) + n > |data| ==> r == Err(UnexpectedEof) && pos == old(pos)
    {
      if pos + n > |data| {
        return Err(UnexpectedEof);
      }
      r := Ok(data[pos..pos + n]);
      pos := pos + n;
    }
  }
}
