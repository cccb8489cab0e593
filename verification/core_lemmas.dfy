/**
  Properties of core memory: the unreachable final byte, where the written
  bytes actually land, how the intended accesses relate to each other, and
  the copy scenario the memory's own test exercises.
 */
module CoreLemmas {
  import opened Defs
  import opened CoreMemory

  /** No accepted access, read or write, touches the final byte; a one-byte
      read of it is rejected, while a write of every byte before it succeeds. */
  lemma LastByteNeverAccessible(c: Core, loc: UWord, len: UWord, data: seq<Byte>)
    requires c.Valid()
    requires !Rejects(c.size, loc, len) ==> len <= |data|
    ensures Read(c, loc, len).Some? ==> loc + len - 1 < c.size - 1
    ensures Write(c, loc, data, len).0 ==> loc + len <= c.size - 1
    ensures 0 < c.size ==> Read(c, c.size - 1, 1) == None
    ensures 1 < c.size && c.size - 1 <= |data| ==> Write(c, 0, data, c.size - 1).0
  {
  }

  /** As written, an accepted write at any offset is read back at offset 0. */
  lemma WriteLandsAtZero(c: Core, loc: UWord, data: seq<Byte>, len: UWord)
    requires c.Valid()
    requires !Rejects(c.size, loc, len) && len <= |data|
    ensures Read(Write(c, loc, data, len).1, 0, len) == Some(data[..len])
  {
  }

  /** As written, an accepted write at an offset no smaller than its length
      leaves the bytes it names exactly as they were. */
  lemma WriteLeavesTargetUntouched(c: Core, loc: UWord, data: seq<Byte>, len: UWord)
    requires c.Valid()
    requires !Rejects(c.size, loc, len) && len <= |data|
    requires len <= loc
    ensures Write(c, loc, data, len).0
    ensures Read(Write(c, loc, data, len).1, loc, len) == Read(c, loc, len)
  {
    var c' := Write(c, loc, data, len).1;
    var r, r0 := Read(c', loc, len), Read(c, loc, len);
    assert r.value == r0.value by {
      forall k | 0 <= k < len
        ensures r.value[k] == r0.value[k]
      {
      }
    }
  }

  /** A concrete witness: writing one byte 0xAA at offset 5 of a cleared
      16-byte core succeeds, yet byte 5 still reads 0 and byte 0 reads 0xAA. */
  lemma WriteAtFiveChangesByteZero()
    ensures var c := Core(16, seq(16, _ => 0));
            var (ok, c') := Write(c, 5, [0xAA], 1);
            ok && Read(c', 5, 1) == Some([0]) && Read(c', 0, 1) == Some([0xAA])
  {
    var c := Core(16, seq(16, _ => 0));
    var c' := Write(c, 5, [0xAA], 1).1;
    assert Read(c', 5, 1).value == [0];
    assert Read(c', 0, 1).value == [0xAA];
  }

  /** The intended write reads back at the offset it was given. */
  lemma WriteAtRoundTrip(c: Core, loc: UWord, data: seq<Byte>, len: UWord)
    requires c.Valid()
    requires !Rejects(c.size, loc, len) && len <= |data|
    ensures Read(WriteAt(c, loc, data, len).1, loc, len) == Some(data[..len])
  {
  }

  /** At offset 0 the written and the intended write agree. */
  lemma WriteAgreesWithWriteAtAtZero(c: Core, data: seq<Byte>, len: UWord)
    requires c.Valid()
    requires !Rejects(c.size, 0, len) ==> len <= |data|
    ensures Write(c, 0, data, len) == WriteAt(c, 0, data, len)
  {
    if !Rejects(c.size, 0, len) {
      assert c.mem[..0] + data[..len] + c.mem[len..] == data[..len] + c.mem[len..];
    }
  }

  /** The intended single-byte read is the one-byte multi-byte read. */
  lemma ReadByteAtIsOneByteRead(c: Core, loc: UWord)
    requires c.Valid()
    ensures ReadByteAt(c, loc).Some? <==> Read(c, loc, 1).Some?
    ensures ReadByteAt(c, loc).Some? ==> Read(c, loc, 1).value == [ReadByteAt(c, loc).value]
  {
  }

  /** The intended single-byte write is the one-byte intended write. */
  lemma WriteByteAtIsOneByteWriteAt(c: Core, loc: UWord, b: Byte)
    requires c.Valid()
    ensures WriteByteAt(c, loc, b) == WriteAt(c, loc, [b], 1)
  {
    if !Rejects(c.size, loc, 1) {
      assert [b][..1] == [b];
      var m := c.mem[..loc] + [b] + c.mem[loc + 1..];
      assert m == c.mem[loc := b];
    }
  }

  /** A concrete witness: in a two-byte core holding 7 at offset 0, the
      one-byte read returns [7], the single-byte read as written fails and the
      intended one returns 7. */
  lemma ReadByteFailsWhereReadSucceeds()
    ensures var c := Core(2, [7, 0]);
            Read(c, 0, 1) == Some([7]) && ReadByte(c, 0) == None && ReadByteAt(c, 0) == Some(7)
  {
    var c := Core(2, [7, 0]);
    assert Read(c, 0, 1).value == [7];
  }

  /** A concrete witness: in a cleared two-byte core, the single-byte write as
      written of 9 at offset 0 fails and changes nothing, while the intended one
      stores it. */
  lemma WriteByteFailsWhereWriteAtSucceeds()
    ensures var c := Core(2, [0, 0]);
            WriteByte(c, 0, 9) == (false, c) && WriteByteAt(c, 0, 9) == (true, Core(2, [9, 0]))
  {
    var c := Core(2, [0, 0]);
    assert c.mem[0 := 9] == [9, 0];
    assert WriteByteAt(c, 0, 9).1 == Core(2, [9, 0]);
  }

  /** The memory test's scenario: a 44-byte string is written at offset 0 of a
      cleared 4096-byte core and read back, followed by a zero byte that ends
      the string; a copy keeps reading it after the original is written at
      offset 5, which as written rewrites offset 0 and so also leaves the
      original reading the string. */
  lemma CoreTestScenario(c: Core, data: seq<Byte>, copy: Core)
    requires c.Valid() && c.size == 4096
    requires forall i :: 0 <= i < c.size ==> c.mem[i] == 0
    requires |data| == 44
    requires copy == Write(c, 0, data, 44).1
    ensures Write(c, 0, data, 44).0
    ensures Read(Write(c, 0, data, 44).1, 0, 44) == Some(data)
    ensures Read(Write(c, 0, data, 44).1, 44, 1) == Some([0])
    ensures Read(Write(Write(c, 0, data, 44).1, 5, data, 44).1, 0, 44) == Some(data)
    ensures Read(copy, 0, 44) == Some(data)
  {
    var c1 := Write(c, 0, data, 44).1;
    WriteLandsAtZero(c, 0, data, 44);
    assert data[..44] == data;
    assert Read(c1, 44, 1).value == [0];
    WriteLandsAtZero(c1, 5, data, 44);
  }
}
