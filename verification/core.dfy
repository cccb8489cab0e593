/**
  Core memory: a fixed-size, zero-initialised array of bytes with
  bounds-checked reads and writes.

  Every multi-byte access is guarded by the same strict test: it is rejected
  when the offset is at or past the end, when the length is zero, or when
  offset + length reaches the size. The final byte of a core is therefore
  never accessible.

  The members in the first part model the code as it is written, including
  two defects: the multi-byte write always copies to the start of the buffer,
  and the single-byte forms compare against the core's own size, so their
  guard rejects every access. The members in the second part give the
  evidently intended behaviour.
 */
module CoreMemory {
  import opened Defs

  /** A core of `size` bytes. The class invariant is `Valid`. */
  datatype Core = Core(size: UWord, mem: seq<Byte>)
  {
    ghost predicate Valid() {
      |mem| == size
    }
  }

  /** The guard shared by every multi-byte read and write: true when the
      access is rejected. */
  predicate Rejects(size: nat, loc: nat, len: nat) {
    loc >= size || len == 0 || loc + len >= size
  }

  // ---------------------------------------------------------------------
  // Construction and copying
  // ---------------------------------------------------------------------

  /** Allocates a core of `size` bytes and clears every byte. */
  method NewCore(size: UWord) returns (c: Core)
    ensures c.Valid() && c.size == size
    ensures forall i :: 0 <= i < size ==> c.mem[i] == 0
  {
    var mem: seq<Byte> := [];
    var i := 0;
    while i < size
      invariant 0 <= i <= size
      invariant |mem| == i
      invariant forall k :: 0 <= k < i ==> mem[k] == 0
    {
      mem := mem + [0];
      i := i + 1;
    }
    c := Core(size, mem);
  }

  /** Copy construction: a fresh buffer of the source's size receiving every
      byte of the source. */
  method CopyCore(src: Core) returns (c: Core)
    requires src.Valid()
    ensures c.Valid()
    ensures c == src
  {
    var mem: seq<Byte> := [];
    var i := 0;
    while i < src.size
      invariant 0 <= i <= src.size
      invariant mem == src.mem[..i]
    {
      mem := mem + [src.mem[i]];
      i := i + 1;
    }
    c := Core(src.size, mem);
  }

  /** Assignment: the target's buffer is replaced by a newly allocated one of
      the source's size, and the source's bytes are then copied into it.
      `newBuf` stands for the new buffer's indeterminate contents, and `aliased`
      says whether the target is the source object itself. In that case the
      source's buffer has already been replaced when the copy runs, so the new
      buffer is copied onto itself and the original bytes are lost. */
  method AssignCore(dst: Core, src: Core, aliased: bool, newBuf: seq<Byte>) returns (c: Core)
    requires src.Valid()
    requires aliased ==> dst == src
    requires |newBuf| == src.size
    ensures c.Valid() && c.size == src.size
    ensures !aliased ==> c == src
    ensures aliased ==> c.mem == newBuf
  {
    var mem := newBuf;
    var i := 0;
    while i < src.size
      invariant 0 <= i <= src.size
      invariant |mem| == src.size
      invariant forall k :: 0 <= k < i ==> mem[k] == if aliased then newBuf[k] else src.mem[k]
      invariant forall k :: i <= k < src.size ==> mem[k] == newBuf[k]
    {
      var b := if aliased then mem[i] else src.mem[i];
      mem := mem[i := b];
      i := i + 1;
    }
    assert !aliased ==> mem == src.mem;
    assert aliased ==> mem == newBuf;
    c := Core(src.size, mem);
  }

  // ---------------------------------------------------------------------
  // Accesses as written
  // ---------------------------------------------------------------------

  /** Multi-byte read: the `len` bytes starting at `loc`, or None when the
      guard rejects the access. */
  function Read(c: Core, loc: UWord, len: UWord): (r: Option<seq<Byte>>)
    requires c.Valid()
    ensures r.Some? <==> 0 < len && loc + len < c.size
    ensures r.Some? ==> |r.value| == len
    ensures r.Some? ==> forall k :: 0 <= k < len ==> r.value[k] == c.mem[loc + k]
  {
    if Rejects(c.size, loc, len) then None
    else Some(c.mem[loc..loc + len])
  }

  /** Multi-byte write as written: the guard examines `loc`, but the bytes
      are copied to the start of the buffer. `data` must supply `len` bytes
      whenever the guard lets the write through. */
  function Write(c: Core, loc: UWord, data: seq<Byte>, len: UWord): (r: (bool, Core))
    requires c.Valid()
    requires !Rejects(c.size, loc, len) ==> len <= |data|
    ensures r.1.Valid() && r.1.size == c.size
    ensures r.0 <==> 0 < len && loc + len < c.size
    ensures !r.0 ==> r.1 == c
    ensures r.0 ==> forall i :: 0 <= i < len ==> r.1.mem[i] == data[i]
    ensures r.0 ==> forall i :: len <= i < c.size ==> r.1.mem[i] == c.mem[i]
  {
    if Rejects(c.size, loc, len) then (false, c)
    else (true, c.(mem := data[..len] + c.mem[len..]))
  }

  /** The byte at `loc`, or 0 past the end; total so that it may stand in a
      branch the guards never reach. */
  function ByteAt(mem: seq<Byte>, loc: nat): Byte {
    if loc < |mem| then mem[loc] else 0
  }

  /** `mem` with byte `loc` replaced, or unchanged past the end. */
  function Store(mem: seq<Byte>, loc: nat, b: Byte): seq<Byte> {
    if loc < |mem| then mem[loc := b] else mem
  }

  /** Single-byte read as written. Its guard compares `loc + size` with the
      core's own `size`, so the failure branch is always taken; the source's
      null result is modelled as None. */
  function ReadByte(c: Core, loc: UWord): (r: Option<Byte>)
    requires c.Valid()
    ensures r == None
  {
    if loc >= c.size || c.size == 0 || loc + c.size >= c.size then None
    else Some(ByteAt(c.mem, loc))
  }

  /** Single-byte write as written, with the same always-true guard: it
      reports failure and never changes the core. */
  function WriteByte(c: Core, loc: UWord, b: Byte): (r: (bool, Core))
    requires c.Valid()
    ensures r == (false, c)
  {
    if loc >= c.size || c.size == 0 || loc + c.size >= c.size then (false, c)
    else (true, c.(mem := Store(c.mem, loc, b)))
  }

  // ---------------------------------------------------------------------
  // Intended behaviour
  // ---------------------------------------------------------------------

  /** Multi-byte write to `loc`, as the guard and the read suggest. */
  function WriteAt(c: Core, loc: UWord, data: seq<Byte>, len: UWord): (r: (bool, Core))
    requires c.Valid()
    requires !Rejects(c.size, loc, len) ==> len <= |data|
    ensures r.1.Valid() && r.1.size == c.size
    ensures r.0 <==> 0 < len && loc + len < c.size
    ensures !r.0 ==> r.1 == c
    ensures r.0 ==> forall i :: 0 <= i < len ==> r.1.mem[loc + i] == data[i]
    ensures r.0 ==> forall i :: 0 <= i < c.size && !(loc <= i < loc + len) ==> r.1.mem[i] == c.mem[i]
  {
    if Rejects(c.size, loc, len) then (false, c)
    else (true, c.(mem := c.mem[..loc] + data[..len] + c.mem[loc + len..]))
  }

  /** Single-byte read with the guard taken over a length of one. */
  function ReadByteAt(c: Core, loc: UWord): (r: Option<Byte>)
    requires c.Valid()
    ensures r.Some? <==> loc + 1 < c.size
    ensures r.Some? ==> r.value == c.mem[loc]
  {
    if Rejects(c.size, loc, 1) then None
    else Some(c.mem[loc])
  }

  /** Single-byte write with the guard taken over a length of one. */
  function WriteByteAt(c: Core, loc: UWord, b: Byte): (r: (bool, Core))
    requires c.Valid()
    ensures r.1.Valid() && r.1.size == c.size
    ensures r.0 <==> loc + 1 < c.size
    ensures !r.0 ==> r.1 == c
    ensures r.0 ==> r.1.mem[loc] == b
    ensures r.0 ==> forall i :: 0 <= i < c.size && i != loc ==> r.1.mem[i] == c.mem[i]
  {
    if Rejects(c.size, loc, 1) then (false, c)
    else (true, c.(mem := c.mem[loc := b]))
  }
}
