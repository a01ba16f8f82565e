/**
 * The aligned writer over a mapped GPU buffer (Code/BufferManagement.h).
 *
 * A `Buffer` is the CPU-side view of one GL buffer object: its byte contents,
 * the write cursor `head`, and whether `data` currently holds a pointer. All
 * GL calls are left out; the result of `glMapBuffer` (null or not) is an
 * input.
 */
module BufferManagement {
  import opened Bits
  import opened Values
  import opened Results

  // ---------------------------------------------------------------------------
  // Alignment arithmetic
  // ---------------------------------------------------------------------------

  /**
   * `value && !(value & (value - 1))` on a `u32`; the subtraction is only
   * evaluated for nonzero `value`, so it cannot wrap.
   */
  predicate IsPowerOf2(value: uint32)
  {
    value != 0 && AndU32(value, value - 1) == 0
  }

  /** `(value + alignment - 1) & ~(alignment - 1)`, every step in `u32` arithmetic. */
  function Align(value: uint32, alignment: uint32): uint32
  {
    AndU32(Wrap32(value + alignment - 1), NotU32(Wrap32(alignment - 1)))
  }

  /** The bit test recognises exactly the 32 powers of two that fit a `u32`; zero is not one. */
  lemma IsPowerOf2Iff(value: uint32)
    ensures IsPowerOf2(value) <==> exists k: nat :: k < 32 && Pow2(k) == value
  {
    if IsPowerOf2(value) {
      var k := Log2(value);
    }
    if exists k: nat :: k < 32 && Pow2(k) == value {
      var k: nat :| k < 32 && Pow2(k) == value;
      PowerOfTwoPasses(value, k);
    }
  }

  /** Every power of two that fits a `u32` passes the bit test. */
  lemma PowerOfTwoPasses(value: uint32, k: nat)
    requires k < 32 && Pow2(k) == value
    ensures IsPowerOf2(value)
  {
    Pow2Of32();
    AndPow2Predecessor(k);
  }

  /** The exponent of a power-of-two alignment. */
  lemma Log2(value: uint32) returns (k: nat)
    requires IsPowerOf2(value)
    ensures k < 32 && Pow2(k) == value
  {
    Pow2Of32();
    k := PowerOfTwoFromAnd(value, 32);
  }

  lemma PowersOf2InUse()
    ensures IsPowerOf2(1) && IsPowerOf2(4) && IsPowerOf2(16)
  {
    assert Pow2(0) == 1 && Pow2(2) == 4 && Pow2(4) == 16;
    IsPowerOf2Iff(1);
    IsPowerOf2Iff(4);
    IsPowerOf2Iff(16);
  }

  /**
   * For a power-of-two alignment the mask clears the low bits of the wrapped
   * sum: `Align` rounds `value + alignment - 1` (modulo 2^32) down to a
   * multiple of `alignment`.
   */
  lemma AlignClearsLowBits(value: uint32, alignment: uint32)
    requires IsPowerOf2(alignment)
    ensures var x := Wrap32(value + alignment - 1);
            Align(value, alignment) == x - x % alignment
  {
    var k := Log2(alignment);
    Pow2Of32();
    var x := Wrap32(value + alignment - 1);
    var mask := NotU32(Wrap32(alignment - 1));
    assert mask + Pow2(k) == Pow2(32);
    AndHighMask(x, mask, 32, k);
  }

  lemma MultipleOfDifference(x: int, a: int)
    requires a > 0
    ensures (x - x % a) % a == 0 && x - a < x - x % a <= x
  {
    ModUnique(x - x % a, a, x / a, 0);
  }

  /** The arithmetic behind `AlignBounds`, kept apart from the bit-level definitions. */
  lemma RoundedUpBounds(value: int, a: int, r: int)
    requires a > 0 && 0 <= value + a - 1 < U32_MODULUS
    requires r == Wrap32(value + a - 1) - Wrap32(value + a - 1) % a
    ensures r % a == 0 && value <= r < value + a
  {
    MultipleOfDifference(value + a - 1, a);
  }

  /** The arithmetic behind `AlignOfMultiple`: a multiple of a divisor of 2^32 rounds to itself. */
  lemma RoundedUpMultiple(value: int, a: int, r: int)
    requires a > 0 && U32_MODULUS % a == 0
    requires 0 <= value < U32_MODULUS && value % a == 0
    requires r == Wrap32(value + a - 1) - Wrap32(value + a - 1) % a
    ensures r == value
  {
    var q, p := value / a, U32_MODULUS / a;
    assert value == q * a && U32_MODULUS == p * a;
    if q >= p {
      MulMonotone(p, q, a);
      assert false;
    }
    MulMonotone(q, p - 1, a);
    assert value + a - 1 < U32_MODULUS;
    ModUnique(value + a - 1, a, q, a - 1);
  }

  lemma MulMonotone(i: int, j: int, a: int)
    requires i <= j && a > 0
    ensures i * a <= j * a
  {
  }

  lemma AlignmentDividesModulus(alignment: uint32)
    requires IsPowerOf2(alignment)
    ensures alignment > 0 && U32_MODULUS % alignment == 0
  {
    var k := Log2(alignment);
    Pow2Of32();
    Pow2Add(32 - k, k);
    ModUnique(U32_MODULUS, alignment, Pow2(32 - k), 0);
  }

  /** Even when the sum wraps, the result of `Align` is a multiple of the alignment. */
  lemma AlignIsMultiple(value: uint32, alignment: uint32)
    requires IsPowerOf2(alignment)
    ensures Align(value, alignment) % alignment == 0
  {
    AlignClearsLowBits(value, alignment);
    RoundedDownIsMultiple(Wrap32(value + alignment - 1), alignment, Align(value, alignment));
  }

  lemma RoundedDownIsMultiple(x: int, a: int, r: int)
    requires a > 0 && r == x - x % a
    ensures r % a == 0
  {
    MultipleOfDifference(x, a);
  }

  /**
   * Without `u32` overflow, `Align(value, alignment)` is the least multiple of
   * `alignment` that is not below `value`.
   */
  lemma AlignBounds(value: uint32, alignment: uint32)
    requires IsPowerOf2(alignment)
    requires value + alignment - 1 < U32_MODULUS
    ensures Align(value, alignment) % alignment == 0
    ensures value <= Align(value, alignment) < value + alignment
  {
    AlignClearsLowBits(value, alignment);
    RoundedUpBounds(value, alignment, Align(value, alignment));
  }

  lemma AlignBoundsWhenNoOverflow(value: uint32, alignment: uint32)
    requires IsPowerOf2(alignment)
    ensures value + alignment - 1 < U32_MODULUS ==>
              Align(value, alignment) % alignment == 0 && value <= Align(value, alignment) < value + alignment
  {
    if value + alignment - 1 < U32_MODULUS {
      AlignBounds(value, alignment);
    }
  }

  /** When `value + alignment - 1` overflows a `u32`, the aligned value wraps to 0. */
  lemma AlignWrapsToZero(value: uint32, alignment: uint32)
    requires IsPowerOf2(alignment)
    requires value + alignment - 1 >= U32_MODULUS
    ensures Align(value, alignment) == 0
  {
    AlignClearsLowBits(value, alignment);
    var x := value + alignment - 1 - U32_MODULUS;
    assert Wrap32(value + alignment - 1) == x;
    ModUnique(x, alignment, 0, x);
  }

  /** An offset that is already a multiple of the alignment is left where it is. */
  lemma AlignOfMultiple(value: uint32, alignment: uint32)
    requires IsPowerOf2(alignment)
    requires value % alignment == 0
    ensures Align(value, alignment) == value
  {
    AlignmentDividesModulus(alignment);
    AlignClearsLowBits(value, alignment);
    RoundedUpMultiple(value, alignment, Align(value, alignment));
  }

  /** The start of a buffer is aligned for every power-of-two alignment. */
  lemma AlignZero(alignment: uint32)
    requires IsPowerOf2(alignment)
    ensures Align(0, alignment) == 0
  {
    AlignOfMultiple(0, alignment);
  }

  /** Aligning twice is aligning once, even when the first alignment wrapped. */
  lemma AlignIdempotent(value: uint32, alignment: uint32)
    requires IsPowerOf2(alignment)
    ensures Align(Align(value, alignment), alignment) == Align(value, alignment)
  {
    AlignIsMultiple(value, alignment);
    AlignOfMultiple(Align(value, alignment), alignment);
  }

  lemma AlignByOne(value: uint32)
    ensures Align(value, 1) == value
  {
    PowersOf2InUse();
    AlignOfMultiple(value, 1);
  }

  // ---------------------------------------------------------------------------
  // The buffer and its cursor
  // ---------------------------------------------------------------------------

  datatype BufferKind = UniformBuffer | ArrayBuffer | ElementArrayBuffer

  /**
   * `handle`, `type`, the bytes behind `data` (their count is `size`), the
   * write cursor `head`, and whether `data` is non-null.
   */
  datatype Buffer = Buffer(handle: uint32, kind: BufferKind, bytes: seq<byte>, head: uint32, mapped: bool)
  {
    /** `size` is a `u32`. */
    predicate Valid()
    {
      |bytes| < U32_MODULUS
    }
  }

  /** The `ASSERT`s of `AlignHead` and `PushAlignedData`. */
  datatype BufferError = NotMapped | AlignmentNotPowerOf2

  /** A range bound to an indexed binding point by `glBindBufferRange`. */
  datatype RangeBinding = RangeBinding(kind: BufferKind, binding: uint32, handle: uint32, offset: uint32, size: uint32)

  /**
   * `MapBuffer`: `data` becomes whatever `glMapBuffer` returned (null when
   * `pointerReturned` is false) and the cursor restarts at 0.
   */
  function MapBuffer(b: Buffer, pointerReturned: bool): (r: Buffer)
    ensures r.head == 0 && r.mapped == pointerReturned
    ensures r.bytes == b.bytes && r.handle == b.handle && r.kind == b.kind
  {
    b.(head := 0, mapped := pointerReturned)
  }

  /**
   * `UnmapBuffer` as written: only GL state changes; `buffer.data` keeps the
   * pointer `glMapBuffer` returned.
   */
  function UnmapBuffer(b: Buffer): (r: Buffer)
    ensures r.mapped == b.mapped
    ensures r.bytes == b.bytes && r.head == b.head && r.handle == b.handle && r.kind == b.kind
  {
    b
  }

  /** `UnmapBuffer` as evidently intended: the pointer is cleared with the mapping. */
  function UnmapBufferCleared(b: Buffer): (r: Buffer)
    ensures !r.mapped
    ensures r.bytes == b.bytes && r.head == b.head && r.handle == b.handle && r.kind == b.kind
  {
    b.(mapped := false)
  }

  /**
   * `BindBufferRange`: binds `[blockOffset, blockOffset + blockSize)` and
   * returns the `u32` offset just past it.
   */
  function BindBufferRange(b: Buffer, binding: uint32, blockOffset: uint32, blockSize: uint32): (r: (RangeBinding, uint32))
    ensures r.0 == RangeBinding(b.kind, binding, b.handle, blockOffset, blockSize)
    ensures blockOffset + blockSize < U32_MODULUS ==> r.1 == blockOffset + blockSize
    ensures blockOffset + blockSize >= U32_MODULUS ==> r.1 == blockOffset + blockSize - U32_MODULUS
  {
    (RangeBinding(b.kind, binding, b.handle, blockOffset, blockSize), Wrap32(blockOffset + blockSize))
  }

  /** Feeding the returned offset into the next call binds adjacent, disjoint ranges. */
  lemma BindBufferRangeChains(b: Buffer, binding1: uint32, binding2: uint32, offset: uint32, size1: uint32, size2: uint32)
    requires offset + size1 + size2 < U32_MODULUS
    ensures var (first, next) := BindBufferRange(b, binding1, offset, size1);
            var (second, end) := BindBufferRange(b, binding2, next, size2);
            && second.offset == first.offset + first.size
            && end == offset + size1 + size2
  {
  }

  /** `AlignHead`: asserts a power-of-two alignment, then moves the cursor to `Align(head, alignment)`. */
  function AlignHead(b: Buffer, alignment: uint32): (r: Result<Buffer, BufferError>)
    ensures r.Success? <==> IsPowerOf2(alignment)
    ensures r.Failure? ==> r.error == AlignmentNotPowerOf2
    ensures r.Success? ==> r.value == b.(head := Align(b.head, alignment))
    ensures r.Success? ==> r.value.head % alignment == 0 && r.value.bytes == b.bytes && r.value.mapped == b.mapped
    ensures r.Success? && b.head + alignment - 1 < U32_MODULUS ==> b.head <= r.value.head < b.head + alignment
  {
    if !IsPowerOf2(alignment) then
      Failure(AlignmentNotPowerOf2)
    else
      AlignIsMultiple(b.head, alignment);
      AlignBoundsWhenNoOverflow(b.head, alignment);
      Success(b.(head := Align(b.head, alignment)))
  }

  /** `bytes` with `data` copied over positions `offset .. offset + |data|`, as `memcpy` does. */
  function Write(bytes: seq<byte>, offset: nat, data: seq<byte>): (r: seq<byte>)
    requires offset + |data| <= |bytes|
    ensures |r| == |bytes|
    ensures r[offset .. offset + |data|] == data
    ensures forall i :: 0 <= i < |bytes| && !(offset <= i < offset + |data|) ==> r[i] == bytes[i]
  {
    bytes[..offset] + data + bytes[offset + |data|..]
  }

  /** A write leaves every byte range that ends before it untouched. */
  lemma WriteKeepsBefore(bytes: seq<byte>, offset: nat, data: seq<byte>, lo: nat, hi: nat)
    requires offset + |data| <= |bytes| && lo <= hi <= offset
    ensures Write(bytes, offset, data)[lo .. hi] == bytes[lo .. hi]
  {
  }

  /** What `PushAlignedData` demands of its caller: a write that stays inside the buffer. */
  predicate Fits(b: Buffer, size: nat, alignment: uint32)
  {
    b.mapped && IsPowerOf2(alignment) ==> Align(b.head, alignment) + size <= |b.bytes|
  }

  /**
   * `PushAlignedData`: asserts the buffer is mapped, aligns the cursor,
   * copies `data` there and advances the cursor past it. There is no capacity
   * check in the source, so staying in bounds is the caller's obligation.
   */
  function PushAlignedData(b: Buffer, data: seq<byte>, alignment: uint32): (r: Result<Buffer, BufferError>)
    requires b.Valid() && Fits(b, |data|, alignment)
    ensures !b.mapped ==> r == Failure(NotMapped)
    ensures b.mapped && !IsPowerOf2(alignment) ==> r == Failure(AlignmentNotPowerOf2)
    ensures r.Success? <==> b.mapped && IsPowerOf2(alignment)
    ensures r.Success? ==>
              var offset := Align(b.head, alignment);
              && r.value.Valid()
              && offset % alignment == 0
              && r.value.head == offset + |data|
              && |r.value.bytes| == |b.bytes|
              && r.value.bytes == Write(b.bytes, offset, data)
              && r.value.bytes[offset .. offset + |data|] == data
              && (forall i :: 0 <= i < |b.bytes| && !(offset <= i < r.value.head) ==> r.value.bytes[i] == b.bytes[i])
              && r.value.mapped && r.value.handle == b.handle && r.value.kind == b.kind
  {
    if !b.mapped then
      Failure(NotMapped)
    else
      match AlignHead(b, alignment)
      case Failure(e) => Failure(e)
      case Success(aligned) =>
        Success(aligned.(bytes := Write(aligned.bytes, aligned.head, data), head := aligned.head + |data|))
  }

  /** Reading back the range just written returns exactly the bytes that were pushed. */
  lemma PushAlignedDataRoundTrip(b: Buffer, data: seq<byte>, alignment: uint32)
    requires b.Valid() && b.mapped && IsPowerOf2(alignment) && Fits(b, |data|, alignment)
    ensures var r := PushAlignedData(b, data, alignment);
            && r.Success?
            && r.value.bytes[r.value.head - |data| .. r.value.head] == data
  {
  }

  /** After `MapBuffer` the first push lands at offset 0 whatever its alignment. */
  lemma MapThenPushLandsAtZero(b: Buffer, data: seq<byte>, alignment: uint32)
    requires b.Valid() && IsPowerOf2(alignment) && |data| <= |b.bytes|
    ensures Fits(MapBuffer(b, true), |data|, alignment)
    ensures var r := PushAlignedData(MapBuffer(b, true), data, alignment);
            && r.Success?
            && r.value.head == |data|
            && r.value.bytes[..|data|] == data
  {
    AlignZero(alignment);
  }

  // ---------------------------------------------------------------------------
  // The typed pushes (`PushData`, `PushUInt`, ..., `PushMat4`)
  // ---------------------------------------------------------------------------

  const SIZE_OF_FLOAT: nat := 4
  const SIZE_OF_VEC3: nat := 12
  const SIZE_OF_VEC4: nat := 16
  const SIZE_OF_MAT3: nat := 36
  const SIZE_OF_MAT4: nat := 64

  /** std140 base alignment of `uint` and `float` (section 7.6.2.2 of the OpenGL 4.5 core profile specification). */
  const SCALAR_ALIGNMENT: uint32 := 4

  /** `sizeof(vec4)`: the alignment every vector and matrix push uses. */
  const VEC4_ALIGNMENT: uint32 := 16

  /** Where a push with the given alignment starts. */
  function PushOffset(b: Buffer, alignment: uint32): uint32
  {
    Align(b.head, alignment)
  }

  /** A mapped buffer has room for `size` bytes at the next multiple of `alignment`. */
  predicate HasRoom(b: Buffer, size: nat, alignment: uint32)
  {
    b.mapped ==> PushOffset(b, alignment) + size <= |b.bytes|
  }

  /** `PushData`: raw bytes, alignment 1, so they land exactly at the cursor. */
  function PushData(b: Buffer, data: seq<byte>): (r: Result<Buffer, BufferError>)
    requires b.Valid() && (b.mapped ==> b.head + |data| <= |b.bytes|)
    ensures r.Success? <==> b.mapped
    ensures r.Success? ==>
              && r.value.Valid()
              && r.value.head == b.head + |data|
              && |r.value.bytes| == |b.bytes|
              && r.value.bytes[b.head .. b.head + |data|] == data
              && r.value.bytes == Write(b.bytes, b.head, data)
              && r.value.mapped && r.value.handle == b.handle && r.value.kind == b.kind
  {
    AlignByOne(b.head);
    PowersOf2InUse();
    PushAlignedData(b, data, 1)
  }

  /** `PushUInt`: four little-endian bytes at the next multiple of 4. */
  function PushUInt(b: Buffer, value: uint32): (r: Result<Buffer, BufferError>)
    requires b.Valid() && HasRoom(b, 4, SCALAR_ALIGNMENT)
    ensures r.Success? <==> b.mapped
    ensures r.Success? ==>
              var offset := PushOffset(b, SCALAR_ALIGNMENT);
              && r.value.Valid()
              && |r.value.bytes| == |b.bytes|
              && offset % 4 == 0
              && r.value.head == offset + 4
              && UInt32FromBytes(r.value.bytes[offset .. offset + 4]) == value
              && r.value.bytes == Write(b.bytes, offset, UInt32Bytes(value))
              && r.value.mapped && r.value.handle == b.handle && r.value.kind == b.kind
  {
    PowersOf2InUse();
    UInt32RoundTrip(value);
    PushAlignedData(b, UInt32Bytes(value), SCALAR_ALIGNMENT)
  }

  /** `PushFloat`: the float's four bytes at the next multiple of 4. */
  function PushFloat(b: Buffer, value: Float): (r: Result<Buffer, BufferError>)
    requires b.Valid() && HasRoom(b, SIZE_OF_FLOAT, SCALAR_ALIGNMENT)
    ensures r.Success? <==> b.mapped
    ensures r.Success? ==>
              var offset := PushOffset(b, SCALAR_ALIGNMENT);
              && r.value.Valid()
              && |r.value.bytes| == |b.bytes|
              && offset % 4 == 0
              && r.value.head == offset + SIZE_OF_FLOAT
              && FloatsFromBytes(r.value.bytes[offset .. offset + SIZE_OF_FLOAT]) == [value]
              && r.value.bytes == Write(b.bytes, offset, FloatsBytes([value]))
              && r.value.mapped && r.value.handle == b.handle && r.value.kind == b.kind
  {
    PowersOf2InUse();
    FloatsRoundTrip([value]);
    PushAlignedData(b, FloatsBytes([value]), SCALAR_ALIGNMENT)
  }

  /** The vector and matrix pushes: packed floats at the next multiple of 16. */
  function PushFloats(b: Buffer, value: seq<Float>): (r: Result<Buffer, BufferError>)
    requires b.Valid() && HasRoom(b, 4 * |value|, VEC4_ALIGNMENT)
    ensures r.Success? <==> b.mapped
    ensures r.Success? ==>
              var offset := PushOffset(b, VEC4_ALIGNMENT);
              && r.value.Valid()
              && |r.value.bytes| == |b.bytes|
              && offset % 16 == 0
              && r.value.head == offset + 4 * |value|
              && r.value.bytes == Write(b.bytes, offset, FloatsBytes(value))
              && r.value.mapped && r.value.handle == b.handle && r.value.kind == b.kind
              && r.value.bytes[offset .. offset + 4 * |value|] == FloatsBytes(value)
              && FloatsFromBytes(r.value.bytes[offset .. offset + 4 * |value|]) == value
  {
    PowersOf2InUse();
    FloatsRoundTrip(value);
    PushAlignedData(b, FloatsBytes(value), VEC4_ALIGNMENT)
  }

  /** `PushVec3`: 12 bytes, aligned to 16 as std140 requires of a `vec3`. */
  function PushVec3(b: Buffer, value: Vec3): (r: Result<Buffer, BufferError>)
    requires b.Valid() && HasRoom(b, SIZE_OF_VEC3, VEC4_ALIGNMENT)
    ensures r.Success? <==> b.mapped
    ensures r.Success? ==>
              var offset := PushOffset(b, VEC4_ALIGNMENT);
              && r.value.Valid()
              && offset % 16 == 0
              && r.value.head == offset + SIZE_OF_VEC3
              && r.value.bytes == Write(b.bytes, offset, FloatsBytes(value))
              && FloatsFromBytes(r.value.bytes[offset .. offset + SIZE_OF_VEC3]) == value
              && r.value.mapped && r.value.handle == b.handle && r.value.kind == b.kind
  {
    PushFloats(b, value)
  }

  /** `PushVec4`: 16 bytes aligned to 16. */
  function PushVec4(b: Buffer, value: Vec4): (r: Result<Buffer, BufferError>)
    requires b.Valid() && HasRoom(b, SIZE_OF_VEC4, VEC4_ALIGNMENT)
    ensures r.Success? <==> b.mapped
    ensures r.Success? ==>
              var offset := PushOffset(b, VEC4_ALIGNMENT);
              && r.value.Valid()
              && offset % 16 == 0
              && r.value.head == offset + SIZE_OF_VEC4
              && r.value.bytes == Write(b.bytes, offset, FloatsBytes(value))
              && FloatsFromBytes(r.value.bytes[offset .. offset + SIZE_OF_VEC4]) == value
              && r.value.mapped && r.value.handle == b.handle && r.value.kind == b.kind
  {
    PushFloats(b, value)
  }

  /** `PushMat3` as written: `sizeof(mat3)`, i.e. 36 packed bytes, aligned to 16. */
  function PushMat3(b: Buffer, value: Mat3): (r: Result<Buffer, BufferError>)
    requires b.Valid() && HasRoom(b, SIZE_OF_MAT3, VEC4_ALIGNMENT)
    ensures r.Success? <==> b.mapped
    ensures r.Success? ==>
              && r.value.Valid()
              && |r.value.bytes| == |b.bytes|
              && r.value.head == PushOffset(b, VEC4_ALIGNMENT) + SIZE_OF_MAT3
              && r.value.bytes[PushOffset(b, VEC4_ALIGNMENT) .. r.value.head] == FloatsBytes(value)
              && r.value.bytes == Write(b.bytes, PushOffset(b, VEC4_ALIGNMENT), FloatsBytes(value))
              && r.value.mapped && r.value.handle == b.handle && r.value.kind == b.kind
  {
    PushFloats(b, value)
  }

  /** `PushMat4`: 64 bytes aligned to 16. */
  function PushMat4(b: Buffer, value: Mat4): (r: Result<Buffer, BufferError>)
    requires b.Valid() && HasRoom(b, SIZE_OF_MAT4, VEC4_ALIGNMENT)
    ensures r.Success? <==> b.mapped
    ensures r.Success? ==>
              && r.value.Valid()
              && |r.value.bytes| == |b.bytes|
              && r.value.head == PushOffset(b, VEC4_ALIGNMENT) + SIZE_OF_MAT4
              && r.value.bytes[PushOffset(b, VEC4_ALIGNMENT) .. r.value.head] == FloatsBytes(value)
              && r.value.bytes == Write(b.bytes, PushOffset(b, VEC4_ALIGNMENT), FloatsBytes(value))
              && r.value.mapped && r.value.handle == b.handle && r.value.kind == b.kind
  {
    PushFloats(b, value)
  }

  /** A float pushed right after a `vec3` fills the vec3's fourth slot: it lands 12 bytes after the vec3. */
  lemma FloatAfterVec3(b: Buffer, v: Vec3, f: Float)
    requires b.Valid() && b.mapped
    requires PushOffset(b, VEC4_ALIGNMENT) + SIZE_OF_VEC3 + SIZE_OF_FLOAT <= |b.bytes|
    ensures var r := PushVec3(b, v);
            && r.Success?
            && PushOffset(r.value, SCALAR_ALIGNMENT) == PushOffset(b, VEC4_ALIGNMENT) + 12
  {
    var offset := PushOffset(b, VEC4_ALIGNMENT);
    var r := PushFloats(b, v);
    PowersOf2InUse();
    ModUnique(offset + 12, 4, 4 * (offset / 16) + 3, 0);
    AlignOfMultiple(offset + 12, SCALAR_ALIGNMENT);
  }

  /** The next multiple of 16 after a `vec3` that starts on a multiple of 16. */
  lemma NextColumn(offset: uint32, c: nat, head: uint32)
    requires offset % 16 == 0 && c < 3 && offset + 48 < U32_MODULUS && head == offset + 16 * c + 12
    ensures Align(head, VEC4_ALIGNMENT) == offset + 16 * (c + 1)
  {
    VecAlignBounds(head);
    OnlyMultipleBetween(offset, c, Align(head, VEC4_ALIGNMENT));
  }

  /** `AlignBounds` for the vector alignment 16. */
  lemma VecAlignBounds(head: uint32)
    requires head + 15 < U32_MODULUS
    ensures Align(head, VEC4_ALIGNMENT) % 16 == 0
    ensures head <= Align(head, VEC4_ALIGNMENT) < head + 16
  {
    PowersOf2InUse();
    AlignBounds(head, VEC4_ALIGNMENT);
  }

  lemma OnlyMultipleBetween(offset: int, c: int, x: int)
    requires offset % 16 == 0 && x % 16 == 0 && offset + 16 * c + 12 <= x < offset + 16 * c + 28
    ensures x == offset + 16 * (c + 1)
  {
  }

  /**
   * Column `c` of a `mat3` pushed when the cursor is just past column `c - 1`
   * (or, for column 0, anywhere before `offset`): it lands at `offset + 16 * c`.
   */
  function PushColumnAt(b: Buffer, value: Mat3, offset: uint32, c: nat): (r: Buffer)
    requires b.Valid() && b.mapped && c < 3 && offset % 16 == 0 && offset + 48 <= |b.bytes|
    requires if c == 0 then PushOffset(b, VEC4_ALIGNMENT) == offset else b.head == offset + 16 * c - 4
    ensures r.Valid() && r.mapped && |r.bytes| == |b.bytes| && r.handle == b.handle && r.kind == b.kind
    ensures r.head == offset + 16 * c + 12
    ensures r.bytes == Write(b.bytes, offset + 16 * c, FloatsBytes(value[3 * c .. 3 * c + 3]))
  {
    ColumnPushed(b, value, offset, c);
    PushFloats(b, value[3 * c .. 3 * c + 3]).value
  }

  /** What pushing column `c` as a `vec3` does, under the conditions of `PushColumnAt`. */
  lemma ColumnPushed(b: Buffer, value: Mat3, offset: uint32, c: nat)
    requires b.Valid() && b.mapped && c < 3 && offset % 16 == 0 && offset + 48 <= |b.bytes|
    requires if c == 0 then PushOffset(b, VEC4_ALIGNMENT) == offset else b.head == offset + 16 * c - 4
    ensures HasRoom(b, 4 * |value[3 * c .. 3 * c + 3]|, VEC4_ALIGNMENT)
    ensures var r := PushFloats(b, value[3 * c .. 3 * c + 3]);
            && r.Success? && r.value.Valid() && r.value.mapped && |r.value.bytes| == |b.bytes|
            && r.value.handle == b.handle && r.value.kind == b.kind
            && r.value.head == offset + 16 * c + 12
            && r.value.bytes == Write(b.bytes, offset + 16 * c, FloatsBytes(value[3 * c .. 3 * c + 3]))
  {
    ColumnStart(b, offset, c);
  }

  lemma ColumnStart(b: Buffer, offset: uint32, c: nat)
    requires c < 3 && offset % 16 == 0 && offset + 48 < U32_MODULUS
    requires if c == 0 then PushOffset(b, VEC4_ALIGNMENT) == offset else b.head == offset + 16 * c - 4
    ensures PushOffset(b, VEC4_ALIGNMENT) == offset + 16 * c
  {
    if c > 0 {
      NextColumn(offset, c - 1, b.head);
    }
  }

  /**
   * `PushMat3` as std140 lays out a `mat3` (three `vec3` columns with a
   * 16-byte stride, 48 bytes): the columns are pushed one by one, each
   * aligned to 16, and the cursor is then aligned to 16 again, past the
   * padding of the last column, so the matrix occupies all 48 bytes.
   */
  function PushMat3Std140(b: Buffer, value: Mat3): (r: Result<Buffer, BufferError>)
    requires b.Valid() && HasRoom(b, 48, VEC4_ALIGNMENT)
    ensures r.Success? <==> b.mapped
    ensures r.Success? ==>
              var offset := PushOffset(b, VEC4_ALIGNMENT);
              && r.value.Valid()
              && |r.value.bytes| == |b.bytes|
              && offset % 16 == 0
              && r.value.head == offset + 48
              && r.value.mapped && r.value.handle == b.handle && r.value.kind == b.kind
              && (forall c :: 0 <= c < 3 ==>
                    r.value.bytes[offset + 16 * c .. offset + 16 * c + 12] == FloatsBytes(value[3 * c .. 3 * c + 3]))
              && (forall i :: 0 <= i < |b.bytes| && !(offset <= i < offset + 48) ==> r.value.bytes[i] == b.bytes[i])
  {
    if !b.mapped then
      Failure(NotMapped)
    else
      PowersOf2InUse();
      AlignIsMultiple(b.head, VEC4_ALIGNMENT);
      Success(PushColumns(b, value, PushOffset(b, VEC4_ALIGNMENT)))
  }

  /**
   * The three column pushes of `PushMat3Std140`, starting at the aligned
   * `offset`, and the final alignment of the cursor to 16.
   */
  function PushColumns(b: Buffer, value: Mat3, offset: uint32): (r: Buffer)
    requires b.Valid() && b.mapped && offset % 16 == 0 && offset + 48 <= |b.bytes|
    requires PushOffset(b, VEC4_ALIGNMENT) == offset
    ensures r.Valid() && r.mapped && |r.bytes| == |b.bytes| && r.head == offset + 48
    ensures r.handle == b.handle && r.kind == b.kind
    ensures forall c :: 0 <= c < 3 ==>
              r.bytes[offset + 16 * c .. offset + 16 * c + 12] == FloatsBytes(value[3 * c .. 3 * c + 3])
    ensures forall i :: 0 <= i < |b.bytes| && !(offset <= i < offset + 48) ==> r.bytes[i] == b.bytes[i]
  {
    var columns := ThreeColumns(b, value, offset);
    NextColumn(offset, 2, columns.head);
    PowersOf2InUse();
    AlignHead(columns, VEC4_ALIGNMENT).value
  }

  /** The three column pushes alone: the cursor ends just past the third column, at `offset + 44`. */
  function ThreeColumns(b: Buffer, value: Mat3, offset: uint32): (r: Buffer)
    requires b.Valid() && b.mapped && offset % 16 == 0 && offset + 48 <= |b.bytes|
    requires PushOffset(b, VEC4_ALIGNMENT) == offset
    ensures r.Valid() && r.mapped && |r.bytes| == |b.bytes| && r.head == offset + 44
    ensures r.handle == b.handle && r.kind == b.kind
    ensures forall c :: 0 <= c < 3 ==>
              r.bytes[offset + 16 * c .. offset + 16 * c + 12] == FloatsBytes(value[3 * c .. 3 * c + 3])
    ensures forall i :: 0 <= i < |b.bytes| && !(offset <= i < offset + 48) ==> r.bytes[i] == b.bytes[i]
  {
    var b0 := PushColumnAt(b, value, offset, 0);
    var b1 := PushColumnAt(b0, value, offset, 1);
    var b2 := PushColumnAt(b1, value, offset, 2);
    WriteColumns(b.bytes, offset, value);
    b2
  }

  /**
   * Three column writes 16 bytes apart leave each column's bytes in place,
   * and every byte outside the 48-byte matrix untouched.
   */
  lemma WriteColumns(bytes: seq<byte>, offset: nat, value: Mat3)
    requires offset + 48 <= |bytes|
    ensures var w0 := Write(bytes, offset, FloatsBytes(value[0..3]));
            var w1 := Write(w0, offset + 16, FloatsBytes(value[3..6]));
            var w2 := Write(w1, offset + 32, FloatsBytes(value[6..9]));
            && (forall c :: 0 <= c < 3 ==> w2[offset + 16 * c .. offset + 16 * c + 12] == FloatsBytes(value[3 * c .. 3 * c + 3]))
            && (forall i :: 0 <= i < |bytes| && !(offset <= i < offset + 48) ==> w2[i] == bytes[i])
  {
    var w0 := Write(bytes, offset, FloatsBytes(value[0..3]));
    var w1 := Write(w0, offset + 16, FloatsBytes(value[3..6]));
    var w2 := Write(w1, offset + 32, FloatsBytes(value[6..9]));
    WriteKeepsBefore(w0, offset + 16, FloatsBytes(value[3..6]), offset, offset + 12);
    WriteKeepsBefore(w1, offset + 32, FloatsBytes(value[6..9]), offset, offset + 12);
    WriteKeepsBefore(w1, offset + 32, FloatsBytes(value[6..9]), offset + 16, offset + 28);
    forall c | 0 <= c < 3
      ensures w2[offset + 16 * c .. offset + 16 * c + 12] == FloatsBytes(value[3 * c .. 3 * c + 3])
    {
      if c == 0 {
        assert w2[offset .. offset + 12] == FloatsBytes(value[0..3]);
      } else if c == 1 {
        assert w2[offset + 16 .. offset + 28] == FloatsBytes(value[3..6]);
      }
    }
  }

  /**
   * A float pushed right after a std140 `mat3` lands at the next multiple of
   * 16 after the matrix start plus 48, outside the matrix and its padding.
   */
  lemma FloatAfterMat3Std140(b: Buffer, m: Mat3, f: Float)
    requires b.Valid() && b.mapped && HasRoom(b, 48 + SIZE_OF_FLOAT, VEC4_ALIGNMENT)
    ensures var r := PushMat3Std140(b, m);
            && r.Success?
            && PushOffset(r.value, SCALAR_ALIGNMENT) == PushOffset(b, VEC4_ALIGNMENT) + 48
            && PushFloat(r.value, f).Success?
  {
    var offset := PushOffset(b, VEC4_ALIGNMENT);
    var r := PushMat3Std140(b, m);
    PowersOf2InUse();
    AlignIsMultiple(b.head, VEC4_ALIGNMENT);
    ModUnique(offset + 48, 4, 4 * (offset / 16) + 12, 0);
    AlignOfMultiple(offset + 48, SCALAR_ALIGNMENT);
  }

  /**
   * The packed `PushMat3` disagrees with std140: a shader reads the second
   * column 16 bytes after the matrix start, where `PushMat3` stored the
   * second float of that column, not its first. Any matrix whose fourth and
   * fifth floats differ shows it.
   */
  lemma PushMat3MisplacesColumns(b: Buffer, m: Mat3)
    requires b.Valid() && b.mapped && HasRoom(b, 48, VEC4_ALIGNMENT) && m[3] != m[4]
    ensures var offset := PushOffset(b, VEC4_ALIGNMENT);
            var r := PushMat3(b, m);
            && r.Success?
            && FloatsFromBytes(r.value.bytes[offset + 16 .. offset + 28]) != m[3 .. 6]
  {
    var offset := PushOffset(b, VEC4_ALIGNMENT);
    var r := PushMat3(b, m);
    assert r.Success? && r.value.head == offset + SIZE_OF_MAT3;
    var bytes := r.value.bytes;
    assert bytes[offset .. offset + 36] == FloatsBytes(m);
    SecondColumnShifted(m, bytes, offset);
  }

  /** Reading the 16-byte-stride second column out of 36 packed bytes starts at the fifth float. */
  lemma SecondColumnShifted(m: Mat3, bytes: seq<byte>, offset: nat)
    requires offset + 36 <= |bytes| && bytes[offset .. offset + 36] == FloatsBytes(m) && m[3] != m[4]
    ensures FloatsFromBytes(bytes[offset + 16 .. offset + 28]) != m[3 .. 6]
  {
    var column := bytes[offset + 16 .. offset + 28];
    FloatsBytesAt(m, 4);
    var whole := bytes[offset .. offset + 36];
    assert column[..4] == whole[16 .. 20] by {
      forall j | 0 <= j < 4
        ensures column[..4][j] == whole[16 .. 20][j]
      {
        assert column[j] == bytes[offset + 16 + j] == whole[16 + j];
      }
    }
    UInt32RoundTrip(m[4].bits);
    assert FloatsFromBytes(column)[0] == m[4];
  }

  /**
   * The `data != NULL` assertion does not catch a push after `UnmapBuffer`:
   * the stale pointer still passes it.
   */
  lemma PushAfterUnmapAccepted(b: Buffer, value: uint32)
    requires b.Valid() && b.mapped && HasRoom(b, 4, SCALAR_ALIGNMENT)
    ensures PushUInt(UnmapBuffer(b), value).Success?
  {
  }

  /** With the pointer cleared on unmap, the same push is rejected. */
  lemma PushAfterUnmapRejected(b: Buffer, value: uint32)
    requires b.Valid()
    ensures PushUInt(UnmapBufferCleared(b), value) == Failure(NotMapped)
  {
  }
}
