/** Option and Result, for the source's null returns and failed assertions. */
module Results {

  datatype Option<T> = None | Some(value: T)

  datatype Result<T, E> = Success(value: T) | Failure(error: E)
}

/**
 * The in-memory representation of the values the engine copies into GPU
 * buffers: `u32`s and `float`s are four bytes in the host's little-endian
 * order, and glm vectors and matrices are tightly packed arrays of floats
 * (matrices column by column).
 */
module Values {
  import opened Bits

  type byte = uint8

  /** A single-precision float, kept as its IEEE 754 bit pattern. */
  datatype Float = Float(bits: uint32)

  const SIGN_BIT: int := 0x8000_0000

  /** Unary minus on a float: IEEE 754 negation flips the sign bit only. */
  function Negate(f: Float): (r: Float)
    ensures r.bits % SIGN_BIT == f.bits % SIGN_BIT
    ensures r.bits >= SIGN_BIT <==> f.bits < SIGN_BIT
  {
    if f.bits >= SIGN_BIT then Float(f.bits - SIGN_BIT) else Float(f.bits + SIGN_BIT)
  }

  lemma NegateInvolutive(f: Float)
    ensures Negate(Negate(f)) == f
  {
  }

  type Vec2 = v: seq<Float> | |v| == 2 witness [Float(0), Float(0)]
  type Vec3 = v: seq<Float> | |v| == 3 witness [Float(0), Float(0), Float(0)]
  type Vec4 = v: seq<Float> | |v| == 4 witness [Float(0), Float(0), Float(0), Float(0)]

  /** A glm `mat3`: three columns of three floats, packed (36 bytes). */
  type Mat3 = m: seq<Float> | |m| == 9 witness seq(9, _ => Float(0))

  /** A glm `mat4`: four columns of four floats, packed (64 bytes). */
  type Mat4 = m: seq<Float> | |m| == 16 witness seq(16, _ => Float(0))

  /** The four bytes of a `u32`, least significant first. */
  function UInt32Bytes(v: uint32): (r: seq<byte>)
    ensures |r| == 4
  {
    var q1 := v / 0x100;
    var q2 := q1 / 0x100;
    [v % 0x100, q1 % 0x100, q2 % 0x100, q2 / 0x100]
  }

  /** Reads a `u32` back from its four little-endian bytes. */
  function UInt32FromBytes(b: seq<byte>): uint32
    requires |b| == 4
  {
    b[0] as int + 0x100 * (b[1] as int + 0x100 * (b[2] as int + 0x100 * b[3] as int))
  }

  lemma UInt32RoundTrip(v: uint32)
    ensures UInt32FromBytes(UInt32Bytes(v)) == v
  {
    var q1 := v / 0x100;
    var q2 := q1 / 0x100;
    assert q1 == q1 % 0x100 + 0x100 * q2;
    assert v == v % 0x100 + 0x100 * q1;
  }

  lemma UInt32BytesInjective(v: uint32, w: uint32)
    requires UInt32Bytes(v) == UInt32Bytes(w)
    ensures v == w
  {
    UInt32RoundTrip(v);
    UInt32RoundTrip(w);
  }

  /** The bytes of a packed float array, as `memcpy` from `value_ptr` sees them. */
  function FloatsBytes(fs: seq<Float>): (r: seq<byte>)
    ensures |r| == 4 * |fs|
  {
    if fs == [] then [] else UInt32Bytes(fs[0].bits) + FloatsBytes(fs[1..])
  }

  /** Reads a packed float array back from its bytes; a trailing partial float is ignored. */
  function FloatsFromBytes(b: seq<byte>): (r: seq<Float>)
    ensures |r| == |b| / 4
  {
    if |b| < 4 then [] else [Float(UInt32FromBytes(b[..4]))] + FloatsFromBytes(b[4..])
  }

  lemma {:induction false} FloatsRoundTrip(fs: seq<Float>)
    ensures FloatsFromBytes(FloatsBytes(fs)) == fs
  {
    if fs != [] {
      var b := FloatsBytes(fs);
      assert b[..4] == UInt32Bytes(fs[0].bits);
      assert b[4..] == FloatsBytes(fs[1..]);
      UInt32RoundTrip(fs[0].bits);
      FloatsRoundTrip(fs[1..]);
    }
  }

  /** Float `i` of a packed array occupies bytes `4 * i` to `4 * i + 4`. */
  lemma {:induction false} FloatsBytesAt(fs: seq<Float>, i: nat)
    requires i < |fs|
    ensures FloatsBytes(fs)[4 * i .. 4 * i + 4] == UInt32Bytes(fs[i].bits)
  {
    if i > 0 {
      FloatsBytesAt(fs[1..], i - 1);
      assert FloatsBytes(fs)[4..] == FloatsBytes(fs[1..]);
    }
  }

  lemma {:induction false} FloatsBytesAppend(fs: seq<Float>, gs: seq<Float>)
    ensures FloatsBytes(fs + gs) == FloatsBytes(fs) + FloatsBytes(gs)
  {
    if fs != [] {
      assert (fs + gs)[1..] == fs[1..] + gs;
      FloatsBytesAppend(fs[1..], gs);
    } else {
      assert fs + gs == gs;
    }
  }
}
