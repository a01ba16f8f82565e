/**
 * The vertex layout builder (Code/VertexBufferLayout.h): attributes are
 * appended one after the other, each at the current stride, and the stride
 * is an `unsigned char` that grows by the attribute's byte size.
 */
module VertexBufferLayout {
  import opened Bits

  /** `VertexBufferAttribute`: shader location, component count and byte offset, all `unsigned char`. */
  datatype Attribute = Attribute(location: uint8, componentCount: uint8, offset: uint8)

  datatype Layout = Layout(attributes: seq<Attribute>, stride: uint8)

  /** A value-initialised layout (`VertexBufferLayout vertexBufferLayout = {};`). */
  const EMPTY_LAYOUT: Layout := Layout([], 0)

  /** `sizeof(float)`, the only component type the engine passes to `AddAttribute`. */
  const FLOAT_SIZE: nat := 4

  /**
   * `AddAttribute<T>`: the attribute is appended with offset equal to the
   * stride before the call, and the stride grows by `componentCount *
   * sizeof(T)` bytes, truncated to `unsigned char`.
   */
  function AddAttribute(layout: Layout, location: uint8, componentCount: uint8, typeSize: nat): (r: Layout)
    ensures |r.attributes| == |layout.attributes| + 1
    ensures r.attributes[..|layout.attributes|] == layout.attributes
    ensures r.attributes[|layout.attributes|].location == location
    ensures r.attributes[|layout.attributes|].componentCount == componentCount
    ensures r.attributes[|layout.attributes|].offset == layout.stride
    ensures (r.stride - layout.stride) % U8_MODULUS == (componentCount * typeSize) % U8_MODULUS
  {
    var size := componentCount * typeSize;
    Wrap8Difference(layout.stride, size);
    Layout(layout.attributes + [Attribute(location, componentCount, layout.stride)],
           Wrap8(layout.stride + size))
  }

  /** Truncating to `unsigned char` after adding `size` grows a value by `size` modulo 256. */
  lemma Wrap8Difference(start: uint8, size: nat)
    ensures (Wrap8(start + size) - start) % U8_MODULUS == size % U8_MODULUS
  {
    var q := (start + size) / U8_MODULUS;
    assert start + size == q * U8_MODULUS + Wrap8(start + size);
    ModUnique(Wrap8(start + size) - start + q * U8_MODULUS, U8_MODULUS, q + (Wrap8(start + size) - start) / U8_MODULUS,
              (Wrap8(start + size) - start) % U8_MODULUS);
  }

  /** One `AddAttribute<T>(new VertexBufferAttribute(location, componentCount))` call. */
  datatype AttributeSpec = AttributeSpec(location: uint8, componentCount: uint8, typeSize: nat)

  function ByteSize(spec: AttributeSpec): nat
  {
    spec.componentCount * spec.typeSize
  }

  /** The byte size of a run of attributes, without any truncation. */
  function TotalSize(specs: seq<AttributeSpec>): nat
  {
    if specs == [] then 0 else TotalSize(specs[..|specs| - 1]) + ByteSize(specs[|specs| - 1])
  }

  /** The layout built by calling `AddAttribute` for each spec in turn, starting empty. */
  function Build(specs: seq<AttributeSpec>): (r: Layout)
    ensures |r.attributes| == |specs|
  {
    if specs == [] then EMPTY_LAYOUT
    else
      var last := specs[|specs| - 1];
      AddAttribute(Build(specs[..|specs| - 1]), last.location, last.componentCount, last.typeSize)
  }

  /** The stride after a run of `AddAttribute` calls is their total byte size modulo 256. */
  lemma {:induction false} BuildStride(specs: seq<AttributeSpec>)
    ensures Build(specs).stride == TotalSize(specs) % U8_MODULUS
  {
    if specs != [] {
      var init := specs[..|specs| - 1];
      BuildStride(init);
      ModAddLeft(TotalSize(init), ByteSize(specs[|specs| - 1]));
    }
  }

  /**
   * Each attribute's offset is the byte size of the attributes added before
   * it, modulo 256; location and component count are kept.
   */
  lemma {:induction false} BuildOffsets(specs: seq<AttributeSpec>)
    ensures forall i :: 0 <= i < |specs| ==>
              Build(specs).attributes[i] == Attribute(specs[i].location, specs[i].componentCount, TotalSize(specs[..i]) % U8_MODULUS)
  {
    if specs != [] {
      var init := specs[..|specs| - 1];
      BuildOffsets(init);
      BuildStride(init);
      forall i | 0 <= i < |specs|
        ensures Build(specs).attributes[i] == Attribute(specs[i].location, specs[i].componentCount, TotalSize(specs[..i]) % U8_MODULUS)
      {
        if i < |init| {
          assert specs[..i] == init[..i];
          assert Build(specs).attributes[i] == Build(init).attributes[i];
        } else {
          assert specs[..i] == init;
        }
      }
    }
  }

  lemma ModAddLeft(a: nat, b: nat)
    ensures (a % U8_MODULUS + b) % U8_MODULUS == (a + b) % U8_MODULUS
  {
    ModUnique(a + b, U8_MODULUS, a / U8_MODULUS + (a % U8_MODULUS + b) / U8_MODULUS, (a % U8_MODULUS + b) % U8_MODULUS);
  }

  /** While the attributes fit in 255 bytes, the offsets are the exact prefix sums. */
  lemma {:induction false} OffsetsWithoutOverflow(specs: seq<AttributeSpec>)
    requires TotalSize(specs) < U8_MODULUS
    ensures var layout := Build(specs);
            && layout.stride == TotalSize(specs)
            && forall i :: 0 <= i < |specs| ==> layout.attributes[i].offset == TotalSize(specs[..i])
  {
    BuildStride(specs);
    ModUnique(TotalSize(specs), U8_MODULUS, 0, TotalSize(specs));
    BuildOffsets(specs);
    forall i | 0 <= i < |specs|
      ensures Build(specs).attributes[i].offset == TotalSize(specs[..i])
    {
      TotalSizePrefix(specs, i);
      ModUnique(TotalSize(specs[..i]), U8_MODULUS, 0, TotalSize(specs[..i]));
    }
  }

  lemma {:induction false} TotalSizePrefix(specs: seq<AttributeSpec>, i: nat)
    requires i <= |specs|
    ensures TotalSize(specs[..i]) <= TotalSize(specs)
    decreases |specs|
  {
    if i < |specs| {
      assert specs[..i] == specs[..|specs| - 1][..i];
      TotalSizePrefix(specs[..|specs| - 1], i);
    } else {
      assert specs[..i] == specs;
    }
  }

  /**
   * `Bound` as written: a stride that is a multiple of 4 is kept; otherwise
   * `ceil(stride / 4)` divides in integers first, so `ceil` has nothing left
   * to round and the stride is rounded DOWN to a multiple of 4.
   */
  function Bound(layout: Layout): (r: Layout)
    ensures r.attributes == layout.attributes
    ensures r.stride % 4 == 0 && r.stride <= layout.stride < r.stride + 4
    ensures layout.stride % 4 == 0 ==> r == layout
  {
    if layout.stride % 4 == 0 then layout
    else
      var times := layout.stride / 4;
      layout.(stride := times * 4)
  }

  /** `Bound` as evidently intended: the stride is rounded UP to a multiple of 4, in `unsigned char`. */
  function BoundUp(layout: Layout): (r: Layout)
    ensures r.attributes == layout.attributes
    ensures r.stride % 4 == 0
    ensures layout.stride <= 252 ==> layout.stride <= r.stride < layout.stride + 4
    ensures layout.stride > 252 ==> r.stride == 0
  {
    if layout.stride % 4 == 0 then layout
    else
      var times := (layout.stride + 3) / 4;
      layout.(stride := Wrap8(times * 4))
  }

  lemma BoundIdempotent(layout: Layout)
    ensures Bound(Bound(layout)) == Bound(layout)
  {
  }

  lemma BoundUpIdempotent(layout: Layout)
    ensures BoundUp(BoundUp(layout)) == BoundUp(layout)
  {
  }

  /** The two roundings agree exactly on the strides that need no rounding. */
  lemma BoundAgreesOnlyOnMultiples(layout: Layout)
    ensures Bound(layout) == BoundUp(layout) <==> layout.stride % 4 == 0
  {
    if layout.stride % 4 != 0 && layout.stride <= 252 {
      assert Bound(layout).stride < layout.stride <= BoundUp(layout).stride;
    }
  }

  /** A 6-byte stride (say, three 2-byte attributes) is bounded to 4, below the data it must hold. */
  lemma BoundRoundsDown()
    ensures Bound(Layout([], 6)).stride == 4
    ensures BoundUp(Layout([], 6)).stride == 8
  {
  }

  /** Adding `float` attributes keeps the stride a multiple of 4, because 4 divides 256. */
  lemma {:induction false} FloatStrideIsMultipleOf4(specs: seq<AttributeSpec>)
    requires forall i :: 0 <= i < |specs| ==> specs[i].typeSize == FLOAT_SIZE
    ensures Build(specs).stride % 4 == 0
  {
    if specs != [] {
      var init := specs[..|specs| - 1];
      FloatStrideIsMultipleOf4(init);
      var s := Build(init).stride;
      var n := specs[|specs| - 1].componentCount;
      var sum := s + n * 4;
      assert sum == 4 * (s / 4 + n);
      ModUnique(sum, U8_MODULUS, sum / U8_MODULUS, sum % U8_MODULUS);
      ModUnique(sum % U8_MODULUS, 4, s / 4 + n - 64 * (sum / U8_MODULUS), 0);
    }
  }

  /** With only `float` attributes, neither rounding changes the layout. */
  lemma FloatLayoutIsBound(specs: seq<AttributeSpec>)
    requires forall i :: 0 <= i < |specs| ==> specs[i].typeSize == FLOAT_SIZE
    ensures Bound(Build(specs)) == Build(specs)
    ensures BoundUp(Build(specs)) == Build(specs)
  {
    FloatStrideIsMultipleOf4(specs);
  }
}
