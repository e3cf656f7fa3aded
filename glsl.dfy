// The GLSL byte-layout builder: values are appended to a byte buffer, each
// first padded with zero bytes to its type's alignment.

module Glsl {

  type byte = bv8

  /** The f32 every GLSL type here is built from: 4 bytes, 4-byte aligned. */
  const F32_SIZE: nat := 4
  const F32_ALIGN: nat := 4

  datatype GlslType = Float | Vec2 | Vec3 | Vec4 | Mat4

  function Size(t: GlslType): nat {
    match t
    case Float => F32_SIZE
    case Vec2 => F32_SIZE * 2
    case Vec3 => F32_SIZE * 3
    case Vec4 => F32_SIZE * 4
    case Mat4 => F32_SIZE * 16
  }

  function Alignment(t: GlslType): nat {
    match t
    case Float => F32_ALIGN
    case Vec2 => F32_ALIGN * 2
    case Vec3 => F32_ALIGN * 4
    case Vec4 => F32_ALIGN * 4
    case Mat4 => F32_ALIGN * 4
  }

  /** The table agrees with the std140 base alignments: float 4/4, vec2 8/8, vec3 12/16, vec4 16/16, mat4 64/16. */
  lemma Std140Table()
    ensures Size(Float) == 4 && Alignment(Float) == 4
    ensures Size(Vec2) == 8 && Alignment(Vec2) == 8
    ensures Size(Vec3) == 12 && Alignment(Vec3) == 16
    ensures Size(Vec4) == 16 && Alignment(Vec4) == 16
    ensures Size(Mat4) == 64 && Alignment(Mat4) == 16
  {
  }

  /** Every alignment is a positive power of two no smaller than 4, and a size is a multiple of 4. */
  lemma TableShape(t: GlslType)
    ensures Alignment(t) in {4, 8, 16}
    ensures Size(t) % 4 == 0 && Size(t) > 0
  {
  }

  /** The zero bytes `push` inserts before a value at `offset`. */
  function Padding(offset: nat, alignment: nat): nat
    requires alignment > 0
  {
    (alignment - offset % alignment) % alignment
  }

  /** The padding is below the alignment and brings the offset to a multiple of it (for the table's alignments). */
  lemma PaddingAligns(offset: nat, alignment: nat)
    requires alignment == 4 || alignment == 8 || alignment == 16
    ensures Padding(offset, alignment) < alignment
    ensures (offset + Padding(offset, alignment)) % alignment == 0
    ensures offset % alignment == 0 <==> Padding(offset, alignment) == 0
  {
    if alignment == 4 {
      PaddingAlignsTo4(offset);
    } else if alignment == 8 {
      PaddingAlignsTo8(offset);
    } else {
      PaddingAlignsTo16(offset);
    }
  }

  lemma PaddingAlignsTo4(offset: nat)
    ensures Padding(offset, 4) < 4 && (offset + Padding(offset, 4)) % 4 == 0
    ensures offset % 4 == 0 <==> Padding(offset, 4) == 0
  {
  }

  lemma PaddingAlignsTo8(offset: nat)
    ensures Padding(offset, 8) < 8 && (offset + Padding(offset, 8)) % 8 == 0
    ensures offset % 8 == 0 <==> Padding(offset, 8) == 0
  {
  }

  lemma PaddingAlignsTo16(offset: nat)
    ensures Padding(offset, 16) < 16 && (offset + Padding(offset, 16)) % 16 == 0
    ensures offset % 16 == 0 <==> Padding(offset, 16) == 0
  {
  }

  /** `Vec::resize(n, fill)`. */
  function Resized(s: seq<byte>, n: nat, fill: byte): (r: seq<byte>)
    ensures |r| == n
    ensures forall i :: 0 <= i < n ==> r[i] == if i < |s| then s[i] else fill
  {
    if n <= |s| then s[..n] else s + seq(n - |s|, _ => fill)
  }

  /** The buffer after pushing a value of type `t` whose byte image is `value`. */
  function Pushed(data: seq<byte>, t: GlslType, value: seq<byte>): seq<byte>
    requires |value| == Size(t)
  {
    data + seq(Padding(|data|, Alignment(t)), _ => 0) + value
  }

  /**
   * Pushing keeps the existing bytes, zero-fills the padding, places the
   * value at the next aligned offset, and grows the buffer by padding + size.
   */
  lemma PushedLayout(data: seq<byte>, t: GlslType, value: seq<byte>)
    requires |value| == Size(t)
    ensures var at := |data| + Padding(|data|, Alignment(t));
            var r := Pushed(data, t, value);
            && at % Alignment(t) == 0
            && |r| == at + Size(t)
            && r[..|data|] == data
            && (forall i :: |data| <= i < at ==> r[i] == 0)
            && r[at..] == value
  {
    TableShape(t);
    PaddingAligns(|data|, Alignment(t));
    var at := |data| + Padding(|data|, Alignment(t));
    var r := Pushed(data, t, value);
    assert r[at..] == value;
    assert r[..|data|] == data;
  }

  class GlslDataBuilder {
    var data: seq<byte>

    /** `new()`: an empty buffer. */
    constructor ()
      ensures data == []
    {
      data := [];
    }

    /** `push(val)`: resize with zeros to the aligned offset plus the size, then write the value's bytes there. */
    method Push(t: GlslType, value: seq<byte>)
      requires |value| == Size(t)
      modifies this
      ensures data == Pushed(old(data), t, value)
    {
      var size := Size(t);
      var alignment := Alignment(t);
      var offset := |data|;
      var padding := (alignment - (offset % alignment)) % alignment;
      data := Resized(data, offset + padding + size, 0);
      data := data[..offset + padding] + value + data[offset + padding + size..];
      assert data == Pushed(old(data), t, value);
    }

    /** `build()`: the accumulated bytes. */
    method Build() returns (bytes: seq<byte>)
      ensures bytes == data
    {
      bytes := data;
    }
  }

  /** The bytes a builder holds after pushing a list of values in order. */
  function PushedAll(data: seq<byte>, ts: seq<GlslType>, values: seq<seq<byte>>): seq<byte>
    requires |ts| == |values| && forall k :: 0 <= k < |ts| ==> |values[k]| == Size(ts[k])
    decreases |ts|
  {
    if |ts| == 0 then data else PushedAll(Pushed(data, ts[0], values[0]), ts[1..], values[1..])
  }

  /** Later pushes never disturb earlier bytes: the buffer so far is a prefix of the final bytes. */
  lemma {:induction false} PushedAllExtends(data: seq<byte>, ts: seq<GlslType>, values: seq<seq<byte>>)
    requires |ts| == |values| && forall k :: 0 <= k < |ts| ==> |values[k]| == Size(ts[k])
    ensures data <= PushedAll(data, ts, values)
    decreases |ts|
  {
    if |ts| > 0 {
      var next := Pushed(data, ts[0], values[0]);
      PushedAllExtends(next, ts[1..], values[1..]);
      assert data <= next;
    }
  }
}
