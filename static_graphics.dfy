/** static/js/util/graphics.js: writing an RGBA quad into a frame's pixel bytes and
    blending two RGBA colours. A frame's `data` is a Uint8ClampedArray: every write
    clamps and rounds the value to a byte, and a write past either end is dropped. */
module StaticGraphics {
  import opened ColorMath

  /** Bytes per pixel: red, green, blue, alpha. */
  const RGBA_LENGTH: nat := 4

  newtype byte = x: int | 0 <= x < 256

  /** What a Uint8ClampedArray stores for a written number: clamped to [0, 255] and
      rounded to the nearest integer, a tie going to the even one. */
  function ClampByte(v: real): (b: byte)
    ensures v <= 0.0 ==> b == 0
    ensures v >= 255.0 ==> b == 255
    ensures 0.0 <= v <= 255.0 ==> -0.5 <= b as real - v <= 0.5
  {
    if v <= 0.0 then 0
    else if v >= 255.0 then 255
    else
      var f := v.Floor;
      if v - f as real < 0.5 then f as byte
      else if v - f as real > 0.5 then (f + 1) as byte
      else if f % 2 == 0 then f as byte
      else (f + 1) as byte
  }

  /** A value that already is a byte is stored unchanged. */
  lemma ClampByteKeepsBytes(n: byte)
    ensures ClampByte(n as real) == n
  {
    assert (n as real).Floor == n as int;
  }

  /** The pixel bytes after `setPixelData(frame, index, rgba)`: channel i of rgba goes
      to byte `index * 4 + i` when that byte exists. */
  function WithPixel(data: seq<byte>, index: int, rgba: seq<real>): (d: seq<byte>)
    ensures |d| == |data|
  {
    seq(|data|, p requires 0 <= p < |data| =>
      if index * RGBA_LENGTH <= p < index * RGBA_LENGTH + |rgba| then ClampByte(rgba[p - index * RGBA_LENGTH])
      else data[p])
  }

  /** Writing an RGBA quad at a pixel inside the frame sets exactly that pixel's four
      bytes and leaves every other byte as it was. */
  lemma WithPixelQuad(data: seq<byte>, index: nat, rgba: seq<real>)
    requires |rgba| == RGBA_LENGTH && (index + 1) * RGBA_LENGTH <= |data|
    ensures forall i :: 0 <= i < RGBA_LENGTH ==> WithPixel(data, index, rgba)[index * RGBA_LENGTH + i] == ClampByte(rgba[i])
    ensures forall p :: 0 <= p < |data| && !(index * RGBA_LENGTH <= p < index * RGBA_LENGTH + RGBA_LENGTH) ==>
              WithPixel(data, index, rgba)[p] == data[p]
  {
  }

  /** `setPixelData(imageData, index, rgba)`. */
  method SetPixelData(data: array<byte>, index: int, rgba: seq<real>)
    modifies data
    ensures data[..] == WithPixel(old(data[..]), index, rgba)
  {
    var start := index * RGBA_LENGTH;
    var i := 0;
    while i < |rgba|
      invariant 0 <= i <= |rgba|
      invariant forall p :: 0 <= p < data.Length ==>
                  data[p] == if start <= p < start + i then ClampByte(rgba[p - start]) else old(data[p])
    {
      if 0 <= start + i < data.Length {
        data[start + i] := ClampByte(rgba[i]);
      }
      i := i + 1;
    }
  }

  /** The RGBA blend of two colours, channel by channel. */
  function Interpolated(rgba1: seq<real>, rgba2: seq<real>, proportion: real): (c: seq<real>)
    requires |rgba1| >= RGBA_LENGTH && |rgba2| >= RGBA_LENGTH
    ensures |c| == RGBA_LENGTH
  {
    seq(RGBA_LENGTH, i requires 0 <= i < RGBA_LENGTH => Mix(rgba1[i], rgba2[i], proportion))
  }

  /** `interpolateColor(rgba1, rgba2, proportion)`: a fresh four-channel array. */
  method InterpolateColor(rgba1: seq<real>, rgba2: seq<real>, proportion: real) returns (rgba3: seq<real>)
    requires |rgba1| >= RGBA_LENGTH && |rgba2| >= RGBA_LENGTH
    ensures rgba3 == Interpolated(rgba1, rgba2, proportion)
  {
    rgba3 := [];
    var i := 0;
    while i < RGBA_LENGTH
      invariant i <= RGBA_LENGTH && |rgba3| == i
      invariant forall j :: 0 <= j < i ==> rgba3[j] == Mix(rgba1[j], rgba2[j], proportion)
    {
      rgba3 := rgba3 + [(rgba1[i] * (1.0 - proportion)) + (rgba2[i] * proportion)];
      i := i + 1;
    }
  }

  /** The blend has four channels; proportion 0 gives the first colour, 1 the second,
      and blending a colour with itself gives it back. */
  lemma InterpolatedEnds(rgba1: seq<real>, rgba2: seq<real>, proportion: real)
    requires |rgba1| >= RGBA_LENGTH && |rgba2| >= RGBA_LENGTH
    ensures Interpolated(rgba1, rgba2, 0.0) == rgba1[..RGBA_LENGTH]
    ensures Interpolated(rgba1, rgba2, 1.0) == rgba2[..RGBA_LENGTH]
    ensures Interpolated(rgba1, rgba1, proportion) == rgba1[..RGBA_LENGTH]
  {
    forall i | 0 <= i < RGBA_LENGTH
      ensures Mix(rgba1[i], rgba2[i], 0.0) == rgba1[i] && Mix(rgba1[i], rgba2[i], 1.0) == rgba2[i]
      ensures Mix(rgba1[i], rgba1[i], proportion) == rgba1[i]
    {
      MixEnds(rgba1[i], rgba2[i], proportion);
      MixEnds(rgba1[i], rgba1[i], proportion);
    }
  }

  /** For a proportion in [0, 1] every channel of the blend lies between the
      corresponding channels of the two colours. */
  lemma InterpolatedBetween(rgba1: seq<real>, rgba2: seq<real>, proportion: real)
    requires |rgba1| >= RGBA_LENGTH && |rgba2| >= RGBA_LENGTH && 0.0 <= proportion <= 1.0
    ensures forall i :: 0 <= i < RGBA_LENGTH ==>
              (rgba1[i] <= rgba2[i] ==> rgba1[i] <= Interpolated(rgba1, rgba2, proportion)[i] <= rgba2[i])
              && (rgba2[i] <= rgba1[i] ==> rgba2[i] <= Interpolated(rgba1, rgba2, proportion)[i] <= rgba1[i])
  {
    forall i | 0 <= i < RGBA_LENGTH
      ensures rgba1[i] <= rgba2[i] ==> rgba1[i] <= Mix(rgba1[i], rgba2[i], proportion) <= rgba2[i]
      ensures rgba2[i] <= rgba1[i] ==> rgba2[i] <= Mix(rgba1[i], rgba2[i], proportion) <= rgba1[i]
    {
      MixBetween(rgba1[i], rgba2[i], proportion);
    }
  }
}
