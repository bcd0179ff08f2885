/**
 Conversion of BGRA frames to I420: the Go routine in front of OpenH264, VP9, H.265 and AV1
 (agent/encode_openh264_windows.go), which clamps, and the C routine in front of the system encoder
 (agent/encode_windows.go), which keeps the low byte.
 */
module I420 {
  import opened Bytes

  // ---- The image both routines are measured against ----

  /** Luma and chroma of one colour, before they are stored; `/ 256` is the arithmetic shift. */
  function Luma(r: int, g: int, b: int): int {
    (77 * r + 150 * g + 29 * b + 128) / 256 + 16
  }

  function ChromaU(r: int, g: int, b: int): int {
    (-43 * r - 85 * g + 128 * b + 128) / 256 + 128
  }

  function ChromaV(r: int, g: int, b: int): int {
    (128 * r - 107 * g - 21 * b + 128) / 256 + 128
  }

  /** How a value is stored in a byte. */
  datatype Storing = Clamping | Wrapping

  function StoreLuma(how: Storing, y: int): byte
    requires y >= 0
  {
    match how
    case Clamping => if y > 235 then 235 else y
    case Wrapping => y % 256
  }

  function StoreChroma(how: Storing, c: int): byte {
    match how
    case Clamping => if c < 0 then 0 else if c > 255 then 255 else c
    case Wrapping => c % 256
  }

  /** Component c (0 blue, 1 green, 2 red) of pixel p, counted row by row. */
  function Component(bgra: seq<byte>, p: nat, c: nat): int
    requires c < 4 && 4 * p + c < |bgra|
  {
    bgra[4 * p + c]
  }

  predicate FrameFits(bgra: seq<byte>, w: nat, h: nat) {
    w * h * 4 <= |bgra|
  }

  function LumaAt(bgra: seq<byte>, w: nat, h: nat, p: nat): (y: int)
    requires FrameFits(bgra, w, h) && p < w * h
    ensures 16 <= y <= 271
  {
    Luma(Component(bgra, p, 2), Component(bgra, p, 1), Component(bgra, p, 0))
  }

  /** Pixel number of column `col` in row `row`. */
  function Pixel(w: nat, row: nat, col: nat): nat {
    row * w + col
  }

  lemma InFrame(w: nat, h: nat, row: nat, col: nat)
    requires row < h && col < w
    ensures Pixel(w, row, col) < w * h
  {
    assert (row + 1) * w == row * w + w;
    MulMonotone(row + 1, h, w);
  }

  lemma MulMonotone(a: nat, b: nat, w: nat)
    requires a <= b
    ensures a * w <= b * w
  {
    assert b * w == a * w + (b - a) * w;
  }

  /** The mean of a component over the 2x2 block (row, col), rounded down. */
  function BlockMean(bgra: seq<byte>, w: nat, h: nat, row: nat, col: nat, c: nat): (m: int)
    requires FrameFits(bgra, w, h) && row < h / 2 && col < w / 2 && c < 3
    ensures 0 <= m <= 255
  {
    InFrame(w, h, 2 * row, 2 * col);
    InFrame(w, h, 2 * row, 2 * col + 1);
    InFrame(w, h, 2 * row + 1, 2 * col);
    InFrame(w, h, 2 * row + 1, 2 * col + 1);
    (Component(bgra, Pixel(w, 2 * row, 2 * col), c) + Component(bgra, Pixel(w, 2 * row, 2 * col + 1), c)
     + Component(bgra, Pixel(w, 2 * row + 1, 2 * col), c) + Component(bgra, Pixel(w, 2 * row + 1, 2 * col + 1), c)) / 4
  }

  function BlockU(bgra: seq<byte>, w: nat, h: nat, row: nat, col: nat): (u: int)
    requires FrameFits(bgra, w, h) && row < h / 2 && col < w / 2
    ensures 1 <= u <= 256
  {
    ChromaU(BlockMean(bgra, w, h, row, col, 2), BlockMean(bgra, w, h, row, col, 1), BlockMean(bgra, w, h, row, col, 0))
  }

  function BlockV(bgra: seq<byte>, w: nat, h: nat, row: nat, col: nat): (v: int)
    requires FrameFits(bgra, w, h) && row < h / 2 && col < w / 2
    ensures 1 <= v <= 256
  {
    ChromaV(BlockMean(bgra, w, h, row, col, 2), BlockMean(bgra, w, h, row, col, 1), BlockMean(bgra, w, h, row, col, 0))
  }

  function ChromaSize(w: nat, h: nat): nat {
    (w / 2) * (h / 2)
  }

  function ImageSize(w: nat, h: nat): nat {
    w * h + 2 * ChromaSize(w, h)
  }

  lemma BlockOf(w: nat, h: nat, k: nat)
    requires k < ChromaSize(w, h)
    ensures w / 2 > 0 && k / (w / 2) < h / 2 && k % (w / 2) < w / 2
  {
    var cw, ch := w / 2, h / 2;
    assert cw > 0;
    assert k == (k / cw) * cw + k % cw;
    if k / cw >= ch {
      MulMonotone(ch, k / cw, cw);
    }
  }

  function YByte(how: Storing, bgra: seq<byte>, w: nat, h: nat, p: nat): byte
    requires FrameFits(bgra, w, h) && p < w * h
  {
    StoreLuma(how, LumaAt(bgra, w, h, p))
  }

  function UByte(how: Storing, bgra: seq<byte>, w: nat, h: nat, k: nat): byte
    requires FrameFits(bgra, w, h) && k < ChromaSize(w, h)
  {
    BlockOf(w, h, k);
    StoreChroma(how, BlockU(bgra, w, h, k / (w / 2), k % (w / 2)))
  }

  function VByte(how: Storing, bgra: seq<byte>, w: nat, h: nat, k: nat): byte
    requires FrameFits(bgra, w, h) && k < ChromaSize(w, h)
  {
    BlockOf(w, h, k);
    StoreChroma(how, BlockV(bgra, w, h, k / (w / 2), k % (w / 2)))
  }

  function UPlane(how: Storing, bgra: seq<byte>, w: nat, h: nat): (plane: seq<byte>)
    requires FrameFits(bgra, w, h)
    ensures |plane| == ChromaSize(w, h)
  {
    seq(ChromaSize(w, h), k requires 0 <= k < ChromaSize(w, h) => UByte(how, bgra, w, h, k))
  }

  function VPlane(how: Storing, bgra: seq<byte>, w: nat, h: nat): (plane: seq<byte>)
    requires FrameFits(bgra, w, h)
    ensures |plane| == ChromaSize(w, h)
  {
    seq(ChromaSize(w, h), k requires 0 <= k < ChromaSize(w, h) => VByte(how, bgra, w, h, k))
  }

  /** The whole picture: the Y plane, then the quarter-size U and V planes. */
  function Image(how: Storing, bgra: seq<byte>, w: nat, h: nat): (image: seq<byte>)
    requires FrameFits(bgra, w, h)
    ensures |image| == ImageSize(w, h)
  {
    seq(w * h, p requires 0 <= p < w * h => YByte(how, bgra, w, h, p))
    + UPlane(how, bgra, w, h) + VPlane(how, bgra, w, h)
  }

  // ---- The Go routine ----

  method BgraToI420(bgra: array<byte>, w: nat, h: nat, dst: array<byte>)
    requires bgra != dst && bgra.Length >= w * h * 4 && dst.Length >= ImageSize(w, h)
    modifies dst
    ensures dst[..ImageSize(w, h)] == Image(Clamping, bgra[..], w, h)
    ensures dst[ImageSize(w, h)..] == old(dst[ImageSize(w, h)..])
  {
    ClampedLuma(bgra, w, h, dst);
    ClampedChroma(bgra, w, h, dst);
    assert bgra[..] == old(bgra[..]);
    ImageDone(Clamping, bgra[..], w, h, dst[..]);
  }

  method ClampedLuma(bgra: array<byte>, w: nat, h: nat, dst: array<byte>)
    requires bgra != dst && bgra.Length >= w * h * 4 && dst.Length >= w * h
    modifies dst
    ensures forall p: nat | p < w * h :: dst[p] == YByte(Clamping, bgra[..], w, h, p)
    ensures dst[w * h..] == old(dst[w * h..])
  {
    var row := 0;
    while row < h
      invariant 0 <= row <= h && row * w <= w * h
      invariant forall p: nat | p < row * w :: dst[p] == YByte(Clamping, bgra[..], w, h, p)
      invariant dst[w * h..] == old(dst[w * h..])
    {
      MulMonotone(row + 1, h, w);
      assert (row + 1) * w == row * w + w;
      var col := 0;
      while col < w
        invariant 0 <= col <= w
        invariant forall p: nat | p < row * w + col :: dst[p] == YByte(Clamping, bgra[..], w, h, p)
        invariant dst[w * h..] == old(dst[w * h..])
      {
        var off := (row * w + col) * 4;
        var b: int, g: int, r: int := bgra[off], bgra[off + 1], bgra[off + 2];
        var y := (77 * r + 150 * g + 29 * b + 128) / 256 + 16;
        assert y == LumaAt(bgra[..], w, h, row * w + col);
        if y > 235 {
          y := 235;
        }
        dst[row * w + col] := y;
        col := col + 1;
      }
      row := row + 1;
    }
  }

  /** The mean of a component over four pixels, two from byte s0 on and two from byte s1 on. */
  function Mean4(bgra: seq<byte>, s0: nat, s1: nat, c: nat): (m: int)
    requires c < 3 && s0 + 8 <= |bgra| && s1 + 8 <= |bgra|
  {
    (Int(bgra[s0 + c]) + Int(bgra[s0 + c + 4]) + Int(bgra[s1 + c]) + Int(bgra[s1 + c + 4])) / 4
  }

  /** The body of the chroma loops: the block whose rows begin at bytes s0 and s1. */
  method ClampedBlock(bgra: array<byte>, s0: nat, s1: nat, dst: array<byte>, ui: nat, vi: nat,
                      ghost u0: int, ghost v0: int)
    requires bgra != dst && s0 + 8 <= bgra.Length && s1 + 8 <= bgra.Length && ui < dst.Length && vi < dst.Length
    requires u0 == ChromaU(Mean4(bgra[..], s0, s1, 2), Mean4(bgra[..], s0, s1, 1), Mean4(bgra[..], s0, s1, 0))
    requires v0 == ChromaV(Mean4(bgra[..], s0, s1, 2), Mean4(bgra[..], s0, s1, 1), Mean4(bgra[..], s0, s1, 0))
    modifies dst
    ensures dst[..] == old(dst[..])[ui := StoreChroma(Clamping, u0)][vi := StoreChroma(Clamping, v0)]
  {
    var b := (Int(bgra[s0]) + Int(bgra[s0 + 4]) + Int(bgra[s1]) + Int(bgra[s1 + 4])) / 4;
    var g := (Int(bgra[s0 + 1]) + Int(bgra[s0 + 5]) + Int(bgra[s1 + 1]) + Int(bgra[s1 + 5])) / 4;
    var r := (Int(bgra[s0 + 2]) + Int(bgra[s0 + 6]) + Int(bgra[s1 + 2]) + Int(bgra[s1 + 6])) / 4;
    assert b == Mean4(bgra[..], s0, s1, 0) && g == Mean4(bgra[..], s0, s1, 1) && r == Mean4(bgra[..], s0, s1, 2);
    var u := (-43 * r - 85 * g + 128 * b + 128) / 256 + 128;
    var v := (128 * r - 107 * g - 21 * b + 128) / 256 + 128;
    if u < 0 {
      u := 0;
    } else if u > 255 {
      u := 255;
    }
    if v < 0 {
      v := 0;
    } else if v > 255 {
      v := 255;
    }
    assert u == StoreChroma(Clamping, u0) && v == StoreChroma(Clamping, v0);
    dst[ui] := u;
    dst[vi] := v;
  }

  /** One turn of the chroma loops. */
  method ClampedChromaAt(bgra: array<byte>, w: nat, h: nat, dst: array<byte>, row: nat, col: nat,
                         uOff: nat, vOff: nat, ghost us: seq<byte>, ghost vs: seq<byte>)
    requires bgra != dst && bgra.Length >= w * h * 4
    requires row < h / 2 && col < w / 2
    requires us == UPlane(Clamping, bgra[..], w, h) && vs == VPlane(Clamping, bgra[..], w, h)
    requires vOff == uOff + |us| && vOff + |us| <= dst.Length
    requires PlanesDone(us, vs, uOff, dst[..], row * (w / 2) + col)
    modifies dst
    ensures PlanesDone(us, vs, uOff, dst[..], row * (w / 2) + col + 1)
    ensures OnlyBetween(old(dst[..]), dst[..], uOff, vOff + |us|)
  {
    var s0 := (row * 2) * w * 4 + col * 2 * 4;
    var s1 := (row * 2 + 1) * w * 4 + col * 2 * 4;
    var i := row * (w / 2) + col;
    BlockReady(bgra[..], w, h, row, col, s0, s1, i);
    BlockBytes(Clamping, bgra[..], w, h, row, col, i);
    ghost var u, v := BlockU(bgra[..], w, h, row, col), BlockV(bgra[..], w, h, row, col);
    ClampedBlock(bgra, s0, s1, dst, uOff + i, vOff + i, u, v);
    BytesStored(us, vs, uOff, old(dst[..]), i);
  }

  method ClampedChroma(bgra: array<byte>, w: nat, h: nat, dst: array<byte>)
    requires bgra != dst && bgra.Length >= w * h * 4 && dst.Length >= ImageSize(w, h)
    modifies dst
    ensures ChromaDone(Clamping, bgra[..], w, h, dst[..], ChromaSize(w, h))
    ensures OnlyBetween(old(dst[..]), dst[..], w * h, ImageSize(w, h))
  {
    var uOff, vOff := w * h, w * h + ChromaSize(w, h);
    ghost var pixels, us, vs := bgra[..], UPlane(Clamping, bgra[..], w, h), VPlane(Clamping, bgra[..], w, h);
    var row := 0;
    while row < h / 2
      invariant 0 <= row <= h / 2 && bgra[..] == pixels
      invariant PlanesDone(us, vs, uOff, dst[..], row * (w / 2))
      invariant OnlyBetween(old(dst[..]), dst[..], uOff, vOff + |us|)
    {
      var col := 0;
      while col < w / 2
        invariant 0 <= col <= w / 2 && bgra[..] == pixels
        invariant PlanesDone(us, vs, uOff, dst[..], row * (w / 2) + col)
        invariant OnlyBetween(old(dst[..]), dst[..], uOff, vOff + |us|)
      {
        ClampedChromaAt(bgra, w, h, dst, row, col, uOff, vOff, us, vs);
        col := col + 1;
      }
      NextRow(row, w / 2);
      row := row + 1;
    }
    WholePlane(w, h, row);
  }

  lemma NextRow(row: nat, cw: nat)
    ensures (row + 1) * cw == row * cw + cw
  {
  }

  lemma WholePlane(w: nat, h: nat, row: nat)
    requires row == h / 2
    ensures row * (w / 2) == ChromaSize(w, h)
  {
  }

  /** Nothing changed outside the bytes from lo up to hi. */
  predicate OnlyBetween(before: seq<byte>, after: seq<byte>, lo: nat, hi: nat) {
    |after| == |before| && forall k | 0 <= k < |before| && (k < lo || k >= hi) :: after[k] == before[k]
  }

  lemma BlockMeans(bgra: seq<byte>, w: nat, h: nat, row: nat, col: nat)
    requires FrameFits(bgra, w, h) && row < h / 2 && col < w / 2
    ensures var s0, s1 := (row * 2) * w * 4 + col * 2 * 4, (row * 2 + 1) * w * 4 + col * 2 * 4;
            && s0 + 8 <= |bgra| && s1 + 8 <= |bgra|
            && BlockMean(bgra, w, h, row, col, 0) == Mean4(bgra, s0, s1, 0)
            && BlockMean(bgra, w, h, row, col, 1) == Mean4(bgra, s0, s1, 1)
            && BlockMean(bgra, w, h, row, col, 2) == Mean4(bgra, s0, s1, 2)
  {
    BlockIndices(w, h, row, col);
  }

  lemma BlockReady(bgra: seq<byte>, w: nat, h: nat, row: nat, col: nat, s0: nat, s1: nat, i: nat)
    requires FrameFits(bgra, w, h) && row < h / 2 && col < w / 2
    requires s0 == (row * 2) * w * 4 + col * 2 * 4 && s1 == (row * 2 + 1) * w * 4 + col * 2 * 4
    requires i == row * (w / 2) + col
    ensures i < ChromaSize(w, h) && s0 + 8 <= |bgra| && s1 + 8 <= |bgra|
    ensures BlockU(bgra, w, h, row, col) ==
            ChromaU(Mean4(bgra, s0, s1, 2), Mean4(bgra, s0, s1, 1), Mean4(bgra, s0, s1, 0))
    ensures BlockV(bgra, w, h, row, col) ==
            ChromaV(Mean4(bgra, s0, s1, 2), Mean4(bgra, s0, s1, 1), Mean4(bgra, s0, s1, 0))
  {
    BlockIndices(w, h, row, col);
    BlockMeans(bgra, w, h, row, col);
  }

  function Int(b: byte): int { b }

  /** The first n bytes of the planes us and vs are in place, from byte lo on. */
  ghost predicate PlanesDone(us: seq<byte>, vs: seq<byte>, lo: nat, image: seq<byte>, n: nat)
    requires |us| == |vs| && lo + 2 * |us| <= |image|
  {
    forall k: nat | k < n && k < |us| :: image[lo + k] == us[k] && image[lo + |us| + k] == vs[k]
  }

  ghost predicate ChromaDone(how: Storing, bgra: seq<byte>, w: nat, h: nat, image: seq<byte>, n: nat)
    requires FrameFits(bgra, w, h) && |image| >= ImageSize(w, h)
  {
    PlanesDone(UPlane(how, bgra, w, h), VPlane(how, bgra, w, h), w * h, image, n)
  }

  lemma BlockIndices(w: nat, h: nat, row: nat, col: nat)
    requires row < h / 2 && col < w / 2
    ensures var s0, s1 := (row * 2) * w * 4 + col * 2 * 4, (row * 2 + 1) * w * 4 + col * 2 * 4;
            && s0 == 4 * Pixel(w, 2 * row, 2 * col) && s0 + 4 == 4 * Pixel(w, 2 * row, 2 * col + 1)
            && s1 == 4 * Pixel(w, 2 * row + 1, 2 * col) && s1 + 4 == 4 * Pixel(w, 2 * row + 1, 2 * col + 1)
            && s0 + 8 <= w * h * 4 && s1 + 8 <= w * h * 4
    ensures row * (w / 2) + col < ChromaSize(w, h)
    ensures (row * (w / 2) + col) / (w / 2) == row && (row * (w / 2) + col) % (w / 2) == col
  {
    InFrame(w, h, 2 * row, 2 * col + 1);
    InFrame(w, h, 2 * row + 1, 2 * col + 1);
    ChromaIndex(w, h, row, col);
  }

  lemma ChromaIndex(w: nat, h: nat, row: nat, col: nat)
    requires row < h / 2 && col < w / 2
    ensures row * (w / 2) + col < ChromaSize(w, h)
    ensures (row * (w / 2) + col) / (w / 2) == row && (row * (w / 2) + col) % (w / 2) == col
  {
    InFrame(w / 2, h / 2, row, col);
    DivModUnique(row * (w / 2) + col, w / 2, row, col);
  }

  /** The byte of a block in both chroma planes. */
  lemma BlockBytes(how: Storing, bgra: seq<byte>, w: nat, h: nat, row: nat, col: nat, i: nat)
    requires FrameFits(bgra, w, h) && row < h / 2 && col < w / 2 && i == row * (w / 2) + col
    ensures i < ChromaSize(w, h)
    ensures UPlane(how, bgra, w, h)[i] == StoreChroma(how, BlockU(bgra, w, h, row, col))
    ensures VPlane(how, bgra, w, h)[i] == StoreChroma(how, BlockV(bgra, w, h, row, col))
  {
    ChromaIndex(w, h, row, col);
  }

  /** Storing one byte of each plane extends what is done by one. */
  lemma BytesStored(us: seq<byte>, vs: seq<byte>, lo: nat, before: seq<byte>, i: nat)
    requires |us| == |vs| && lo + 2 * |us| <= |before| && i < |us| && PlanesDone(us, vs, lo, before, i)
    ensures var after := before[lo + i := us[i]][lo + |us| + i := vs[i]];
            PlanesDone(us, vs, lo, after, i + 1) && OnlyBetween(before, after, lo, lo + 2 * |us|)
  {
  }

  /** A buffer whose three planes are in place begins with the image. */
  lemma ImageDone(how: Storing, bgra: seq<byte>, w: nat, h: nat, image: seq<byte>)
    requires FrameFits(bgra, w, h) && |image| >= ImageSize(w, h)
    requires forall p: nat | p < w * h :: image[p] == YByte(how, bgra, w, h, p)
    requires ChromaDone(how, bgra, w, h, image, ChromaSize(w, h))
    ensures image[..ImageSize(w, h)] == Image(how, bgra, w, h)
  {
    forall k: nat | k < ImageSize(w, h) ensures image[k] == Image(how, bgra, w, h)[k] {
      ByteDone(how, bgra, w, h, image, k);
    }
  }

  lemma ByteDone(how: Storing, bgra: seq<byte>, w: nat, h: nat, image: seq<byte>, k: nat)
    requires FrameFits(bgra, w, h) && |image| >= ImageSize(w, h) && k < ImageSize(w, h)
    requires k < w * h ==> image[k] == YByte(how, bgra, w, h, k)
    requires ChromaDone(how, bgra, w, h, image, ChromaSize(w, h))
    ensures image[k] == Image(how, bgra, w, h)[k]
  {
    var n, c := w * h, ChromaSize(w, h);
    if n + c <= k {
      var j := k - n - c;
      assert image[n + c + j] == VPlane(how, bgra, w, h)[j];
    } else if n <= k {
      var j := k - n;
      assert image[n + j] == UPlane(how, bgra, w, h)[j];
    }
  }

  // ---- The C routine ----

  /** The planes lie one behind the other in one buffer, as the caller lays them out. */
  method BgraToI420Wrapping(bgra: array<byte>, w: nat, h: nat, nv12: array<byte>)
    requires bgra != nv12 && bgra.Length >= w * h * 4 && nv12.Length >= ImageSize(w, h)
    modifies nv12
    ensures nv12[..ImageSize(w, h)] == Image(Wrapping, bgra[..], w, h)
    ensures nv12[ImageSize(w, h)..] == old(nv12[ImageSize(w, h)..])
  {
    WrappedLuma(bgra, w, h, nv12);
    WrappedChroma(bgra, w, h, nv12);
    assert bgra[..] == old(bgra[..]);
    ImageDone(Wrapping, bgra[..], w, h, nv12[..]);
  }

  method WrappedLuma(bgra: array<byte>, w: nat, h: nat, nv12: array<byte>)
    requires bgra != nv12 && bgra.Length >= w * h * 4 && nv12.Length >= w * h
    modifies nv12
    ensures forall p: nat | p < w * h :: nv12[p] == YByte(Wrapping, bgra[..], w, h, p)
    ensures nv12[w * h..] == old(nv12[w * h..])
  {
    var stride := w * 4;
    var row := 0;
    while row < h
      invariant 0 <= row <= h && row * w <= w * h
      invariant forall p: nat | p < row * w :: nv12[p] == YByte(Wrapping, bgra[..], w, h, p)
      invariant nv12[w * h..] == old(nv12[w * h..])
    {
      MulMonotone(row + 1, h, w);
      NextRow(row, w);
      assert row * stride == 4 * (row * w);
      var src, ydst := row * stride, row * w;
      var col := 0;
      while col < w
        invariant 0 <= col <= w && src == 4 * (ydst + col)
        invariant forall p: nat | p < ydst + col :: nv12[p] == YByte(Wrapping, bgra[..], w, h, p)
        invariant nv12[w * h..] == old(nv12[w * h..])
      {
        var b, g, r := Int(bgra[src]), Int(bgra[src + 1]), Int(bgra[src + 2]);
        assert Luma(r, g, b) == LumaAt(bgra[..], w, h, ydst + col);
        nv12[ydst + col] := ((77 * r + 150 * g + 29 * b + 128) / 256 + 16) % 256;
        col, src := col + 1, src + 4;
      }
      row := row + 1;
    }
  }

  method WrappedBlock(bgra: array<byte>, s0: nat, s1: nat, nv12: array<byte>, ui: nat, vi: nat,
                      ghost u0: int, ghost v0: int)
    requires bgra != nv12 && s0 + 8 <= bgra.Length && s1 + 8 <= bgra.Length && ui < nv12.Length && vi < nv12.Length
    requires u0 == ChromaU(Mean4(bgra[..], s0, s1, 2), Mean4(bgra[..], s0, s1, 1), Mean4(bgra[..], s0, s1, 0))
    requires v0 == ChromaV(Mean4(bgra[..], s0, s1, 2), Mean4(bgra[..], s0, s1, 1), Mean4(bgra[..], s0, s1, 0))
    modifies nv12
    ensures nv12[..] == old(nv12[..])[ui := StoreChroma(Wrapping, u0)][vi := StoreChroma(Wrapping, v0)]
  {
    var b := (Int(bgra[s0]) + Int(bgra[s0 + 4]) + Int(bgra[s1]) + Int(bgra[s1 + 4])) / 4;
    var g := (Int(bgra[s0 + 1]) + Int(bgra[s0 + 5]) + Int(bgra[s1 + 1]) + Int(bgra[s1 + 5])) / 4;
    var r := (Int(bgra[s0 + 2]) + Int(bgra[s0 + 6]) + Int(bgra[s1 + 2]) + Int(bgra[s1 + 6])) / 4;
    assert b == Mean4(bgra[..], s0, s1, 0) && g == Mean4(bgra[..], s0, s1, 1) && r == Mean4(bgra[..], s0, s1, 2);
    nv12[ui] := ((-43 * r - 85 * g + 128 * b + 128) / 256 + 128) % 256;
    nv12[vi] := ((128 * r - 107 * g - 21 * b + 128) / 256 + 128) % 256;
  }

  /** One turn of the chroma loops. */
  method WrappedChromaAt(bgra: array<byte>, w: nat, h: nat, nv12: array<byte>, row: nat, col: nat,
                         uPlane: nat, vPlane: nat, ghost us: seq<byte>, ghost vs: seq<byte>)
    requires bgra != nv12 && bgra.Length >= w * h * 4
    requires row < h / 2 && col < w / 2
    requires us == UPlane(Wrapping, bgra[..], w, h) && vs == VPlane(Wrapping, bgra[..], w, h)
    requires vPlane == uPlane + |us| && vPlane + |us| <= nv12.Length
    requires PlanesDone(us, vs, uPlane, nv12[..], row * (w / 2) + col)
    modifies nv12
    ensures PlanesDone(us, vs, uPlane, nv12[..], row * (w / 2) + col + 1)
    ensures OnlyBetween(old(nv12[..]), nv12[..], uPlane, vPlane + |us|)
  {
    var s0 := (row * 2) * w * 4 + col * 2 * 4;
    var s1 := (row * 2 + 1) * w * 4 + col * 2 * 4;
    var i := row * (w / 2) + col;
    BlockReady(bgra[..], w, h, row, col, s0, s1, i);
    BlockBytes(Wrapping, bgra[..], w, h, row, col, i);
    ghost var u, v := BlockU(bgra[..], w, h, row, col), BlockV(bgra[..], w, h, row, col);
    WrappedBlock(bgra, s0, s1, nv12, uPlane + i, vPlane + i, u, v);
    BytesStored(us, vs, uPlane, old(nv12[..]), i);
  }

  method WrappedChroma(bgra: array<byte>, w: nat, h: nat, nv12: array<byte>)
    requires bgra != nv12 && bgra.Length >= w * h * 4 && nv12.Length >= ImageSize(w, h)
    modifies nv12
    ensures ChromaDone(Wrapping, bgra[..], w, h, nv12[..], ChromaSize(w, h))
    ensures OnlyBetween(old(nv12[..]), nv12[..], w * h, ImageSize(w, h))
  {
    var uPlane, vPlane := w * h, w * h + ChromaSize(w, h);
    ghost var pixels, us, vs := bgra[..], UPlane(Wrapping, bgra[..], w, h), VPlane(Wrapping, bgra[..], w, h);
    var row := 0;
    while row < h / 2
      invariant 0 <= row <= h / 2 && bgra[..] == pixels
      invariant PlanesDone(us, vs, uPlane, nv12[..], row * (w / 2))
      invariant OnlyBetween(old(nv12[..]), nv12[..], uPlane, vPlane + |us|)
    {
      var col := 0;
      while col < w / 2
        invariant 0 <= col <= w / 2 && bgra[..] == pixels
        invariant PlanesDone(us, vs, uPlane, nv12[..], row * (w / 2) + col)
        invariant OnlyBetween(old(nv12[..]), nv12[..], uPlane, vPlane + |us|)
      {
        WrappedChromaAt(bgra, w, h, nv12, row, col, uPlane, vPlane, us, vs);
        col := col + 1;
      }
      NextRow(row, w / 2);
      row := row + 1;
    }
    WholePlane(w, h, row);
  }

  // ---- What the image holds ----

  /** Every pixel has its byte in the Y plane, at its own row and column. */
  lemma LumaByte(how: Storing, bgra: seq<byte>, w: nat, h: nat, row: nat, col: nat)
    requires FrameFits(bgra, w, h) && row < h && col < w
    ensures Pixel(w, row, col) < w * h
    ensures Image(how, bgra, w, h)[Pixel(w, row, col)] == StoreLuma(how, LumaAt(bgra, w, h, Pixel(w, row, col)))
  {
    InFrame(w, h, row, col);
  }

  /** Every block has one byte in each chroma plane, also when a side is odd and the last column or row
      belongs to no block. */
  lemma ChromaBytes(how: Storing, bgra: seq<byte>, w: nat, h: nat, row: nat, col: nat)
    requires FrameFits(bgra, w, h) && row < h / 2 && col < w / 2
    ensures var i, c := Pixel(w / 2, row, col), ChromaSize(w, h);
            && i < c
            && Image(how, bgra, w, h)[w * h + i] == StoreChroma(how, BlockU(bgra, w, h, row, col))
            && Image(how, bgra, w, h)[w * h + c + i] == StoreChroma(how, BlockV(bgra, w, h, row, col))
  {
    BlockBytes(how, bgra, w, h, row, col, Pixel(w / 2, row, col));
    Planes(how, bgra, w, h, Pixel(w / 2, row, col));
  }

  lemma Planes(how: Storing, bgra: seq<byte>, w: nat, h: nat, k: nat)
    requires FrameFits(bgra, w, h) && k < ChromaSize(w, h)
    ensures Image(how, bgra, w, h)[w * h + k] == UPlane(how, bgra, w, h)[k]
    ensures Image(how, bgra, w, h)[w * h + ChromaSize(w, h) + k] == VPlane(how, bgra, w, h)[k]
  {
  }

  lemma PlaneBytes(how: Storing, bgra: seq<byte>, w: nat, h: nat, k: nat)
    requires FrameFits(bgra, w, h) && k < ChromaSize(w, h)
    ensures Image(how, bgra, w, h)[w * h + k] == UByte(how, bgra, w, h, k)
    ensures Image(how, bgra, w, h)[w * h + ChromaSize(w, h) + k] == VByte(how, bgra, w, h, k)
  {
  }

  /** The Go routine stays in the ranges the encoders expect. */
  lemma ClampedRanges(bgra: seq<byte>, w: nat, h: nat, i: nat)
    requires FrameFits(bgra, w, h) && i < ImageSize(w, h)
    ensures i < w * h ==> 16 <= Image(Clamping, bgra, w, h)[i] <= 235
    ensures i >= w * h ==> 1 <= Image(Clamping, bgra, w, h)[i] <= 255
  {
    var n, c := w * h, ChromaSize(w, h);
    if n + c <= i {
      assert Image(Clamping, bgra, w, h)[i] == VByte(Clamping, bgra, w, h, i - n - c);
    } else if n <= i {
      assert Image(Clamping, bgra, w, h)[i] == UByte(Clamping, bgra, w, h, i - n);
    }
  }

  predicate Grey(bgra: seq<byte>, p: nat)
    requires 4 * p + 2 < |bgra|
  {
    Component(bgra, p, 0) == Component(bgra, p, 1) == Component(bgra, p, 2)
  }

  predicate GreyBlock(bgra: seq<byte>, w: nat, h: nat, row: nat, col: nat)
    requires FrameFits(bgra, w, h) && row < h / 2 && col < w / 2
  {
    BlockIndices(w, h, row, col);
    && Grey(bgra, Pixel(w, 2 * row, 2 * col)) && Grey(bgra, Pixel(w, 2 * row, 2 * col + 1))
    && Grey(bgra, Pixel(w, 2 * row + 1, 2 * col)) && Grey(bgra, Pixel(w, 2 * row + 1, 2 * col + 1))
  }

  lemma GreyMeans(bgra: seq<byte>, w: nat, h: nat, row: nat, col: nat)
    requires FrameFits(bgra, w, h) && row < h / 2 && col < w / 2 && GreyBlock(bgra, w, h, row, col)
    ensures BlockMean(bgra, w, h, row, col, 0) == BlockMean(bgra, w, h, row, col, 1)
    ensures BlockMean(bgra, w, h, row, col, 1) == BlockMean(bgra, w, h, row, col, 2)
  {
    BlockIndices(w, h, row, col);
  }

  lemma NeutralChroma(m: nat)
    requires m <= 255
    ensures ChromaU(m, m, m) == ChromaV(m, m, m) == 128
  {
  }

  /** Grey blocks have neutral chroma, however it is stored. */
  lemma GreyIsNeutral(how: Storing, bgra: seq<byte>, w: nat, h: nat, row: nat, col: nat)
    requires FrameFits(bgra, w, h) && row < h / 2 && col < w / 2
    ensures GreyBlock(bgra, w, h, row, col) ==>
              StoreChroma(how, BlockU(bgra, w, h, row, col)) == StoreChroma(how, BlockV(bgra, w, h, row, col)) == 128
  {
    if GreyBlock(bgra, w, h, row, col) {
      GreyMeans(bgra, w, h, row, col);
      NeutralChroma(BlockMean(bgra, w, h, row, col, 0));
    }
  }

  // ---- What each byte stands for ----

  /** The whole number nearest to a weighted sum in 256ths (halves rounded up). */
  predicate Rounds(v: int, sum: int) {
    -128 < 256 * v - sum <= 128
  }

  /** The luma byte of a pixel: its weighted sum of red, green and blue, rounded, above 16; 235 at most in
      the Go routine, the low byte in the C routine. */
  lemma LumaRounds(bgra: seq<byte>, w: nat, h: nat, row: nat, col: nat) returns (y: int)
    requires FrameFits(bgra, w, h) && row < h && col < w
    ensures var i, at := 4 * (row * w + col), row * w + col;
            && i + 3 < |bgra| && at < w * h
            && Rounds(y - 16, 77 * Int(bgra[i + 2]) + 150 * Int(bgra[i + 1]) + 29 * Int(bgra[i]))
            && Image(Clamping, bgra, w, h)[at] == (if y > 235 then 235 else y)
            && Image(Wrapping, bgra, w, h)[at] == y % 256
  {
    InFrame(w, h, row, col);
    y := LumaAt(bgra, w, h, Pixel(w, row, col));
    LumaByte(Clamping, bgra, w, h, row, col);
    LumaByte(Wrapping, bgra, w, h, row, col);
    var p := Pixel(w, row, col);
    LumaRounded(Component(bgra, p, 2), Component(bgra, p, 1), Component(bgra, p, 0));
  }

  lemma LumaRounded(r: int, g: int, b: int)
    ensures Rounds(Luma(r, g, b) - 16, 77 * r + 150 * g + 29 * b)
  {
  }

  lemma ChromaRounded(r: int, g: int, b: int)
    ensures Rounds(ChromaU(r, g, b) - 128, -43 * r - 85 * g + 128 * b)
    ensures Rounds(ChromaV(r, g, b) - 128, 128 * r - 107 * g - 21 * b)
  {
  }

  /** m is the mean of component c over the block whose rows begin at bytes s0 and s1, rounded down. */
  predicate IsMean(bgra: seq<byte>, s0: nat, s1: nat, c: nat, m: int)
    requires c < 3 && s0 + 8 <= |bgra| && s1 + 8 <= |bgra|
  {
    4 * m <= Int(bgra[s0 + c]) + Int(bgra[s0 + 4 + c]) + Int(bgra[s1 + c]) + Int(bgra[s1 + 4 + c]) < 4 * m + 4
  }

  lemma MeansOfBlock(bgra: seq<byte>, w: nat, h: nat, row: nat, col: nat, c: nat)
    requires FrameFits(bgra, w, h) && row < h / 2 && col < w / 2 && c < 3
    ensures var s0, s1 := 4 * (2 * row * w + 2 * col), 4 * ((2 * row + 1) * w + 2 * col);
            s0 + 8 <= |bgra| && s1 + 8 <= |bgra| && IsMean(bgra, s0, s1, c, BlockMean(bgra, w, h, row, col, c))
  {
    BlockIndices(w, h, row, col);
  }

  /** The chroma bytes of a block: the weighted sums of the means of its components, rounded, above 128; 255
      at most in the Go routine, the low byte in the C routine. */
  lemma ChromaRounds(bgra: seq<byte>, w: nat, h: nat, row: nat, col: nat)
    returns (r: int, g: int, b: int, u: int, v: int)
    requires FrameFits(bgra, w, h) && row < h / 2 && col < w / 2
    ensures var s0, s1 := 4 * (2 * row * w + 2 * col), 4 * ((2 * row + 1) * w + 2 * col);
            && s0 + 8 <= |bgra| && s1 + 8 <= |bgra|
            && IsMean(bgra, s0, s1, 0, b) && IsMean(bgra, s0, s1, 1, g) && IsMean(bgra, s0, s1, 2, r)
    ensures Rounds(u - 128, -43 * r - 85 * g + 128 * b) && Rounds(v - 128, 128 * r - 107 * g - 21 * b)
    ensures var i, c := row * (w / 2) + col, (w / 2) * (h / 2);
            && i < c
            && Image(Clamping, bgra, w, h)[w * h + i] == (if u > 255 then 255 else u)
            && Image(Wrapping, bgra, w, h)[w * h + i] == u % 256
            && Image(Clamping, bgra, w, h)[w * h + c + i] == (if v > 255 then 255 else v)
            && Image(Wrapping, bgra, w, h)[w * h + c + i] == v % 256
  {
    b, g := BlockMean(bgra, w, h, row, col, 0), BlockMean(bgra, w, h, row, col, 1);
    r := BlockMean(bgra, w, h, row, col, 2);
    u, v := BlockU(bgra, w, h, row, col), BlockV(bgra, w, h, row, col);
    MeansOfBlock(bgra, w, h, row, col, 0);
    MeansOfBlock(bgra, w, h, row, col, 1);
    MeansOfBlock(bgra, w, h, row, col, 2);
    ChromaRounded(r, g, b);
    ChromaBytes(Clamping, bgra, w, h, row, col);
    ChromaBytes(Wrapping, bgra, w, h, row, col);
  }

  // ---- Where the two routines agree ----

  /** The weighted brightness from which the Go routine clamps. */
  const BRIGHT := 56192

  predicate Bright(bgra: seq<byte>, p: nat)
    requires 4 * p + 2 < |bgra|
  {
    77 * Component(bgra, p, 2) + 150 * Component(bgra, p, 1) + 29 * Component(bgra, p, 0) >= BRIGHT
  }

  /** A block whose mean is pure blue, or pure red, at full strength. */
  predicate Pure(bgra: seq<byte>, w: nat, h: nat, row: nat, col: nat, c: nat)
    requires FrameFits(bgra, w, h) && row < h / 2 && col < w / 2 && (c == 0 || c == 2)
  {
    && BlockMean(bgra, w, h, row, col, c) == 255
    && BlockMean(bgra, w, h, row, col, 1) == 0 && BlockMean(bgra, w, h, row, col, 2 - c) == 0
  }

  lemma LumaAgrees(bgra: seq<byte>, w: nat, h: nat, p: nat)
    requires FrameFits(bgra, w, h) && p < w * h
    ensures YByte(Clamping, bgra, w, h, p) == YByte(Wrapping, bgra, w, h, p) <==> LumaAt(bgra, w, h, p) <= 235
    ensures LumaAt(bgra, w, h, p) <= 235 <==> !Bright(bgra, p)
  {
  }

  lemma FullStrength(r: int, g: int, b: int)
    requires 0 <= r <= 255 && 0 <= g <= 255 && 0 <= b <= 255
    ensures ChromaU(r, g, b) <= 255 <==> !(b == 255 && g == 0 && r == 0)
    ensures ChromaV(r, g, b) <= 255 <==> !(r == 255 && g == 0 && b == 0)
  {
    assert ChromaU(r, g, b) >= 256 <==> -43 * r - 85 * g + 128 * b >= 32640;
    assert ChromaV(r, g, b) >= 256 <==> 128 * r - 107 * g - 21 * b >= 32640;
  }

  lemma ChromaStores(c: int)
    requires 1 <= c <= 256
    ensures StoreChroma(Clamping, c) == StoreChroma(Wrapping, c) <==> c <= 255
  {
  }

  lemma ChromaAgrees(bgra: seq<byte>, w: nat, h: nat, row: nat, col: nat)
    requires FrameFits(bgra, w, h) && row < h / 2 && col < w / 2
    ensures var u, v := BlockU(bgra, w, h, row, col), BlockV(bgra, w, h, row, col);
            && (StoreChroma(Clamping, u) == StoreChroma(Wrapping, u) <==> !Pure(bgra, w, h, row, col, 0))
            && (StoreChroma(Clamping, v) == StoreChroma(Wrapping, v) <==> !Pure(bgra, w, h, row, col, 2))
  {
    FullStrength(BlockMean(bgra, w, h, row, col, 2), BlockMean(bgra, w, h, row, col, 1),
                 BlockMean(bgra, w, h, row, col, 0));
    ChromaStores(BlockU(bgra, w, h, row, col));
    ChromaStores(BlockV(bgra, w, h, row, col));
  }

  predicate NoPureBlock(bgra: seq<byte>, w: nat, h: nat)
    requires FrameFits(bgra, w, h)
  {
    forall row: nat, col: nat | row < h / 2 && col < w / 2 ::
      !Pure(bgra, w, h, row, col, 0) && !Pure(bgra, w, h, row, col, 2)
  }

  predicate NoBrightPixel(bgra: seq<byte>, w: nat, h: nat)
    requires FrameFits(bgra, w, h)
  {
    forall p: nat | p < w * h :: !Bright(bgra, p)
  }

  lemma EqualImagesAreDim(bgra: seq<byte>, w: nat, h: nat)
    requires FrameFits(bgra, w, h) && Image(Clamping, bgra, w, h) == Image(Wrapping, bgra, w, h)
    ensures NoBrightPixel(bgra, w, h) && NoPureBlock(bgra, w, h)
  {
    var a, b := Image(Clamping, bgra, w, h), Image(Wrapping, bgra, w, h);
    forall p: nat | p < w * h ensures !Bright(bgra, p) {
      assert a[p] == YByte(Clamping, bgra, w, h, p) && b[p] == YByte(Wrapping, bgra, w, h, p);
      LumaAgrees(bgra, w, h, p);
    }
    forall row: nat, col: nat | row < h / 2 && col < w / 2
      ensures !Pure(bgra, w, h, row, col, 0) && !Pure(bgra, w, h, row, col, 2)
    {
      ChromaBytes(Clamping, bgra, w, h, row, col);
      ChromaBytes(Wrapping, bgra, w, h, row, col);
      ChromaAgrees(bgra, w, h, row, col);
    }
  }

  lemma DimBytesAgree(bgra: seq<byte>, w: nat, h: nat, k: nat)
    requires FrameFits(bgra, w, h) && k < ChromaSize(w, h) && NoPureBlock(bgra, w, h)
    ensures UByte(Clamping, bgra, w, h, k) == UByte(Wrapping, bgra, w, h, k)
    ensures VByte(Clamping, bgra, w, h, k) == VByte(Wrapping, bgra, w, h, k)
  {
    BlockOf(w, h, k);
    ChromaAgrees(bgra, w, h, k / (w / 2), k % (w / 2));
  }

  lemma DimByteEqual(bgra: seq<byte>, w: nat, h: nat, i: nat)
    requires FrameFits(bgra, w, h) && NoBrightPixel(bgra, w, h) && NoPureBlock(bgra, w, h) && i < ImageSize(w, h)
    ensures Image(Clamping, bgra, w, h)[i] == Image(Wrapping, bgra, w, h)[i]
  {
    var n, c := w * h, ChromaSize(w, h);
    if i < n {
      LumaAgrees(bgra, w, h, i);
    } else {
      var k := if i < n + c then i - n else i - n - c;
      PlaneBytes(Clamping, bgra, w, h, k);
      PlaneBytes(Wrapping, bgra, w, h, k);
      DimBytesAgree(bgra, w, h, k);
    }
  }

  lemma DimImagesEqual(bgra: seq<byte>, w: nat, h: nat)
    requires FrameFits(bgra, w, h) && NoBrightPixel(bgra, w, h) && NoPureBlock(bgra, w, h)
    ensures Image(Clamping, bgra, w, h) == Image(Wrapping, bgra, w, h)
  {
    var a, b := Image(Clamping, bgra, w, h), Image(Wrapping, bgra, w, h);
    forall i: nat | i < ImageSize(w, h) ensures a[i] == b[i] { DimByteEqual(bgra, w, h, i); }
  }

  /** Both routines produce the same image exactly when no pixel is bright and no block is pure blue or
      pure red. */
  lemma RoutinesAgree(bgra: seq<byte>, w: nat, h: nat)
    requires FrameFits(bgra, w, h)
    ensures Image(Clamping, bgra, w, h) == Image(Wrapping, bgra, w, h) <==>
            NoBrightPixel(bgra, w, h) && NoPureBlock(bgra, w, h)
  {
    if Image(Clamping, bgra, w, h) == Image(Wrapping, bgra, w, h) {
      EqualImagesAreDim(bgra, w, h);
    }
    if NoBrightPixel(bgra, w, h) && NoPureBlock(bgra, w, h) {
      DimImagesEqual(bgra, w, h);
    }
  }

  /** A white pixel is stored as 235 by the Go routine and as 15, nearly black, by the C routine. */
  lemma WhitePixel(bgra: seq<byte>, w: nat, h: nat, p: nat)
    requires FrameFits(bgra, w, h) && p < w * h && Grey(bgra, p) && Component(bgra, p, 0) == 255
    ensures Image(Clamping, bgra, w, h)[p] == 235 && Image(Wrapping, bgra, w, h)[p] == 15
  {
    assert LumaAt(bgra, w, h, p) == 271;
  }
}
