/**
 The unscaled branch of the Wayland client's image copy (client/Wayland/wlfreerdp.c): the rows of an area are
 copied between two buffers of four-byte pixels with their own strides.
 */
module WaylandBlit {
  import opened Common

  datatype Rectangle = Rectangle(left: u16, top: u16, right: u16, bottom: u16)

  /** The product, by repeated addition: the proofs below need no more than its steps. */
  function Times(n: nat, stride: nat): nat
  {
    if n == 0 then 0 else Times(n - 1, stride) + stride
  }

  lemma {:induction false} TimesIsProduct(n: nat, stride: nat)
    ensures Times(n, stride) == n * stride
  {
    if n > 0 {
      TimesIsProduct(n - 1, stride);
      assert n * stride == (n - 1) * stride + stride;
    }
  }

  /** One image: its stride in bytes and its size in pixels. */
  datatype Image = Image(stride: nat, width: nat, height: nat) {

    /** The offset of the leftmost copied byte of row `top + i`. */
    function Row(area: Rectangle, i: nat): nat
    {
      Times(i + area.top as int, stride) + area.left as int * 4
    }
  }

  function Min(a: nat, b: nat): nat { if a < b then a else b }

  /** Difference of two sizes, in 64 bits. */
  function Difference(a: nat, b: u16): nat { if a < b as int then a - b as int + U64 else a - b as int }

  function Width(area: Rectangle, dst: Image): nat
  {
    Min(Difference(area.right, area.left), Difference(dst.width, area.left))
  }

  function Height(area: Rectangle, dst: Image): nat
  {
    Min(Difference(area.bottom, area.top), Difference(dst.height, area.top))
  }

  /** The bytes of a copied row. */
  function RowBytes(area: Rectangle, dst: Image): nat { 4 * Width(area, dst) % U64 }

  /** The copied part lies inside the destination exactly when its top left corner does, and is the whole area where
      that fits: the subtraction wraps around for a corner beyond the edge. */
  lemma ClippedExactly(area: Rectangle, dst: Image)
    ensures area.left as int + Width(area, dst) <= dst.width <==> area.left as int <= dst.width
    ensures area.top as int + Height(area, dst) <= dst.height <==> area.top as int <= dst.height
    ensures area.left <= area.right && area.right as int <= dst.width ==>
              area.left as int + Width(area, dst) == area.right as int
    ensures area.top <= area.bottom && area.bottom as int <= dst.height ==>
              area.top as int + Height(area, dst) == area.bottom as int
  {
  }

  /** The copied rows lie inside their buffer: the last one does. */
  predicate RowsInside(image: Image, area: Rectangle, n: nat, w: nat, size: nat)
  {
    n == 0 || image.Row(area, n - 1) + w <= size
  }

  function CopyRow(d: bytes, s: bytes, at: nat, from: nat, w: nat): (r: bytes)
    requires at + w <= |d| && from + w <= |s|
    ensures |r| == |d|
  {
    seq(|d|, p requires 0 <= p < |d| => if at <= p < at + w then s[from + p - at] else d[p])
  }

  lemma CopyRowAt(d: bytes, s: bytes, at: nat, from: nat, w: nat, p: nat)
    requires at + w <= |d| && from + w <= |s| && p < |d|
    ensures CopyRow(d, s, at, from, w)[p] == if at <= p < at + w then s[from + p - at] else d[p]
  {
  }

  /** The destination after its first n rows have been copied, w bytes each. */
  ghost function Rows(s: bytes, d: bytes, src: Image, dst: Image, area: Rectangle, n: nat, w: nat): (r: bytes)
    requires RowsInside(src, area, n, w, |s|) && RowsInside(dst, area, n, w, |d|)
    ensures |r| == |d|
  {
    if n == 0 then d
    else
      assert RowsInside(src, area, n - 1, w, |s|) && RowsInside(dst, area, n - 1, w, |d|);
      CopyRow(Rows(s, d, src, dst, area, n - 1, w), s, dst.Row(area, n - 1), src.Row(area, n - 1), w)
  }

  method Memcpy(d: array<byte>, at: nat, s: array<byte>, from: nat, w: nat)
    requires s != d && at + w <= d.Length && from + w <= s.Length
    modifies d
    ensures d[..] == CopyRow(old(d[..]), s[..], at, from, w)
  {
    forall c | 0 <= c < w {
      d[at + c] := s[from + c];
    }
    forall p | 0 <= p < d.Length ensures d[p] == CopyRow(old(d[..]), s[..], at, from, w)[p] {
      CopyRowAt(old(d[..]), s[..], at, from, w, p);
    }
  }

  lemma RowsStep(s: bytes, d: bytes, src: Image, dst: Image, area: Rectangle, n: nat, w: nat)
    requires RowsInside(src, area, n + 1, w, |s|) && RowsInside(dst, area, n + 1, w, |d|)
    ensures RowsInside(src, area, n, w, |s|) && RowsInside(dst, area, n, w, |d|)
    ensures src.Row(area, n) + w <= |s| && dst.Row(area, n) + w <= |d|
    ensures Rows(s, d, src, dst, area, n + 1, w) ==
            CopyRow(Rows(s, d, src, dst, area, n, w), s, dst.Row(area, n), src.Row(area, n), w)
  {
  }

  lemma FewerRowsInside(image: Image, area: Rectangle, n: nat, k: nat, w: nat, size: nat)
    requires RowsInside(image, area, n, w, size) && k <= n
    ensures RowsInside(image, area, k, w, size)
  {
    if 0 < k < n { RowGap(image, area, k - 1, n - 1); }
  }

  /** Every byte of every pixel of the area is the source's byte at the same place. */
  ghost predicate PixelsCopied(s: bytes, r: bytes, src: Image, dst: Image, area: Rectangle)
  {
    forall x: nat, y: nat, b: nat :: InArea(area, dst, x, y) && b < 4 ==> SameByte(s, r, src, dst, x, y, b)
  }

  /** Every byte that belongs to no pixel of the area keeps its value. */
  ghost predicate OtherBytesKept(d: bytes, r: bytes, dst: Image, area: Rectangle)
  {
    |r| == |d| && forall p: nat :: p < |d| && InNoPixel(area, dst, p) ==> r[p] == d[p]
  }

  lemma RowsArePixels(s: bytes, d: bytes, src: Image, dst: Image, area: Rectangle)
    requires RowsInside(src, area, Height(area, dst), RowBytes(area, dst), |s|)
    requires RowsInside(dst, area, Height(area, dst), RowBytes(area, dst), |d|)
    requires Addressable(dst, |d|)
    ensures var r := Rows(s, d, src, dst, area, Height(area, dst), RowBytes(area, dst));
            && OtherBytesKept(d, r, dst, area)
            && (NoSmear(src, dst, Height(area, dst), RowBytes(area, dst)) ==> PixelsCopied(s, r, src, dst, area))
  {
    var n, w := Height(area, dst), RowBytes(area, dst);
    var r := Rows(s, d, src, dst, area, n, w);
    forall p: nat | p < |d| && InNoPixel(area, dst, p) ensures r[p] == d[p] {
      OthersKept(s, d, src, dst, area, p);
    }
    if NoSmear(src, dst, n, w) {
      forall x: nat, y: nat, b: nat | InArea(area, dst, x, y) && b < 4 ensures SameByte(s, r, src, dst, x, y, b) {
        PixelCopied(s, d, src, dst, area, x, y, b);
      }
    }
  }

  method CopyImage(s: array<byte>, src: Image, d: array<byte>, dst: Image, area: Rectangle) returns (ok: bool)
    requires s != d
    requires RowsInside(src, area, Height(area, dst), RowBytes(area, dst), s.Length)
    requires RowsInside(dst, area, Height(area, dst), RowBytes(area, dst), d.Length)
    modifies d
    ensures ok
    ensures d[..] == Rows(s[..], old(d[..]), src, dst, area, Height(area, dst), RowBytes(area, dst))
    ensures Addressable(dst, d.Length) ==> OtherBytesKept(old(d[..]), d[..], dst, area)
    ensures Addressable(dst, d.Length) && NoSmear(src, dst, Height(area, dst), RowBytes(area, dst)) ==>
              PixelsCopied(s[..], d[..], src, dst, area)
  {
    var width := Min(Difference(area.right, area.left), Difference(dst.width, area.left));
    var height := Min(Difference(area.bottom, area.top), Difference(dst.height, area.top));
    var size := 4 * width % U64;
    for i := 0 to height
      invariant RowsInside(src, area, i, size, s.Length) && RowsInside(dst, area, i, size, d.Length)
      invariant d[..] == Rows(s[..], old(d[..]), src, dst, area, i, size)
    {
      FewerRowsInside(src, area, height, i + 1, size, s.Length);
      FewerRowsInside(dst, area, height, i + 1, size, d.Length);
      RowsStep(s[..], old(d[..]), src, dst, area, i, size);
      var srcOffset, dstOffset := src.Row(area, i), dst.Row(area, i);
      Memcpy(d, dstOffset, s, srcOffset, size);
    }
    if Addressable(dst, d.Length) { RowsArePixels(s[..], old(d[..]), src, dst, area); }
    return true;
  }

  // --- Pixels ---

  /** Rows of the destination do not overlap, or overlap just as the rows of the source do. */
  predicate NoSmear(src: Image, dst: Image, n: nat, w: nat)
  {
    n <= 1 || w == 0 || w <= dst.stride || src.stride == dst.stride
  }

  /** The w bytes at `at` are those at `from` in the source. */
  predicate SameRow(s: bytes, r: bytes, from: nat, at: nat, w: nat)
  {
    from + w <= |s| && at + w <= |r| && r[at..at + w] == s[from..from + w]
  }

  /** Every byte of every copied row is the byte of the source at the same place. */
  ghost predicate Copied(s: bytes, r: bytes, src: Image, dst: Image, area: Rectangle, n: nat, w: nat)
  {
    forall i: nat :: i < n ==> SameRow(s, r, src.Row(area, i), dst.Row(area, i), w)
  }

  /** The position p belongs to no copied row. */
  ghost predicate Outside(dst: Image, area: Rectangle, n: nat, w: nat, p: nat)
  {
    forall i: nat :: i < n ==> !(dst.Row(area, i) <= p < dst.Row(area, i) + w)
  }

  lemma {:induction false} RowGap(image: Image, area: Rectangle, i: nat, j: nat)
    requires i < j
    ensures image.Row(area, j) - image.Row(area, i) == Times(j - i, image.stride) >= image.stride
    decreases j
  {
    if i + 1 < j { RowGap(image, area, i, j - 1); }
  }

  /** Copying a later row spoils an earlier one neither when it starts beyond it nor when both are equally far apart. */
  lemma RowSurvives(r: bytes, s: bytes, at: nat, from: nat, at': nat, from': nat, w: nat)
    requires at' + w <= |r| && from' + w <= |s| && SameRow(s, r, from, at, w)
    requires at <= at' && (at + w <= at' || at' - at == from' - from)
    ensures SameRow(s, CopyRow(r, s, at', from', w), from, at, w)
  {
    var r' := CopyRow(r, s, at', from', w);
    forall p | at <= p < at + w ensures r'[p] == s[from + p - at] {
      CopyRowAt(r, s, at', from', w, p);
      assert r[at..at + w][p - at] == s[from..from + w][p - at];
    }
  }

  lemma RowArrives(r: bytes, s: bytes, at: nat, from: nat, w: nat)
    requires at + w <= |r| && from + w <= |s|
    ensures SameRow(s, CopyRow(r, s, at, from, w), from, at, w)
  {
    var r' := CopyRow(r, s, at, from, w);
    forall p | at <= p < at + w ensures r'[p] == s[from + p - at] {
      CopyRowAt(r, s, at, from, w, p);
    }
  }

  /** One more row, which leaves the rows before it right. */
  lemma CopiedStep(s: bytes, r: bytes, src: Image, dst: Image, area: Rectangle, n: nat, w: nat, i: nat)
    requires i < n && Copied(s, r, src, dst, area, n, w) && NoSmear(src, dst, n + 1, w)
    requires src.Row(area, n) + w <= |s| && dst.Row(area, n) + w <= |r|
    ensures SameRow(s, CopyRow(r, s, dst.Row(area, n), src.Row(area, n), w), src.Row(area, i), dst.Row(area, i), w)
  {
    RowGap(dst, area, i, n);
    RowGap(src, area, i, n);
    RowSurvives(r, s, dst.Row(area, i), src.Row(area, i), dst.Row(area, n), src.Row(area, n), w);
  }

  lemma OneMoreRow(s: bytes, r: bytes, src: Image, dst: Image, area: Rectangle, n: nat, w: nat)
    requires Copied(s, r, src, dst, area, n, w) && NoSmear(src, dst, n + 1, w)
    requires src.Row(area, n) + w <= |s| && dst.Row(area, n) + w <= |r|
    ensures Copied(s, CopyRow(r, s, dst.Row(area, n), src.Row(area, n), w), src, dst, area, n + 1, w)
  {
    var r' := CopyRow(r, s, dst.Row(area, n), src.Row(area, n), w);
    RowArrives(r, s, dst.Row(area, n), src.Row(area, n), w);
    forall i: nat | i < n ensures SameRow(s, r', src.Row(area, i), dst.Row(area, i), w) {
      CopiedStep(s, r, src, dst, area, n, w, i);
    }
  }

  lemma {:induction false} CopiesRows(s: bytes, d: bytes, src: Image, dst: Image, area: Rectangle, n: nat, w: nat)
    requires RowsInside(src, area, n, w, |s|) && RowsInside(dst, area, n, w, |d|) && NoSmear(src, dst, n, w)
    ensures Copied(s, Rows(s, d, src, dst, area, n, w), src, dst, area, n, w)
  {
    if n > 0 {
      RowsStep(s, d, src, dst, area, n - 1, w);
      CopiesRows(s, d, src, dst, area, n - 1, w);
      OneMoreRow(s, Rows(s, d, src, dst, area, n - 1, w), src, dst, area, n - 1, w);
    }
  }

  lemma {:induction false} KeepsTheRest(s: bytes, d: bytes, src: Image, dst: Image, area: Rectangle,
                                        n: nat, w: nat, p: nat)
    requires RowsInside(src, area, n, w, |s|) && RowsInside(dst, area, n, w, |d|)
    requires p < |d| && Outside(dst, area, n, w, p)
    ensures Rows(s, d, src, dst, area, n, w)[p] == d[p]
  {
    if n > 0 {
      RowsStep(s, d, src, dst, area, n - 1, w);
      KeepsTheRest(s, d, src, dst, area, n - 1, w, p);
      CopyRowAt(Rows(s, d, src, dst, area, n - 1, w), s, dst.Row(area, n - 1), src.Row(area, n - 1), w, p);
    }
  }

  /** A source whose only difference is at one offset, for which overlapping rows spoil a pixel. */
  lemma Smears(size: nat, d: bytes, src: Image, dst: Image, area: Rectangle, n: nat, w: nat) returns (s: bytes)
    requires RowsInside(src, area, n, w, size) && RowsInside(dst, area, n, w, |d|) && !NoSmear(src, dst, n, w)
    ensures |s| == size && !Copied(s, Rows(s, d, src, dst, area, n, w), src, dst, area, n, w)
  {
    RowGap(dst, area, n - 2, n - 1);
    RowGap(src, area, n - 2, n - 1);
    var from := src.Row(area, n - 1);
    s := seq(size, i => if i == from then 1 else 0);
    var r := Rows(s, d, src, dst, area, n, w);
    var at, at' := dst.Row(area, n - 2), dst.Row(area, n - 1);
    var row := src.Row(area, n - 2);
    RowsStep(s, d, src, dst, area, n - 1, w);
    CopyRowAt(Rows(s, d, src, dst, area, n - 1, w), s, at', from, w, at');
    SpoiledPixel(s, r, row, at, w, dst.stride);
  }

  lemma SpoiledPixel(s: bytes, r: bytes, from: nat, at: nat, w: nat, k: nat)
    requires k < w && from + w <= |s| && at + w <= |r| && r[at + k] != s[from + k]
    ensures !SameRow(s, r, from, at, w)
  {
    assert r[at..at + w][k] == r[at + k] && s[from..from + w][k] == s[from + k];
  }

  predicate RowByte(s: bytes, r: bytes, from: nat, at: nat, k: nat)
  {
    from + k < |s| && at + k < |r| && r[at + k] == s[from + k]
  }

  lemma RowOfBytes(s: bytes, r: bytes, from: nat, at: nat, w: nat)
    requires from + w <= |s| && at + w <= |r| && forall k: nat :: k < w ==> RowByte(s, r, from, at, k)
    ensures SameRow(s, r, from, at, w)
  {
    var to, row := r[at..at + w], s[from..from + w];
    forall k: nat | k < w ensures to[k] == row[k] {
      assert RowByte(s, r, from, at, k);
    }
  }

  lemma RowOfPixels(s: bytes, r: bytes, src: Image, dst: Image, area: Rectangle, i: nat, k: nat)
    requires Addressable(dst, |r|) && RowBytes(area, dst) == 4 * Width(area, dst)
    requires PixelsCopied(s, r, src, dst, area) && i < Height(area, dst) && k < RowBytes(area, dst)
    ensures RowByte(s, r, src.Row(area, i), dst.Row(area, i), k)
  {
    var x, y := area.left as int + k / 4, area.top as int + i;
    SpanEnds(area, dst);
    assert InArea(area, dst, x, y) && SameByte(s, r, src, dst, x, y, k % 4);
    RowAt(src, area, x, y, k % 4);
    RowAt(dst, area, x, y, k % 4);
  }

  lemma PixelRow(s: bytes, r: bytes, src: Image, dst: Image, area: Rectangle, i: nat)
    requires RowsInside(src, area, Height(area, dst), RowBytes(area, dst), |s|)
    requires RowsInside(dst, area, Height(area, dst), RowBytes(area, dst), |r|)
    requires Addressable(dst, |r|) && PixelsCopied(s, r, src, dst, area) && i < Height(area, dst)
    ensures SameRow(s, r, src.Row(area, i), dst.Row(area, i), RowBytes(area, dst))
  {
    var n, w := Height(area, dst), RowBytes(area, dst);
    FewerRowsInside(src, area, n, i + 1, w, |s|);
    FewerRowsInside(dst, area, n, i + 1, w, |r|);
    RowFits(area, dst, n, |r|);
    forall k: nat | k < w ensures RowByte(s, r, src.Row(area, i), dst.Row(area, i), k) {
      RowOfPixels(s, r, src, dst, area, i, k);
    }
    RowOfBytes(s, r, src.Row(area, i), dst.Row(area, i), w);
  }

  lemma PixelsAreRows(s: bytes, r: bytes, src: Image, dst: Image, area: Rectangle)
    requires RowsInside(src, area, Height(area, dst), RowBytes(area, dst), |s|)
    requires RowsInside(dst, area, Height(area, dst), RowBytes(area, dst), |r|)
    requires Addressable(dst, |r|) && PixelsCopied(s, r, src, dst, area)
    ensures Copied(s, r, src, dst, area, Height(area, dst), RowBytes(area, dst))
  {
    forall i: nat | i < Height(area, dst)
      ensures SameRow(s, r, src.Row(area, i), dst.Row(area, i), RowBytes(area, dst))
    {
      PixelRow(s, r, src, dst, area, i);
    }
  }

  lemma SmearsPixels(size: nat, d: bytes, src: Image, dst: Image, area: Rectangle) returns (s: bytes)
    requires RowsInside(src, area, Height(area, dst), RowBytes(area, dst), size)
    requires RowsInside(dst, area, Height(area, dst), RowBytes(area, dst), |d|)
    requires Addressable(dst, |d|) && !NoSmear(src, dst, Height(area, dst), RowBytes(area, dst))
    ensures |s| == size
    ensures !PixelsCopied(s, Rows(s, d, src, dst, area, Height(area, dst), RowBytes(area, dst)), src, dst, area)
  {
    var n, w := Height(area, dst), RowBytes(area, dst);
    s := Smears(size, d, src, dst, area, n, w);
    if PixelsCopied(s, Rows(s, d, src, dst, area, n, w), src, dst, area) {
      PixelsAreRows(s, Rows(s, d, src, dst, area, n, w), src, dst, area);
    }
  }

  /** For all strides: whatever the source holds, every row arrives exactly when rows do not smear. */
  lemma RowsAreExact(size: nat, d: bytes, src: Image, dst: Image, area: Rectangle, n: nat, w: nat)
    requires RowsInside(src, area, n, w, size) && RowsInside(dst, area, n, w, |d|)
    ensures (forall s: bytes | |s| == size :: Copied(s, Rows(s, d, src, dst, area, n, w), src, dst, area, n, w))
            <==> NoSmear(src, dst, n, w)
  {
    if NoSmear(src, dst, n, w) {
      forall s: bytes | |s| == size ensures Copied(s, Rows(s, d, src, dst, area, n, w), src, dst, area, n, w) {
        CopiesRows(s, d, src, dst, area, n, w);
      }
    } else {
      var s := Smears(size, d, src, dst, area, n, w);
    }
  }

  /** And so does every pixel of the area, clipped to a destination in memory. */
  lemma CopyIsExact(size: nat, d: bytes, src: Image, dst: Image, area: Rectangle)
    requires RowsInside(src, area, Height(area, dst), RowBytes(area, dst), size)
    requires RowsInside(dst, area, Height(area, dst), RowBytes(area, dst), |d|)
    requires Addressable(dst, |d|)
    ensures var n, w := Height(area, dst), RowBytes(area, dst);
            (forall s: bytes | |s| == size :: PixelsCopied(s, Rows(s, d, src, dst, area, n, w), src, dst, area))
            <==> NoSmear(src, dst, n, w)
  {
    var n, w := Height(area, dst), RowBytes(area, dst);
    if NoSmear(src, dst, n, w) {
      forall s: bytes | |s| == size ensures PixelsCopied(s, Rows(s, d, src, dst, area, n, w), src, dst, area) {
        RowsArePixels(s, d, src, dst, area);
      }
    } else {
      var s := SmearsPixels(size, d, src, dst, area);
    }
  }

  // --- The same for each byte of each pixel ---

  /** Where a span that starts at `from` ends: at `to` or at the edge, whichever comes first.  A bound that lies before
      `from` wraps around to the far end of the address space. */
  function End(from: nat, to: nat, edge: nat): nat
  {
    if from <= to && from <= edge then Min(to, edge)
    else if from <= to then to
    else if from <= edge then edge
    else U64 + Min(to, edge)
  }

  /** An image in memory: sizes fit 64 bits, that of a row counted in bytes, and half the address space holds it. */
  predicate Addressable(image: Image, size: nat)
  {
    4 * image.width < U64 && image.height < U64 && size < U64 / 2
  }

  predicate InArea(area: Rectangle, dst: Image, x: nat, y: nat)
  {
    && area.left as int <= x < End(area.left, area.right, dst.width)
    && area.top as int <= y < End(area.top, area.bottom, dst.height)
  }

  /** Byte b of the pixel at (x, y) of an image. */
  function At(image: Image, x: nat, y: nat, b: nat): nat { y * image.stride + 4 * x + b }

  lemma SpanEnds(area: Rectangle, dst: Image)
    requires dst.width < U64 && dst.height < U64
    ensures area.left as int + Width(area, dst) == End(area.left, area.right, dst.width)
    ensures area.top as int + Height(area, dst) == End(area.top, area.bottom, dst.height)
  {
  }

  /** A row that fits into memory is not cut short by the product with the size of a pixel. */
  lemma RowFits(area: Rectangle, dst: Image, n: nat, size: nat)
    requires Addressable(dst, size) && n > 0 && RowsInside(dst, area, n, RowBytes(area, dst), size)
    ensures RowBytes(area, dst) == 4 * Width(area, dst)
  {
  }

  lemma RowAt(image: Image, area: Rectangle, x: nat, y: nat, b: nat)
    requires area.left as int <= x && area.top as int <= y
    ensures At(image, x, y, b) == image.Row(area, y - area.top as int) + 4 * (x - area.left as int) + b
  {
    TimesIsProduct(y, image.stride);
  }

  lemma PixelInRow(area: Rectangle, dst: Image, x: nat, y: nat, b: nat, size: nat)
    requires Addressable(dst, size)
    requires RowsInside(dst, area, Height(area, dst), RowBytes(area, dst), size) && InArea(area, dst, x, y) && b < 4
    ensures y - area.top as int < Height(area, dst) && 4 * (x - area.left as int) + b < RowBytes(area, dst)
  {
    SpanEnds(area, dst);
    RowFits(area, dst, Height(area, dst), size);
  }

  lemma ByteOfRow(s: bytes, r: bytes, from: nat, at: nat, w: nat, k: nat)
    requires SameRow(s, r, from, at, w) && k < w
    ensures at + k < |r| && from + k < |s| && r[at + k] == s[from + k]
  {
    assert r[at..at + w][k] == s[from..from + w][k];
  }

  /** The byte at one place of an image is that at the same place of another. */
  predicate SameByte(s: bytes, r: bytes, src: Image, dst: Image, x: nat, y: nat, b: nat)
  {
    var from, at := At(src, x, y, b), At(dst, x, y, b);
    from < |s| && at < |r| && r[at] == s[from]
  }

  lemma PixelOfRow(s: bytes, r: bytes, src: Image, dst: Image, area: Rectangle, x: nat, y: nat, b: nat, w: nat)
    requires area.left as int <= x && area.top as int <= y && 4 * (x - area.left as int) + b < w
    requires SameRow(s, r, src.Row(area, y - area.top as int), dst.Row(area, y - area.top as int), w)
    ensures SameByte(s, r, src, dst, x, y, b)
  {
    var i, k := y - area.top as int, 4 * (x - area.left as int) + b;
    RowAt(src, area, x, y, b);
    RowAt(dst, area, x, y, b);
    ByteOfRow(s, r, src.Row(area, i), dst.Row(area, i), w, k);
  }

  /** Every byte of every pixel in the area, clipped to the destination, is the source's byte at the same place, where
      rows do not smear. */
  lemma PixelCopied(s: bytes, d: bytes, src: Image, dst: Image, area: Rectangle, x: nat, y: nat, b: nat)
    requires RowsInside(src, area, Height(area, dst), RowBytes(area, dst), |s|)
    requires RowsInside(dst, area, Height(area, dst), RowBytes(area, dst), |d|)
    requires NoSmear(src, dst, Height(area, dst), RowBytes(area, dst))
    requires Addressable(dst, |d|)
    requires InArea(area, dst, x, y) && b < 4
    ensures SameByte(s, Rows(s, d, src, dst, area, Height(area, dst), RowBytes(area, dst)), src, dst, x, y, b)
  {
    var n, w := Height(area, dst), RowBytes(area, dst);
    var r := Rows(s, d, src, dst, area, n, w);
    PixelInRow(area, dst, x, y, b, |d|);
    CopiesRows(s, d, src, dst, area, n, w);
    PixelOfRow(s, r, src, dst, area, x, y, b, w);
  }

  /** Byte p of the destination belongs to the pixel at (x, y) of the area. */
  predicate PixelByte(area: Rectangle, dst: Image, p: nat, x: nat, y: nat, b: nat)
  {
    InArea(area, dst, x, y) && b < 4 && p == At(dst, x, y, b)
  }

  ghost predicate InNoPixel(area: Rectangle, dst: Image, p: nat)
  {
    forall x: nat, y: nat, b: nat :: !PixelByte(area, dst, p, x, y, b)
  }

  /** Every other byte of the destination keeps its value, also where rows smear. */
  lemma OthersKept(s: bytes, d: bytes, src: Image, dst: Image, area: Rectangle, p: nat)
    requires RowsInside(src, area, Height(area, dst), RowBytes(area, dst), |s|)
    requires RowsInside(dst, area, Height(area, dst), RowBytes(area, dst), |d|)
    requires Addressable(dst, |d|)
    requires p < |d| && InNoPixel(area, dst, p)
    ensures Rows(s, d, src, dst, area, Height(area, dst), RowBytes(area, dst))[p] == d[p]
  {
    var n, w := Height(area, dst), RowBytes(area, dst);
    SpanEnds(area, dst);
    forall i: nat | i < n ensures !(dst.Row(area, i) <= p < dst.Row(area, i) + w) {
      if dst.Row(area, i) <= p < dst.Row(area, i) + w {
        var k := p - dst.Row(area, i);
        var x, y := area.left as int + k / 4, area.top as int + i;
        RowFits(area, dst, n, |d|);
        RowAt(dst, area, x, y, k % 4);
        assert PixelByte(area, dst, p, x, y, k % 4);
      }
    }
    KeepsTheRest(s, d, src, dst, area, n, w, p);
  }
}
