/** apps/paint.c: saving a canvas as a 24-bit BMP and loading one back. */
module PaintBmp {
  import opened Arithmetic
  import opened Bytes
  import opened PaintFill

  /** Bytes of one row, padded to a multiple of four. */
  const STRIDE := 236
  const HEADER := 54
  const BMP_SIZE := HEADER + STRIDE * HEIGHT

  datatype Rgb = Rgb(r: Byte, g: Byte, b: Byte)

  const PALETTE: seq<Rgb> := [
    Rgb(0, 0, 0), Rgb(0, 0, 170), Rgb(0, 170, 0), Rgb(0, 170, 170),
    Rgb(170, 0, 0), Rgb(170, 0, 170), Rgb(170, 85, 0), Rgb(170, 170, 170),
    Rgb(85, 85, 85), Rgb(85, 85, 255), Rgb(85, 255, 85), Rgb(85, 255, 255),
    Rgb(255, 85, 85), Rgb(255, 85, 255), Rgb(255, 255, 85), Rgb(255, 255, 255)]

  /** Squared distance of two colours. */
  function Apart(a: Rgb, b: Rgb): int {
    (a.r - b.r) * (a.r - b.r) + (a.g - b.g) * (a.g - b.g) + (a.b - b.b) * (a.b - b.b)
  }

  /** Where the pixel of column `x` and row `y` is stored: rows from the bottom up. */
  function Place(x: int, y: int): int {
    HEADER + (HEIGHT - 1 - y) * STRIDE + x * 3
  }

  predicate InRange(x: int, y: int) {
    0 <= x < WIDTH && 0 <= y < HEIGHT
  }

  /** Pixels do not overlap in the file. */
  lemma PlacesApart(x: int, y: int, u: int, v: int)
    requires InRange(x, y) && InRange(u, v)
    ensures HEADER <= Place(x, y) <= BMP_SIZE - 3
    ensures (x, y) != (u, v) ==> Place(x, y) + 3 <= Place(u, v) || Place(u, v) + 3 <= Place(x, y)
  {
  }

  function Stored(bitmap: seq<Byte>, x: int, y: int): Rgb
    requires |bitmap| == BMP_SIZE && InRange(x, y)
  {
    PlacesApart(x, y, x, y);
    Rgb(bitmap[Place(x, y) + 2], bitmap[Place(x, y) + 1], bitmap[Place(x, y)])
  }

  function PixelAt(px: seq<Byte>, x: int, y: int): Byte
    requires |px| == PIXELS && InRange(x, y)
  {
    px[y * WIDTH + x]
  }

  /** What load() checks of the header. */
  predicate GoodHeader(bitmap: seq<Byte>)
    requires |bitmap| == BMP_SIZE
  {
    bitmap[0] == 66 && bitmap[1] == 77 && Load32(bitmap, 10) == 54 && Load32(bitmap, 14) == 40 &&
    Load32(bitmap, 18) == WIDTH && Load32(bitmap, 22) == HEIGHT && bitmap[26] == 1 && bitmap[27] == 0 &&
    bitmap[28] == 24 && bitmap[29] == 0 && Load32(bitmap, 30) == 0
  }

  /** The header save() writes. */
  ghost predicate SavedHeader(h: seq<Byte>) {
    && |h| == HEADER && h[0] == 66 && h[1] == 77 && h[2..6] == Bytes32(BMP_SIZE) && h[10..14] == Bytes32(54)
    && h[14..18] == Bytes32(40) && h[18..22] == Bytes32(WIDTH) && h[22..26] == Bytes32(HEIGHT)
    && h[26] == 1 && h[27] == 0 && h[28] == 24 && h[29] == 0 && h[34..38] == Bytes32(STRIDE * HEIGHT)
    && forall i :: 6 <= i < 10 || 30 <= i < 34 || 38 <= i < HEADER ==> h[i] == 0
  }

  /** A field of the header is a field of the file. */
  lemma HeaderField(bitmap: seq<Byte>, at: nat, v: Word)
    requires |bitmap| == BMP_SIZE && at + 4 <= HEADER && bitmap[..HEADER][at..at + 4] == Bytes32(v)
    ensures Load32(bitmap, at) == v
  {
    assert bitmap[..HEADER][at..at + 4] == bitmap[at..at + 4];
    LoadOf(bitmap, at, v);
  }

  lemma SavedIsGood(bitmap: seq<Byte>)
    requires |bitmap| == BMP_SIZE && SavedHeader(bitmap[..HEADER])
    ensures GoodHeader(bitmap)
  {
    hide Bytes32;
    HeaderField(bitmap, 10, 54);
    HeaderField(bitmap, 14, 40);
    HeaderField(bitmap, 18, WIDTH);
    HeaderField(bitmap, 22, HEIGHT);
    assert forall i :: 30 <= i < 34 ==> bitmap[i] == bitmap[..HEADER][i];
    assert bitmap[..HEADER][26] == bitmap[26];
  }

  // ------------------------------------------------------------ the nearest colour

  /** The first palette entry at the least distance from `c`. */
  predicate Nearest(c: Rgb, best: nat) {
    && best < 16
    && (forall i :: 0 <= i < 16 ==> Apart(c, PALETTE[best]) <= Apart(c, PALETTE[i]))
    && (forall i :: 0 <= i < best ==> Apart(c, PALETTE[best]) < Apart(c, PALETTE[i]))
  }

  lemma SquareZero(a: int)
    ensures a * a >= 0 && (a * a == 0 <==> a == 0)
  {
  }

  lemma ApartZero(a: Rgb, b: Rgb)
    ensures Apart(a, b) >= 0 && (Apart(a, b) == 0 <==> a == b)
  {
    SquareZero(a.r - b.r);
    SquareZero(a.g - b.g);
    SquareZero(a.b - b.b);
  }

  lemma PaletteDistinct(i: nat, j: nat)
    requires i < j < 16
    ensures PALETTE[i] != PALETTE[j]
  {
  }

  /** A palette colour is nearest to itself and to nothing else. */
  lemma NearestSelf(c: nat, best: nat)
    requires c < 16 && Nearest(PALETTE[c], best)
    ensures best == c
  {
    ApartZero(PALETTE[c], PALETTE[c]);
    ApartZero(PALETTE[c], PALETTE[best]);
    if best < c {
      PaletteDistinct(best, c);
    } else if c < best {
      PaletteDistinct(c, best);
    }
  }

  lemma SquareBound(a: int)
    requires -255 <= a <= 255
    ensures a * a <= 65025
  {
    if a >= 0 {
      ProductNonNegative(255 - a, 255 + a);
    } else {
      ProductNonNegative(255 + a, 255 - a);
    }
  }

  /** No distance reaches the loop's starting value. */
  lemma ApartBound(a: Rgb, b: Rgb)
    ensures Apart(a, b) < 200000
  {
    SquareBound(a.r - b.r);
    SquareBound(a.g - b.g);
    SquareBound(a.b - b.b);
  }

  method FindNearest(c: Rgb) returns (best: nat)
    ensures best < 16 && Nearest(c, best)
  {
    hide Apart;
    var distance := 200000;
    best := 0;
    var i := 0;
    while i < 16
      invariant 0 <= i <= 16 && best < 16
      invariant i == 0 ==> distance == 200000
      invariant i > 0 ==> best < i && distance == Apart(c, PALETTE[best])
      invariant forall j :: 0 <= j < i ==> distance <= Apart(c, PALETTE[j])
      invariant forall j :: 0 <= j < best ==> distance < Apart(c, PALETTE[j])
    {
      ApartBound(c, PALETTE[i]);
      var d := Apart(c, PALETTE[i]);
      if d < distance {
        best, distance := i, d;
      }
      i := i + 1;
    }
  }

  // ------------------------------------------------------------ saving and loading

  /** `bitmap` shows the canvas `px`. */
  ghost predicate Shows(bitmap: seq<Byte>, px: seq<Byte>) {
    && |bitmap| == BMP_SIZE && |px| == PIXELS
    && forall x, y :: InRange(x, y) ==> PixelAt(px, x, y) < 16 && Stored(bitmap, x, y) == PALETTE[PixelAt(px, x, y)]
  }

  /** `px` holds, for each pixel of `bitmap`, the nearest colour. */
  ghost predicate Approximates(bitmap: seq<Byte>, px: seq<Byte>) {
    && |bitmap| == BMP_SIZE && |px| == PIXELS
    && forall x, y :: InRange(x, y) ==> Nearest(Stored(bitmap, x, y), PixelAt(px, x, y))
  }

  /** Every 16-colour canvas comes back: load() accepts what save() wrote, and restores it. */
  lemma RoundTrip(bitmap: seq<Byte>, px: seq<Byte>, back: seq<Byte>)
    requires Shows(bitmap, px) && SavedHeader(bitmap[..HEADER]) && Approximates(bitmap, back)
    ensures GoodHeader(bitmap) && back == px
  {
    hide Stored, Nearest, GoodHeader, SavedHeader;
    SavedIsGood(bitmap);
    forall p | 0 <= p < PIXELS ensures back[p] == px[p] {
      var x, y := p % WIDTH, p / WIDTH;
      assert InRange(x, y) && y * WIDTH + x == p;
      assert PixelAt(px, x, y) == px[p] && PixelAt(back, x, y) == back[p];
      NearestSelf(px[p], back[p]);
    }
  }

  /** Rows before `y`, and row `y` before column `x`, are stored. */
  ghost predicate Partly(bitmap: seq<Byte>, px: seq<Byte>, x: int, y: int) {
    && |bitmap| == BMP_SIZE && |px| == PIXELS && SavedHeader(bitmap[..HEADER])
    && forall u, v :: InRange(u, v) && (v < y || (v == y && u < x)) ==>
         PixelAt(px, u, v) < 16 && Stored(bitmap, u, v) == PALETTE[PixelAt(px, u, v)]
  }

  function Put(bitmap: seq<Byte>, x: int, y: int, c: Rgb): seq<Byte>
    requires |bitmap| == BMP_SIZE && InRange(x, y)
  {
    PlacesApart(x, y, x, y);
    bitmap[Place(x, y) := c.b][Place(x, y) + 1 := c.g][Place(x, y) + 2 := c.r]
  }

  lemma PutOne(bitmap: seq<Byte>, px: seq<Byte>, x: int, y: int)
    requires Partly(bitmap, px, x, y) && InRange(x, y) && PixelAt(px, x, y) < 16
    ensures Partly(Put(bitmap, x, y, PALETTE[PixelAt(px, x, y)]), px, x + 1, y)
  {
    hide SavedHeader;
    var c := PALETTE[PixelAt(px, x, y)];
    var now := Put(bitmap, x, y, c);
    PlacesApart(x, y, x, y);
    assert now[..HEADER] == bitmap[..HEADER];
    forall u, v | InRange(u, v) && (v < y || (v == y && u < x + 1))
      ensures PixelAt(px, u, v) < 16 && Stored(now, u, v) == PALETTE[PixelAt(px, u, v)]
    {
      PlacesApart(x, y, u, v);
    }
  }

  lemma RowDone(bitmap: seq<Byte>, px: seq<Byte>, y: int)
    requires Partly(bitmap, px, WIDTH, y)
    ensures Partly(bitmap, px, 0, y + 1)
  {
    hide SavedHeader, Stored, PixelAt;
  }

  /** save() up to writing the file. */
  method Encode(pixels: array<Byte>, bitmap: array<Byte>)
    requires pixels.Length == PIXELS && bitmap.Length == BMP_SIZE && pixels != bitmap
    requires forall p :: 0 <= p < PIXELS ==> pixels[p] < 16
    modifies bitmap
    ensures SavedHeader(bitmap[..HEADER]) && Shows(bitmap[..], pixels[..])
  {
    hide SavedHeader, Partly, Shows, Put, Stored;
    Blank(bitmap);
    WriteHeader(bitmap);
    NothingStored(bitmap[..], pixels[..]);
    var y := 0;
    while y < HEIGHT
      invariant 0 <= y <= HEIGHT && Partly(bitmap[..], pixels[..], 0, y)
    {
      var x := 0;
      while x < WIDTH
        invariant 0 <= x <= WIDTH && Partly(bitmap[..], pixels[..], x, y)
      {
        PlacesApart(x, y, x, y);
        var p, c := Place(x, y), PALETTE[pixels[y * WIDTH + x]];
        ghost var before := bitmap[..];
        PutOne(before, pixels[..], x, y);
        bitmap[p] := c.b;
        bitmap[p + 1] := c.g;
        bitmap[p + 2] := c.r;
        PutIs(before, bitmap[..], x, y, c);
        x := x + 1;
      }
      RowDone(bitmap[..], pixels[..], y);
      y := y + 1;
    }
    AllStored(bitmap[..], pixels[..]);
  }

  lemma NothingStored(bitmap: seq<Byte>, px: seq<Byte>)
    requires |bitmap| == BMP_SIZE && |px| == PIXELS && SavedHeader(bitmap[..HEADER])
    ensures Partly(bitmap, px, 0, 0)
  {
    hide SavedHeader, Stored;
  }

  lemma AllStored(bitmap: seq<Byte>, px: seq<Byte>)
    requires Partly(bitmap, px, 0, HEIGHT)
    ensures SavedHeader(bitmap[..HEADER]) && Shows(bitmap, px)
  {
    hide SavedHeader, Stored;
  }

  lemma PutIs(before: seq<Byte>, now: seq<Byte>, x: int, y: int, c: Rgb)
    requires |before| == BMP_SIZE && InRange(x, y) && 0 <= Place(x, y) <= BMP_SIZE - 3
    requires now == before[Place(x, y) := c.b][Place(x, y) + 1 := c.g][Place(x, y) + 2 := c.r]
    ensures now == Put(before, x, y, c)
  {
  }

  method Blank(bitmap: array<Byte>)
    modifies bitmap
    ensures forall i :: 0 <= i < bitmap.Length ==> bitmap[i] == 0
  {
    for i := 0 to bitmap.Length
      invariant forall j :: 0 <= j < i ==> bitmap[j] == 0
    {
      bitmap[i] := 0;
    }
  }

  /** put32. */
  method Put32(bitmap: array<Byte>, offset: nat, value: Word)
    requires offset + 4 <= bitmap.Length
    modifies bitmap
    ensures bitmap[..] == Store32(old(bitmap[..]), offset, value)
  {
    CopyTo(bitmap, offset, Bytes32(value));
  }

  method WriteHeader(bitmap: array<Byte>)
    requires bitmap.Length == BMP_SIZE && forall i :: 0 <= i < bitmap.Length ==> bitmap[i] == 0
    modifies bitmap
    ensures SavedHeader(bitmap[..HEADER])
  {
    hide SavedHeader, Bytes32;
    ghost var z := bitmap[..];
    bitmap[0], bitmap[1] := 66, 77;
    Put32(bitmap, 2, BMP_SIZE);
    Put32(bitmap, 10, 54);
    Put32(bitmap, 14, 40);
    Put32(bitmap, 18, WIDTH);
    Put32(bitmap, 22, HEIGHT);
    bitmap[26], bitmap[28] := 1, 24;
    Put32(bitmap, 34, STRIDE * HEIGHT);
    HeaderIs(bitmap[..]);
  }

  lemma HeaderIs(s: seq<Byte>)
    requires |s| == BMP_SIZE && s[0] == 66 && s[1] == 77 && s[2..6] == Bytes32(BMP_SIZE) && s[10..14] == Bytes32(54)
    requires s[14..18] == Bytes32(40) && s[18..22] == Bytes32(WIDTH) && s[22..26] == Bytes32(HEIGHT) && s[34..38] == Bytes32(STRIDE * HEIGHT)
    requires s[26] == 1 && s[27] == 0 && s[28] == 24 && s[29] == 0
    requires forall i :: 6 <= i < 10 || 30 <= i < 34 || 38 <= i < HEADER ==> s[i] == 0
    ensures SavedHeader(s[..HEADER])
  {
    hide Bytes32;
    forall a: nat, b: nat | a <= b <= HEADER ensures s[..HEADER][a..b] == s[a..b] {
    }
  }

  /** load() from the bytes of the file: a snapshot of the canvas is kept first. */
  method Decode(file: seq<Byte>, pixels: array<Byte>, backup: array<Byte>) returns (r: int)
    requires pixels.Length == PIXELS && backup.Length == PIXELS && pixels != backup
    modifies pixels, backup
    ensures r == if |file| == BMP_SIZE && GoodHeader(file) then 0 else -1
    ensures r == 0 ==> Approximates(file, pixels[..]) && backup[..] == old(pixels[..])
    ensures r != 0 ==> pixels[..] == old(pixels[..]) && backup[..] == old(backup[..])
  {
    hide GoodHeader, Nearest, Stored;
    if |file| != BMP_SIZE || !GoodHeader(file) {
      return -1;
    }
    CopyTo(backup, 0, pixels[..]);
    var y := 0;
    while y < HEIGHT
      invariant 0 <= y <= HEIGHT && backup[..] == old(pixels[..])
      invariant forall u, v :: InRange(u, v) && v < y ==> Nearest(Stored(file, u, v), PixelAt(pixels[..], u, v))
    {
      var x := 0;
      while x < WIDTH
        invariant 0 <= x <= WIDTH && backup[..] == old(pixels[..])
        invariant forall u, v :: InRange(u, v) && (v < y || (v == y && u < x)) ==> Nearest(Stored(file, u, v), PixelAt(pixels[..], u, v))
      {
        var best := FindNearest(Stored(file, x, y));
        ghost var now := pixels[..];
        pixels[y * WIDTH + x] := best;
        forall u, v | InRange(u, v) ensures PixelAt(pixels[..], u, v) == if u == x && v == y then best else PixelAt(now, u, v) {
        }
        x := x + 1;
      }
      y := y + 1;
    }
    return 0;
  }

  // ------------------------------------------------------------ the file, byte by byte

  /** The sixteen EGA colours: bits 0, 1 and 2 are blue, green and red, bit 3 makes all brighter, and
      dark yellow is brown. */
  function Ega(c: Byte): Rgb
    requires c < 16
  {
    var bright := if c >= 8 then 85 else 0;
    Rgb((if c / 4 % 2 == 1 then 170 else 0) + bright, if c == 6 then 85 else (if c / 2 % 2 == 1 then 170 else 0) + bright,
        (if c % 2 == 1 then 170 else 0) + bright)
  }

  lemma PaletteIsEga()
    ensures |PALETTE| == 16 && forall c: Byte :: c < 16 ==> PALETTE[c] == Ega(c)
  {
    assert PALETTE[0] == Ega(0) && PALETTE[1] == Ega(1) && PALETTE[2] == Ega(2) && PALETTE[3] == Ega(3);
    assert PALETTE[4] == Ega(4) && PALETTE[5] == Ega(5) && PALETTE[6] == Ega(6) && PALETTE[7] == Ega(7);
    assert PALETTE[8] == Ega(8) && PALETTE[9] == Ega(9) && PALETTE[10] == Ega(10) && PALETTE[11] == Ega(11);
    assert PALETTE[12] == Ega(12) && PALETTE[13] == Ega(13) && PALETTE[14] == Ega(14) && PALETTE[15] == Ega(15);
  }

  /** BITMAPFILEHEADER and BITMAPINFOHEADER of a 78 by 36 image with 24 bits a pixel, bottom row first. */
  predicate Expected(h: seq<Byte>) {
    && |h| == 54
    && h[..6] == [66, 77, 102, 33, 0, 0] && h[6..14] == [0, 0, 0, 0, 54, 0, 0, 0]
    && h[14..22] == [40, 0, 0, 0, 78, 0, 0, 0] && h[22..30] == [36, 0, 0, 0, 1, 0, 24, 0]
    && h[30..38] == [0, 0, 0, 0, 48, 33, 0, 0] && h[38..46] == [0, 0, 0, 0, 0, 0, 0, 0] == h[46..]
  }

  /** A saved file: that header, and for every pixel its blue, green and red, rows from the bottom up
      and 236 bytes a row. */
  lemma SavedBytes(file: seq<Byte>, px: seq<Byte>)
    requires |file| == 8550 && SavedHeader(file[..HEADER]) && Shows(file, px)
    ensures Expected(file[..54]) && |px| == 78 * 36
    ensures forall x, y :: 0 <= x < 78 && 0 <= y < 36 ==> PixelSaved(file, px, x, y)
  {
    SavedBytesHeader(file[..HEADER]);
    PaletteIsEga();
    hide PALETTE, SavedHeader, Ega;
    forall x, y | 0 <= x < 78 && 0 <= y < 36 ensures PixelSaved(file, px, x, y) {
      assert InRange(x, y);
      assert PixelAt(px, x, y) == px[78 * y + x] && Place(x, y) == 54 + 236 * (35 - y) + 3 * x;
    }
  }

  /** The three bytes of pixel (x, y) are its colour. */
  predicate PixelSaved(file: seq<Byte>, px: seq<Byte>, x: int, y: int) {
    && |file| == 8550 && |px| == 78 * 36 && 0 <= x < 78 && 0 <= y < 36
    && var at, c := 54 + 236 * (35 - y) + 3 * x, px[78 * y + x];
       c < 16 && file[at] == Ega(c).b && file[at + 1] == Ega(c).g && file[at + 2] == Ega(c).r
  }

  lemma SavedBytesHeader(h: seq<Byte>)
    requires SavedHeader(h)
    ensures Expected(h)
  {
    assert h[2..6] == [102, 33, 0, 0] && h[34..38] == [48, 33, 0, 0] && h[10..14] == [54, 0, 0, 0];
    assert h[14..18] == [40, 0, 0, 0] && h[18..22] == [78, 0, 0, 0] && h[22..26] == [36, 0, 0, 0];
    assert h[..6] == h[..2] + h[2..6] && h[6..14] == h[6..10] + h[10..14] && h[14..22] == h[14..18] + h[18..22];
    assert h[22..30] == h[22..26] + h[26..30] && h[30..38] == h[30..34] + h[34..38];
  }

  /** What a file of the right length must say of itself. */
  lemma HeaderAccepted(file: seq<Byte>)
    requires |file| == 8550
    ensures GoodHeader(file) <==>
      && file[..2] == [66, 77] && Load32(file, 10) == 54 && Load32(file, 14) == 40 && Load32(file, 18) == 78 && Load32(file, 22) == 36
      && file[26..30] == [1, 0, 24, 0] && Load32(file, 30) == 0
  {
    hide Load32;
    assert file[26] == file[26..30][0] && file[27] == file[26..30][1] && file[28] == file[26..30][2] && file[29] == file[26..30][3];
    assert file[..2][0] == file[0] && file[..2][1] == file[1];
  }

  /** What a loaded pixel is: the first of the colours at the least squared distance from its bytes. */
  lemma LoadedPixel(file: seq<Byte>, px: seq<Byte>, x: nat, y: nat)
    requires Approximates(file, px) && x < 78 && y < 36
    ensures |file| == 8550 && |px| == 78 * 36
    ensures var at, c := 54 + 236 * (35 - y) + 3 * x, px[78 * y + x];
      c < 16 && forall i: Byte :: i < 16 ==>
        var near, far := Squares(Ega(c), file[at + 2], file[at + 1], file[at]), Squares(Ega(i), file[at + 2], file[at + 1], file[at]);
        near <= far && (i < c ==> near < far)
  {
    PaletteIsEga();
    hide PALETTE, Ega;
    assert InRange(x, y);
    assert PixelAt(px, x, y) == px[78 * y + x] && Place(x, y) == 54 + 236 * (35 - y) + 3 * x;
    var c := Stored(file, x, y);
    forall i: Byte | i < 16 ensures Squares(Ega(i), c.r, c.g, c.b) == Apart(c, PALETTE[i]) {
      SameSquare(c.r, Ega(i).r);
      SameSquare(c.g, Ega(i).g);
      SameSquare(c.b, Ega(i).b);
    }
  }

  function Squares(p: Rgb, r: Byte, g: Byte, b: Byte): int {
    (p.r - r) * (p.r - r) + (p.g - g) * (p.g - g) + (p.b - b) * (p.b - b)
  }

  lemma SameSquare(a: int, b: int)
    ensures (a - b) * (a - b) == (b - a) * (b - a)
  {
  }
}
