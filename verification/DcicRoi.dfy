/** Filling a rectangle of the framebuffer with a pattern and computing its reference signature. */
module DcicRoi {
  import opened Arithmetic
  import opened Octets
  import opened WordBits
  import opened DcicBuffers

  // The fields of the screen description that matter here.
  datatype Screen = Screen(xresVirtual: nat, bitsPerPixel: nat) {

    function BytesPerPixel(): (b: nat)
      ensures b == 2 || b == 4
    {
      if bitsPerPixel == 16 then 2 else 4
    }
  }

  datatype Rect = Rect(startX: nat, startY: nat, endX: nat, endY: nat) {

    predicate Ordered() {
      startX <= endX && startY <= endY
    }

    function Width(): (w: nat)
      requires Ordered()
      ensures 0 < w
    {
      endX - startX + 1
    }

    function Height(): (h: nat)
      requires Ordered()
      ensures 0 < h
    {
      endY - startY + 1
    }
  }

  class Roi {
    var area: Rect
    var refSig: Word

    constructor (area: Rect)
      ensures this.area == area && refSig == Zero()
    {
      this.area, refSig := area, Zero();
    }
  }

  // The rectangle lies inside the framebuffer and no row of it crosses the right edge.
  predicate InRange(fbSize: nat, screen: Screen, area: Rect) {
    area.Ordered() && area.endX < screen.xresVirtual
    && (area.endY * screen.xresVirtual + area.endX + 1) * screen.BytesPerPixel() <= fbSize
  }

  // Byte a belongs to a pixel of the lines startY..lastY of the rectangle.
  predicate InLines(a: nat, area: Rect, lastY: int, screen: Screen)
    requires 0 < screen.xresVirtual
  {
    var pixel := a / screen.BytesPerPixel();
    area.startX <= pixel % screen.xresVirtual <= area.endX && area.startY <= pixel / screen.xresVirtual <= lastY
  }

  lemma LineOfByte(a: nat, y: nat, sx: nat, ex: nat, screen: Screen)
    requires sx <= ex < screen.xresVirtual
    ensures var pixel := a / screen.BytesPerPixel();
            (y * screen.xresVirtual + sx) * screen.BytesPerPixel() <= a
              < (y * screen.xresVirtual + ex + 1) * screen.BytesPerPixel()
            <==> pixel / screen.xresVirtual == y && sx <= pixel % screen.xresVirtual <= ex
  {
    ScaledBounds(a, screen.BytesPerPixel(), y * screen.xresVirtual + sx, y * screen.xresVirtual + ex + 1);
    LineAndColumn(a / screen.BytesPerPixel(), screen.xresVirtual, y, sx, ex);
  }

  lemma ScaledBounds(a: nat, b: nat, lo: nat, hi: nat)
    requires b == 2 || b == 4
    ensures lo * b <= a < hi * b <==> lo <= a / b < hi
  {}

  lemma LineAndColumn(pixel: nat, w: nat, y: nat, sx: nat, ex: nat)
    requires sx <= ex < w
    ensures y * w + sx <= pixel < y * w + ex + 1 <==> pixel / w == y && sx <= pixel % w <= ex
  {
    if y * w + sx <= pixel < y * w + ex + 1 {
      DivUnique(pixel, w, y, pixel - y * w);
    }
  }

  lemma QuotientBound(i: nat, w: nat, h: nat)
    requires 0 < w && i < w * h
    ensures i / w < h
  {
    DivEuclid(i, w);
    if h <= i / w { MulAtMost(w, h, i / w); }
  }

  /** ---- Pixels as the display reads them, least significant byte first ---- */

  function HalfAt(mem: seq<Octet>, k: nat): HalfWord
    requires k + 2 <= |mem|
  {
    var low: seq<bool>, high: seq<bool> := mem[k], mem[k + 1];
    low + high
  }

  function WordAt(mem: seq<Octet>, k: nat): Word
    requires k + 4 <= |mem|
  {
    HalfAt(mem, k) + HalfAt(mem, k + 2)
  }

  // Where pixel i of the rectangle, in raster order, starts in the framebuffer.
  function Offset(i: nat, screen: Screen, area: Rect): nat
    requires area.Ordered()
  {
    ((area.startY + i / area.Width()) * screen.xresVirtual + area.startX + i % area.Width()) * screen.BytesPerPixel()
  }

  // The pixel at column x of line y starts and ends inside the framebuffer.
  lemma PixelFits(fbSize: nat, screen: Screen, area: Rect, x: nat, y: nat)
    requires InRange(fbSize, screen, area) && x <= area.endX && y <= area.endY
    ensures (y * screen.xresVirtual + x) * screen.BytesPerPixel() + screen.BytesPerPixel()
         == (y * screen.xresVirtual + x + 1) * screen.BytesPerPixel() <= fbSize
  {
    MulAtMost(screen.xresVirtual, y, area.endY);
    MulAtMost(screen.BytesPerPixel(), y * screen.xresVirtual + x + 1, area.endY * screen.xresVirtual + area.endX + 1);
  }

  lemma OffsetInside(fbSize: nat, screen: Screen, area: Rect, i: nat)
    requires InRange(fbSize, screen, area)
    requires i < area.Width() * area.Height()
    ensures var off := Offset(i, screen, area);
            off + screen.BytesPerPixel() <= fbSize
            && forall k | off <= k < off + screen.BytesPerPixel() :: InLines(k, area, area.endY, screen)
  {
    var y, x := area.startY + i / area.Width(), area.startX + i % area.Width();
    PlaceInside(i, area);
    PixelFits(fbSize, screen, area, x, y);
    var off := Offset(i, screen, area);
    assert off == (y * screen.xresVirtual + x) * screen.BytesPerPixel();
    hide Offset;
    forall k | off <= k < off + screen.BytesPerPixel()
      ensures InLines(k, area, area.endY, screen)
    {
      LineOfByte(k, y, x, x, screen);
    }
  }

  // The line and the column of pixel i.
  lemma PlaceInside(i: nat, area: Rect)
    requires area.Ordered() && i < area.Width() * area.Height()
    ensures area.startY + i / area.Width() <= area.endY && area.startX + i % area.Width() <= area.endX
  {
    QuotientBound(i, area.Width(), area.Height());
    DivEuclid(i, area.Width());
  }

  function Pixel16(mem: seq<Octet>, screen: Screen, area: Rect, i: nat): HalfWord
    requires InRange(|mem|, screen, area) && i < area.Width() * area.Height()
  {
    OffsetInside(|mem|, screen, area, i);
    HalfAt(mem, Offset(i, screen, area))
  }

  function Pixel32(mem: seq<Octet>, screen: Screen, area: Rect, i: nat): Word
    requires screen.BytesPerPixel() == 4 && InRange(|mem|, screen, area) && i < area.Width() * area.Height()
  {
    OffsetInside(|mem|, screen, area, i);
    WordAt(mem, Offset(i, screen, area))
  }

  // The pixels of the rectangle in raster order, each read from the framebuffer bytes.
  function Pixels16(mem: seq<Octet>, screen: Screen, area: Rect): seq<HalfWord>
    requires InRange(|mem|, screen, area)
  {
    seq(area.Width() * area.Height(), i requires 0 <= i < area.Width() * area.Height() => Pixel16(mem, screen, area, i))
  }

  function Pixels32(mem: seq<Octet>, screen: Screen, area: Rect): seq<Word>
    requires screen.BytesPerPixel() == 4 && InRange(|mem|, screen, area)
  {
    seq(area.Width() * area.Height(), i requires 0 <= i < area.Width() * area.Height() => Pixel32(mem, screen, area, i))
  }

  // A reference signature, or none when the bus width is neither 24 nor 18.
  datatype Reference = Unsigned | Signed(sig: Word)

  function Sign16(pixels: seq<HalfWord>, busWidth: nat): Reference {
    if busWidth == 24 then Signed(Signature(Zero(), Fed24of16(pixels)))
    else if busWidth == 18 then Signed(Signature(Zero(), Fed18of16(pixels)))
    else Unsigned
  }

  function Sign32(pixels: seq<Word>, busWidth: nat): Reference {
    if busWidth == 24 then Signed(Signature(Zero(), pixels))
    else if busWidth == 18 then Signed(Signature(Zero(), Fed18(pixels)))
    else Unsigned
  }

  // The signature of the rectangle as the framebuffer holds it.
  function DisplaySignature(mem: seq<Octet>, screen: Screen, busWidth: nat, area: Rect): Reference
    requires InRange(|mem|, screen, area)
  {
    if screen.BytesPerPixel() == 2
    then Sign16(Pixels16(mem, screen, area), busWidth)
    else Sign32(Pixels32(mem, screen, area), busWidth)
  }

  // A byte buffer read as an array of pixels.
  function View16(mem: seq<Octet>): seq<HalfWord> {
    seq(|mem| / 2, i requires 0 <= i < |mem| / 2 => HalfAt(mem, 2 * i))
  }

  function View32(mem: seq<Octet>): seq<Word> {
    seq(|mem| / 4, i requires 0 <= i < |mem| / 4 => WordAt(mem, 4 * i))
  }

  method SignBuffer(pbuf: array<Octet>, screen: Screen, busWidth: nat) returns (r: Reference)
    requires screen.BytesPerPixel() <= pbuf.Length
    ensures r == if screen.BytesPerPixel() == 2 then Sign16(View16(pbuf[..]), busWidth)
                 else Sign32(View32(pbuf[..]), busWidth)
  {
    hide Signature, Widen24, Widen18, Narrow18;
    r := Unsigned;
    if screen.BytesPerPixel() == 2 {
      var view := View16(pbuf[..]);
      var data := new HalfWord[|view|](i requires 0 <= i < |view| => view[i]);
      assert data[..Taken(data.Length)] == view;
      if busWidth == 24 {
        var sig := Calc24of16(Zero(), data, data.Length);
        r := Signed(sig);
      }
      if busWidth == 18 {
        var sig := Calc18of16(Zero(), data, data.Length);
        r := Signed(sig);
      }
    } else {
      var view := View32(pbuf[..]);
      var data := new Word[|view|](i requires 0 <= i < |view| => view[i]);
      assert data[..Taken(data.Length)] == view;
      if busWidth == 24 {
        var sig := Calc24(Zero(), data, data.Length);
        r := Signed(sig);
      }
      if busWidth == 18 {
        var sig := Calc18of24(Zero(), data, data.Length);
        r := Signed(sig);
      }
    }
  }

  // A rectangle filled with one byte reads back as the pattern buffer.
  lemma PatternPixels(mem: seq<Octet>, buf: seq<Octet>, screen: Screen, area: Rect, pattern: Octet)
    requires InRange(|mem|, screen, area)
    requires |buf| == area.Width() * area.Height() * screen.BytesPerPixel()
    requires forall k | 0 <= k < |buf| :: buf[k] == pattern
    requires forall a | 0 <= a < |mem| :: InLines(a, area, area.endY, screen) ==> mem[a] == pattern
    ensures screen.BytesPerPixel() == 2 ==> Pixels16(mem, screen, area) == View16(buf)
    ensures screen.BytesPerPixel() == 4 ==> Pixels32(mem, screen, area) == View32(buf)
  {
    var n, b := area.Width() * area.Height(), screen.BytesPerPixel();
    forall i | 0 <= i < n
      ensures Plain(mem, Offset(i, screen, area), b, pattern)
    {
      OffsetInside(|mem|, screen, area, i);
    }
    hide Offset, InRange, InLines;
    if b == 2 {
      SamePixels16(mem, buf, screen, area, pattern);
    } else {
      SamePixels32(mem, buf, screen, area, pattern);
    }
  }

  lemma SamePixels16(mem: seq<Octet>, buf: seq<Octet>, screen: Screen, area: Rect, pattern: Octet)
    requires InRange(|mem|, screen, area) && screen.BytesPerPixel() == 2
    requires |buf| == area.Width() * area.Height() * 2 && forall k | 0 <= k < |buf| :: buf[k] == pattern
    requires forall i | 0 <= i < area.Width() * area.Height() :: Plain(mem, Offset(i, screen, area), 2, pattern)
    ensures Pixels16(mem, screen, area) == View16(buf)
  {
    hide Offset, InRange;
    var n := area.Width() * area.Height();
    assert |buf| / 2 == n;
    forall i | 0 <= i < n
      ensures Pixels16(mem, screen, area)[i] == View16(buf)[i]
    {
      assert Plain(mem, Offset(i, screen, area), 2, pattern);
      assert Pixel16(mem, screen, area, i) == HalfAt(mem, Offset(i, screen, area));
    }
  }

  lemma SamePixels32(mem: seq<Octet>, buf: seq<Octet>, screen: Screen, area: Rect, pattern: Octet)
    requires InRange(|mem|, screen, area) && screen.BytesPerPixel() == 4
    requires |buf| == area.Width() * area.Height() * 4 && forall k | 0 <= k < |buf| :: buf[k] == pattern
    requires forall i | 0 <= i < area.Width() * area.Height() :: Plain(mem, Offset(i, screen, area), 4, pattern)
    ensures Pixels32(mem, screen, area) == View32(buf)
  {
    hide Offset, InRange;
    var n := area.Width() * area.Height();
    assert |buf| / 4 == n;
    forall i | 0 <= i < n
      ensures Pixels32(mem, screen, area)[i] == View32(buf)[i]
    {
      assert Plain(mem, Offset(i, screen, area), 4, pattern);
      assert Pixel32(mem, screen, area, i) == WordAt(mem, Offset(i, screen, area));
    }
  }

  // The b bytes from off on are all the pattern.
  predicate Plain(mem: seq<Octet>, off: nat, b: nat, pattern: Octet) {
    off + b <= |mem| && forall k | off <= k < off + b :: mem[k] == pattern
  }

  // Line y of the rectangle lies inside the framebuffer.
  lemma LineFits(fbSize: nat, screen: Screen, area: Rect, y: nat)
    requires InRange(fbSize, screen, area) && y <= area.endY
    ensures (y * screen.xresVirtual + area.startX) * screen.BytesPerPixel() + area.Width() * screen.BytesPerPixel()
         == (y * screen.xresVirtual + area.endX + 1) * screen.BytesPerPixel() <= fbSize
  {
    MulAtMost(screen.xresVirtual, y, area.endY);
    MulAtMost(screen.BytesPerPixel(), y * screen.xresVirtual + area.endX + 1,
              area.endY * screen.xresVirtual + area.endX + 1);
  }

  // Row i of the pattern buffer lies inside it.
  lemma RowFits(i: nat, width: nat, height: nat, b: nat)
    requires i < height
    ensures i * (width * b) + width * b <= width * height * b
  {
    MulAtMost(width * b, i + 1, height);
    assert height * (width * b) == width * height * b;
  }

  method CopyBytes(dst: array<Octet>, at: nat, src: array<Octet>, from: nat, n: nat)
    requires dst != src && at + n <= dst.Length && from + n <= src.Length
    modifies dst
    ensures forall a | 0 <= a < dst.Length :: dst[a] == if at <= a < at + n then src[from + a - at] else old(dst[a])
  {
    for k := 0 to n
      invariant forall a | 0 <= a < dst.Length :: dst[a] == if at <= a < at + k then src[from + a - at] else old(dst[a])
    {
      dst[at + k] := src[from + k];
    }
  }

  // The framebuffer with the lines startY..lastY of the rectangle filled.
  ghost predicate Filled(mem: seq<Octet>, original: seq<Octet>, screen: Screen, area: Rect, lastY: int, pattern: Octet)
    requires 0 < screen.xresVirtual && |mem| == |original|
  {
    forall a | 0 <= a < |mem| :: mem[a] == if InLines(a, area, lastY, screen) then pattern else original[a]
  }

  lemma NothingFilled(mem: seq<Octet>, screen: Screen, area: Rect, pattern: Octet)
    requires 0 < screen.xresVirtual
    ensures Filled(mem, mem, screen, area, area.startY - 1, pattern)
  {}

  // Writing one more line extends the filled part by that line.
  lemma LineFilled(mem: seq<Octet>, mem': seq<Octet>, original: seq<Octet>, screen: Screen, area: Rect, y: nat,
                   pattern: Octet)
    requires |mem| == |mem'| == |original|
    requires InRange(|mem|, screen, area) && area.startY <= y <= area.endY
    requires Filled(mem, original, screen, area, y - 1, pattern)
    requires forall a | 0 <= a < |mem| ::
               mem'[a] == if (y * screen.xresVirtual + area.startX) * screen.BytesPerPixel() <= a
                             < (y * screen.xresVirtual + area.endX + 1) * screen.BytesPerPixel()
                          then pattern else mem[a]
    ensures Filled(mem', original, screen, area, y, pattern)
  {
    forall a | 0 <= a < |mem|
      ensures mem'[a] == if InLines(a, area, y, screen) then pattern else original[a]
    {
      LineOfByte(a, y, area.startX, area.endX, screen);
    }
  }

  method FillLines(fb: array<Octet>, screen: Screen, area: Rect, pbuf: array<Octet>, pattern: Octet)
    requires fb != pbuf && InRange(fb.Length, screen, area)
    requires pbuf.Length == area.Width() * area.Height() * screen.BytesPerPixel()
    requires forall k | 0 <= k < pbuf.Length :: pbuf[k] == pattern
    modifies fb
    ensures Filled(fb[..], old(fb[..]), screen, area, area.endY, pattern)
  {
    hide Filled;
    var bppBytes := screen.BytesPerPixel();
    var lineLen := area.Width() * bppBytes;
    var y, i := area.startY, 0;
    NothingFilled(fb[..], screen, area, pattern);
    while y <= area.endY
      invariant i == y - area.startY && area.startY <= y <= area.endY + 1
      invariant Filled(fb[..], old(fb[..]), screen, area, y - 1, pattern)
    {
      var offset := (y * screen.xresVirtual + area.startX) * bppBytes;
      LineFits(fb.Length, screen, area, y);
      RowFits(i, area.Width(), area.Height(), bppBytes);
      ghost var mem := fb[..];
      CopyBytes(fb, offset, pbuf, i * lineLen, lineLen);
      LineFilled(mem, fb[..], old(fb[..]), screen, area, y, pattern);
      y, i := y + 1, i + 1;
    }
  }

  method RoiFbInit(fb: array<Octet>, screen: Screen, roi: Roi, showData: Word, busWidth: nat)
    requires InRange(fb.Length, screen, roi.area)
    modifies fb, roi`refSig
    ensures Filled(fb[..], old(fb[..]), screen, roi.area, roi.area.endY, showData[..8])
    ensures match DisplaySignature(fb[..], screen, busWidth, roi.area)
            case Unsigned => roi.refSig == old(roi.refSig)
            case Signed(sig) => roi.refSig == sig
    ensures screen.BytesPerPixel() == 2 ==>
              var pixels := Pixels16(fb[..], screen, roi.area);
              (busWidth == 24 ==> roi.refSig == Signature(Zero(), Fed24of16(pixels)))
              && (busWidth == 18 ==> roi.refSig == Signature(Zero(), Fed18of16(pixels)))
    ensures screen.BytesPerPixel() == 4 ==>
              var pixels := Pixels32(fb[..], screen, roi.area);
              (busWidth == 24 ==> roi.refSig == Signature(Zero(), pixels))
              && (busWidth == 18 ==> roi.refSig == Signature(Zero(), Fed18(pixels)))
    ensures busWidth != 18 && busWidth != 24 ==> roi.refSig == old(roi.refSig)
  {
    hide Signature, Fed24of16, Fed18of16, Fed18, InLines;
    var area, bppBytes := roi.area, screen.BytesPerPixel();
    var bufSize := area.Width() * area.Height() * bppBytes;
    var pattern: Octet := showData[..8];
    var pbuf := new Octet[bufSize](i => pattern);
    RowFits(0, area.Width(), area.Height(), bppBytes);
    var r := SignBuffer(pbuf, screen, busWidth);
    if r.Signed? { roi.refSig := r.sig; }
    FillLines(fb, screen, area, pbuf, pattern);
    PatternPixels(fb[..], pbuf[..], screen, area, pattern);
  }
}
