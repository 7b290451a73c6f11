/** Saving the rendered framebuffer as a binary Netpbm PPM ("P6") file.

    The file is an ASCII header `P6\n<width>\n<height>\n255\n` followed by three bytes per pixel, row
    by row. The framebuffer is host-mapped memory: row `y` starts `offset + y * rowPitch` bytes in,
    and each pixel takes four bytes (R, G, B, A), of which the first three are written, or the
    first three in reverse order when the image format is BGR. The mapped memory and its layout
    are parameters; the bytes the `ofstream` would receive are the result. */
module Ppm {
  import opened Common

  // ---------------------------------------------------------------------------------------------
  // ASCII header

  const Newline: Byte := 10
  const Minus: Byte := 45
  const Zero: Byte := 48

  /** `P6\n`: the magic number of binary PPM. */
  const Magic: seq<Byte> := [80, 54, Newline]

  /** `255\n`: the largest sample value, so that each sample is one byte. */
  const MaxValueLine: seq<Byte> := [50, 53, 53, Newline]

  predicate IsDigit(b: Byte)
  {
    Zero <= b <= Zero + 9
  }

  lemma AppendAssoc<T>(a: seq<T>, b: seq<T>, c: seq<T>)
    ensures (a + b) + c == a + (b + c)
  {
  }

  /** The decimal digits of `n`, most significant first, without leading zeros. */
  function Digits(n: nat): (ds: seq<Byte>)
    ensures 1 <= |ds| && forall k :: 0 <= k < |ds| ==> IsDigit(ds[k])
    ensures |ds| == 1 || ds[0] != Zero
  {
    if n < 10 then [Zero + n] else Digits(n / 10) + [Zero + n % 10]
  }

  /** How `operator<<` prints an `int32_t`: a minus sign for a negative value, then the digits. */
  function DecimalText(n: int): (text: seq<Byte>)
    ensures 1 <= |text|
    ensures n < 0 ==> text[0] == Minus && forall k :: 1 <= k < |text| ==> IsDigit(text[k])
    ensures n >= 0 ==> forall k :: 0 <= k < |text| ==> IsDigit(text[k])
  {
    if n < 0 then [Minus] + Digits(-n) else Digits(n)
  }

  /** A number and the newline after it. */
  function Line(n: int): seq<Byte>
  {
    DecimalText(n) + [Newline]
  }

  /** The header `P6\n<width>\n<height>\n255\n`. */
  function Header(width: int, height: int): (h: seq<Byte>)
    ensures |h| == |Magic| + |DecimalText(width)| + |DecimalText(height)| + 2 + |MaxValueLine|
    ensures h[..|Magic|] == Magic && h[|h| - |MaxValueLine|..] == MaxValueLine
    ensures h[|Magic| + |DecimalText(width)|] == Newline
  {
    Magic + Line(width) + Line(height) + MaxValueLine
  }

  // ---------------------------------------------------------------------------------------------
  // Reading a header back

  /** The length of the run of digits that starts `s`. */
  function DigitRun(s: seq<Byte>): (n: nat)
    ensures n <= |s|
    ensures forall k :: 0 <= k < n ==> IsDigit(s[k])
    ensures n < |s| ==> !IsDigit(s[n])
  {
    if |s| == 0 || !IsDigit(s[0]) then 0 else 1 + DigitRun(s[1..])
  }

  /** The number a run of decimal digits denotes. */
  function DigitsValue(ds: seq<Byte>): nat
    requires forall k :: 0 <= k < |ds| ==> IsDigit(ds[k])
  {
    if |ds| == 0 then 0
    else
      var last := ds[|ds| - 1];
      assert IsDigit(last);
      DigitsValue(ds[..|ds| - 1]) * 10 + (last - Zero)
  }

  /** One line holding a non-negative decimal number: its value and what follows the newline. */
  function ParseNatLine(s: seq<Byte>): Option<(nat, seq<Byte>)>
  {
    var n := DigitRun(s);
    if n == 0 || n == |s| || s[n] != Newline then None
    else Some((DigitsValue(s[..n]), s[n + 1..]))
  }

  /** One line holding a decimal number, with an optional minus sign. */
  function ParseIntLine(s: seq<Byte>): Option<(int, seq<Byte>)>
  {
    if |s| > 0 && s[0] == Minus then
      match ParseNatLine(s[1..])
      case Some((v, rest)) => var negative := -(v as int); Some((negative, rest))
      case None => None
    else
      match ParseNatLine(s)
      case Some((v, rest)) => Some((v, rest))
      case None => None
  }

  /** The inverse of the header writer: the width, the height and the bytes after the header, if the
      bytes start with `P6\n`, two decimal lines and `255\n`. It accepts a minus sign, as the writer
      can print one, and none of the comments or other whitespace a general P6 reader allows. */
  function ParseHeader(s: seq<Byte>): Option<(int, int, seq<Byte>)>
  {
    if |s| < |Magic| || s[..|Magic|] != Magic then None else ParseDimensions(s[|Magic|..])
  }

  /** The width line, the height line and the sample-depth line after the magic number. */
  function ParseDimensions(s: seq<Byte>): Option<(int, int, seq<Byte>)>
  {
    match ParseIntLine(s)
    case None => None
    case Some((width, afterWidth)) =>
      match ParseIntLine(afterWidth)
      case None => None
      case Some((height, afterHeight)) =>
        if |afterHeight| >= |MaxValueLine| && afterHeight[..|MaxValueLine|] == MaxValueLine
        then Some((width, height, afterHeight[|MaxValueLine|..]))
        else None
  }

  lemma {:induction false} DigitsValueOfDigits(n: nat)
    ensures DigitsValue(Digits(n)) == n
  {
    if n >= 10 {
      var ds := Digits(n);
      DigitsValueOfDigits(n / 10);
      assert ds[..|ds| - 1] == Digits(n / 10);
    }
  }

  lemma {:induction false} DigitRunStops(ds: seq<Byte>, s: seq<Byte>)
    requires forall k :: 0 <= k < |ds| ==> IsDigit(ds[k])
    requires |s| > 0 && !IsDigit(s[0])
    ensures DigitRun(ds + s) == |ds|
  {
    if |ds| > 0 {
      DigitRunStops(ds[1..], s);
      assert (ds + s)[1..] == ds[1..] + s;
    }
  }

  lemma NatLineRoundTrip(n: nat, rest: seq<Byte>)
    ensures ParseNatLine(Digits(n) + ([Newline] + rest)) == Some((n, rest))
  {
    var ds := Digits(n);
    var s := ds + ([Newline] + rest);
    DigitRunStops(ds, [Newline] + rest);
    assert s[..|ds|] == ds && s[|ds| + 1..] == rest;
    DigitsValueOfDigits(n);
  }

  lemma DropFirst(first: Byte, others: seq<Byte>)
    ensures ([first] + others)[0] == first && ([first] + others)[1..] == others
  {
  }

  /** A line written by `operator<<` reads back as the number it was written from. */
  lemma IntLineRoundTrip(n: int, rest: seq<Byte>)
    ensures ParseIntLine(Line(n) + rest) == Some((n, rest))
  {
    if n < 0 {
      NegativeLineRoundTrip(n, rest);
    } else {
      NonNegativeLineRoundTrip(n, rest);
    }
  }

  lemma NegativeLineRoundTrip(n: int, rest: seq<Byte>)
    requires n < 0
    ensures ParseIntLine(Line(n) + rest) == Some((n, rest))
  {
    var digits := Digits(-n);
    AppendAssoc([Minus] + digits, [Newline], rest);
    AppendAssoc([Minus], digits, [Newline] + rest);
    DropFirst(Minus, digits + ([Newline] + rest));
    NatLineRoundTrip(-n, rest);
    ParseNegative(Line(n) + rest, -n, rest);
  }

  lemma NonNegativeLineRoundTrip(n: int, rest: seq<Byte>)
    requires n >= 0
    ensures ParseIntLine(Line(n) + rest) == Some((n, rest))
  {
    AppendAssoc(Digits(n), [Newline], rest);
    NatLineRoundTrip(n, rest);
    assert !IsDigit(Minus);
    ParseNonNegative(Line(n) + rest, n, rest);
  }

  lemma ParseNegative(s: seq<Byte>, v: nat, rest: seq<Byte>)
    requires |s| > 0 && s[0] == Minus && ParseNatLine(s[1..]) == Some((v, rest))
    ensures ParseIntLine(s) == Some((-(v as int), rest))
  {
  }

  lemma ParseNonNegative(s: seq<Byte>, v: nat, rest: seq<Byte>)
    requires (|s| == 0 || s[0] != Minus) && ParseNatLine(s) == Some((v, rest))
    ensures ParseIntLine(s) == Some((v, rest))
  {
  }

  lemma DimensionsRoundTrip(width: int, height: int, pixels: seq<Byte>)
    ensures ParseDimensions(Line(width) + (Line(height) + (MaxValueLine + pixels))) == Some((width, height, pixels))
  {
    var afterHeight := MaxValueLine + pixels;
    IntLineRoundTrip(width, Line(height) + afterHeight);
    IntLineRoundTrip(height, afterHeight);
    assert afterHeight[..|MaxValueLine|] == MaxValueLine && afterHeight[|MaxValueLine|..] == pixels;
  }

  /** The header written by the image saver reads back as the width and height it was written
      with, and the bytes after it are exactly the bytes that followed it. */
  lemma HeaderRoundTrip(width: int, height: int, pixels: seq<Byte>)
    ensures ParseHeader(Header(width, height) + pixels) == Some((width, height, pixels))
  {
    var afterMagic := Line(width) + (Line(height) + (MaxValueLine + pixels));
    var s := Magic + afterMagic;
    HeaderThen(width, height, pixels);
    assert s[..|Magic|] == Magic && s[|Magic|..] == afterMagic;
    DimensionsRoundTrip(width, height, pixels);
  }

  /** The header followed by other bytes, regrouped line by line from the right. */
  lemma HeaderThen(width: int, height: int, pixels: seq<Byte>)
    ensures Header(width, height) + pixels
         == Magic + (Line(width) + (Line(height) + (MaxValueLine + pixels)))
  {
    AppendAssoc(Magic + Line(width) + Line(height), MaxValueLine, pixels);
    AppendAssoc(Magic + Line(width), Line(height), MaxValueLine + pixels);
    AppendAssoc(Magic, Line(width), Line(height) + (MaxValueLine + pixels));
  }

  // ---------------------------------------------------------------------------------------------
  // Pixel data
  //
  // The layout of the pixel data does not depend on the byte values, so this part is written for
  // any element type `T`; the saver uses it with `Byte`.

  /** The byte of a four-byte pixel that the file's colour byte `c` comes from. */
  function SourceChannel(c: nat, colorSwizzle: bool): (source: nat)
    requires c < 3
    ensures source < 3
  {
    if colorSwizzle then 2 - c else c
  }

  /** Under either flag, distinct file bytes of a pixel come from distinct colour bytes: each colour
      byte is written once and the alpha byte never. */
  lemma ChannelsDistinct(c: nat, c': nat, colorSwizzle: bool)
    requires c < 3 && c' < 3 && c != c'
    ensures SourceChannel(c, colorSwizzle) != SourceChannel(c', colorSwizzle)
  {
  }

  /** The three bytes written for the pixel at byte `at` of the mapped memory. */
  function PixelBytes<T>(mapped: seq<T>, at: nat, colorSwizzle: bool): (p: seq<T>)
    requires at + 3 <= |mapped|
    ensures |p| == 3
    ensures forall c :: 0 <= c < 3 ==> p[c] == mapped[at + SourceChannel(c, colorSwizzle)]
  {
    if colorSwizzle then [mapped[at + 2], mapped[at + 1], mapped[at]] else mapped[at..at + 3]
  }

  /** The mapped memory holds `width` four-byte pixels from byte `start` on (the alpha byte of the
      last one may lie past the end, as it is never read). */
  predicate RowReadable<T>(mapped: seq<T>, start: nat, width: nat)
  {
    width == 0 || start + 4 * width - 1 <= |mapped|
  }

  /** The bytes written for the `width` pixels of the row that starts at byte `start`: byte `k` of
      the row is colour byte `k % 3` of pixel `k / 3`. */
  function RowBytes<T>(mapped: seq<T>, start: nat, width: nat, colorSwizzle: bool): (row: seq<T>)
    requires RowReadable(mapped, start, width)
    ensures |row| == 3 * width
  {
    seq(3 * width, k requires 0 <= k < 3 * width => mapped[start + 4 * (k / 3) + SourceChannel(k % 3, colorSwizzle)])
  }

  /** Where row `y` of the image starts in the mapped memory. */
  function RowStart(start: nat, rowPitch: nat, y: nat): nat
  {
    start + y * rowPitch
  }

  /** The mapped memory holds `height` rows of `width` pixels, the first at byte `start` and each
      next one `rowPitch` bytes further on: it is enough that the last row fits. */
  predicate Readable<T>(mapped: seq<T>, start: nat, rowPitch: nat, width: nat, height: nat)
  {
    height == 0 || RowReadable(mapped, RowStart(start, rowPitch, height - 1), width)
  }

  /** Every row of a readable image lies inside the mapped memory. */
  lemma RowInside<T>(mapped: seq<T>, start: nat, rowPitch: nat, width: nat, height: nat, y: nat)
    requires Readable(mapped, start, rowPitch, width, height) && y < height
    ensures RowReadable(mapped, RowStart(start, rowPitch, y), width)
  {
    MulMonotone(y, height - 1, rowPitch);
  }

  /** The rows of the image, one sequence of bytes each. */
  function Rows<T>(mapped: seq<T>, start: nat, rowPitch: nat, width: nat, height: nat,
                   colorSwizzle: bool): (rows: seq<seq<T>>)
    requires Readable(mapped, start, rowPitch, width, height)
    ensures |rows| == height
    ensures forall y :: 0 <= y < height ==> |rows[y]| == 3 * width
  {
    seq(height, y requires 0 <= y < height =>
      RowInside(mapped, start, rowPitch, width, height, y);
      RowBytes(mapped, RowStart(start, rowPitch, y), width, colorSwizzle))
  }

  /** The rows one after another. */
  function Flatten<T>(rows: seq<seq<T>>): seq<T>
    decreases |rows|
  {
    if |rows| == 0 then [] else Flatten(rows[..|rows| - 1]) + rows[|rows| - 1]
  }

  /** The pixel data of the image: its rows one after another. */
  function ImageBytes<T>(mapped: seq<T>, start: nat, rowPitch: nat, width: nat, height: nat,
                         colorSwizzle: bool): seq<T>
    requires Readable(mapped, start, rowPitch, width, height)
  {
    Flatten(Rows(mapped, start, rowPitch, width, height, colorSwizzle))
  }

  lemma Distribute(a: nat, m: nat)
    requires a > 0
    ensures a * m == (a - 1) * m + m
  {
  }

  /** Rows of `n` bytes each flatten to `n` bytes per row. */
  lemma {:induction false} FlattenLength<T>(rows: seq<seq<T>>, n: nat)
    requires forall y :: 0 <= y < |rows| ==> |rows[y]| == n
    ensures |Flatten(rows)| == |rows| * n
    decreases |rows|
  {
    if |rows| > 0 {
      FlattenLength(rows[..|rows| - 1], n);
      Distribute(|rows|, n);
    }
  }

  /** Byte `k` of row `y` of rows of `n` bytes each lies `y * n + k` bytes into their flattening. */
  lemma {:induction false} FlattenIndex<T>(rows: seq<seq<T>>, n: nat, y: nat, k: nat)
    requires forall i :: 0 <= i < |rows| ==> |rows[i]| == n
    requires y < |rows| && k < n
    ensures y * n + k < |Flatten(rows)|
    ensures Flatten(rows)[y * n + k] == rows[y][k]
    decreases |rows|
  {
    var front := rows[..|rows| - 1];
    FlattenLength(front, n);
    if y < |rows| - 1 {
      FlattenIndex(front, n, y, k);
      ConcatIndexFront(Flatten(front), rows[|rows| - 1], y * n + k);
    } else {
      ConcatIndex(Flatten(front), rows[y], k);
    }
  }

  /** Writing the first `y` rows and then row `y` is writing the first `y + 1` rows. */
  lemma FlattenSnoc<T>(rows: seq<seq<T>>, y: nat)
    requires y < |rows|
    ensures Flatten(rows[..y + 1]) == Flatten(rows[..y]) + rows[y]
  {
    assert rows[..y + 1][..y] == rows[..y];
  }

  lemma ConcatIndexFront<T>(front: seq<T>, back: seq<T>, i: nat)
    requires i < |front|
    ensures (front + back)[i] == front[i]
  {
  }

  lemma ConcatIndex<T>(front: seq<T>, back: seq<T>, j: nat)
    requires j < |back|
    ensures (front + back)[|front| + j] == back[j]
  {
  }

  /** The pixel data is three bytes per pixel. */
  lemma ImageSize<T>(mapped: seq<T>, start: nat, rowPitch: nat, width: nat, height: nat,
                     colorSwizzle: bool)
    requires Readable(mapped, start, rowPitch, width, height)
    ensures |ImageBytes(mapped, start, rowPitch, width, height, colorSwizzle)| == 3 * (height * width)
  {
    FlattenLength(Rows(mapped, start, rowPitch, width, height, colorSwizzle), 3 * width);
    MulThree(height, width);
  }

  lemma MulThree(a: nat, b: nat)
    ensures a * (3 * b) == 3 * (a * b)
  {
  }

  /** Byte `c` of pixel `x` of a row is byte `c` of the four-byte pixel, or byte `2 - c` when the
      colour components are swizzled. */
  lemma RowAt<T>(mapped: seq<T>, start: nat, width: nat, colorSwizzle: bool, x: nat, c: nat)
    requires RowReadable(mapped, start, width) && x < width && c < 3
    ensures start + 4 * x + 3 <= |mapped|
    ensures RowBytes(mapped, start, width, colorSwizzle)[3 * x + c]
      == mapped[start + 4 * x + SourceChannel(c, colorSwizzle)]
  {
    assert (3 * x + c) / 3 == x && (3 * x + c) % 3 == c;
  }

  /** Byte `c` of pixel `(x, y)` of the pixel data lies inside the mapped memory, at
      `start + y * rowPitch + 4 * x` plus `c`, or plus `2 - c` when the colour components are
      swizzled. */
  lemma PixelAt<T>(mapped: seq<T>, start: nat, rowPitch: nat, width: nat, height: nat,
                   colorSwizzle: bool, x: nat, y: nat, c: nat)
    requires Readable(mapped, start, rowPitch, width, height)
    requires x < width && y < height && c < 3
    ensures start + y * rowPitch + 4 * x + 3 <= |mapped|
    ensures 3 * (y * width + x) + c < |ImageBytes(mapped, start, rowPitch, width, height, colorSwizzle)|
    ensures ImageBytes(mapped, start, rowPitch, width, height, colorSwizzle)[3 * (y * width + x) + c]
      == mapped[start + y * rowPitch + 4 * x + SourceChannel(c, colorSwizzle)]
  {
    var rows := Rows(mapped, start, rowPitch, width, height, colorSwizzle);
    RowInside(mapped, start, rowPitch, width, height, y);
    RowAt(mapped, RowStart(start, rowPitch, y), width, colorSwizzle, x, c);
    FlattenIndex(rows, 3 * width, y, 3 * x + c);
    MulThree(y, width);
  }

  // ---------------------------------------------------------------------------------------------
  // The writer

  /** `max(n, 0)`: how many times a `for (int32_t i = 0; i < n; i++)` loop runs. */
  function LoopCount(n: int): nat
  {
    if n < 0 then 0 else n
  }

  /** The first `width + 1` pixels of a row are its first `width` pixels and the one after them. */
  lemma RowSnoc<T>(mapped: seq<T>, start: nat, width: nat, colorSwizzle: bool)
    requires RowReadable(mapped, start, width + 1)
    ensures RowBytes(mapped, start, width + 1, colorSwizzle)
      == RowBytes(mapped, start, width, colorSwizzle) + PixelBytes(mapped, start + 4 * width, colorSwizzle)
  {
    var longer := RowBytes(mapped, start, width + 1, colorSwizzle);
    var shorter := RowBytes(mapped, start, width, colorSwizzle);
    var pixel := PixelBytes(mapped, start + 4 * width, colorSwizzle);
    forall k | 0 <= k < 3 * width + 3
      ensures longer[k] == (shorter + pixel)[k]
    {
      if k < 3 * width {
        assert longer[k] == shorter[k];
      } else {
        assert k / 3 == width && k % 3 == k - 3 * width;
      }
    }
  }

  /** `RowSnoc` behind bytes already written. */
  lemma RowAppend<T>(file: seq<T>, mapped: seq<T>, start: nat, width: nat, colorSwizzle: bool)
    requires RowReadable(mapped, start, width + 1)
    ensures file + RowBytes(mapped, start, width + 1, colorSwizzle)
      == (file + RowBytes(mapped, start, width, colorSwizzle)) + PixelBytes(mapped, start + 4 * width, colorSwizzle)
  {
    RowSnoc(mapped, start, width, colorSwizzle);
    AppendAssoc(file, RowBytes(mapped, start, width, colorSwizzle), PixelBytes(mapped, start + 4 * width, colorSwizzle));
  }

  /** The next row starts one row pitch after the current one. */
  lemma NextRowStart(start: nat, rowPitch: nat, y: nat)
    ensures RowStart(start, rowPitch, y + 1) == RowStart(start, rowPitch, y) + rowPitch
  {
  }

  /** The body of the inner loop: the three colour bytes of one pixel, in file order. */
  method WritePixel<T>(file: seq<T>, mapped: seq<T>, row: nat, colorSwizzle: bool) returns (file': seq<T>)
    requires row + 3 <= |mapped|
    ensures file' == file + PixelBytes(mapped, row, colorSwizzle)
  {
    if colorSwizzle {
      file' := file + [mapped[row + 2]];
      file' := file' + [mapped[row + 1]];
      file' := file' + [mapped[row]];
    } else {
      file' := file + mapped[row..row + 3];
    }
  }

  /** The inner loop: `width` pixels of one row, `row` advancing four bytes per pixel. */
  method WriteRow<T>(file: seq<T>, mapped: seq<T>, imagedata: nat, width: int, colorSwizzle: bool)
    returns (file': seq<T>)
    requires RowReadable(mapped, imagedata, LoopCount(width))
    ensures file' == file + RowBytes(mapped, imagedata, LoopCount(width), colorSwizzle)
  {
    file' := file;
    var row: nat := imagedata;
    var x: nat := 0;
    while x < width
      invariant x <= LoopCount(width)
      invariant row == imagedata + 4 * x
      invariant file' == file + RowBytes(mapped, imagedata, x, colorSwizzle)
    {
      RowAppend(file, mapped, imagedata, x, colorSwizzle);
      file' := WritePixel(file', mapped, row, colorSwizzle);
      row := row + 4;
      x := x + 1;
    }
  }

  /** The outer loop of the image saver: `imagedata` starts at the subresource offset and
      advances by the row pitch after each row. */
  method WritePixels<T>(file: seq<T>, width: int, height: int, offset: nat, rowPitch: nat, mapped: seq<T>,
                        colorSwizzle: bool)
    returns (file': seq<T>)
    requires Readable(mapped, offset, rowPitch, LoopCount(width), LoopCount(height))
    ensures file' == file + ImageBytes(mapped, offset, rowPitch, LoopCount(width), LoopCount(height), colorSwizzle)
  {
    ghost var rows := Rows(mapped, offset, rowPitch, LoopCount(width), LoopCount(height), colorSwizzle);
    file' := file;
    var imagedata: nat := offset;
    var y: nat := 0;
    while y < height
      invariant y <= |rows|
      invariant imagedata == RowStart(offset, rowPitch, y)
      invariant file' == file + Flatten(rows[..y])
    {
      RowInside(mapped, offset, rowPitch, LoopCount(width), LoopCount(height), y);
      FlattenSnoc(rows, y);
      AppendAssoc(file, Flatten(rows[..y]), rows[y]);
      file' := WriteRow(file', mapped, imagedata, width, colorSwizzle);
      NextRowStart(offset, rowPitch, y);
      imagedata := imagedata + rowPitch;
      y := y + 1;
    }
    assert rows[..y] == rows;
  }

  /** `VK_FORMAT_R8G8B8A8_UNORM`, the format of the colour attachment. */
  const ColorFormat: nat := 37

  /** `VK_FORMAT_B8G8R8A8_SRGB`, `VK_FORMAT_B8G8R8A8_UNORM`, `VK_FORMAT_B8G8R8A8_SNORM`. */
  const FormatsBgr: seq<nat> := [50, 44, 45]

  /** The colour components need swizzling exactly when the format stores blue first. */
  function NeedsSwizzle(format: nat): bool
  {
    format in FormatsBgr
  }

  /** The attachment is RGBA, so the saver writes the first three bytes of each pixel as they are. */
  lemma AttachmentIsNotSwizzled()
    ensures !NeedsSwizzle(ColorFormat)
  {
  }

  /** The image saver: the header, then the pixels in the order the attachment format needs. */
  method SaveImage(width: int, height: int, offset: nat, rowPitch: nat, mapped: seq<Byte>)
    returns (file: seq<Byte>)
    requires Readable(mapped, offset, rowPitch, LoopCount(width), LoopCount(height))
    ensures file == Header(width, height)
      + ImageBytes(mapped, offset, rowPitch, LoopCount(width), LoopCount(height), false)
  {
    var colorSwizzle := NeedsSwizzle(ColorFormat);
    file := Header(width, height);
    file := WritePixels(file, width, height, offset, rowPitch, mapped, colorSwizzle);
  }

  /** `ParseHeader`, the inverse of the header writer, finds in the saved file the width and height
      it was saved with, followed by exactly three samples for each of the `width * height` pixels
      (none for a negative size). */
  lemma SavedFileReadsBack(width: int, height: int, offset: nat, rowPitch: nat, mapped: seq<Byte>)
    requires Readable(mapped, offset, rowPitch, LoopCount(width), LoopCount(height))
    ensures var pixels := ImageBytes(mapped, offset, rowPitch, LoopCount(width), LoopCount(height), false);
      && ParseHeader(Header(width, height) + pixels) == Some((width, height, pixels))
      && |pixels| == 3 * (LoopCount(height) * LoopCount(width))
  {
    var pixels := ImageBytes(mapped, offset, rowPitch, LoopCount(width), LoopCount(height), false);
    HeaderRoundTrip(width, height, pixels);
    ImageSize(mapped, offset, rowPitch, LoopCount(width), LoopCount(height), false);
  }
}
