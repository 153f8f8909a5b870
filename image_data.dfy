/**
 * The image data stream parser of image_data_parser.py, apart from
 * decompression: which pixel each reconstructed sample belongs to (the
 * pixel locators, one list of coordinates per subimage, section 2.6 of
 * PNG 1.2 for Adam7), how long each scanline is, and the choice of
 * locator and unfilterer from the image header.
 */
module ImageData {
  import opened Common
  import opened FieldValues
  import opened ChunkParsers
  import opened Unfiltering

  /** Pixel coordinates (x, y): x from the left edge, y the scanline. */
  type Pixel = (nat, nat)

  predicate IncreasingNat(s: seq<nat>)
  {
    forall i, j :: 0 <= i < j < |s| ==> s[i] < s[j]
  }

  /** range(start, stop, step). */
  function Range(start: nat, stop: nat, step: nat): (r: seq<nat>)
    requires step > 0
    ensures forall i :: 0 <= i < |r| ==> start <= r[i] < stop
    ensures IncreasingNat(r)
    decreases if start < stop then stop - start else 0
  {
    if start >= stop then [] else [start] + Range(start + step, stop, step)
  }

  /** The i-th element of a range is start + i * step. */
  lemma {:induction false} RangeAt(start: nat, stop: nat, step: nat)
    requires step > 0
    ensures forall i :: 0 <= i < |Range(start, stop, step)| ==> Range(start, stop, step)[i] == start + i * step
    decreases if start < stop then stop - start else 0
  {
    if start < stop {
      var rest := Range(start + step, stop, step);
      RangeAt(start + step, stop, step);
      forall i | 0 < i < |rest| + 1 ensures ([start] + rest)[i] == start + i * step {
        assert ([start] + rest)[i] == rest[i - 1];
        assert start + step + (i - 1) * step == start + i * step;
      }
    }
  }

  /** i * step, named so that it can carry a quantifier's trigger. */
  function Mul(i: nat, step: nat): nat
  {
    i * step
  }

  /** v lies on the progression start, start + step, start + 2 * step, ... */
  ghost predicate OnAxis(v: nat, start: nat, step: nat)
  {
    exists i: nat :: v == start + Mul(i, step)
  }

  /** Every element of the progression below `stop` is listed, at its
      place. */
  lemma {:induction false} RangeHas(start: nat, stop: nat, step: nat, i: nat)
    requires step > 0 && start + i * step < stop
    ensures i < |Range(start, stop, step)|
    decreases i
  {
    if i > 0 {
      assert start + step + (i - 1) * step == start + i * step;
      RangeHas(start + step, stop, step, i - 1);
    }
  }

  /** A range holds exactly the points of its progression below `stop`. */
  lemma RangeMember(start: nat, stop: nat, step: nat, v: nat)
    requires step > 0
    ensures v in Range(start, stop, step) <==> v < stop && OnAxis(v, start, step)
  {
    var r := Range(start, stop, step);
    RangeAt(start, stop, step);
    if v in r {
      var i :| 0 <= i < |r| && r[i] == v;
      assert v == start + Mul(i, step);
    }
    if v < stop && OnAxis(v, start, step) {
      var i: nat :| v == start + Mul(i, step);
      RangeHas(start, stop, step, i);
      assert r[i] == v;
    }
  }

  /** On a progression of step 1, 2, 4 or 8 starting below its step, the
      points are those with the start as remainder. */
  lemma OnAxisMod(v: nat, start: nat, step: nat)
    requires step == 1 || step == 2 || step == 4 || step == 8
    requires start < step
    ensures OnAxis(v, start, step) <==> v % step == start
  {
    if v % step == start {
      var i: nat := v / step;
      assert Mul(i, step) == v - start by {
        if step == 1 {
          assert Mul(i, step) == Mul(i, 1) == i;
        } else if step == 2 {
          assert Mul(i, step) == Mul(i, 2) == i * 2;
        } else if step == 4 {
          assert Mul(i, step) == Mul(i, 4) == i * 4;
        } else {
          assert Mul(i, step) == Mul(i, 8) == i * 8;
        }
      }
    }
    if OnAxis(v, start, step) {
      var i: nat :| v == start + Mul(i, step);
      if step == 1 {
        assert v == start + Mul(i, 1);
      } else if step == 2 {
        assert v == start + Mul(i, 2);
      } else if step == 4 {
        assert v == start + Mul(i, 4);
      } else {
        assert v == start + Mul(i, 8);
      }
    }
  }

  /** The remainders by 4 and by 2 follow from the remainder by 8. */
  lemma ModOfMod8(n: nat)
    ensures n % 4 == (n % 8) % 4 && n % 2 == (n % 8) % 2 && n % 1 == 0
  {
    var q, r := n / 8, n % 8;
    assert n == 8 * q + r;
    if r < 4 {
      assert n == 4 * (2 * q) + r;
    } else {
      assert n == 4 * (2 * q + 1) + (r - 4);
    }
    if r % 2 == 0 {
      assert n == 2 * (4 * q + r / 2);
    } else {
      assert n == 2 * (4 * q + r / 2) + 1;
    }
  }

  /** itertools.product(xs, ys): for each x in turn, every y. This is the
      single definition of the order of the pixels within a subimage. */
  function Product(xs: seq<nat>, ys: seq<nat>): (r: seq<Pixel>)
    ensures |ys| == 0 ==> r == []
    decreases |xs|
  {
    if |xs| == 0 then []
    else seq(|ys|, j requires 0 <= j < |ys| => (xs[0], ys[j])) + Product(xs[1..], ys)
  }

  /** The product holds exactly the pairs of an x of the first list and a
      y of the second. */
  lemma {:induction false} ProductMembers(xs: seq<nat>, ys: seq<nat>)
    ensures forall p :: p in Product(xs, ys) <==> p.0 in xs && p.1 in ys
    decreases |xs|
  {
    if |xs| > 0 {
      var row := seq(|ys|, j requires 0 <= j < |ys| => (xs[0], ys[j]));
      ProductMembers(xs[1..], ys);
      assert Product(xs, ys) == row + Product(xs[1..], ys);
      assert forall p :: p in row <==> p.0 == xs[0] && p.1 in ys by {
        forall p: Pixel | p.0 == xs[0] && p.1 in ys ensures p in row {
          var j :| 0 <= j < |ys| && ys[j] == p.1;
          assert row[j] == p;
        }
      }
      assert forall x :: x in xs <==> x == xs[0] || x in xs[1..] by {
        assert xs == [xs[0]] + xs[1..];
      }
    }
  }

  /** The order the locators list the pixels of a subimage in: x first,
      then y. */
  predicate PixelBefore(p: Pixel, q: Pixel)
  {
    p.0 < q.0 || (p.0 == q.0 && p.1 < q.1)
  }

  predicate Increasing(s: seq<Pixel>)
  {
    forall i, j :: 0 <= i < j < |s| ==> PixelBefore(s[i], s[j])
  }

  /** The product of two increasing lists is increasing, and so lists no
      pixel twice. */
  lemma {:induction false} ProductIncreasing(xs: seq<nat>, ys: seq<nat>)
    requires IncreasingNat(xs) && IncreasingNat(ys)
    ensures Increasing(Product(xs, ys))
    decreases |xs|
  {
    if |xs| > 0 {
      var row := seq(|ys|, j requires 0 <= j < |ys| => (xs[0], ys[j]));
      var rest := Product(xs[1..], ys);
      ProductIncreasing(xs[1..], ys);
      ProductMembers(xs[1..], ys);
      assert Product(xs, ys) == row + rest;
      forall q | q in rest ensures xs[0] < q.0 {
        var k :| 0 <= k < |xs[1..]| && xs[1..][k] == q.0;
        assert xs[k + 1] == q.0;
      }
      forall i, j | 0 <= i < j < |row + rest| ensures PixelBefore((row + rest)[i], (row + rest)[j]) {
        if j < |row| {
        } else if i < |row| {
          assert (row + rest)[j] in rest;
        } else {
          assert (row + rest)[i] == rest[i - |row|] && (row + rest)[j] == rest[j - |row|];
        }
      }
    }
  }

  // Subimages

  /** One pass of an interlacing scheme: the pixels whose x lies on
      xStart + k * xStep and whose y lies on yStart + l * yStep. */
  datatype PassGrid = PassGrid(xStart: nat, xStep: nat, yStart: nat, yStep: nat)

  /** The seven passes of Adam7 (section 2.6 of PNG 1.2), in order. */
  const ADAM7: seq<PassGrid> := [
    PassGrid(0, 8, 0, 8), PassGrid(4, 8, 0, 8), PassGrid(0, 4, 4, 8), PassGrid(2, 4, 0, 4),
    PassGrid(0, 2, 2, 4), PassGrid(1, 2, 0, 2), PassGrid(0, 1, 1, 2)]

  function PassPixels(g: PassGrid, width: nat, height: nat): seq<Pixel>
    requires g.xStep > 0 && g.yStep > 0
  {
    Product(Range(g.xStart, width, g.xStep), Range(g.yStart, height, g.yStep))
  }

  /** _adam7_deinterlace_pixel_coordinates: the pixels of each pass. */
  function Adam7Locator(width: nat, height: nat): (passes: seq<seq<Pixel>>)
    ensures |passes| == 7
  {
    seq(7, k requires 0 <= k < 7 => PassPixels(ADAM7[k], width, height))
  }

  /** _no_deinterlace_pixel_coordinates: a single subimage. */
  function NoInterlaceLocator(width: nat, height: nat): (passes: seq<seq<Pixel>>)
    ensures |passes| == 1
  {
    [Product(Range(0, width, 1), Range(0, height, 1))]
  }

  /** The pixels of the subimages one after another, the order in which
      the image data delivers them. */
  function Concat(passes: seq<seq<Pixel>>): seq<Pixel>
  {
    ConcatFrom(passes, 0)
  }

  /** The pixels of the subimages from the k-th on. */
  function ConcatFrom(passes: seq<seq<Pixel>>, k: nat): seq<Pixel>
    requires k <= |passes|
    decreases |passes| - k
  {
    if k == |passes| then [] else passes[k] + ConcatFrom(passes, k + 1)
  }

  /** The pass (0 to 6) of a pixel in the 8 by 8 Adam7 pattern repeated
      over the image (section 2.6 of PNG 1.2). */
  function Adam7PassOf(p: Pixel): (k: nat)
    ensures k < 7
  {
    var x, y := p.0 % 8, p.1 % 8;
    if y % 2 == 1 then 6
    else if x % 2 == 1 then 5
    else if y % 4 == 2 then 4
    else if x % 4 == 2 then 3
    else if y == 4 then 2
    else if x == 4 then 1
    else 0
  }

  /** Pass k of the locator holds exactly the pixels of the image that the
      Adam7 pattern puts in pass k. */
  lemma Adam7PassMembers(width: nat, height: nat, k: nat, p: Pixel)
    requires k < 7
    ensures p in PassPixels(ADAM7[k], width, height) <==> p.0 < width && p.1 < height && Adam7PassOf(p) == k
  {
    var g := ADAM7[k];
    ProductMembers(Range(g.xStart, width, g.xStep), Range(g.yStart, height, g.yStep));
    RangeMember(g.xStart, width, g.xStep, p.0);
    RangeMember(g.yStart, height, g.yStep, p.1);
    OnAxisMod(p.0, g.xStart, g.xStep);
    OnAxisMod(p.1, g.yStart, g.yStep);
    Adam7Pattern(k, p);
  }

  /** The remainders that select each pass in the Adam7 pattern. */
  lemma Adam7Pattern(k: nat, p: Pixel)
    requires k < 7
    ensures var g := ADAM7[k];
      (p.0 % g.xStep == g.xStart && p.1 % g.yStep == g.yStart) <==> Adam7PassOf(p) == k
  {
    ModOfMod8(p.0);
    ModOfMod8(p.1);
  }

  /** Every pixel of pass k belongs to pass k of the pattern, and each
      pass lists its pixels in increasing order. */
  predicate PassesInOrder(passes: seq<seq<Pixel>>)
  {
    forall k :: 0 <= k < |passes| ==>
      Increasing(passes[k]) && forall p :: p in passes[k] ==> Adam7PassOf(p) == k
  }

  /** Pixels in Adam7 order: by pass, then as the locator orders a pass. */
  predicate Adam7Before(p: Pixel, q: Pixel)
  {
    Adam7PassOf(p) < Adam7PassOf(q) || (Adam7PassOf(p) == Adam7PassOf(q) && PixelBefore(p, q))
  }

  predicate Adam7Increasing(s: seq<Pixel>)
  {
    forall i, j :: 0 <= i < j < |s| ==> Adam7Before(s[i], s[j])
  }

  /** Concatenated passes, each in order and each holding only its own
      pixels, are in Adam7 order and hold what the passes hold. */
  lemma {:induction false} ConcatInOrder(passes: seq<seq<Pixel>>, k0: nat)
    requires k0 <= |passes| && PassesInOrder(passes)
    ensures Adam7Increasing(ConcatFrom(passes, k0))
    ensures forall p :: p in ConcatFrom(passes, k0) <==> exists k :: k0 <= k < |passes| && p in passes[k]
    ensures forall p :: p in ConcatFrom(passes, k0) ==> Adam7PassOf(p) >= k0
    decreases |passes| - k0
  {
    if k0 < |passes| {
      var head, rest := passes[k0], ConcatFrom(passes, k0 + 1);
      ConcatInOrder(passes, k0 + 1);
      forall i, j | 0 <= i < j < |head + rest| ensures Adam7Before((head + rest)[i], (head + rest)[j]) {
        if j < |head| {
          assert (head + rest)[i] in head && (head + rest)[j] in head;
        } else if i < |head| {
          assert (head + rest)[i] in head && (head + rest)[j] in rest;
        } else {
          assert (head + rest)[i] == rest[i - |head|] && (head + rest)[j] == rest[j - |head|];
        }
      }
    }
  }

  /** The Adam7 locator lists every pixel of the image exactly once, in
      the order of the pattern: by pass, then by x, then by y. A strictly
      increasing list with these members is the sorted pixel grid. */
  lemma Adam7LocatesEveryPixelOnce(width: nat, height: nat)
    ensures Adam7Increasing(Concat(Adam7Locator(width, height)))
    ensures forall p :: p in Concat(Adam7Locator(width, height)) <==> p.0 < width && p.1 < height
  {
    var passes := Adam7Locator(width, height);
    forall k | 0 <= k < 7
      ensures Increasing(passes[k]) && forall p :: p in passes[k] ==> Adam7PassOf(p) == k
    {
      var g := ADAM7[k];
      ProductIncreasing(Range(g.xStart, width, g.xStep), Range(g.yStart, height, g.yStep));
      forall p | p in passes[k] ensures Adam7PassOf(p) == k {
        Adam7PassMembers(width, height, k, p);
      }
    }
    ConcatInOrder(passes, 0);
    forall p: Pixel | p.0 < width && p.1 < height ensures p in Concat(passes) {
      Adam7PassMembers(width, height, Adam7PassOf(p), p);
      assert p in passes[Adam7PassOf(p)];
    }
    forall p | p in Concat(passes) ensures p.0 < width && p.1 < height {
      var k :| 0 <= k < 7 && p in passes[k];
      Adam7PassMembers(width, height, k, p);
    }
  }

  /** Without interlacing, the single subimage lists every pixel exactly
      once, x first, then y. */
  lemma NoInterlaceLocatesEveryPixelOnce(width: nat, height: nat)
    ensures Increasing(Concat(NoInterlaceLocator(width, height)))
    ensures forall p :: p in Concat(NoInterlaceLocator(width, height)) <==> p.0 < width && p.1 < height
  {
    var xs, ys := Range(0, width, 1), Range(0, height, 1);
    ProductIncreasing(xs, ys);
    ProductMembers(xs, ys);
    var passes := NoInterlaceLocator(width, height);
    assert ConcatFrom(passes, 1) == [];
    assert Concat(passes) == Product(xs, ys) + [];
    forall p ensures p in Product(xs, ys) <==> p.0 < width && p.1 < height {
      RangeMember(0, width, 1, p.0);
      RangeMember(0, height, 1, p.1);
      OnAxisMod(p.0, 0, 1);
      OnAxisMod(p.1, 0, 1);
    }
  }

  // Scanline sizes

  /** _calculate_scanline_sizes without interlacing: `height` scanlines,
      each a filter type byte and the pixel bytes of one row. */
  function ScanlineSizes(width: nat, height: nat, colorType: ColorType, bitDepth: nat): (sizes: seq<nat>)
    ensures |sizes| == height
  {
    seq(height, _ => 1 + CeilDiv(width * BitsPerPixel(colorType, bitDepth), 8))
  }

  /** Each scanline holds the filter type byte and the fewest whole bytes
      that hold one row of pixels. */
  lemma ScanlineHoldsOneRow(width: nat, height: nat, colorType: ColorType, bitDepth: nat, i: nat)
    requires i < height
    ensures var bits := width * BitsPerPixel(colorType, bitDepth);
      var n := ScanlineSizes(width, height, colorType, bitDepth)[i] - 1;
      n * 8 >= bits && (n == 0 || (n - 1) * 8 < bits)
  {
  }

  /** The single-pixel indexed image of depth 8: one index byte after the
      filter type byte, where the samples table as written would ask for
      three. */
  lemma IndexedScanline()
    ensures ScanlineSizes(1, 1, Indexed, 8) == [2]
    ensures 1 + CeilDiv(1 * (SamplesPerPixelAsWritten(Indexed) * 8), 8) == 4
  {
  }

  // Choosing the pipeline from the header

  /** The parser from_image_header builds: the pixel locator and what the
      unfilterer of each subimage is made from. */
  datatype StreamParser = StreamParser(passes: seq<seq<Pixel>>, colorType: ColorType, bitDepth: nat)

  /** ImageDataStreamParser.from_image_header: deflate decompression, the
      locator of the interlace method, and the five-filter unfilterer. */
  function FromImageHeader(h: ImageHeader): (r: Result<StreamParser>)
    ensures r.Ok? && r.value.colorType == h.colorType && r.value.bitDepth == h.bitDepth
    ensures |r.value.passes| == (if h.interlace == Adam7 then 7 else 1)
  {
    match h.compression
    case Deflate32k =>
      var passes := match h.interlace
        case NoInterlace => NoInterlaceLocator(h.width, h.height)
        case Adam7 => Adam7Locator(h.width, h.height);
      match h.filter
      case AdaptiveFiveBasic => Ok(StreamParser(passes, h.colorType, h.bitDepth))
  }

  /** Whatever the interlace method, the parser built from a header
      locates every pixel of the image exactly once. */
  lemma StreamParserLocatesEveryPixel(h: ImageHeader)
    ensures var passes := FromImageHeader(h).value.passes;
      (forall p :: p in Concat(passes) <==> p.0 < h.width && p.1 < h.height) &&
      forall i, j :: 0 <= i < j < |Concat(passes)| ==> Concat(passes)[i] != Concat(passes)[j]
  {
    var s := Concat(FromImageHeader(h).value.passes);
    if h.interlace == Adam7 {
      Adam7LocatesEveryPixelOnce(h.width, h.height);
      assert forall i, j :: 0 <= i < j < |s| ==> Adam7Before(s[i], s[j]);
    } else {
      NoInterlaceLocatesEveryPixelOnce(h.width, h.height);
      assert forall i, j :: 0 <= i < j < |s| ==> PixelBefore(s[i], s[j]);
    }
  }

  /** subimage_unfilterer_factory: a fresh unfilterer for the header's
      colour type and bit depth. */
  method NewSubimageUnfilterer(p: StreamParser) returns (u: Unfilterer)
    requires p.bitDepth >= 1
    ensures fresh(u) && u.colorType == p.colorType && u.bitDepth == p.bitDepth
    ensures u.bytesPerPixel == BytesPerPixel(p.colorType, p.bitDepth) && u.lastScanline == None
  {
    u := new Unfilterer(p.colorType, p.bitDepth);
  }
}

/** The worked example of the Adam7 order: a single row of ten pixels. */
module Adam7Example {
  import opened ImageData

  /** Adam7 order is a strict total order on pixels. */
  lemma Adam7BeforeTotal(p: Pixel, q: Pixel)
    ensures !Adam7Before(p, p)
    ensures Adam7Before(p, q) ==> !Adam7Before(q, p)
    ensures p != q ==> Adam7Before(p, q) || Adam7Before(q, p)
  {
  }

  /** Two lists in strictly increasing Adam7 order with the same members
      are the same list: the order of the locator is fixed by its members. */
  lemma {:induction false} IncreasingWithSameMembers(s: seq<Pixel>, t: seq<Pixel>)
    requires Adam7Increasing(s) && Adam7Increasing(t)
    requires forall p :: p in s <==> p in t
    ensures s == t
    decreases |s| + |t|
  {
    assert |s| > 0 ==> s[0] in t;
    assert |t| > 0 ==> t[0] in s;
    if |s| > 0 && |t| > 0 {
      assert s[0] in s && t[0] in t;
      var j :| 0 <= j < |t| && t[j] == s[0];
      var i :| 0 <= i < |s| && s[i] == t[0];
      if j > 0 {
        assert Adam7Before(t[0], s[0]);
        Adam7BeforeTotal(s[0], t[0]);
      }
      forall p ensures p in s[1..] <==> p in t[1..] {
        StrictTail(s, p);
        StrictTail(t, p);
      }
      IncreasingWithSameMembers(s[1..], t[1..]);
      assert s == [s[0]] + s[1..] && t == [t[0]] + t[1..];
    }
  }

  /** Without its first element, a strictly increasing list holds the rest
      of its members. */
  lemma StrictTail(s: seq<Pixel>, p: Pixel)
    requires |s| > 0 && Adam7Increasing(s)
    ensures p in s[1..] <==> p in s && p != s[0]
  {
    if p in s[1..] {
      var k :| 0 <= k < |s[1..]| && s[1..][k] == p;
      assert Adam7Before(s[0], s[k + 1]);
      Adam7BeforeTotal(s[0], p);
    }
    if p in s && p != s[0] {
      var k :| 0 <= k < |s| && s[k] == p;
      assert s[1..][k - 1] == p;
    }
  }

  /** The pixels of a single row of ten, in the order of the example. */
  const SINGLE_ROW: seq<Pixel> :=
    [(0, 0), (8, 0), (4, 0), (2, 0), (6, 0), (1, 0), (3, 0), (5, 0), (7, 0), (9, 0)]

  /** The example list is in Adam7 order and holds the row. */
  lemma SingleRowSorted()
    ensures Adam7Increasing(SINGLE_ROW)
    ensures forall p :: p in SINGLE_ROW <==> p.0 < 10 && p.1 < 1
  {
    forall i | 0 <= i < |SINGLE_ROW| - 1 ensures Adam7Before(SINGLE_ROW[i], SINGLE_ROW[i + 1]) {
      assert Adam7PassOf(SINGLE_ROW[i]) == [0, 0, 1, 3, 3, 5, 5, 5, 5, 5][i];
      assert Adam7PassOf(SINGLE_ROW[i + 1]) == [0, 0, 1, 3, 3, 5, 5, 5, 5, 5][i + 1];
    }
    NeighboursInOrder(SINGLE_ROW);
  }

  /** A list whose neighbours are in Adam7 order is in Adam7 order. */
  lemma NeighboursInOrder(s: seq<Pixel>)
    requires forall i :: 0 <= i < |s| - 1 ==> Adam7Before(s[i], s[i + 1])
    ensures Adam7Increasing(s)
  {
    forall i, j | 0 <= i < j < |s| ensures Adam7Before(s[i], s[j]) {
      NeighboursFrom(s, i, j);
    }
  }

  lemma {:induction false} NeighboursFrom(s: seq<Pixel>, i: nat, j: nat)
    requires forall i :: 0 <= i < |s| - 1 ==> Adam7Before(s[i], s[i + 1])
    requires i < j < |s|
    ensures Adam7Before(s[i], s[j])
    decreases j - i
  {
    if j > i + 1 {
      NeighboursFrom(s, i, j - 1);
    }
  }

  /** A single row of ten pixels comes in the order 0, 8, 4, 2, 6, 1, 3,
      5, 7, 9: passes 1, 2, 4 and 6 hold the columns 0 and 8, 4, 2 and 6,
      and the odd columns, and the other passes start below the row. */
  lemma Adam7SingleRow(width: nat, height: nat)
    requires width == 10 && height == 1
    ensures Concat(Adam7Locator(width, height)) == SINGLE_ROW
  {
    Adam7LocatesEveryPixelOnce(width, height);
    SingleRowSorted();
    IncreasingWithSameMembers(Concat(Adam7Locator(width, height)), SINGLE_ROW);
  }
}
