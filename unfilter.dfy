/**
 * Reversing the scanline filters of filter method 0 (chapter 6 of PNG 1.2,
 * the five basic filter types None, Sub, Up, Average and Paeth), as the
 * subimage unfilterer of image_data_parser.py does it: one scanline at a
 * time, each scanline predicted from the bytes already reconstructed to its
 * left and from the previous reconstructed scanline.
 */
module Unfiltering {
  import opened Common
  import opened FieldValues
  import opened ChunkParsers

  // Pixel size

  /** Samples per pixel for each colour type (section 2.3 of PNG 1.2): a
      palette index is one sample. */
  function SamplesPerPixel(c: ColorType): (n: nat)
    ensures 1 <= n <= 4
  {
    match c
    case Grayscale => 1
    case Rgb => 3
    case Indexed => 1
    case GrayscaleAlpha => 2
    case RgbAlpha => 4
  }

  /** The samples_per_pixel table as written, which gives indexed colour
      three samples. */
  function SamplesPerPixelAsWritten(c: ColorType): nat
  {
    match c
    case Grayscale => 1
    case Rgb => 3
    case Indexed => 3
    case GrayscaleAlpha => 2
    case RgbAlpha => 4
  }

  /** _calculate_bits_per_pixel. */
  function BitsPerPixel(c: ColorType, bitDepth: nat): nat
  {
    SamplesPerPixel(c) * bitDepth
  }

  /** math.ceil(a / b) for a non-negative a. */
  function CeilDiv(a: nat, b: nat): (q: nat)
    requires b > 0
    ensures q * b >= a && (q == 0 || (q - 1) * b < a)
  {
    (a + b - 1) / b
  }

  /** The bytes per complete pixel, rounded up to 1 for sub-byte pixels:
      the distance to the byte of the pixel to the left. */
  function BytesPerPixel(c: ColorType, bitDepth: nat): (bpp: nat)
    requires bitDepth >= 1
    ensures bpp >= 1
  {
    CeilDiv(BitsPerPixel(c, bitDepth), 8)
  }

  /** A palette index is one sample of at most 8 bits, so an indexed pixel
      never needs more than one byte; the table as written asks three
      samples of it. */
  lemma IndexedPixelIsOneSample(bitDepth: nat)
    requires AllowsBitDepth(Indexed, bitDepth)
    ensures BitsPerPixel(Indexed, bitDepth) == bitDepth
    ensures BytesPerPixel(Indexed, bitDepth) == 1
    ensures SamplesPerPixelAsWritten(Indexed) * bitDepth == 3 * bitDepth
  {
  }

  // Predictors

  function Abs(x: int): nat
  {
    if x < 0 then -x else x
  }

  /** paeth_predictor: of the left, above and upper-left bytes, the one
      nearest to left + above - upperLeft, ties broken in that order. */
  function PaethPredictor(left: byte, above: byte, upperLeft: byte): (r: byte)
    ensures r == left || r == above || r == upperLeft
  {
    var p := left as int + above as int - upperLeft as int;
    var pa, pb, pc := Abs(p - left as int), Abs(p - above as int), Abs(p - upperLeft as int);
    if pa <= pb && pa <= pc then left
    else if pb <= pc then above
    else upperLeft
  }

  /** The Paeth predictor picks a nearest candidate to the estimate, and
      among equally near ones the first of left, above, upper-left. */
  lemma PaethIsNearest(a: byte, b: byte, c: byte)
    ensures var p := a as int + b as int - c as int;
      var r := PaethPredictor(a, b, c);
      var d := Abs(p - r as int);
      d <= Abs(p - a as int) && d <= Abs(p - b as int) && d <= Abs(p - c as int) &&
      (Abs(p - a as int) == d ==> r == a) &&
      (Abs(p - b as int) == d && r != a ==> r == b)
    ensures b == c ==> PaethPredictor(a, b, c) == a
    ensures a == c ==> PaethPredictor(a, b, c) == b
  {
  }

  /** The prediction each filter type adds back (section 6.2 to 6.6 of
      PNG 1.2). */
  function Predictor(t: AdaptiveFilterType, left: byte, above: byte, upperLeft: byte): byte
  {
    match t
    case FilterNone => 0
    case Sub => left
    case Up => above
    case Average => ((left as int + above as int) / 2) as byte
    case Paeth => PaethPredictor(left, above, upperLeft)
  }

  function AddMod(a: byte, b: byte): byte
  {
    ((a as int + b as int) % 256) as byte
  }

  function SubMod(a: byte, b: byte): byte
  {
    ((a as int - b as int) % 256) as byte
  }

  /** The byte `bpp` positions to the left of position x, or 0 before the
      first complete pixel. */
  function Left(s: seq<byte>, x: nat, bpp: nat): byte
    requires bpp >= 1 && x <= |s|
  {
    if x >= bpp then s[x - bpp] else 0
  }

  // Filtering and its reversal

  /** The reconstructed scanline: each byte is the filtered byte plus the
      prediction from the reconstructed bytes to its left and the previous
      scanline, modulo 256. */
  function Unfiltered(t: AdaptiveFilterType, data: seq<byte>, prev: seq<byte>, bpp: nat): (out: seq<byte>)
    requires bpp >= 1 && |prev| == |data|
    ensures |out| == |data|
    decreases |data|
  {
    if |data| == 0 then []
    else
      var n := |data| - 1;
      var head := Unfiltered(t, data[..n], prev[..n], bpp);
      head + [AddMod(data[n], Predictor(t, Left(head, n, bpp), prev[n], Left(prev, n, bpp)))]
  }

  /** The filter an encoder applies (section 6 of PNG 1.2): each byte
      minus its prediction from the raw bytes, modulo 256. */
  function Filtered(t: AdaptiveFilterType, raw: seq<byte>, prev: seq<byte>, bpp: nat): (f: seq<byte>)
    requires bpp >= 1 && |prev| == |raw|
    ensures |f| == |raw|
  {
    seq(|raw|, x requires 0 <= x < |raw| => SubMod(raw[x], Predictor(t, Left(raw, x, bpp), prev[x], Left(prev, x, bpp))))
  }

  /** Left only looks at the part of a sequence before x. */
  lemma LeftOfPrefix(s: seq<byte>, k: nat, x: nat, bpp: nat)
    requires bpp >= 1 && x <= k <= |s|
    ensures Left(s[..k], x, bpp) == Left(s, x, bpp)
  {
  }

  /** Reconstructing one more byte appends it to the reconstructed prefix. */
  lemma UnfilteredExtend(t: AdaptiveFilterType, data: seq<byte>, prev: seq<byte>, bpp: nat, pos: nat)
    requires bpp >= 1 && |prev| == |data| && pos < |data|
    ensures var head := Unfiltered(t, data[..pos], prev[..pos], bpp);
      Unfiltered(t, data[..pos + 1], prev[..pos + 1], bpp) ==
        head + [AddMod(data[pos], Predictor(t, Left(head, pos, bpp), prev[pos], Left(prev, pos, bpp)))]
  {
    assert data[..pos + 1][..pos] == data[..pos];
    assert prev[..pos + 1][..pos] == prev[..pos];
    LeftOfPrefix(prev, pos + 1, pos, bpp);
  }

  /** Reconstruction is a prefix-wise process: the first k reconstructed
      bytes depend on the first k filtered bytes only. */
  lemma {:induction false} UnfilteredPrefix(t: AdaptiveFilterType, data: seq<byte>, prev: seq<byte>, bpp: nat, k: nat)
    requires bpp >= 1 && |prev| == |data| && k <= |data|
    ensures Unfiltered(t, data, prev, bpp)[..k] == Unfiltered(t, data[..k], prev[..k], bpp)
    decreases |data|
  {
    if k < |data| {
      var n := |data| - 1;
      UnfilteredPrefix(t, data[..n], prev[..n], bpp, k);
      assert data[..n][..k] == data[..k] && prev[..n][..k] == prev[..k];
    } else {
      assert data[..k] == data && prev[..k] == prev;
    }
  }

  /** Each reconstructed byte is its filtered byte plus the prediction from
      the reconstructed bytes, as section 6 of PNG 1.2 defines decoding. */
  lemma UnfilteredAt(t: AdaptiveFilterType, data: seq<byte>, prev: seq<byte>, bpp: nat, x: nat)
    requires bpp >= 1 && |prev| == |data| && x < |data|
    ensures var out := Unfiltered(t, data, prev, bpp);
      out[x] == AddMod(data[x], Predictor(t, Left(out, x, bpp), prev[x], Left(prev, x, bpp)))
  {
    var out := Unfiltered(t, data, prev, bpp);
    UnfilteredPrefix(t, data, prev, bpp, x + 1);
    UnfilteredPrefix(t, data, prev, bpp, x);
    UnfilteredExtend(t, data, prev, bpp, x);
    assert out[..x + 1][x] == out[x];
    LeftOfPrefix(out, x, x, bpp);
  }

  /** Adding back what was subtracted, modulo 256, restores the byte. */
  lemma AddModSubMod(a: byte, p: byte)
    ensures AddMod(SubMod(a, p), p) == a && SubMod(AddMod(a, p), p) == a
  {
  }

  /** The first k filtered bytes depend on the first k raw bytes only. */
  lemma FilteredPrefix(t: AdaptiveFilterType, raw: seq<byte>, prev: seq<byte>, bpp: nat, k: nat)
    requires bpp >= 1 && |prev| == |raw| && k <= |raw|
    ensures Filtered(t, raw, prev, bpp)[..k] == Filtered(t, raw[..k], prev[..k], bpp)
  {
    forall x | 0 <= x < k
      ensures Filtered(t, raw, prev, bpp)[..k][x] == Filtered(t, raw[..k], prev[..k], bpp)[x]
    {
      LeftOfPrefix(raw, k, x, bpp);
      LeftOfPrefix(prev, k, x, bpp);
    }
  }

  /** Unfiltering undoes filtering: a decoder recovers every scanline an
      encoder filtered with the same type and previous line. */
  lemma {:induction false} UnfilterFiltered(t: AdaptiveFilterType, raw: seq<byte>, prev: seq<byte>, bpp: nat)
    requires bpp >= 1 && |prev| == |raw|
    ensures Unfiltered(t, Filtered(t, raw, prev, bpp), prev, bpp) == raw
    decreases |raw|
  {
    if |raw| > 0 {
      var n := |raw| - 1;
      var f := Filtered(t, raw, prev, bpp);
      FilteredPrefix(t, raw, prev, bpp, n);
      UnfilterFiltered(t, raw[..n], prev[..n], bpp);
      LeftOfPrefix(raw, n, n, bpp);
      AddModSubMod(raw[n], Predictor(t, Left(raw, n, bpp), prev[n], Left(prev, n, bpp)));
      assert raw == raw[..n] + [raw[n]];
    }
  }

  /** Filtering undoes unfiltering: every filtered scanline is the
      filtering of exactly one raw scanline. */
  lemma FilterUnfiltered(t: AdaptiveFilterType, data: seq<byte>, prev: seq<byte>, bpp: nat)
    requires bpp >= 1 && |prev| == |data|
    ensures Filtered(t, Unfiltered(t, data, prev, bpp), prev, bpp) == data
  {
    var out := Unfiltered(t, data, prev, bpp);
    forall x | 0 <= x < |data| ensures Filtered(t, out, prev, bpp)[x] == data[x] {
      var p := Predictor(t, Left(out, x, bpp), prev[x], Left(prev, x, bpp));
      UnfilteredAt(t, data, prev, bpp, x);
      assert out[x] == AddMod(data[x], p);
      AddModSubMod(data[x], p);
      assert Filtered(t, out, prev, bpp)[x] == SubMod(out[x], p);
    }
  }

  /** The None filter leaves the data as it is, and neither None nor Sub
      looks at the previous scanline. */
  lemma {:induction false} NoneAndSubIgnorePrevious(t: AdaptiveFilterType, data: seq<byte>, prev: seq<byte>, other: seq<byte>, bpp: nat)
    requires t == FilterNone || t == Sub
    requires bpp >= 1 && |prev| == |data| == |other|
    ensures Unfiltered(t, data, prev, bpp) == Unfiltered(t, data, other, bpp)
    ensures t == FilterNone ==> Unfiltered(t, data, prev, bpp) == data
    decreases |data|
  {
    if |data| > 0 {
      var n := |data| - 1;
      NoneAndSubIgnorePrevious(t, data[..n], prev[..n], other[..n], bpp);
      assert data == data[..n] + [data[n]];
    }
  }

  /** A run of `n` zero bytes ('\x00' * n, empty for n < 1). */
  function Zeros(n: int): (z: seq<byte>)
    ensures |z| == if n < 0 then 0 else n
    ensures forall i :: 0 <= i < |z| ==> z[i] == 0
  {
    if n <= 0 then [] else seq(n, i => 0)
  }

  /** The outcome of unfilter_scanline and the previous scanline it leaves:
      the first scanline is predicted from a zero line of its own length,
      a later one must have the length of the previous one, the first byte
      must be a filter type, and the reconstructed data becomes the
      previous scanline. */
  function UnfilterStep(last: Option<seq<byte>>, bpp: nat, scanline: seq<byte>): (r: (Result<seq<byte>>, Option<seq<byte>>))
    requires bpp >= 1
    ensures r.0.Ok? <==>
      (last.None? || |scanline| - 1 == |last.value|) && |scanline| > 0 && scanline[0] <= 4
    ensures r.0.Ok? ==> |r.0.value| == |scanline| - 1 && r.1 == Some(r.0.value)
    ensures r.0 == Err(ParserStateError) <==> last.Some? && |scanline| - 1 != |last.value|
    ensures r.0 == Err(ParserStateError) ==> r.1 == last
  {
    if last.Some? && |scanline| - 1 != |last.value| then (Err(ParserStateError), last)
    else
      var prev := if last.None? then Zeros(|scanline| - 1) else last.value;
      if |scanline| == 0 then (Err(IndexError), Some(prev))
      else if scanline[0] !in ADAPTIVE_FILTER_TYPES then (Err(PNGSyntaxError(BadFilterType)), Some(prev))
      else
        var out := Unfiltered(ADAPTIVE_FILTER_TYPES[scanline[0]], scanline[1..], prev, bpp);
        (Ok(out), Some(out))
  }

  /** A scanline made by filtering `raw` against the previous scanline (or
      a zero line for the first) is reconstructed as `raw`, which becomes
      the previous scanline. */
  lemma UnfilterStepRecoversScanline(last: Option<seq<byte>>, bpp: nat, t: AdaptiveFilterType, raw: seq<byte>)
    requires bpp >= 1
    requires last.Some? ==> |last.value| == |raw|
    ensures var prev := if last.None? then Zeros(|raw|) else last.value;
      UnfilterStep(last, bpp, [t.Value()] + Filtered(t, raw, prev, bpp)) == (Ok(raw), Some(raw))
  {
    var prev := if last.None? then Zeros(|raw|) else last.value;
    var scanline := [t.Value()] + Filtered(t, raw, prev, bpp);
    assert scanline[1..] == Filtered(t, raw, prev, bpp);
    MemberTablesInvertValues();
    UnfilterFiltered(t, raw, prev, bpp);
  }

  /** The filter type check as written (_get_valid_filter_method) tests
      the byte against the enumeration's member objects, so it refuses
      every byte, the five filter types included. */
  lemma FilterTypeCheckAsWrittenRefusesAll(value: byte)
    ensures ParseEnumAsWritten("AdaptiveFilterType", ADAPTIVE_FILTER_TYPES, BadFilterType, value) ==
      Err(PNGSyntaxError(BadFilterType))
    ensures value <= 4 ==> ParseEnum(ADAPTIVE_FILTER_TYPES, BadFilterType, value).Ok?
  {
    MemberTestNeverHolds(value, "AdaptiveFilterType", ADAPTIVE_FILTER_TYPES);
  }

  /** _AdaptiveFiveBasicSubimageUnfilterer: reverses the filters of one
      subimage, keeping the last reconstructed scanline. */
  class Unfilterer {
    const colorType: ColorType
    const bitDepth: nat
    const bytesPerPixel: nat
    var lastScanline: Option<seq<byte>>

    constructor(colorType: ColorType, bitDepth: nat)
      requires bitDepth >= 1
      ensures this.colorType == colorType && this.bitDepth == bitDepth
      ensures bytesPerPixel == BytesPerPixel(colorType, bitDepth) && bytesPerPixel >= 1
      ensures lastScanline == None
    {
      this.colorType := colorType;
      this.bitDepth := bitDepth;
      bytesPerPixel := BytesPerPixel(colorType, bitDepth);
      lastScanline := None;
    }

    /** unfilter_scanline. */
    method UnfilterScanline(scanline: seq<byte>) returns (r: Result<seq<byte>>)
      requires bytesPerPixel >= 1
      modifies this
      ensures (r, lastScanline) == UnfilterStep(old(lastScanline), bytesPerPixel, scanline)
    {
      if lastScanline.None? {
        lastScanline := Some(Zeros(|scanline| - 1));
      } else if |scanline| - 1 != |lastScanline.value| {
        return Err(ParserStateError);
      }
      if |scanline| == 0 {
        return Err(IndexError);
      }
      var filterType := ParseEnum(ADAPTIVE_FILTER_TYPES, BadFilterType, scanline[0]);
      if filterType.Err? {
        return Err(filterType.error);
      }
      var data := scanline[1..];
      var out: seq<byte>;
      match filterType.value {
        case FilterNone =>
          out := UnfilterNone(data);
          NoneAndSubIgnorePrevious(FilterNone, data, lastScanline.value, Zeros(|data|), bytesPerPixel);
        case Sub =>
          out := UnfilterSub(data);
          NoneAndSubIgnorePrevious(Sub, data, lastScanline.value, Zeros(|data|), bytesPerPixel);
        case Up =>
          out := UnfilterUp(data);
        case Average =>
          out := UnfilterAverage(data);
        case Paeth =>
          out := UnfilterPaeth(data);
      }
      lastScanline := Some(out);
      r := Ok(out);
    }

    /** _unfilter_with_method_none. */
    method UnfilterNone(data: seq<byte>) returns (out: seq<byte>)
      requires bytesPerPixel >= 1
      ensures out == data
      ensures out == Unfiltered(FilterNone, data, Zeros(|data|), bytesPerPixel)
    {
      NoneAndSubIgnorePrevious(FilterNone, data, Zeros(|data|), Zeros(|data|), bytesPerPixel);
      out := data;
    }

    /** _unfilter_with_method_sub. */
    method UnfilterSub(data: seq<byte>) returns (out: seq<byte>)
      requires bytesPerPixel >= 1
      ensures out == Unfiltered(Sub, data, Zeros(|data|), bytesPerPixel)
    {
      ghost var prev := Zeros(|data|);
      var decoded: seq<byte> := [];
      var pos := 0;
      while pos < |data|
        invariant 0 <= pos <= |data|
        invariant decoded == Unfiltered(Sub, data[..pos], prev[..pos], bytesPerPixel)
      {
        var offset := pos - bytesPerPixel;
        var prior: byte;
        if offset < 0 {
          prior := 0;
        } else {
          prior := decoded[offset];
        }
        UnfilteredExtend(Sub, data, prev, bytesPerPixel, pos);
        decoded := decoded + [AddMod(data[pos], prior)];
        pos := pos + 1;
      }
      assert data[..pos] == data && prev[..pos] == prev;
      out := decoded;
    }

    /** _unfilter_with_method_up. */
    method UnfilterUp(data: seq<byte>) returns (out: seq<byte>)
      requires bytesPerPixel >= 1
      requires lastScanline.Some? && |lastScanline.value| == |data|
      ensures out == Unfiltered(Up, data, lastScanline.value, bytesPerPixel)
    {
      var last := lastScanline.value;
      var decoded: seq<byte> := [];
      var pos := 0;
      while pos < |data|
        invariant 0 <= pos <= |data|
        invariant decoded == Unfiltered(Up, data[..pos], last[..pos], bytesPerPixel)
      {
        var prior := last[pos];
        UnfilteredExtend(Up, data, last, bytesPerPixel, pos);
        decoded := decoded + [AddMod(data[pos], prior)];
        pos := pos + 1;
      }
      assert data[..pos] == data && last[..pos] == last;
      out := decoded;
    }

    /** _unfilter_with_method_average, with the left byte taken `bpp`
        positions back. */
    method UnfilterAverage(data: seq<byte>) returns (out: seq<byte>)
      requires bytesPerPixel >= 1
      requires lastScanline.Some? && |lastScanline.value| == |data|
      ensures out == Unfiltered(Average, data, lastScanline.value, bytesPerPixel)
    {
      var last := lastScanline.value;
      var decoded: seq<byte> := [];
      var pos := 0;
      while pos < |data|
        invariant 0 <= pos <= |data|
        invariant decoded == Unfiltered(Average, data[..pos], last[..pos], bytesPerPixel)
      {
        var prior := last[pos];
        var offset := pos - bytesPerPixel;
        var raw: byte;
        if offset < 0 {
          raw := 0;
        } else {
          raw := decoded[offset];
        }
        UnfilteredExtend(Average, data, last, bytesPerPixel, pos);
        decoded := decoded + [AddMod(data[pos], ((raw as int + prior as int) / 2) as byte)];
        pos := pos + 1;
      }
      assert data[..pos] == data && last[..pos] == last;
      out := decoded;
    }

    /** _unfilter_with_method_average as written: it reads the left byte at
        the current position of the bytes decoded so far, one past their
        end, as soon as a complete pixel lies to the left. */
    method UnfilterAverageAsWritten(data: seq<byte>) returns (r: Result<seq<byte>>)
      requires bytesPerPixel >= 1
      requires lastScanline.Some? && |lastScanline.value| == |data|
      ensures r.Err? <==> |data| > bytesPerPixel
      ensures r.Err? ==> r.error == IndexError
      ensures r.Ok? ==> r.value == Unfiltered(Average, data, lastScanline.value, bytesPerPixel)
    {
      var last := lastScanline.value;
      var decoded: seq<byte> := [];
      var pos := 0;
      while pos < |data|
        invariant 0 <= pos <= |data| && pos <= bytesPerPixel
        invariant decoded == Unfiltered(Average, data[..pos], last[..pos], bytesPerPixel)
      {
        var prior := last[pos];
        var offset := pos - bytesPerPixel;
        if offset >= 0 {
          // decoded_scanline_bytes[pos] lies one past the bytes decoded so far
          return Err(IndexError);
        }
        var raw: byte := 0;
        UnfilteredExtend(Average, data, last, bytesPerPixel, pos);
        decoded := decoded + [AddMod(data[pos], ((raw as int + prior as int) / 2) as byte)];
        pos := pos + 1;
      }
      assert data[..pos] == data && last[..pos] == last;
      r := Ok(decoded);
    }

    /** _unfilter_with_method_paeth. */
    method UnfilterPaeth(data: seq<byte>) returns (out: seq<byte>)
      requires bytesPerPixel >= 1
      requires lastScanline.Some? && |lastScanline.value| == |data|
      ensures out == Unfiltered(Paeth, data, lastScanline.value, bytesPerPixel)
    {
      var last := lastScanline.value;
      var decoded: seq<byte> := [];
      var pos := 0;
      while pos < |data|
        invariant 0 <= pos <= |data|
        invariant decoded == Unfiltered(Paeth, data[..pos], last[..pos], bytesPerPixel)
      {
        var prior := last[pos];
        var offset := pos - bytesPerPixel;
        var raw: byte, priorOff: byte;
        if offset < 0 {
          raw, priorOff := 0, 0;
        } else {
          raw, priorOff := decoded[offset], last[offset];
        }
        UnfilteredExtend(Paeth, data, last, bytesPerPixel, pos);
        decoded := decoded + [AddMod(data[pos], PaethPredictor(raw, prior, priorOff))];
        pos := pos + 1;
      }
      assert data[..pos] == data && last[..pos] == last;
      out := decoded;
    }
  }
}
