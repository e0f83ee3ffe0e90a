/** The raster-grid side of the post-processing step: the nodata mask taken over from the
    land-use raster, and the removal of the one-pixel buffer Graphab leaves around its outputs.
    A band is a 2-D array of integers, rows first (`Length0` is the raster's y size, `Length1`
    its x size), as `ReadAsArray` returns it. */
module PostProcRaster {
  import opened Wrappers

  // ----- apply_nodata_mask -----

  /** The number of pixels the debug listing samples. */
  const SampleSize: nat := 10

  /** Position of the land-use pixel numpy broadcasts onto row or column `i`: a dimension of
      length one is stretched. */
  function Bcast(len: nat, i: nat): nat {
    if len == 1 then 0 else i
  }

  /** A land-use dimension `l` combines with an input dimension `n` under broadcasting. */
  predicate Broadcastable(l: nat, n: nat) { l == n || l == 1 || n == 1 }

  /** The combined mask has the input's extent along that dimension. */
  predicate Fits(l: nat, n: nat) { l == n || l == 1 }

  /** The probe loop reads the land-use pixel at the row and column of each sampled offset. */
  predicate ProbesInside(w: nat, lh: nat, lw: nat, probes: seq<nat>)
    requires w > 0
  {
    forall k :: 0 <= k < |probes| ==> probes[k] / w < lh && probes[k] % w < lw
  }

  /** How `apply_nodata_mask` ends for an `h` by `w` input band, an `lh` by `lw` land-use band
      and the sampled offsets: `random.sample` needs ten pixels, the probe loop indexes the
      land-use array, `np.logical_or` needs broadcastable masks and the boolean assignment needs
      a mask of the input's shape. */
  function MaskOutcome(h: nat, w: nat, lh: nat, lw: nat, probes: seq<nat>): (r: Outcome)
    ensures r.Pass? ==> h * w >= SampleSize && w > 0 && Fits(lh, h) && Fits(lw, w)
    ensures r.Pass? ==> forall k :: 0 <= k < |probes| ==> probes[k] / w < lh && probes[k] % w < lw
    ensures r.Fail? ==> r.exc.ValueError? || r.exc == IndexError
  {
    if h * w < SampleSize then Fail(ValueError("sample larger than population"))
    else if !ProbesInside(w, lh, lw, probes) then Fail(IndexError)
    else if !(Broadcastable(lh, h) && Broadcastable(lw, w)) then Fail(ValueError("operands could not be broadcast together"))
    else if !(Fits(lh, h) && Fits(lw, w)) then Fail(IndexError)
    else Pass
  }

  /** The input pixel masked by the input's own nodata or by the land-use nodata. A missing
      nodata value (`None`) matches no pixel. */
  predicate Masked(v: int, inputNodata: Option<int>, lv: int, lulcNodata: Option<int>) {
    (inputNodata.Some? && v == inputNodata.value) || (lulcNodata.Some? && lv == lulcNodata.value)
  }

  function MaskedValue(v: int, inputNodata: Option<int>, lv: int, lulcNodata: Option<int>, nodata: int): int {
    if Masked(v, inputNodata, lv, lulcNodata) then nodata else v
  }

  /** The boolean-mask assignment `input_data[combined_mask] = nodata_value`, in place. */
  method MaskGrid(data: array2<int>, inputNodata: Option<int>, lulc: array2<int>, lulcNodata: Option<int>,
                  nodata: int, probes: seq<nat>)
    returns (r: Outcome)
    requires data != lulc
    requires data.Length0 * data.Length1 >= SampleSize ==>
      |probes| == SampleSize && forall k :: 0 <= k < |probes| ==> probes[k] < data.Length0 * data.Length1
    modifies data
    ensures r == MaskOutcome(data.Length0, data.Length1, lulc.Length0, lulc.Length1, probes)
    ensures r.Pass? ==> forall i, j :: 0 <= i < data.Length0 && 0 <= j < data.Length1 ==>
      data[i, j] == MaskedValue(old(data[i, j]), inputNodata,
                                lulc[Bcast(lulc.Length0, i), Bcast(lulc.Length1, j)], lulcNodata, nodata)
    ensures r.Fail? ==> unchanged(data)
  {
    var height, width := data.Length0, data.Length1;
    if height * width < SampleSize {
      return Fail(ValueError("sample larger than population"));
    }
    var k := 0;
    while k < |probes|
      invariant 0 <= k <= |probes|
      invariant forall q :: 0 <= q < k ==> probes[q] / width < lulc.Length0 && probes[q] % width < lulc.Length1
    {
      var row, col := probes[k] / width, probes[k] % width;
      if row >= lulc.Length0 || col >= lulc.Length1 {
        return Fail(IndexError);
      }
      k := k + 1;
    }
    if !(Broadcastable(lulc.Length0, height) && Broadcastable(lulc.Length1, width)) {
      return Fail(ValueError("operands could not be broadcast together"));
    }
    if !(Fits(lulc.Length0, height) && Fits(lulc.Length1, width)) {
      return Fail(IndexError);
    }
    var i := 0;
    while i < height
      invariant 0 <= i <= height
      invariant forall a, b :: 0 <= a < i && 0 <= b < width ==>
        data[a, b] == MaskedValue(old(data[a, b]), inputNodata,
                                  lulc[Bcast(lulc.Length0, a), Bcast(lulc.Length1, b)], lulcNodata, nodata)
      invariant forall a, b :: i <= a < height && 0 <= b < width ==> data[a, b] == old(data[a, b])
    {
      MaskRow(data, i, inputNodata, lulc, lulcNodata, nodata);
      i := i + 1;
    }
    r := Pass;
  }

  /** The mask assignment on row `i`. */
  method MaskRow(data: array2<int>, i: nat, inputNodata: Option<int>, lulc: array2<int>, lulcNodata: Option<int>,
                 nodata: int)
    requires data != lulc && i < data.Length0
    requires Fits(lulc.Length0, data.Length0) && Fits(lulc.Length1, data.Length1)
    modifies data
    ensures forall b :: 0 <= b < data.Length1 ==>
      data[i, b] == MaskedValue(old(data[i, b]), inputNodata,
                                lulc[Bcast(lulc.Length0, i), Bcast(lulc.Length1, b)], lulcNodata, nodata)
    ensures forall a, b :: 0 <= a < data.Length0 && a != i && 0 <= b < data.Length1 ==> data[a, b] == old(data[a, b])
  {
    var j := 0;
    while j < data.Length1
      invariant 0 <= j <= data.Length1
      invariant forall b :: 0 <= b < j ==>
        data[i, b] == MaskedValue(old(data[i, b]), inputNodata,
                                  lulc[Bcast(lulc.Length0, i), Bcast(lulc.Length1, b)], lulcNodata, nodata)
      invariant forall b :: j <= b < data.Length1 ==> data[i, b] == old(data[i, b])
      invariant forall a, b :: 0 <= a < data.Length0 && a != i && 0 <= b < data.Length1 ==> data[a, b] == old(data[a, b])
    {
      var lv := lulc[Bcast(lulc.Length0, i), Bcast(lulc.Length1, j)];
      if Masked(data[i, j], inputNodata, lv, lulcNodata) {
        data[i, j] := nodata;
      }
      j := j + 1;
    }
  }

  /** A fresh copy of the `h` by `w` window of `a` whose top-left pixel is `(top, left)`:
      `ReadAsArray(left, top, w, h)`. */
  method Window(a: array2<int>, top: nat, left: nat, h: nat, w: nat) returns (b: array2<int>)
    requires top + h <= a.Length0 && left + w <= a.Length1
    ensures fresh(b) && b.Length0 == h && b.Length1 == w
    ensures forall i, j :: 0 <= i < h && 0 <= j < w ==> b[i, j] == a[top + i, left + j]
  {
    b := new int[h, w];
    var i := 0;
    while i < h
      invariant 0 <= i <= h
      invariant forall p, q :: 0 <= p < i && 0 <= q < w ==> b[p, q] == a[top + p, left + q]
    {
      var j := 0;
      while j < w
        invariant 0 <= j <= w
        invariant forall p, q :: 0 <= p < i && 0 <= q < w ==> b[p, q] == a[top + p, left + q]
        invariant forall q :: 0 <= q < j ==> b[i, q] == a[top + i, left + q]
      {
        b[i, j] := a[top + i, left + j];
        j := j + 1;
      }
      i := i + 1;
    }
  }

  /** `apply_nodata_mask` as called from the file loop: the band is read into memory and masked
      there, but with `cog` set the dataset is opened read-only, so writing the masked array
      back fails and the band on disk keeps its pixels. */
  method ApplyNodataMask(band: array2<int>, inputNodata: Option<int>, lulc: array2<int>, lulcNodata: Option<int>,
                         nodata: int, cog: bool, probes: seq<nat>)
    returns (r: Outcome)
    requires band != lulc
    requires band.Length0 * band.Length1 >= SampleSize ==>
      |probes| == SampleSize && forall k :: 0 <= k < |probes| ==> probes[k] < band.Length0 * band.Length1
    modifies band
    ensures r == MaskOutcome(band.Length0, band.Length1, lulc.Length0, lulc.Length1, probes)
    ensures cog || r.Fail? ==> unchanged(band)
    ensures !cog && r.Pass? ==> forall i, j :: 0 <= i < band.Length0 && 0 <= j < band.Length1 ==>
      band[i, j] == MaskedValue(old(band[i, j]), inputNodata,
                                lulc[Bcast(lulc.Length0, i), Bcast(lulc.Length1, j)], lulcNodata, nodata)
  {
    if cog {
      var data := Window(band, 0, 0, band.Length0, band.Length1);
      r := MaskGrid(data, inputNodata, lulc, lulcNodata, nodata, probes);
    } else {
      r := MaskGrid(band, inputNodata, lulc, lulcNodata, nodata, probes);
    }
  }

  /** The mask as the docstring intends it: the band is opened for update, so the masked array
      is what the band holds afterwards whatever `cog` says. */
  method ApplyNodataMaskForUpdate(band: array2<int>, inputNodata: Option<int>, lulc: array2<int>,
                                  lulcNodata: Option<int>, nodata: int, probes: seq<nat>)
    returns (r: Outcome)
    requires band != lulc
    requires band.Length0 * band.Length1 >= SampleSize ==>
      |probes| == SampleSize && forall k :: 0 <= k < |probes| ==> probes[k] < band.Length0 * band.Length1
    modifies band
    ensures r == MaskOutcome(band.Length0, band.Length1, lulc.Length0, lulc.Length1, probes)
    ensures r.Fail? ==> unchanged(band)
    ensures r.Pass? ==> forall i, j :: 0 <= i < band.Length0 && 0 <= j < band.Length1 ==>
      band[i, j] == MaskedValue(old(band[i, j]), inputNodata,
                                lulc[Bcast(lulc.Length0, i), Bcast(lulc.Length1, j)], lulcNodata, nodata)
  {
    r := MaskGrid(band, inputNodata, lulc, lulcNodata, nodata, probes);
  }

  /** The read-only open on a concrete band: in a 2 by 5 band whose first pixel holds the
      input nodata `-7`, that pixel keeps `-7` after the mask as written, and becomes the new
      nodata `-9999` once the band is opened for update. */
  method ReadOnlyMaskKeepsPixel() returns (kept: int, intended: int)
    ensures kept == -7 && intended == -9999
  {
    var band := new int[2, 5]((i, j) => if i == 0 && j == 0 then -7 else 1);
    var lulc := new int[2, 5]((i, j) => 3);
    var probes: seq<nat> := [0, 1, 2, 3, 4, 5, 6, 7, 8, 9];
    SameShapeMaskOutcome(2, 5, probes);
    var r := ApplyNodataMask(band, Some(-7), lulc, None, -9999, true, probes);
    kept := band[0, 0];
    r := ApplyNodataMaskForUpdate(band, Some(-7), lulc, None, -9999, probes);
    intended := band[0, 0];
  }

  /** A pixel ends up as `nodata` exactly when it was masked or already held `nodata`; an
      unmasked pixel keeps its value. */
  lemma {:induction false} MaskedValueIff(v: int, inputNodata: Option<int>, lv: int, lulcNodata: Option<int>, nodata: int)
    ensures MaskedValue(v, inputNodata, lv, lulcNodata, nodata) == nodata
      <==> Masked(v, inputNodata, lv, lulcNodata) || v == nodata
    ensures !Masked(v, inputNodata, lv, lulcNodata) ==> MaskedValue(v, inputNodata, lv, lulcNodata, nodata) == v
  {
  }

  /** Masking again with the band's new nodata value (`SetNoDataValue(nodata_value)`) changes
      nothing. */
  lemma {:induction false} MaskIdempotent(v: int, inputNodata: Option<int>, lv: int, lulcNodata: Option<int>, nodata: int)
    ensures var once := MaskedValue(v, inputNodata, lv, lulcNodata, nodata);
      MaskedValue(once, Some(nodata), lv, lulcNodata, nodata) == once
  {
  }

  /** A land-use raster of the input's size never makes the mask fail: only a band smaller than
      the sample does. */
  lemma {:induction false} SameShapeMaskOutcome(h: nat, w: nat, probes: seq<nat>)
    requires forall k :: 0 <= k < |probes| ==> probes[k] < h * w
    ensures MaskOutcome(h, w, h, w, probes) ==
      if h * w < SampleSize then Fail(ValueError("sample larger than population")) else Pass
  {
  }

  /** A single-row land-use raster under a taller input: broadcasting would fit, but the probe
      of the first pixel of the second row already indexes past the land-use array. */
  lemma {:induction false} SingleRowProbeFails()
    ensures MaskOutcome(2, 5, 1, 5, [5, 0, 1, 2, 3, 4, 6, 7, 8, 9]) == Fail(IndexError)
  {
    var probes: seq<nat> := [5, 0, 1, 2, 3, 4, 6, 7, 8, 9];
    assert probes[0] / 5 == 1;
    assert !ProbesInside(5, 1, 5, probes);
  }

  // ----- clip_output and check_and_clip -----

  /** `clip_output` completes: the clipped raster is not empty, there is a first band to take
      the data type from, and the read window lies inside the raster. */
  predicate ClipSucceeds(xSize: int, ySize: int, bandCount: nat, size: int) {
    xSize - 2 * size > 0 && ySize - 2 * size > 0 && bandCount >= 1 && size >= 0
  }

  /** `clip_output` on a raster of `xSize` by `ySize` pixels with the given bands: every band
      loses `size` pixels on each side. A clipped size of zero or less is a ValueError; a raster
      without bands fails on its missing first band; a negative `size` makes the window read
      fail, which surfaces when its missing array is checked. */
  method ClipOutput(xSize: nat, ySize: nat, bands: seq<array2<int>>, size: int)
    returns (r: Result<seq<array2<int>>>)
    requires forall k :: 0 <= k < |bands| ==> bands[k].Length0 == ySize && bands[k].Length1 == xSize
    ensures r.Ok? <==> ClipSucceeds(xSize, ySize, |bands|, size)
    ensures xSize - 2 * size <= 0 || ySize - 2 * size <= 0 ==> r.Err? && r.exc.ValueError?
    ensures r.Err? && !(xSize - 2 * size <= 0 || ySize - 2 * size <= 0) ==> r.exc == AttributeError
    ensures r.Ok? ==> |r.value| == |bands| && forall k :: 0 <= k < |bands| ==>
      fresh(r.value[k]) && r.value[k].Length0 == ySize - 2 * size && r.value[k].Length1 == xSize - 2 * size
      && forall i, j :: 0 <= i < ySize - 2 * size && 0 <= j < xSize - 2 * size ==>
           r.value[k][i, j] == bands[k][i + size, j + size]
  {
    var newX, newY := xSize - 2 * size, ySize - 2 * size;
    if newX <= 0 || newY <= 0 {
      return Err(ValueError("size parameter is too large for the input image"));
    }
    if |bands| == 0 {
      return Err(AttributeError);
    }
    if size < 0 {
      return Err(AttributeError);
    }
    var data: seq<array2<int>> := [];
    var b := 0;
    while b < |bands|
      invariant 0 <= b <= |bands| && |data| == b
      invariant forall k :: 0 <= k < b ==>
        fresh(data[k]) && data[k].Length0 == newY && data[k].Length1 == newX
        && forall i, j :: 0 <= i < newY && 0 <= j < newX ==> data[k][i, j] == bands[k][i + size, j + size]
    {
      var window := Window(bands[b], size, size, newY, newX);
      data := data + [window];
      b := b + 1;
    }
    r := Ok(data);
  }

  /** The input is larger than the reference by `size` pixels on every side. */
  predicate HasClipBuffer(xSize: int, ySize: int, refX: int, refY: int, size: int) {
    xSize == refX + 2 * size && ySize == refY + 2 * size
  }

  /** `check_and_clip`: clips only when the input has exactly the buffer, and reports whether
      the clip completed; the clipped bands then have the reference's dimensions. A negative
      `size` with the buffer present is reported as no clip with the bands as given, although
      `clip_output` has by then overwritten the file; the only caller passes `size=1`. */
  method CheckAndClip(xSize: nat, ySize: nat, bands: seq<array2<int>>, refX: nat, refY: nat, size: int)
    returns (clipped: bool, out: seq<array2<int>>)
    requires forall k :: 0 <= k < |bands| ==> bands[k].Length0 == ySize && bands[k].Length1 == xSize
    ensures clipped <==> HasClipBuffer(xSize, ySize, refX, refY, size) && ClipSucceeds(xSize, ySize, |bands|, size)
    ensures !clipped ==> out == bands
    ensures clipped ==> |out| == |bands| && forall k :: 0 <= k < |bands| ==>
      fresh(out[k]) && out[k].Length0 == refY && out[k].Length1 == refX
      && forall i, j :: 0 <= i < refY && 0 <= j < refX ==> out[k][i, j] == bands[k][i + size, j + size]
  {
    if xSize == refX + 2 * size && ySize == refY + 2 * size {
      var r := ClipOutput(xSize, ySize, bands, size);
      if r.Ok? {
        return true, r.value;
      }
    }
    return false, bands;
  }

  /** With the buffer present, the clip completes exactly when the reference is not empty, the
      raster has a band and the buffer is not negative. */
  lemma {:induction false} ClipWithBuffer(xSize: int, ySize: int, refX: int, refY: int, bandCount: nat, size: int)
    requires HasClipBuffer(xSize, ySize, refX, refY, size)
    ensures ClipSucceeds(xSize, ySize, bandCount, size) <==> refX > 0 && refY > 0 && bandCount >= 1 && size >= 0
  {
  }
}
