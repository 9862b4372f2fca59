/**
 * The static format table of the vision buffer engine, its lookup, the
 * per-plane byte sizes, and the per-entry work of format negotiation
 * (vb_queue_s_format) in drivers/vision/vision-core/vision-buffer.c.
 */
module VisionFormat {
  import opened KernelTypes
  import opened VisionTypes

  /** The entry `vb_fmts[]` holds for each listed colorspace: its planes and bits per pixel. */
  function TableEntry(cs: Colorspace): (f: Fmt)
    requires !cs.Unlisted?
    ensures f.colorspace == cs
  {
    match cs
    case Rgb => Fmt(Rgb, 1, [24])
    case Rgbx => Fmt(Rgbx, 1, [32])
    case Nv12 => Fmt(Nv12, 2, [8, 8])
    case Nv21 => Fmt(Nv21, 2, [8, 8])
    case Yuyv => Fmt(Yuyv, 1, [16])
    case Yuv4 => Fmt(Yuv4, 1, [24])
    case U8 => Fmt(U8, 1, [8])
    case U16 => Fmt(U16, 1, [16])
    case U32 => Fmt(U32, 1, [32])
    case S16 => Fmt(S16, 1, [16])
    case S32 => Fmt(S32, 1, [32])
    case Npu => Fmt(Npu, 1, [8])
    case Dsp => Fmt(Dsp, 1, [8])
  }

  /** `vb_fmts[]`, in table order. */
  const FORMAT_TABLE: seq<Fmt> := [
    TableEntry(Rgb), TableEntry(Rgbx), TableEntry(Nv12), TableEntry(Nv21), TableEntry(Yuyv),
    TableEntry(Yuv4), TableEntry(U8), TableEntry(U16), TableEntry(U32), TableEntry(S16),
    TableEntry(S32), TableEntry(Npu), TableEntry(Dsp)
  ]

  /** The first entry of `table` with colorspace `cs`, scanning from the front. */
  function FindIn(table: seq<Fmt>, cs: Colorspace): (r: Option<Fmt>)
    ensures r.None? <==> forall i :: 0 <= i < |table| ==> table[i].colorspace != cs
    ensures r.Some? ==> r.value in table && r.value.colorspace == cs
    ensures r.Some? ==> exists i :: 0 <= i < |table| && table[i] == r.value && r.value.colorspace == cs
                                    && forall k :: 0 <= k < i ==> table[k].colorspace != cs
  {
    if |table| == 0 then None
    else if table[0].colorspace == cs then Some(table[0])
    else
      var r := FindIn(table[1..], cs);
      assert forall i :: 1 <= i < |table| ==> table[i] == table[1..][i - 1];
      r
  }

  /**
   * `__vb_find_format`: exactly the thirteen listed colorspaces are found,
   * each with its own table entry; any other code is not.
   */
  function FindFormat(cs: Colorspace): (r: Option<Fmt>)
    ensures r.None? <==> cs.Unlisted?
    ensures r.Some? ==> r.value == TableEntry(cs)
  {
    FindFormatIsEntry(cs);
    FindIn(FORMAT_TABLE, cs)
  }

  /** No colorspace appears twice in the table, so the first match is the only one. */
  lemma FormatTableColorspacesDistinct()
    ensures forall i, j :: 0 <= i < j < |FORMAT_TABLE| ==> FORMAT_TABLE[i].colorspace != FORMAT_TABLE[j].colorspace
  {
  }

  /** The position of a listed colorspace in the table. */
  function TableIndex(cs: Colorspace): (i: nat)
    requires !cs.Unlisted?
    ensures i < |FORMAT_TABLE| && FORMAT_TABLE[i] == TableEntry(cs)
  {
    match cs
    case Rgb => 0 case Rgbx => 1 case Nv12 => 2 case Nv21 => 3 case Yuyv => 4
    case Yuv4 => 5 case U8 => 6 case U16 => 7 case U32 => 8 case S16 => 9
    case S32 => 10 case Npu => 11 case Dsp => 12
  }

  /** The table scan finds the entry of every listed colorspace and nothing for any other code. */
  lemma FindFormatIsEntry(cs: Colorspace)
    ensures FindIn(FORMAT_TABLE, cs) == if cs.Unlisted? then None else Some(TableEntry(cs))
  {
    var r := FindIn(FORMAT_TABLE, cs);
    if r.Some? {
      TableHoldsEntries(r.value);
    }
    if !cs.Unlisted? {
      var k := TableIndex(cs);
      assert FORMAT_TABLE[k].colorspace == cs;
    }
  }

  /** Every element of the table is the entry of its own (listed) colorspace. */
  lemma TableHoldsEntries(f: Fmt)
    requires f in FORMAT_TABLE
    ensures !f.colorspace.Unlisted? && f == TableEntry(f.colorspace)
  {
  }

  /** Every table entry has one or two planes, one whole number of bytes per pixel each. */
  lemma TableEntriesWellFormed(cs: Colorspace)
    requires !cs.Unlisted?
    ensures 1 <= TableEntry(cs).planes <= 2 && |TableEntry(cs).bitsPerPixel| == TableEntry(cs).planes
    ensures forall p :: 0 <= p < TableEntry(cs).planes ==>
      TableEntry(cs).bitsPerPixel[p] % 8 == 0 && 8 <= TableEntry(cs).bitsPerPixel[p] <= 32
    ensures TableEntry(cs).planes == 2 <==> cs == Nv12 || cs == Nv21
  {
  }

  /** The byte size of one plane, in u32 arithmetic as the driver computes it. */
  function PlaneBytes(fmt: Fmt, f: VFormat, p: nat): u32
    requires p < |fmt.bitsPerPixel|
  {
    if fmt.colorspace.IsAccelerator() then
      Trunc32((f.pixelFormat / 8) * f.channels * f.width * f.height)
    else
      Trunc32((fmt.bitsPerPixel[p] / 8) * f.width * f.height)
  }

  /**
   * `__vb_plane_size`: the size table of a format, one entry per possible
   * plane; None (the driver's -EINVAL) when the format has more planes than
   * VB_MAX_PLANES.
   */
  function PlaneSizes(fmt: Fmt, f: VFormat, maxPlanes: nat): (r: Option<seq<u32>>)
    requires fmt.planes <= |fmt.bitsPerPixel|
    ensures r.None? <==> fmt.planes > maxPlanes
    ensures r.Some? ==> |r.value| == maxPlanes
    ensures r.Some? ==> forall p :: fmt.planes <= p < maxPlanes ==> r.value[p] == 0
  {
    if fmt.planes > maxPlanes then None
    else Some(seq(maxPlanes, p requires 0 <= p < maxPlanes => if p < fmt.planes then PlaneBytes(fmt, f, p) else 0))
  }

  /** Dropping a factor 8 and restoring it again. */
  lemma ScaleByEight(k: nat, w: nat, h: nat)
    ensures (k * w * h) * 8 == (8 * k) * w * h
  {
  }

  /**
   * For the table's formats and sizes that fit in 32 bits, each plane holds
   * exactly bits-per-pixel/8 bytes per pixel.
   */
  lemma PlaneSizesExact(fmt: Fmt, f: VFormat, maxPlanes: nat, p: nat)
    requires !fmt.colorspace.Unlisted? && fmt == TableEntry(fmt.colorspace)
    requires fmt.planes <= maxPlanes && p < fmt.planes
    requires !fmt.colorspace.IsAccelerator()
    requires fmt.bitsPerPixel[p] * f.width * f.height < 8 * U32_LIMIT
    ensures PlaneSizes(fmt, f, maxPlanes).Some?
    ensures (PlaneSizes(fmt, f, maxPlanes).value[p] as int) * 8 == fmt.bitsPerPixel[p] * f.width * f.height
  {
    TableEntriesWellFormed(fmt.colorspace);
    var b := fmt.bitsPerPixel[p];
    var k := b / 8;
    assert 8 * k == b;
    ScaleByEight(k, f.width, f.height);
    var exact := k * f.width * f.height;
    assert exact * 8 < 8 * U32_LIMIT;
    assert PlaneBytes(fmt, f, p) == exact;
  }

  /** NPU and DSP formats size every plane as pixel_format/8 bytes per channel per pixel. */
  lemma AcceleratorPlaneSizes(fmt: Fmt, f: VFormat, maxPlanes: nat, p: nat)
    requires fmt.planes <= |fmt.bitsPerPixel|
    requires fmt.colorspace.IsAccelerator()
    requires fmt.planes <= maxPlanes && p < fmt.planes
    ensures PlaneSizes(fmt, f, maxPlanes).Some?
    ensures PlaneSizes(fmt, f, maxPlanes).value[p] == PlaneSizes(fmt, f, maxPlanes).value[0]
    ensures (f.pixelFormat / 8) * f.channels * f.width * f.height < U32_LIMIT ==>
      PlaneSizes(fmt, f, maxPlanes).value[p] == (f.pixelFormat / 8) * f.channels * f.width * f.height
  {
  }

  /** `v` carries the caller's colorspace, target, plane, geometry, channels and pixel format unchanged. */
  predicate CopiesRequest(v: VbFormat, f: VFormat)
  {
    v == VbFormat(v.fmt, f.colorspace, f.target, f.plane, f.width, f.height,
                  f.stride, f.cstride, f.channels, f.pixelFormat, v.size)
  }

  /**
   * The per-entry work of vb_queue_s_format: look the colorspace up, copy
   * the caller's fields, reject a plane index of VB_MAX_PLANES or more, and
   * size the planes.  None is the -EINVAL outcome.
   */
  function EntryFormat(f: VFormat, maxPlanes: nat): (r: Option<VbFormat>)
    ensures r.Some? <==> FindFormat(f.colorspace).Some? && f.plane < maxPlanes
                         && FindFormat(f.colorspace).value.planes <= maxPlanes
    ensures r.Some? ==>
      FindFormat(f.colorspace) == Some(r.value.fmt) && CopiesRequest(r.value, f)
      && |r.value.size| == maxPlanes && r.value.Shaped()
  {
    match FindFormat(f.colorspace)
    case None => None
    case Some(fmt) =>
      if f.plane >= maxPlanes then None
      else
        TableEntriesWellFormed(f.colorspace);
        match PlaneSizes(fmt, f, maxPlanes)
        case None => None
        case Some(sizes) =>
          Some(VbFormat(fmt, f.colorspace, f.target, f.plane, f.width, f.height,
                        f.stride, f.cstride, f.channels, f.pixelFormat, sizes))
  }

  /**
   * Collect converted entries in order, giving up at the first one that
   * failed: every value when none failed, None otherwise.
   */
  function AllConverted(xs: seq<Option<VbFormat>>): (r: Option<seq<VbFormat>>)
    ensures r.Some? <==> forall i :: 0 <= i < |xs| ==> xs[i].Some?
    ensures r.Some? ==> |r.value| == |xs| && forall i :: 0 <= i < |xs| ==> Some(r.value[i]) == xs[i]
  {
    if |xs| == 0 then Some([])
    else if xs[0].None? then None
    else
      assert forall i :: 1 <= i < |xs| ==> xs[i] == xs[1..][i - 1];
      match AllConverted(xs[1..])
      case None => None
      case Some(rest) =>
        var r := [xs[0].value] + rest;
        assert forall i :: 1 <= i < |xs| ==> r[i] == rest[i - 1];
        Some(r)
  }

  /**
   * The loop of vb_queue_s_format over the caller's entries: convert them in
   * order and give up (-EINVAL) at the first one that fails.
   */
  function BuildFormats(entries: seq<VFormat>, maxPlanes: nat): (r: Option<seq<VbFormat>>)
    ensures r.Some? <==> forall i :: 0 <= i < |entries| ==> EntryFormat(entries[i], maxPlanes).Some?
    ensures r.Some? ==> |r.value| == |entries|
    ensures r.Some? ==> forall i :: 0 <= i < |entries| ==> r.value[i] == EntryFormat(entries[i], maxPlanes).value
  {
    var converted := seq(|entries|, i requires 0 <= i < |entries| => EntryFormat(entries[i], maxPlanes));
    assert forall i :: 0 <= i < |entries| ==> converted[i] == EntryFormat(entries[i], maxPlanes);
    var r := AllConverted(converted);
    assert r.Some? ==> forall i :: 0 <= i < |entries| ==> Some(r.value[i]) == EntryFormat(entries[i], maxPlanes);
    r
  }
}
