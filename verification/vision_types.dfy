/**
 * The records of the vision buffer-queue engine
 * (drivers/vision/vision-core/vision-buffer.c) as immutable values.
 *
 * Two families mirror the two sides of the ioctl boundary: the `V…` records
 * are what a caller hands in (`struct vs4l_container_list` and friends), the
 * others are the kernel's own bookkeeping (`struct vb_bundle`,
 * `vb_container`, `vb_buffer`, `vb_format`).  C counts that size an array
 * (`count` fields) are the lengths of the corresponding sequences.
 *
 * The numeric values of the VS4L_* enumerators live in a header that is not
 * part of this model, so each enumeration is a datatype whose named
 * constructors are the values the engine tests for and whose last
 * constructor stands for every other value.
 */
module VisionTypes {
  import opened KernelTypes

  /** VS4L_DF_IMAGE_*: the pixel layouts the format table knows, and any other code. */
  datatype Colorspace =
    | Rgb | Rgbx | Nv12 | Nv21 | Yuyv | Yuv4
    | U8 | U16 | U32 | S16 | S32
    | Npu | Dsp
    | Unlisted(code: u32)
  {
    /** NPU and DSP buffers are sized from the caller's pixel format and channel count. */
    predicate IsAccelerator() { this == Npu || this == Dsp }
  }

  /** VS4L_MEMORY_*: how a container's buffers are passed in. */
  datatype MemoryKind = Dmabuf | Virtptr | OtherMemory(code: u32)

  /** VS4L_BUFFER_*: the container layouts. */
  datatype BufferType = BufferList | BufferRoi | BufferPyramid | OtherType(code: u32)
  {
    /** The three layouts __vb_buf_prepare and __vb_buf_unprepare accept. */
    predicate IsSupported() { this == BufferList || this == BufferRoi || this == BufferPyramid }
  }

  /** VS4L_CL_FLAG_*: bits of a container list's or a bundle's flag word; `OtherFlag` is any other bit. */
  datatype ClFlag =
    | Timestamp | Prepare | Invalid | Done | FwTimeout
    | HwTimeoutRecovered | HwTimeoutNotRecoverable | EnableFence
    | OtherFlag(bit: nat)

  /** The six completion flags copied from a bundle back to the caller. */
  const BUNDLE_REPORTED: set<ClFlag> :=
    {Prepare, Invalid, Done, FwTimeout, HwTimeoutRecovered, HwTimeoutNotRecoverable}

  /** The seven flags __fill_vs4l_buffer clears in the caller's word before reporting. */
  const FILL_CLEARED: set<ClFlag> := {Timestamp} + BUNDLE_REPORTED

  /** VB_BUF_STATE_*: where a bundle is in its life cycle. */
  datatype BufState = Dequeued | Queued | Process | DoneState

  /** A region of interest; only ever copied. */
  datatype Roi = Roi(x: u32, y: u32, w: u32, h: u32)

  /** VB_MAX_BUFFER, VB_MAX_CONTAINERLIST and VB_MAX_PLANES, positive build-time constants. */
  datatype Limits = Limits(maxBuffer: nat, maxContainerList: nat, maxPlanes: nat)
  {
    predicate Valid() { maxBuffer > 0 && maxContainerList > 0 && maxPlanes > 0 }
  }

  // ---------------------------------------------------------------------
  // Caller side (struct vs4l_*)

  /** `struct vs4l_buffer`: a region, the buffer handle (fd), and a word carried back and forth. */
  datatype VBuffer = VBuffer(roi: Roi, fd: int, reserved: u32)

  /** `struct vs4l_container`. */
  datatype VContainer = VContainer(
    memory: MemoryKind,
    reserved: seq<u32>,
    target: u32,
    kind: BufferType,
    buffers: seq<VBuffer>)

  /**
   * `struct vs4l_container_list`.  `stampUsec` is `timestamp[5].tv_usec`,
   * the only timestamp entry the engine copies in.
   */
  datatype VContainerList = VContainerList(
    direction: u32,
    id: u32,
    index: u32,
    flags: set<ClFlag>,
    stampUsec: int,
    containers: seq<VContainer>)

  /** `struct vs4l_format`: one negotiated stream format. */
  datatype VFormat = VFormat(
    colorspace: Colorspace,
    target: u32,
    plane: u32,
    width: u32,
    height: u32,
    stride: u32,
    cstride: u32,
    channels: u32,
    pixelFormat: u32)

  // ---------------------------------------------------------------------
  // Kernel side

  /**
   * `struct vb_fmt`: an entry of the static format table.  The entry's
   * human-readable name serves only debug output and is not modelled.
   */
  datatype Fmt = Fmt(colorspace: Colorspace, planes: nat, bitsPerPixel: seq<nat>)

  /**
   * `struct vb_format`: a negotiated format.  `size` has one entry per
   * possible plane (VB_MAX_PLANES); entries past the format's planes stay 0
   * as the zeroing allocation left them.
   */
  datatype VbFormat = VbFormat(
    fmt: Fmt,
    colorspace: Colorspace,
    target: u32,
    plane: u32,
    width: u32,
    height: u32,
    stride: u32,
    cstride: u32,
    channels: u32,
    pixelFormat: u32,
    size: seq<u32>)
  {
    /** The byte size a buffer of this format must have: plane 0 for NPU/DSP, else the selected plane. */
    function BufferBytes(): u32
      requires Shaped()
    {
      if colorspace.IsAccelerator() then size[0] else size[plane]
    }

    /** The size table covers the selected plane. */
    predicate Shaped() { 0 < |size| && plane < |size| }
  }

  /**
   * `struct vb_buffer`.  A dma-buf mapping is the chain dma_buf → attachment
   * → sg table → device address (daddr) → kernel address (vaddr); the first
   * three are pointers (None = NULL), the addresses are numbers (0 = none).
   * The dma_buf is identified by the fd it was obtained from.
   */
  datatype Buffer = Buffer(
    roi: Roi,
    fd: int,
    reserved: u32,
    size: u32,
    dmaBuf: Option<int>,
    attachment: Option<nat>,
    sgt: Option<nat>,
    daddr: nat,
    vaddr: nat)
  {
    /** Holds no mapping and no size: the state after an unmap. */
    predicate Unmapped() {
      dmaBuf == None && attachment == None && sgt == None && daddr == 0 && vaddr == 0 && size == 0
    }
  }

  /** `struct vb_container`; `format` is a copy of the negotiated format it points to. */
  datatype Container = Container(
    memory: MemoryKind,
    reserved: seq<u32>,
    target: u32,
    kind: BufferType,
    format: VbFormat,
    buffers: seq<Buffer>)

  /** `struct vb_container_list` inside a bundle. */
  datatype ClList = ClList(
    index: u32,
    id: u32,
    direction: u32,
    flags: set<ClFlag>,
    stampUsec: int,
    containers: seq<Container>)

  /** `struct vb_bundle`: one submission slot's contents. */
  datatype Bundle = Bundle(state: BufState, flags: set<ClFlag>, clist: ClList)
  {
    predicate Prepared() { Prepare in flags }

    /** Every container's format can size its buffers. */
    predicate Shaped() {
      forall i :: 0 <= i < |clist.containers| ==> clist.containers[i].format.Shaped()
    }

    /** Every buffer of every container is unmapped. */
    predicate AllUnmapped() {
      forall i, j :: 0 <= i < |clist.containers| && 0 <= j < |clist.containers[i].buffers| ==>
        clist.containers[i].buffers[j].Unmapped()
    }
  }
}
