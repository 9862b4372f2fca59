/**
 * Mapping and unmapping one buffer's dma-buf (__vb_map_dmabuf and
 * __vb_unmap_dmabuf in drivers/vision/vision-core/vision-buffer.c).
 *
 * The dma-buf, IOMMU and vmap calls are foreign; they are replaced by an
 * oracle that says, per fd, whether `dma_buf_get` finds a buffer, how large
 * it is, and what each later step of the mapping chain yields.  Releases are
 * reported as a list of resources so that the bookkeeping can be checked:
 * what a failed map takes, it gives back.
 */
module VisionDma {
  import opened KernelTypes
  import opened VisionTypes

  /** One step of the foreign mapping chain: a handle, or an error pointer carrying an errno. */
  datatype Grant = Granted(handle: nat) | Refused(errno: ErrorNumber)

  /**
   * What the dma-buf layer does for one fd: the size of the buffer, then the
   * outcome of dma_buf_attach, dma_buf_map_attachment, the device-address
   * lookup and npu_dma_buf_vmap.
   */
  datatype Backing = Backing(size: nat, attach: Grant, mapping: Grant, iova: Grant, vmap: Grant)

  /** The fds `dma_buf_get` resolves; any other fd is an error (or NULL) pointer. */
  type DmaOracle = map<int, Backing>

  /** The references a mapping holds, named by what releases them. */
  datatype Resource = KernelMapping | IovaMapping | SgTable | Attachment | BufferRef

  /** What a buffer holds, in the order __vb_unmap_dmabuf releases it. */
  function Held(b: Buffer): (held: seq<Resource>)
    ensures held == [] <==> b.vaddr == 0 && b.daddr == 0 && b.sgt == None && b.attachment == None && b.dmaBuf == None
  {
    (if b.vaddr != 0 then [KernelMapping] else [])
    + (if b.daddr != 0 then [IovaMapping] else [])
    + (if b.sgt.Some? then [SgTable] else [])
    + (if b.attachment.Some? then [Attachment] else [])
    + (if b.dmaBuf.Some? then [BufferRef] else [])
  }

  /**
   * __vb_unmap_dmabuf on a (non-NULL) buffer: release whatever is held, in
   * reverse order of acquisition, then clear every mapping field and the size.
   */
  function Unmap(b: Buffer): (r: (Buffer, seq<Resource>))
    ensures r.0.Unmapped()
    ensures r.0.roi == b.roi && r.0.fd == b.fd && r.0.reserved == b.reserved
    ensures r.1 == Held(b)
  {
    (b.(dmaBuf := None, attachment := None, sgt := None, daddr := 0, vaddr := 0, size := 0), Held(b))
  }

  /** Unmapping a buffer that holds nothing releases nothing, and unmapping twice is unmapping once. */
  lemma UnmapUnmappedReleasesNothing(b: Buffer)
    ensures Held(b) == [] ==> Unmap(b).1 == []
    ensures Unmap(Unmap(b).0) == (Unmap(b).0, [])
  {
  }

  /** The outcome of a map: the buffer afterwards, the return code, and what the rollback released. */
  datatype MapResult = MapResult(buffer: Buffer, ret: int, released: seq<Resource>)

  /** Whether every step of mapping `fd` for `size` bytes succeeds. */
  predicate MapSucceeds(dma: DmaOracle, fd: int, size: u32)
  {
    && fd in dma
    && size <= dma[fd].size
    && dma[fd].attach.Granted? && dma[fd].mapping.Granted?
    && dma[fd].iova.Granted? && dma[fd].vmap.Granted?
  }

  /**
   * What the map takes, in the order it takes it: the dma-buf reference, then
   * (if large enough) the attachment, the sg table, a non-zero device address
   * and a non-NULL kernel address, stopping at the first refusal.
   */
  function Acquired(dma: DmaOracle, fd: int, size: u32): seq<Resource>
  {
    if fd !in dma then []
    else
      var k := dma[fd];
      if size > k.size || k.attach.Refused? then [BufferRef]
      else if k.mapping.Refused? then [BufferRef, Attachment]
      else if k.iova.Refused? then [BufferRef, Attachment, SgTable]
      else
        var withIova := [BufferRef, Attachment, SgTable] + (if k.iova.handle != 0 then [IovaMapping] else []);
        if k.vmap.Refused? then withIova
        else withIova + (if k.vmap.handle != 0 then [KernelMapping] else [])
  }

  /** The reverse of a sequence. */
  function Reverse<T>(s: seq<T>): (r: seq<T>)
    ensures |r| == |s|
    ensures forall i :: 0 <= i < |s| ==> r[i] == s[|s| - 1 - i]
  {
    if |s| == 0 then [] else Reverse(s[1..]) + [s[0]]
  }

  /**
   * __vb_map_dmabuf: clear the mapping fields, then get, size-check, attach,
   * map, look up the device address and vmap; on any failure the partial
   * mapping is torn down by __vb_unmap_dmabuf.
   */
  function Map(b: Buffer, size: u32, dma: DmaOracle): (r: MapResult)
    ensures r.ret == 0 <==> MapSucceeds(dma, b.fd, size)
    ensures r.ret <= 0
    ensures r.buffer.roi == b.roi && r.buffer.fd == b.fd && r.buffer.reserved == b.reserved
    ensures r.ret != 0 ==> r.buffer.Unmapped()
    ensures r.ret == 0 ==>
      && r.buffer.size == size && r.buffer.dmaBuf == Some(b.fd)
      && r.buffer.attachment == Some(dma[b.fd].attach.handle)
      && r.buffer.sgt == Some(dma[b.fd].mapping.handle)
      && r.buffer.daddr == dma[b.fd].iova.handle && r.buffer.vaddr == dma[b.fd].vmap.handle
      && r.released == []
  {
    var cleared := b.(dmaBuf := None, attachment := None, sgt := None, daddr := 0, vaddr := 0);
    if b.fd !in dma then Fail(cleared, -EINVAL)
    else
      var k := dma[b.fd];
      var got := cleared.(dmaBuf := Some(b.fd));
      if k.size < size then Fail(got, -EINVAL)
      else
        var sized := got.(size := size);
        match k.attach
        case Refused(e) => Fail(sized, -(e as int))
        case Granted(a) =>
          var attached := sized.(attachment := Some(a));
          match k.mapping
          case Refused(e) => Fail(attached, -(e as int))
          case Granted(s) =>
            var mapped := attached.(sgt := Some(s));
            match k.iova
            case Refused(_) => Fail(mapped, -ENOMEM)
            case Granted(d) =>
              var addressed := mapped.(daddr := d);
              match k.vmap
              case Refused(_) => Fail(addressed, -EFAULT)
              case Granted(v) => MapResult(addressed.(vaddr := v), 0, [])
  }

  /** The failure exit of __vb_map_dmabuf: unmap what was set so far. */
  function Fail(partial: Buffer, ret: int): (r: MapResult)
    requires ret < 0
    ensures r.ret == ret && r.buffer.Unmapped() && r.released == Held(partial)
    ensures r.buffer.roi == partial.roi && r.buffer.fd == partial.fd && r.buffer.reserved == partial.reserved
  {
    var (unmapped, released) := Unmap(partial);
    MapResult(unmapped, ret, released)
  }

  /** The rollback is exact: a failed map releases precisely what it acquired, newest first. */
  lemma {:induction false} MapReleasesWhatItAcquired(b: Buffer, size: u32, dma: DmaOracle)
    ensures Map(b, size, dma).ret != 0 ==> Map(b, size, dma).released == Reverse(Acquired(dma, b.fd, size))
  {
    if b.fd !in dma {
      assert Map(b, size, dma).released == [];
    } else {
      var k := dma[b.fd];
      if size > k.size || k.attach.Refused? {
        assert Map(b, size, dma).released == [BufferRef];
        assert Reverse([BufferRef]) == [BufferRef];
      } else if k.mapping.Refused? {
        assert Map(b, size, dma).released == [Attachment, BufferRef];
        assert Reverse([BufferRef, Attachment]) == [Attachment, BufferRef];
      } else if k.iova.Refused? {
        assert Map(b, size, dma).released == [SgTable, Attachment, BufferRef];
        assert Reverse([BufferRef, Attachment, SgTable]) == [SgTable, Attachment, BufferRef];
      } else if k.vmap.Refused? {
        ReverseOfChain(k.iova.handle != 0, false);
      }
    }
  }

  /** A successful map holds precisely what it acquired. */
  lemma {:induction false} MapHoldsWhatItAcquired(b: Buffer, size: u32, dma: DmaOracle)
    ensures Map(b, size, dma).ret == 0 ==> Held(Map(b, size, dma).buffer) == Reverse(Acquired(dma, b.fd, size))
  {
    if MapSucceeds(dma, b.fd, size) {
      var k := dma[b.fd];
      ReverseOfChain(k.iova.handle != 0, k.vmap.handle != 0);
    }
  }

  /** The tail of the chain, reversed: optional kernel and device addresses before the fixed three. */
  lemma ReverseOfChain(withIova: bool, withVmap: bool)
    ensures Reverse([BufferRef, Attachment, SgTable] + (if withIova then [IovaMapping] else [])
                    + (if withVmap then [KernelMapping] else []))
         == (if withVmap then [KernelMapping] else []) + (if withIova then [IovaMapping] else [])
            + [SgTable, Attachment, BufferRef]
  {
    var s := [BufferRef, Attachment, SgTable] + (if withIova then [IovaMapping] else [])
             + (if withVmap then [KernelMapping] else []);
    var t := (if withVmap then [KernelMapping] else []) + (if withIova then [IovaMapping] else [])
             + [SgTable, Attachment, BufferRef];
    assert |Reverse(s)| == |t|;
    assert forall i :: 0 <= i < |t| ==> Reverse(s)[i] == t[i];
  }

  /**
   * A map starts by forgetting whatever the buffer held: references of an
   * earlier mapping are neither kept nor released.
   */
  lemma MapForgetsEarlierMapping(b: Buffer, size: u32, dma: DmaOracle)
    requires b.fd !in dma
    ensures Map(b, size, dma).released == []
    ensures Map(b, size, dma).buffer.Unmapped()
  {
  }
}
