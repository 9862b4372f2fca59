/**
 * Operations on one submission bundle of the vision buffer engine
 * (drivers/vision/vision-core/vision-buffer.c): building it from a caller's
 * container list (the fill part of __vb_queue_alloc), the reuse check
 * (__vb_queue_check), mapping and unmapping all its buffers
 * (__vb_buf_prepare, __vb_buf_unprepare), and reporting it back
 * (__fill_vs4l_buffer).
 *
 * The driver callbacks buf_prepare / buf_unprepare are represented by the
 * return code they produce.
 */
module VisionBundle {
  import opened KernelTypes
  import opened VisionTypes
  import opened VisionDma

  // ---------------------------------------------------------------------
  // Building a bundle (__vb_queue_alloc)

  /** The first negotiated format whose target is `target`. */
  function LookupTarget(formats: seq<VbFormat>, target: u32): (r: Option<VbFormat>)
    ensures r.None? <==> forall j :: 0 <= j < |formats| ==> formats[j].target != target
    ensures r.Some? ==> exists j :: 0 <= j < |formats| && formats[j] == r.value && r.value.target == target
                                    && forall k :: 0 <= k < j ==> formats[k].target != target
  {
    if |formats| == 0 then None
    else if formats[0].target == target then Some(formats[0])
    else
      assert forall j :: 1 <= j < |formats| ==> formats[j] == formats[1..][j - 1];
      LookupTarget(formats[1..], target)
  }

  /** A kernel buffer for a caller's buffer: its region and fd, nothing mapped. */
  function NewBuffer(u: VBuffer): (b: Buffer)
    ensures b.Unmapped() && b.roi == u.roi && b.fd == u.fd
  {
    Buffer(u.roi, u.fd, 0, 0, None, None, None, 0, 0)
  }

  /** A kernel container for a caller's container, bound to a negotiated format. */
  function NewContainer(u: VContainer, format: VbFormat): (k: Container)
    ensures |k.buffers| == |u.buffers|
    ensures forall j :: 0 <= j < |u.buffers| ==> k.buffers[j] == NewBuffer(u.buffers[j])
  {
    Container(u.memory, u.reserved, u.target, u.kind, format,
              seq(|u.buffers|, j requires 0 <= j < |u.buffers| => NewBuffer(u.buffers[j])))
  }

  /** The containers of a new bundle, or None when some target has no negotiated format. */
  function BuildContainers(us: seq<VContainer>, formats: seq<VbFormat>): (r: Option<seq<Container>>)
    ensures r.Some? <==> forall i :: 0 <= i < |us| ==> LookupTarget(formats, us[i].target).Some?
    ensures r.Some? ==> |r.value| == |us|
    ensures r.Some? ==> forall i :: 0 <= i < |us| ==>
      r.value[i] == NewContainer(us[i], LookupTarget(formats, us[i].target).value)
  {
    if |us| == 0 then Some([])
    else
      assert forall i :: 1 <= i < |us| ==> us[i] == us[1..][i - 1];
      match LookupTarget(formats, us[0].target)
      case None => None
      case Some(format) =>
        match BuildContainers(us[1..], formats)
        case None => None
        case Some(rest) => Some([NewContainer(us[0], format)] + rest)
  }

  /**
   * The bundle __vb_queue_alloc builds: DEQUEUED, no flag set, the caller's
   * header, and every container bound to the first format with its target.
   */
  function NewBundle(c: VContainerList, formats: seq<VbFormat>): (r: Option<Bundle>)
    ensures r.Some? <==> forall i :: 0 <= i < |c.containers| ==> LookupTarget(formats, c.containers[i].target).Some?
    ensures r.Some? ==>
      && r.value.state == Dequeued && r.value.flags == {}
      && r.value.clist.index == c.index && r.value.clist.id == c.id
      && r.value.clist.direction == c.direction && r.value.clist.flags == c.flags
      && r.value.clist.stampUsec == c.stampUsec
      && |r.value.clist.containers| == |c.containers|
      && forall i :: 0 <= i < |c.containers| ==>
           r.value.clist.containers[i] == NewContainer(c.containers[i], LookupTarget(formats, c.containers[i].target).value)
  {
    match BuildContainers(c.containers, formats)
    case None => None
    case Some(ks) => Some(Bundle(Dequeued, {}, ClList(c.index, c.id, c.direction, c.flags, c.stampUsec, ks)))
  }

  /** A new bundle maps nothing, and its formats are negotiated ones. */
  lemma NewBundleUnmapped(c: VContainerList, formats: seq<VbFormat>)
    requires NewBundle(c, formats).Some?
    ensures NewBundle(c, formats).value.AllUnmapped()
    ensures forall i :: 0 <= i < |c.containers| ==> NewBundle(c, formats).value.clist.containers[i].format in formats
    ensures forall i :: 0 <= i < |c.containers| ==>
      && NewBundle(c, formats).value.clist.containers[i].target == c.containers[i].target
      && NewBundle(c, formats).value.clist.containers[i].format.target == c.containers[i].target
      && NewBundle(c, formats).value.clist.containers[i].memory == c.containers[i].memory
      && NewBundle(c, formats).value.clist.containers[i].kind == c.containers[i].kind
  {
    var b := NewBundle(c, formats).value;
    forall i | 0 <= i < |c.containers|
      ensures b.clist.containers[i].format in formats
    {
      var f := LookupTarget(formats, c.containers[i].target).value;
      assert b.clist.containers[i].format == f;
    }
  }

  // ---------------------------------------------------------------------
  // The reuse check (__vb_queue_check)

  /** The per-container agreement the reuse check demands: target, buffer count and every fd. */
  predicate ContainerMatches(k: Container, u: VContainer)
  {
    && k.target == u.target
    && |k.buffers| == |u.buffers|
    && forall j :: 0 <= j < |k.buffers| ==> k.buffers[j].fd == u.buffers[j].fd
  }

  /** The header agreement checked before anything is written: index, direction and container count. */
  predicate HeaderMatches(b: Bundle, c: VContainerList)
  {
    b.clist.index == c.index && b.clist.direction == c.direction && |b.clist.containers| == |c.containers|
  }

  /** A request describes the same buffers as the bundle occupying its slot. */
  predicate Matches(b: Bundle, c: VContainerList)
  {
    && HeaderMatches(b, c)
    && forall i :: 0 <= i < |c.containers| ==> ContainerMatches(b.clist.containers[i], c.containers[i])
  }

  /** A container with every buffer's region taken from the caller's container. */
  function WithRois(k: Container, u: VContainer): Container
    requires |u.buffers| >= |k.buffers|
  {
    k.(buffers := seq(|k.buffers|, j requires 0 <= j < |k.buffers| => k.buffers[j].(roi := u.buffers[j].roi)))
  }

  /**
   * `a` describes the same buffers as `b`: the same header, the same
   * containers apart from their buffers, and the same fd and region in
   * every buffer.
   */
  predicate SameLayout(a: Bundle, b: Bundle)
  {
    && a.clist == b.clist.(containers := a.clist.containers)
    && |a.clist.containers| == |b.clist.containers|
    && forall i :: 0 <= i < |a.clist.containers| ==> SameBuffers(a.clist.containers[i], b.clist.containers[i])
  }

  /** Container `a` is `b` apart from its buffers, which keep their number, fds and regions. */
  predicate SameBuffers(a: Container, b: Container)
  {
    && a == b.(buffers := a.buffers)
    && |a.buffers| == |b.buffers|
    && forall j :: 0 <= j < |a.buffers| ==> a.buffers[j].fd == b.buffers[j].fd && a.buffers[j].roi == b.buffers[j].roi
  }

  /** `after` differs from `before` at most in buffer regions, each either kept or taken from `u`. */
  predicate RoisRefreshed(before: Container, after: Container, u: VContainer)
  {
    && |after.buffers| == |before.buffers|
    && after == before.(buffers := after.buffers)
    && forall j :: 0 <= j < |before.buffers| ==>
         after.buffers[j] == before.buffers[j]
         || (j < |u.buffers| && after.buffers[j] == before.buffers[j].(roi := u.buffers[j].roi))
  }

  /** The position of the first buffer whose fd differs from the caller's, or |bs| if none. */
  function FirstFdMismatch(bs: seq<Buffer>, us: seq<VBuffer>): (j: nat)
    requires |bs| == |us|
    ensures j <= |bs|
    ensures forall k :: 0 <= k < j ==> bs[k].fd == us[k].fd
    ensures j < |bs| ==> bs[j].fd != us[j].fd
  {
    if |bs| == 0 || bs[0].fd != us[0].fd then 0
    else
      assert forall k :: 1 <= k < |bs| ==> bs[k] == bs[1..][k - 1] && us[k] == us[1..][k - 1];
      1 + FirstFdMismatch(bs[1..], us[1..])
  }

  /**
   * The buffer loop of the reuse check: each buffer takes the caller's
   * region and then has its fd compared, so the loop stops after refreshing
   * the first mismatching buffer.
   */
  function CheckBuffers(bs: seq<Buffer>, us: seq<VBuffer>): (r: (seq<Buffer>, bool))
    requires |bs| == |us|
    ensures |r.0| == |bs|
    ensures r.1 <==> forall j :: 0 <= j < |bs| ==> bs[j].fd == us[j].fd
    ensures forall j :: 0 <= j < |bs| ==> r.0[j] == bs[j] || r.0[j] == bs[j].(roi := us[j].roi)
    ensures r.1 ==> forall j :: 0 <= j < |bs| ==> r.0[j] == bs[j].(roi := us[j].roi)
  {
    var failed := FirstFdMismatch(bs, us);
    (seq(|bs|, j requires 0 <= j < |bs| => if j <= failed then bs[j].(roi := us[j].roi) else bs[j]),
     failed == |bs|)
  }

  /** The position of the first container the reuse check rejects, or |ks| if none. */
  function FirstContainerMismatch(ks: seq<Container>, us: seq<VContainer>): (i: nat)
    requires |ks| == |us|
    ensures i <= |ks|
    ensures forall k :: 0 <= k < i ==> ContainerMatches(ks[k], us[k])
    ensures i < |ks| ==> !ContainerMatches(ks[i], us[i])
  {
    if |ks| == 0 || !ContainerMatches(ks[0], us[0]) then 0
    else
      assert forall k :: 1 <= k < |ks| ==> ks[k] == ks[1..][k - 1] && us[k] == us[1..][k - 1];
      1 + FirstContainerMismatch(ks[1..], us[1..])
  }

  /**
   * What the container loop of the reuse check leaves in container `i`:
   * containers before the first rejected one have every region refreshed;
   * the rejected one has its buffers' loop run only if target and count
   * agreed; later ones are untouched.
   */
  function CheckedContainer(ks: seq<Container>, us: seq<VContainer>, failed: nat, i: nat): (k: Container)
    requires |ks| == |us| && i < |ks|
    requires forall k :: 0 <= k < failed && k < |ks| ==> ContainerMatches(ks[k], us[k])
    ensures RoisRefreshed(ks[i], k, us[i])
  {
    if i < failed then
      assert ContainerMatches(ks[i], us[i]);
      WithRois(ks[i], us[i])
    else if i == failed && ks[i].target == us[i].target && |ks[i].buffers| == |us[i].buffers| then
      ks[i].(buffers := CheckBuffers(ks[i].buffers, us[i].buffers).0)
    else ks[i]
  }

  /** The container loop of the reuse check: -EINVAL at the first rejected container. */
  function CheckContainers(ks: seq<Container>, us: seq<VContainer>): (r: (seq<Container>, int))
    requires |ks| == |us|
    ensures |r.0| == |ks|
    ensures r.1 == 0 || r.1 == -EINVAL
    ensures r.1 == 0 <==> forall i :: 0 <= i < |ks| ==> ContainerMatches(ks[i], us[i])
    ensures forall i :: 0 <= i < |ks| ==> RoisRefreshed(ks[i], r.0[i], us[i])
    ensures r.1 == 0 ==> forall i :: 0 <= i < |ks| ==> r.0[i] == WithRois(ks[i], us[i])
  {
    var failed := FirstContainerMismatch(ks, us);
    (seq(|ks|, i requires 0 <= i < |ks| => CheckedContainer(ks, us, failed, i)),
     if failed < |ks| then -EINVAL else 0)
  }

  /**
   * __vb_queue_check: a bundle found in the request's slot must describe the
   * same buffers.  After the header comparison the caller's flags, id,
   * non-zero timestamp and regions are written, even if a later comparison fails.
   */
  function Check(b: Bundle, c: VContainerList): (r: (Bundle, int))
    ensures r.1 == 0 || r.1 == -EINVAL
    ensures r.1 == 0 <==> Matches(b, c)
    ensures !HeaderMatches(b, c) ==> r.0 == b
    ensures HeaderMatches(b, c) ==>
      && r.0.state == b.state && r.0.flags == b.flags
      && r.0.clist.index == b.clist.index && r.0.clist.direction == b.clist.direction
      && r.0.clist.flags == c.flags && r.0.clist.id == c.id
      && r.0.clist.stampUsec == (if c.stampUsec != 0 then c.stampUsec else b.clist.stampUsec)
      && |r.0.clist.containers| == |b.clist.containers|
      && forall i :: 0 <= i < |c.containers| ==> RoisRefreshed(b.clist.containers[i], r.0.clist.containers[i], c.containers[i])
    ensures r.1 == 0 ==> forall i :: 0 <= i < |c.containers| ==>
      r.0.clist.containers[i] == WithRois(b.clist.containers[i], c.containers[i])
  {
    if !HeaderMatches(b, c) then (b, -EINVAL)
    else
      var stamp := if c.stampUsec != 0 then c.stampUsec else b.clist.stampUsec;
      var (ks, ret) := CheckContainers(b.clist.containers, c.containers);
      (b.(clist := b.clist.(flags := c.flags, id := c.id, stampUsec := stamp, containers := ks)), ret)
  }

  /** A bundle just built from a request passes the reuse check against that request unchanged. */
  lemma NewBundlePassesCheck(c: VContainerList, formats: seq<VbFormat>)
    requires NewBundle(c, formats).Some?
    ensures Check(NewBundle(c, formats).value, c) == (NewBundle(c, formats).value, 0)
  {
    var b := NewBundle(c, formats).value;
    forall i | 0 <= i < |c.containers|
      ensures ContainerMatches(b.clist.containers[i], c.containers[i])
      ensures WithRois(b.clist.containers[i], c.containers[i]) == b.clist.containers[i]
    {
      var k := b.clist.containers[i];
      assert k == NewContainer(c.containers[i], LookupTarget(formats, c.containers[i].target).value);
      var w := WithRois(k, c.containers[i]);
      assert w.buffers == k.buffers;
    }
    var r := Check(b, c);
    assert r.0.clist.containers == b.clist.containers;
  }

  /** Bundles with the same layout share their formats, so shape carries over. */
  lemma SameLayoutShaped(a: Bundle, b: Bundle)
    requires SameLayout(a, b) && b.Shaped()
    ensures a.Shaped()
    ensures a.clist.index == b.clist.index && a.clist.direction == b.clist.direction
  {
    forall i | 0 <= i < |a.clist.containers|
      ensures a.clist.containers[i].format.Shaped()
    {
      assert a.clist.containers[i].format == b.clist.containers[i].format;
    }
  }

  /** A request that matches a bundle matches every bundle with the same layout. */
  lemma MatchesSameLayout(a: Bundle, b: Bundle, c: VContainerList)
    requires SameLayout(a, b) && Matches(b, c)
    ensures Matches(a, c)
  {
  }

  /** A successful check leaves a bundle that still matches the request. */
  lemma CheckKeepsMatch(b: Bundle, c: VContainerList)
    requires Check(b, c).1 == 0
    ensures Matches(Check(b, c).0, c)
  {
    var r := Check(b, c).0;
    forall i | 0 <= i < |c.containers|
      ensures ContainerMatches(r.clist.containers[i], c.containers[i])
    {
      assert RoisRefreshed(b.clist.containers[i], r.clist.containers[i], c.containers[i]);
    }
  }

  /** The check keeps a bundle's slot, direction, state and formats. */
  lemma CheckKeepsShape(b: Bundle, c: VContainerList)
    requires b.Shaped()
    ensures Check(b, c).0.Shaped()
    ensures Check(b, c).0.clist.index == b.clist.index && Check(b, c).0.clist.direction == b.clist.direction
    ensures Check(b, c).0.state == b.state && Check(b, c).0.flags == b.flags
  {
    var r := Check(b, c).0;
    forall k | 0 <= k < |b.clist.containers|
      ensures r.clist.containers[k].format == b.clist.containers[k].format
    {
      if HeaderMatches(b, c) {
        assert RoisRefreshed(b.clist.containers[k], r.clist.containers[k], c.containers[k]);
      }
    }
  }

  /** Copying reserved words in keeps the bundle's layout. */
  lemma ReservedInKeepsLayout(b: Bundle, c: VContainerList)
    requires CanReceive(b, c)
    ensures SameLayout(ReservedIn(b, c), b)
  {
  }

  /**
   * A request that already agrees with the bundle in every field the check
   * writes leaves the bundle as it is.
   */
  lemma CheckIdentity(b: Bundle, c: VContainerList)
    requires Matches(b, c)
    requires b.clist.flags == c.flags && b.clist.id == c.id
    requires c.stampUsec != 0 ==> b.clist.stampUsec == c.stampUsec
    requires forall i, j :: 0 <= i < |c.containers| && 0 <= j < |c.containers[i].buffers| ==>
      b.clist.containers[i].buffers[j].roi == c.containers[i].buffers[j].roi
    ensures Check(b, c) == (b, 0)
  {
    forall i | 0 <= i < |c.containers|
      ensures WithRois(b.clist.containers[i], c.containers[i]) == b.clist.containers[i]
    {
      var w := WithRois(b.clist.containers[i], c.containers[i]);
      assert w.buffers == b.clist.containers[i].buffers;
    }
    assert Check(b, c).0.clist.containers == b.clist.containers;
  }

  // ---------------------------------------------------------------------
  // Prepare (__vb_buf_prepare)

  /** The position of the first buffer whose map would fail, or |bs| if none. */
  function FirstMapFailure(bs: seq<Buffer>, size: u32, dma: DmaOracle): (k: nat)
    ensures k <= |bs|
    ensures forall j :: 0 <= j < k ==> MapSucceeds(dma, bs[j].fd, size)
    ensures k < |bs| ==> !MapSucceeds(dma, bs[k].fd, size)
  {
    if |bs| == 0 then 0
    else if !MapSucceeds(dma, bs[0].fd, size) then 0
    else
      assert forall j :: 1 <= j < |bs| ==> bs[j] == bs[1..][j - 1];
      1 + FirstMapFailure(bs[1..], size, dma)
  }

  /**
   * Map a container's buffers in order, stopping at the first failure: the
   * buffers before it stay mapped, the failing one is rolled back, the rest
   * are untouched; the result is the failing map's code, or 0.
   */
  function MapBuffers(bs: seq<Buffer>, size: u32, dma: DmaOracle): (r: (seq<Buffer>, int))
    ensures |r.0| == |bs|
    ensures forall j :: 0 <= j < |bs| ==>
      r.0[j] == if j <= FirstMapFailure(bs, size, dma) then Map(bs[j], size, dma).buffer else bs[j]
    ensures r.1 == if FirstMapFailure(bs, size, dma) < |bs| then Map(bs[FirstMapFailure(bs, size, dma)], size, dma).ret else 0
    ensures r.1 <= 0
    ensures r.1 == 0 <==> FirstMapFailure(bs, size, dma) == |bs|
  {
    var failed := FirstMapFailure(bs, size, dma);
    (seq(|bs|, j requires 0 <= j < |bs| => if j <= failed then Map(bs[j], size, dma).buffer else bs[j]),
     if failed < |bs| then Map(bs[failed], size, dma).ret else 0)
  }

  /** The type and memory kind prepare and unprepare accept: a supported layout in DMABUF memory. */
  predicate Releasable(k: Container)
  {
    k.kind.IsSupported() && k.memory == Dmabuf
  }

  /** A container prepare can map completely. */
  predicate ContainerPreparable(k: Container, dma: DmaOracle)
    requires k.format.Shaped()
  {
    Releasable(k) && FirstMapFailure(k.buffers, k.format.BufferBytes(), dma) == |k.buffers|
  }

  /** One iteration of the container loop of __vb_buf_prepare. */
  function PrepareContainer(k: Container, dma: DmaOracle): (r: (Container, int))
    requires k.format.Shaped()
    ensures SameBuffers(r.0, k)
    ensures r.1 <= 0
    ensures r.1 == 0 <==> ContainerPreparable(k, dma)
  {
    if !k.kind.IsSupported() || k.memory != Dmabuf then (k, -EINVAL)
    else
      var (bs, ret) := MapBuffers(k.buffers, k.format.BufferBytes(), dma);
      (k.(buffers := bs), ret)
  }

  /** The position of the first container prepare cannot map completely, or |ks| if none. */
  function FirstUnpreparable(ks: seq<Container>, dma: DmaOracle): (i: nat)
    requires forall i :: 0 <= i < |ks| ==> ks[i].format.Shaped()
    ensures i <= |ks|
    ensures forall j :: 0 <= j < i ==> ContainerPreparable(ks[j], dma)
    ensures i < |ks| ==> !ContainerPreparable(ks[i], dma)
  {
    if |ks| == 0 then 0
    else if !ContainerPreparable(ks[0], dma) then 0
    else
      assert forall j :: 1 <= j < |ks| ==> ks[j] == ks[1..][j - 1];
      1 + FirstUnpreparable(ks[1..], dma)
  }

  /**
   * The container loop of __vb_buf_prepare: containers are prepared in order
   * and the loop stops at the first one that fails, leaving the rest as they
   * were; the result is that container's code, or 0.
   */
  function PrepareContainers(ks: seq<Container>, dma: DmaOracle): (r: (seq<Container>, int))
    requires forall i :: 0 <= i < |ks| ==> ks[i].format.Shaped()
    ensures |r.0| == |ks|
    ensures forall i :: 0 <= i < |ks| ==>
      r.0[i] == if i <= FirstUnpreparable(ks, dma) then PrepareContainer(ks[i], dma).0 else ks[i]
    ensures r.1 == if FirstUnpreparable(ks, dma) < |ks| then PrepareContainer(ks[FirstUnpreparable(ks, dma)], dma).1 else 0
    ensures r.1 == 0 <==> FirstUnpreparable(ks, dma) == |ks|
    ensures forall i :: 0 <= i < |ks| ==> SameBuffers(r.0[i], ks[i])
  {
    var failed := FirstUnpreparable(ks, dma);
    (seq(|ks|, i requires 0 <= i < |ks| => if i <= failed then PrepareContainer(ks[i], dma).0 else ks[i]),
     if failed < |ks| then PrepareContainer(ks[failed], dma).1 else 0)
  }

  /**
   * __vb_buf_prepare: nothing to do when PREPARE is set; otherwise map every
   * buffer, call the driver's buf_prepare (`driverRet`), and set PREPARE only
   * when all of it succeeded.
   */
  function BufPrepare(b: Bundle, dma: DmaOracle, driverRet: int): (r: (Bundle, int))
    requires b.Shaped()
    ensures b.Prepared() ==> r == (b, 0)
    ensures !b.Prepared() ==>
      (r.1 == 0 <==> FirstUnpreparable(b.clist.containers, dma) == |b.clist.containers| && driverRet == 0)
    ensures r.0.Prepared() <==> b.Prepared() || r.1 == 0
    ensures r.0.state == b.state && r.0.flags - {Prepare} == b.flags - {Prepare}
    ensures r.0.Shaped()
    ensures SameLayout(r.0, b)
  {
    if b.Prepared() then (b, 0)
    else
      var (ks, ret) := PrepareContainers(b.clist.containers, dma);
      var mapped := b.(clist := b.clist.(containers := ks));
      if ret != 0 then (mapped, ret)
      else if driverRet != 0 then (mapped, driverRet)
      else (mapped.(flags := mapped.flags + {Prepare}), 0)
  }

  // ---------------------------------------------------------------------
  // Unprepare (__vb_buf_unprepare)

  /** Unmap every buffer of a container (an unmap of a non-NULL buffer cannot fail). */
  function Released(k: Container): (r: Container)
    ensures r == k.(buffers := r.buffers) && |r.buffers| == |k.buffers|
    ensures forall j :: 0 <= j < |k.buffers| ==> r.buffers[j].Unmapped() && r.buffers[j].fd == k.buffers[j].fd && r.buffers[j].roi == k.buffers[j].roi
  {
    k.(buffers := seq(|k.buffers|, j requires 0 <= j < |k.buffers| => Unmap(k.buffers[j]).0))
  }

  /** The position of the first container of the wrong type or memory kind, or |ks| if none. */
  function FirstUnreleasable(ks: seq<Container>): (i: nat)
    ensures i <= |ks|
    ensures forall j :: 0 <= j < i ==> Releasable(ks[j])
    ensures i < |ks| ==> !Releasable(ks[i])
  {
    if |ks| == 0 then 0
    else if !Releasable(ks[0]) then 0
    else
      assert forall j :: 1 <= j < |ks| ==> ks[j] == ks[1..][j - 1];
      1 + FirstUnreleasable(ks[1..])
  }

  /**
   * The container loop of __vb_buf_unprepare: containers are released in
   * order until one of the wrong type or memory kind, which ends the loop
   * with -EINVAL and leaves it and the rest as they were.
   */
  function UnprepareContainers(ks: seq<Container>): (r: (seq<Container>, int))
    ensures |r.0| == |ks|
    ensures forall i :: 0 <= i < |ks| ==> r.0[i] == if i < FirstUnreleasable(ks) then Released(ks[i]) else ks[i]
    ensures r.1 == 0 || r.1 == -EINVAL
    ensures r.1 == 0 <==> FirstUnreleasable(ks) == |ks|
  {
    var failed := FirstUnreleasable(ks);
    (seq(|ks|, i requires 0 <= i < |ks| => if i < failed then Released(ks[i]) else ks[i]),
     if failed < |ks| then -EINVAL else 0)
  }

  /**
   * __vb_buf_unprepare: nothing to do when PREPARE is clear; otherwise unmap
   * every buffer, call the driver's buf_unprepare (`driverRet`), and clear
   * PREPARE only when all of it succeeded.
   */
  function BufUnprepare(b: Bundle, driverRet: int): (r: (Bundle, int))
    ensures !b.Prepared() ==> r == (b, 0)
    ensures b.Prepared() ==> (r.1 == 0 <==> FirstUnreleasable(b.clist.containers) == |b.clist.containers| && driverRet == 0)
    ensures r.0.Prepared() <==> b.Prepared() && r.1 != 0
    ensures b.Prepared() && FirstUnreleasable(b.clist.containers) == |b.clist.containers| ==> r.0.AllUnmapped()
    ensures r.0.state == b.state && r.0.flags - {Prepare} == b.flags - {Prepare}
    ensures SameLayout(r.0, b)
  {
    if !b.Prepared() then (b, 0)
    else
      var (ks, ret) := UnprepareContainers(b.clist.containers);
      var unmapped := b.(clist := b.clist.(containers := ks));
      if ret != 0 then (unmapped, ret)
      else if driverRet != 0 then (unmapped, driverRet)
      else (unmapped.(flags := unmapped.flags - {Prepare}), 0)
  }

  /** A bundle whose unprepare succeeded is unmapped, so a repeated unprepare is a no-op. */
  lemma UnprepareIdempotent(b: Bundle, driverRet: int, driverRet2: int)
    requires BufUnprepare(b, driverRet).1 == 0
    ensures BufUnprepare(BufUnprepare(b, driverRet).0, driverRet2) == (BufUnprepare(b, driverRet).0, 0)
  {
  }

  /** A bundle whose prepare succeeded is prepared, so a repeated prepare is a no-op. */
  lemma PrepareIdempotent(b: Bundle, dma: DmaOracle, dma2: DmaOracle, driverRet: int, driverRet2: int)
    requires b.Shaped()
    requires BufPrepare(b, dma, driverRet).1 == 0
    ensures BufPrepare(BufPrepare(b, dma, driverRet).0, dma2, driverRet2) == (BufPrepare(b, dma, driverRet).0, 0)
  {
  }

  /** Unmapping a buffer freshly mapped from the unmapped state gives the original buffer back. */
  lemma UnmapAfterMap(x: Buffer, size: u32, dma: DmaOracle)
    requires x.Unmapped()
    ensures Unmap(Map(x, size, dma).buffer).0 == x
  {
  }

  /** The container-level round trip: release after a complete prepare restores the container. */
  lemma {:induction false} ReleaseAfterPrepare(k: Container, dma: DmaOracle)
    requires k.format.Shaped()
    requires forall j :: 0 <= j < |k.buffers| ==> k.buffers[j].Unmapped()
    requires ContainerPreparable(k, dma)
    ensures Released(PrepareContainer(k, dma).0) == k
  {
    var p := PrepareContainer(k, dma).0;
    var size := k.format.BufferBytes();
    var r := Released(p);
    forall j | 0 <= j < |k.buffers|
      ensures r.buffers[j] == k.buffers[j]
    {
      assert p.buffers[j] == Map(k.buffers[j], size, dma).buffer;
      UnmapAfterMap(k.buffers[j], size, dma);
    }
    assert r.buffers == k.buffers;
  }

  /**
   * Prepare and unprepare are inverse: a bundle prepared from the unmapped
   * state, with both driver callbacks succeeding, unprepares back to itself.
   */
  lemma {:induction false} UnprepareAfterPrepare(b: Bundle, dma: DmaOracle)
    requires b.Shaped() && !b.Prepared() && b.AllUnmapped()
    requires BufPrepare(b, dma, 0).1 == 0
    ensures BufUnprepare(BufPrepare(b, dma, 0).0, 0) == (b, 0)
  {
    var ks := b.clist.containers;
    var p := BufPrepare(b, dma, 0).0;
    var pks := p.clist.containers;
    assert FirstUnpreparable(ks, dma) == |ks|;
    forall i | 0 <= i < |ks|
      ensures Releasable(pks[i])
      ensures Released(pks[i]) == ks[i]
    {
      assert pks[i] == PrepareContainer(ks[i], dma).0;
      ReleaseAfterPrepare(ks[i], dma);
    }
    assert FirstUnreleasable(pks) == |pks|;
    var u := BufUnprepare(p, 0);
    assert u.0.clist.containers == ks;
    assert u.0.flags == p.flags - {Prepare};
    assert u.0.flags == b.flags;
  }

  /** Unprepare of a bundle this engine prepared can fail only through the driver's callback. */
  lemma {:induction false} UnprepareOfPreparedFailsOnlyInDriver(b: Bundle, dma: DmaOracle, driverRet: int, driverRet2: int)
    requires b.Shaped() && !b.Prepared()
    requires BufPrepare(b, dma, driverRet).1 == 0
    ensures BufUnprepare(BufPrepare(b, dma, driverRet).0, driverRet2).1 == driverRet2
  {
    var ks := b.clist.containers;
    var pks := BufPrepare(b, dma, driverRet).0.clist.containers;
    forall i | 0 <= i < |ks|
      ensures Releasable(pks[i])
    {
      assert ContainerPreparable(ks[i], dma);
    }
    assert FirstUnreleasable(pks) == |pks|;
  }

  /**
   * Prepare succeeds only for DMABUF containers, so the VIRTPTR case the
   * qbuf sync loop skips never reaches it with a freshly prepared bundle.
   */
  lemma PreparedContainersAreDmabuf(b: Bundle, dma: DmaOracle, driverRet: int)
    requires b.Shaped() && !b.Prepared()
    requires BufPrepare(b, dma, driverRet).1 == 0
    ensures forall i :: 0 <= i < |b.clist.containers| ==>
      BufPrepare(b, dma, driverRet).0.clist.containers[i].memory == Dmabuf
  {
    forall i | 0 <= i < |b.clist.containers|
      ensures BufPrepare(b, dma, driverRet).0.clist.containers[i].memory == Dmabuf
    {
      assert ContainerPreparable(b.clist.containers[i], dma);
    }
  }

  /** Memory that is not DMABUF makes prepare fail with -EINVAL. */
  lemma PrepareRejectsOtherMemory(b: Bundle, dma: DmaOracle, driverRet: int, i: nat)
    requires b.Shaped() && !b.Prepared()
    requires i < |b.clist.containers| && b.clist.containers[i].memory != Dmabuf
    requires forall j :: 0 <= j < i ==> ContainerPreparable(b.clist.containers[j], dma)
    ensures BufPrepare(b, dma, driverRet).1 == -EINVAL
    ensures !BufPrepare(b, dma, driverRet).0.Prepared()
  {
    var ks := b.clist.containers;
    if FirstUnpreparable(ks, dma) < i {
      assert false;
    }
    assert !ContainerPreparable(ks[i], dma);
    assert FirstUnpreparable(ks, dma) == i;
  }

  // ---------------------------------------------------------------------
  // Reporting back (__fill_vs4l_buffer)

  /** The caller's container list has room for every buffer of the bundle. */
  predicate CanReceive(b: Bundle, c: VContainerList)
  {
    && |c.containers| >= |b.clist.containers|
    && forall i :: 0 <= i < |b.clist.containers| ==> |c.containers[i].buffers| >= |b.clist.containers[i].buffers|
  }

  /** The caller's container with the kernel buffers' reserved words copied out. */
  function ReservedOut(u: VContainer, k: Container): (r: VContainer)
    requires |u.buffers| >= |k.buffers|
    ensures r == u.(buffers := r.buffers) && |r.buffers| == |u.buffers|
    ensures forall j :: 0 <= j < |u.buffers| ==>
      r.buffers[j] == if j < |k.buffers| then u.buffers[j].(reserved := k.buffers[j].reserved) else u.buffers[j]
  {
    u.(buffers := seq(|u.buffers|, j requires 0 <= j < |u.buffers| =>
         if j < |k.buffers| then u.buffers[j].(reserved := k.buffers[j].reserved) else u.buffers[j]))
  }

  /**
   * The flag word __fill_vs4l_buffer reports: the caller's word with the
   * seven reported flags cleared, then TIMESTAMP set from the container
   * list and each completion flag set from the bundle.
   */
  function ReportedFlags(caller: set<ClFlag>, listFlags: set<ClFlag>, bundleFlags: set<ClFlag>): (r: set<ClFlag>)
    ensures r - FILL_CLEARED == caller - FILL_CLEARED
    ensures Timestamp in r <==> Timestamp in listFlags
    ensures r * BUNDLE_REPORTED == bundleFlags * BUNDLE_REPORTED
  {
    (caller - FILL_CLEARED) + (listFlags * {Timestamp}) + (bundleFlags * BUNDLE_REPORTED)
  }

  /**
   * __fill_vs4l_buffer: report the flags, the timestamp (when the container
   * list carries one), the index and the id back into the caller's list;
   * with `fill`, also copy out every buffer's reserved word.
   */
  function Fill(b: Bundle, c: VContainerList, fill: bool): (r: VContainerList)
    requires fill ==> CanReceive(b, c)
    ensures r.flags - FILL_CLEARED == c.flags - FILL_CLEARED
    ensures Timestamp in r.flags <==> Timestamp in b.clist.flags
    ensures r.flags * BUNDLE_REPORTED == b.flags * BUNDLE_REPORTED
    ensures r.index == b.clist.index && r.id == b.clist.id && r.direction == c.direction
    ensures r.stampUsec == if Timestamp in b.clist.flags then b.clist.stampUsec else c.stampUsec
    ensures !fill ==> r.containers == c.containers
    ensures fill ==> |r.containers| == |c.containers|
    ensures fill ==> forall i :: 0 <= i < |c.containers| ==>
      r.containers[i] == c.containers[i].(buffers := r.containers[i].buffers)
      && |r.containers[i].buffers| == |c.containers[i].buffers|
    ensures fill ==> forall i, j ::
      0 <= i < |b.clist.containers| && 0 <= j < |b.clist.containers[i].buffers| ==>
        r.containers[i].buffers[j].reserved == b.clist.containers[i].buffers[j].reserved
  {
    var stamp := if Timestamp in b.clist.flags then b.clist.stampUsec else c.stampUsec;
    var reported := c.(flags := ReportedFlags(c.flags, b.clist.flags, b.flags), stampUsec := stamp,
                       index := b.clist.index, id := b.clist.id);
    if !fill then reported
    else
      reported.(containers := seq(|c.containers|, i requires 0 <= i < |c.containers| =>
        if i < |b.clist.containers| then ReservedOut(c.containers[i], b.clist.containers[i]) else c.containers[i]))
  }

  /** The caller's reserved words copied into the bundle (the sync loop of vb_queue_qbuf), skipping VIRTPTR containers. */
  function ReservedIn(b: Bundle, c: VContainerList): (r: Bundle)
    requires CanReceive(b, c)
    ensures r == b.(clist := r.clist) && r.clist == b.clist.(containers := r.clist.containers)
    ensures |r.clist.containers| == |b.clist.containers|
    ensures forall i :: 0 <= i < |b.clist.containers| ==>
      && r.clist.containers[i] == b.clist.containers[i].(buffers := r.clist.containers[i].buffers)
      && |r.clist.containers[i].buffers| == |b.clist.containers[i].buffers|
    ensures forall i, j :: 0 <= i < |b.clist.containers| && 0 <= j < |b.clist.containers[i].buffers| ==>
      r.clist.containers[i].buffers[j] ==
        if b.clist.containers[i].memory == Virtptr then b.clist.containers[i].buffers[j]
        else b.clist.containers[i].buffers[j].(reserved := c.containers[i].buffers[j].reserved)
  {
    var ks := b.clist.containers;
    b.(clist := b.clist.(containers := seq(|ks|, i requires 0 <= i < |ks| =>
      if ks[i].memory == Virtptr then ks[i]
      else ks[i].(buffers := seq(|ks[i].buffers|, j requires 0 <= j < |ks[i].buffers| =>
             ks[i].buffers[j].(reserved := c.containers[i].buffers[j].reserved))))))
  }

  /**
   * Reserved words make a round trip: after a submission copied the
   * caller's words in, a report with `fill` hands the same words back for
   * every container except VIRTPTR ones, whose words stay the bundle's own.
   */
  lemma ReservedRoundTrip(b: Bundle, c: VContainerList, out: VContainerList)
    requires CanReceive(b, c) && CanReceive(b, out)
    ensures CanReceive(ReservedIn(b, c), out)
    ensures forall i, j :: 0 <= i < |b.clist.containers| && 0 <= j < |b.clist.containers[i].buffers| ==>
      Fill(ReservedIn(b, c), out, true).containers[i].buffers[j].reserved ==
        if b.clist.containers[i].memory == Virtptr then b.clist.containers[i].buffers[j].reserved
        else c.containers[i].buffers[j].reserved
  {
    var r := ReservedIn(b, c);
    assert CanReceive(r, out);
    var f := Fill(r, out, true);
    forall i, j | 0 <= i < |b.clist.containers| && 0 <= j < |b.clist.containers[i].buffers|
      ensures f.containers[i].buffers[j].reserved ==
        if b.clist.containers[i].memory == Virtptr then b.clist.containers[i].buffers[j].reserved
        else c.containers[i].buffers[j].reserved
    {
      assert f.containers[i].buffers[j].reserved == r.clist.containers[i].buffers[j].reserved;
    }
  }
}
