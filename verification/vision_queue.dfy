/**
 * The buffer queue of the vision engine (`struct vb_queue` and the
 * vb_queue_* entry points of drivers/vision/vision-core/vision-buffer.c):
 * format negotiation, streaming on and off, submission (qbuf), prepare and
 * unprepare on their own, retrieval (dqbuf), and the driver's process/done
 * notifications.
 *
 * Slots are the queue's `bufs[]` array.  The queued and done lists hold
 * bundles; since every bundle sits in the slot named by its index, the
 * lists are modelled as sequences of slot numbers.  Nothing in this file
 * adds to the done list: that is the driver's business, so the list is a
 * field other code may append to.
 *
 * Allocation success, the DMA layer and the driver callbacks are
 * parameters: `allocOk` for kzalloc/kcalloc, a `DmaOracle`, and return codes.
 */
module VisionQueue {
  import opened KernelTypes
  import opened VisionTypes
  import opened VisionFormat
  import opened VisionDma
  import opened VisionBundle

  /**
   * `struct vb_queue`.  `formatReady` and `started` are the
   * VB_QUEUE_STATE_FORMAT and VB_QUEUE_STATE_START bits; `formats` is
   * `format.formats` (None = NULL) and `formatCount` is `format.count`.
   */
  datatype Queue = Queue(
    limits: Limits,
    direction: u32,
    formatReady: bool,
    started: bool,
    streaming: bool,
    formatCount: u32,
    formats: Option<seq<VbFormat>>,
    bufs: seq<Option<Bundle>>,
    numBuffers: int,
    queued: seq<nat>,
    queuedCount: int,
    processCount: int,
    doneCount: int,
    done: seq<nat>)

  // ---------------------------------------------------------------------
  // Counting and lists

  /** The number of occupied slots. */
  function Occupied(s: seq<Option<Bundle>>): (n: nat)
    ensures n <= |s|
    ensures n == 0 <==> forall i :: 0 <= i < |s| ==> s[i].None?
  {
    if |s| == 0 then 0
    else
      assert forall i :: 1 <= i < |s| ==> s[i] == s[1..][i - 1];
      (if s[0].Some? then 1 else 0) + Occupied(s[1..])
  }

  /** Filling or emptying one slot changes the count by one. */
  lemma {:induction false} OccupiedUpdate(s: seq<Option<Bundle>>, k: nat, x: Option<Bundle>)
    requires k < |s|
    ensures Occupied(s[k := x]) == Occupied(s) - (if s[k].Some? then 1 else 0) + (if x.Some? then 1 else 0)
  {
    if k == 0 {
      assert s[k := x][1..] == s[1..];
    } else {
      assert s[k := x][1..] == s[1..][k - 1 := x];
      OccupiedUpdate(s[1..], k - 1, x);
    }
  }

  /** No slot number appears twice. */
  predicate Distinct(s: seq<nat>)
  {
    forall k, l :: 0 <= k < l < |s| ==> s[k] != s[l]
  }

  /** `list_del`: the list without the entry for slot `x`. */
  function Without(s: seq<nat>, x: nat): (r: seq<nat>)
    ensures x in s ==> |r| == |s| - 1
    ensures x !in s ==> r == s
    ensures forall y :: y in r ==> y in s
    ensures forall y :: y in s && y != x ==> y in r
    ensures Distinct(s) ==> Distinct(r) && x !in r
  {
    if |s| == 0 then s
    else if s[0] == x then
      assert Distinct(s) ==> forall k :: 0 <= k < |s[1..]| ==> s[1..][k] == s[k + 1] && s[k + 1] != s[0];
      s[1..]
    else
      var rest := Without(s[1..], x);
      assert forall y :: y in s && y != s[0] ==> y in s[1..];
      assert Distinct(s) ==> s[0] !in s[1..];
      [s[0]] + rest
  }

  /** The return code of the driver callback for a slot; a slot it does not name returns 0. */
  function DriverRet(driver: map<nat, int>, slot: nat): int
  {
    if slot in driver then driver[slot] else 0
  }

  // ---------------------------------------------------------------------
  // The queue invariant

  /** Every bundle sits in the slot its index names. */
  predicate SlotsConsistent(q: Queue)
  {
    && |q.bufs| == q.limits.maxBuffer
    && forall i :: 0 <= i < |q.bufs| && q.bufs[i].Some? ==> q.bufs[i].value.clist.index == i
  }

  /** Every bundle can size its buffers and belongs to the queue's direction. */
  predicate BundlesWellFormed(q: Queue)
  {
    forall i :: 0 <= i < |q.bufs| && q.bufs[i].Some? ==>
      q.bufs[i].value.Shaped() && q.bufs[i].value.clist.direction == q.direction
  }

  /** The queued list names distinct occupied slots in the QUEUED state, and its counter is its length. */
  predicate QueuedListValid(q: Queue)
  {
    && q.queuedCount == |q.queued|
    && Distinct(q.queued)
    && forall k :: 0 <= k < |q.queued| ==>
         q.queued[k] < |q.bufs| && q.bufs[q.queued[k]].Some? && q.bufs[q.queued[k]].value.state == Queued
  }

  /** The done list names occupied slots. */
  predicate DoneListValid(q: Queue)
  {
    forall k :: 0 <= k < |q.done| ==> q.done[k] < |q.bufs| && q.bufs[q.done[k]].Some?
  }

  /** Negotiated formats number `formatCount` and can each size a buffer. */
  predicate FormatsValid(q: Queue)
  {
    q.formats.Some? ==>
      |q.formats.value| == q.formatCount
      && forall k :: 0 <= k < |q.formats.value| ==> q.formats.value[k].Shaped()
  }

  /** The slot array, its bundles and the negotiated formats are consistent with each other. */
  predicate SlotsReady(q: Queue)
  {
    SlotsConsistent(q) && BundlesWellFormed(q) && FormatsValid(q)
  }

  /** What every queue reachable from vb_queue_init satisfies. */
  predicate Valid(q: Queue)
  {
    && q.limits.Valid()
    && SlotsReady(q)
    && q.numBuffers == Occupied(q.bufs)
    && QueuedListValid(q)
    && DoneListValid(q)
  }

  /**
   * The format array __vb_queue_alloc scans is readable: negotiated, or
   * empty.  After a stop it is freed while `format.count` is kept, and a
   * new bundle would then read through a NULL pointer.
   */
  predicate FormatsReadable(q: Queue)
  {
    q.formats.Some? || q.formatCount == 0
  }

  /**
   * The request would have to build a new bundle only in an empty slot, and
   * only then is the format array read: a request for an occupied slot is
   * served whatever state the formats are in.
   */
  predicate AllocReadable(q: Queue, c: VContainerList)
  {
    c.index as int < |q.bufs| && q.bufs[c.index].None? ==> FormatsReadable(q)
  }

  /** The formats __vb_queue_alloc scans. */
  function Negotiated(q: Queue): seq<VbFormat>
  {
    if q.formats.Some? then q.formats.value else []
  }

  /** Putting a bundle of the same slot, direction and shape in an occupied slot keeps the queue valid. */
  lemma ReplaceKeepsValid(q: Queue, i: nat, nb: Bundle)
    requires Valid(q) && i < |q.bufs| && q.bufs[i].Some?
    requires nb.clist.index == i && nb.Shaped() && nb.clist.direction == q.direction
    requires i in q.queued ==> nb.state == Queued
    ensures Valid(q.(bufs := q.bufs[i := Some(nb)]))
  {
    OccupiedUpdate(q.bufs, i, Some(nb));
  }

  /** Installing such a bundle in an empty slot and counting it keeps the queue valid. */
  lemma InstallKeepsValid(q: Queue, i: nat, nb: Bundle)
    requires Valid(q) && i < |q.bufs| && q.bufs[i].None?
    requires nb.clist.index == i && nb.Shaped() && nb.clist.direction == q.direction
    ensures Valid(q.(bufs := q.bufs[i := Some(nb)], numBuffers := q.numBuffers + 1))
  {
    OccupiedUpdate(q.bufs, i, Some(nb));
    assert forall k :: 0 <= k < |q.queued| ==> q.queued[k] != i;
    assert forall k :: 0 <= k < |q.done| ==> q.done[k] != i;
  }

  // ---------------------------------------------------------------------
  // vb_queue_init

  /** A queue object as its zero-filled allocation leaves it. */
  function Zeroed(limits: Limits): Queue
  {
    Queue(limits, 0, false, false, false, 0, None, seq(limits.maxBuffer, _ => None), 0, [], 0, 0, 0, [])
  }

  /**
   * vb_queue_init: empty lists, zero counters, the given direction,
   * streaming off and no format.  The slot array and the START bit are not
   * touched.
   */
  function Init(q: Queue, direction: u32): (r: Queue)
    ensures r.bufs == q.bufs && r.started == q.started && r.limits == q.limits
    ensures r.direction == direction && !r.streaming && !r.formatReady
  {
    q.(direction := direction, formatReady := false, streaming := false, formatCount := 0, formats := None,
       numBuffers := 0, queued := [], queuedCount := 0, processCount := 0, doneCount := 0, done := [])
  }

  /** Initialisation yields a valid queue exactly when the slot array it inherits is empty. */
  lemma InitValid(q: Queue, direction: u32)
    requires q.limits.Valid() && |q.bufs| == q.limits.maxBuffer
    ensures Valid(Init(q, direction)) <==> forall i :: 0 <= i < |q.bufs| ==> q.bufs[i].None?
  {
  }

  /** In particular a zero-filled queue is valid after initialisation. */
  lemma InitZeroedValid(limits: Limits, direction: u32)
    requires limits.Valid()
    ensures Valid(Init(Zeroed(limits), direction))
  {
    InitValid(Zeroed(limits), direction);
  }

  // ---------------------------------------------------------------------
  // vb_queue_s_format and vb_queue_start

  /**
   * vb_queue_s_format: record the count, allocate the array (`allocOk`; an
   * empty array always succeeds), reject more formats than VB_MAX_BUFFER,
   * then convert every entry; on success set the FORMAT bit.  A failure
   * leaves the array NULL but neither clears the bit nor restores the count.
   */
  function SetFormat(q: Queue, entries: seq<VFormat>, allocOk: bool): (r: (Queue, int))
    requires |entries| < U32_LIMIT
    ensures r.1 == 0 || r.1 == -ENOMEM || r.1 == -EINVAL
    ensures r.1 == -ENOMEM <==> !allocOk && |entries| > 0
    ensures r.1 == 0 <==> (allocOk || |entries| == 0) && |entries| <= q.limits.maxBuffer
                          && forall i :: 0 <= i < |entries| ==> EntryFormat(entries[i], q.limits.maxPlanes).Some?
    ensures r.0.formatCount as int == |entries|
    ensures r.1 == 0 ==> r.0.formatReady && r.0.formats.Some? && |r.0.formats.value| == |entries|
    ensures r.1 == 0 ==> forall i :: 0 <= i < |entries| ==>
      r.0.formats.value[i] == EntryFormat(entries[i], q.limits.maxPlanes).value
    ensures r.1 != 0 ==> r.0.formats.None? && r.0.formatReady == q.formatReady
    ensures r.0 == q.(formatCount := r.0.formatCount, formats := r.0.formats, formatReady := r.0.formatReady)
  {
    var counted := q.(formatCount := |entries| as u32);
    if !allocOk && |entries| > 0 then (counted.(formats := None), -ENOMEM)
    else if |entries| > q.limits.maxBuffer then (counted.(formats := None), -EINVAL)
    else
      match BuildFormats(entries, q.limits.maxPlanes)
      case None => (counted.(formats := None), -EINVAL)
      case Some(formats) => (counted.(formats := Some(formats), formatReady := true), 0)
  }

  /**
   * With room for two planes, negotiation accepts exactly the lists whose
   * every colorspace is in the format table and whose every plane index is
   * below VB_MAX_PLANES.
   */
  lemma {:induction false} SetFormatAcceptsListedColorspaces(q: Queue, entries: seq<VFormat>, allocOk: bool)
    requires |entries| < U32_LIMIT && q.limits.maxPlanes >= 2
    requires allocOk && |entries| <= q.limits.maxBuffer
    ensures SetFormat(q, entries, allocOk).1 == 0 <==>
      forall i :: 0 <= i < |entries| ==> !entries[i].colorspace.Unlisted? && entries[i].plane as int < q.limits.maxPlanes
  {
    forall i | 0 <= i < |entries|
      ensures EntryFormat(entries[i], q.limits.maxPlanes).Some? <==>
              !entries[i].colorspace.Unlisted? && entries[i].plane as int < q.limits.maxPlanes
    {
      if !entries[i].colorspace.Unlisted? {
        TableEntriesWellFormed(entries[i].colorspace);
      }
    }
  }

  /** Negotiation keeps the queue valid. */
  lemma SetFormatKeepsValid(q: Queue, entries: seq<VFormat>, allocOk: bool)
    requires Valid(q) && |entries| < U32_LIMIT
    ensures Valid(SetFormat(q, entries, allocOk).0)
  {
  }

  /** vb_queue_start: refused until a format was negotiated; then streaming on. */
  function Start(q: Queue): (r: (Queue, int))
    ensures r.1 == 0 || r.1 == -EINVAL
    ensures r.1 == 0 <==> q.formatReady
    ensures r.1 == 0 ==> r.0 == q.(streaming := true, started := true)
    ensures r.1 != 0 ==> r.0 == q
  {
    if !q.formatReady then (q, -EINVAL)
    else (q.(streaming := true, started := true), 0)
  }

  // ---------------------------------------------------------------------
  // __vb_queue_clear and __vb_queue_stop

  /** The queued entries whose bundle is not in the QUEUED state, in order. */
  function KeepUnqueued(entries: seq<nat>, bufs: seq<Option<Bundle>>): (r: seq<nat>)
    requires forall k :: 0 <= k < |entries| ==> entries[k] < |bufs| && bufs[entries[k]].Some?
    ensures |r| <= |entries|
    ensures forall y :: y in r ==> y in entries
    ensures (forall k :: 0 <= k < |entries| ==> bufs[entries[k]].value.state == Queued) ==> r == []
  {
    if |entries| == 0 then []
    else
      assert forall k :: 1 <= k < |entries| ==> entries[k] == entries[1..][k - 1];
      var rest := KeepUnqueued(entries[1..], bufs);
      if bufs[entries[0]].value.state == Queued then rest else [entries[0]] + rest
  }

  /** __vb_queue_clear: unlink every bundle in the QUEUED state, counting each one down. */
  function Clear(q: Queue): (r: Queue)
    requires forall k :: 0 <= k < |q.queued| ==> q.queued[k] < |q.bufs| && q.bufs[q.queued[k]].Some?
    ensures r == q.(queued := r.queued, queuedCount := r.queuedCount)
    ensures r.queuedCount == q.queuedCount - (|q.queued| - |r.queued|)
    ensures QueuedListValid(q) ==> r.queued == [] && r.queuedCount == 0
  {
    var kept := KeepUnqueued(q.queued, q.bufs);
    q.(queued := kept, queuedCount := q.queuedCount - (|q.queued| - |kept|))
  }

  /**
   * The slot loop of __vb_queue_stop from slot `i` on: unprepare each
   * bundle; unless forced, stop at the first failure; otherwise free the
   * slot.  Returns the slots, the buffer count, and whether the loop ran to
   * the end.
   */
  function ReleaseFrom(bufs: seq<Option<Bundle>>, numBuffers: int, i: nat, forced: bool, driver: map<nat, int>)
    : (r: (seq<Option<Bundle>>, int, bool))
    requires i <= |bufs|
    decreases |bufs| - i
    ensures |r.0| == |bufs|
    ensures forced ==> r.2
  {
    if i == |bufs| then (bufs, numBuffers, true)
    else
      match bufs[i]
      case None => ReleaseFrom(bufs, numBuffers, i + 1, forced, driver)
      case Some(b) =>
        var (unprepared, ret) := BufUnprepare(b, DriverRet(driver, i));
        if ret != 0 && !forced then (bufs[i := Some(unprepared)], numBuffers, false)
        else ReleaseFrom(bufs[i := None], numBuffers - 1, i + 1, forced, driver)
  }

  /** The buffer count goes down by one for every slot the loop frees. */
  lemma {:induction false} ReleaseCountsFreedSlots(bufs: seq<Option<Bundle>>, numBuffers: int, i: nat, forced: bool, driver: map<nat, int>)
    requires i <= |bufs|
    decreases |bufs| - i
    ensures ReleaseFrom(bufs, numBuffers, i, forced, driver).1 - Occupied(ReleaseFrom(bufs, numBuffers, i, forced, driver).0)
         == numBuffers - Occupied(bufs)
  {
    if i < |bufs| {
      match bufs[i]
      case None => ReleaseCountsFreedSlots(bufs, numBuffers, i + 1, forced, driver);
      case Some(b) =>
        var (unprepared, ret) := BufUnprepare(b, DriverRet(driver, i));
        if ret != 0 && !forced {
          OccupiedUpdate(bufs, i, Some(unprepared));
        } else {
          OccupiedUpdate(bufs, i, None);
          ReleaseCountsFreedSlots(bufs[i := None], numBuffers - 1, i + 1, forced, driver);
        }
    }
  }

  /**
   * The loop leaves the slots before `i` alone, and a slot it does not free
   * keeps its bundle's layout and state.
   */
  lemma {:induction false} ReleaseKeepsLayout(bufs: seq<Option<Bundle>>, numBuffers: int, i: nat, forced: bool, driver: map<nat, int>)
    requires i <= |bufs|
    decreases |bufs| - i
    ensures forall j :: 0 <= j < i ==> ReleaseFrom(bufs, numBuffers, i, forced, driver).0[j] == bufs[j]
    ensures forall j :: 0 <= j < |bufs| && ReleaseFrom(bufs, numBuffers, i, forced, driver).0[j].Some? ==>
      var after := ReleaseFrom(bufs, numBuffers, i, forced, driver).0[j].value;
      bufs[j].Some? && SameLayout(after, bufs[j].value) && after.state == bufs[j].value.state
  {
    if i < |bufs| {
      match bufs[i]
      case None => ReleaseKeepsLayout(bufs, numBuffers, i + 1, forced, driver);
      case Some(b) =>
        var (unprepared, ret) := BufUnprepare(b, DriverRet(driver, i));
        if ret == 0 || forced {
          ReleaseKeepsLayout(bufs[i := None], numBuffers - 1, i + 1, forced, driver);
        }
    }
  }

  /**
   * The loop runs to the end exactly when it is forced or every occupied slot
   * from `i` on unprepares cleanly, and then every such slot is free.
   */
  lemma {:induction false} ReleaseOutcome(bufs: seq<Option<Bundle>>, numBuffers: int, i: nat, forced: bool, driver: map<nat, int>)
    requires i <= |bufs|
    decreases |bufs| - i
    ensures ReleaseFrom(bufs, numBuffers, i, forced, driver).2 <==>
      forced || forall j :: i <= j < |bufs| && bufs[j].Some? ==> BufUnprepare(bufs[j].value, DriverRet(driver, j)).1 == 0
    ensures ReleaseFrom(bufs, numBuffers, i, forced, driver).2 ==>
      forall j :: i <= j < |bufs| ==> ReleaseFrom(bufs, numBuffers, i, forced, driver).0[j].None?
  {
    if i < |bufs| {
      match bufs[i]
      case None =>
        ReleaseOutcome(bufs, numBuffers, i + 1, forced, driver);
        ReleaseKeepsLayout(bufs, numBuffers, i + 1, forced, driver);
      case Some(b) =>
        var (unprepared, ret) := BufUnprepare(b, DriverRet(driver, i));
        if ret == 0 || forced {
          var rest := bufs[i := None];
          ReleaseOutcome(rest, numBuffers - 1, i + 1, forced, driver);
          ReleaseKeepsLayout(rest, numBuffers - 1, i + 1, forced, driver);
          assert forall j :: i < j < |bufs| ==> rest[j] == bufs[j];
        }
    }
  }

  /**
   * __vb_queue_stop: clear the queued list and turn streaming off; unless
   * forced, refuse while any counter is non-zero; empty the lists, unprepare
   * and free every bundle, free the formats and clear the START bit.  A
   * forced stop always reports success.  The FORMAT bit and the format
   * count are left as they are.
   */
  function Stop(q: Queue, forced: bool, driver: map<nat, int>): (r: (Queue, int))
    requires Valid(q)
    ensures r.1 == 0 || r.1 == -EINVAL
    ensures forced ==> r.1 == 0
    ensures !r.0.streaming
    ensures !forced ==> (r.1 == 0 <==>
      q.processCount <= 0 && q.doneCount <= 0
      && forall i :: 0 <= i < |q.bufs| && q.bufs[i].Some? ==> BufUnprepare(q.bufs[i].value, DriverRet(driver, i)).1 == 0)
    ensures r.1 == 0 ==>
      && (forall i :: 0 <= i < |r.0.bufs| ==> r.0.bufs[i].None?)
      && r.0.numBuffers == 0 && r.0.formats.None? && !r.0.started
      && r.0.queued == [] && r.0.queuedCount == 0 && r.0.done == []
    ensures r.0.formatReady == q.formatReady && r.0.formatCount == q.formatCount
    ensures r.0.limits == q.limits && r.0.direction == q.direction
  {
    var cleared := Clear(q).(streaming := false);
    if !forced && (cleared.queuedCount > 0 || cleared.processCount > 0 || cleared.doneCount > 0) then
      (cleared, -EINVAL)
    else
      var emptied := cleared.(queued := [], done := []);
      var (bufs, n, ok) := ReleaseFrom(emptied.bufs, emptied.numBuffers, 0, forced, driver);
      ReleaseOutcome(emptied.bufs, emptied.numBuffers, 0, forced, driver);
      ReleaseCountsFreedSlots(emptied.bufs, emptied.numBuffers, 0, forced, driver);
      var released := emptied.(bufs := bufs, numBuffers := n);
      if !ok then (released, -EINVAL)
      else (released.(formats := None, started := false), 0)
  }

  /** The slots the stop loop leaves, with its buffer count, are as consistent as the ones it started from. */
  lemma ReleaseKeepsReady(q: Queue, forced: bool, driver: map<nat, int>)
    requires Valid(q)
    ensures SlotsReady(q.(bufs := ReleaseFrom(q.bufs, q.numBuffers, 0, forced, driver).0))
    ensures ReleaseFrom(q.bufs, q.numBuffers, 0, forced, driver).1 == Occupied(ReleaseFrom(q.bufs, q.numBuffers, 0, forced, driver).0)
  {
    var r := ReleaseFrom(q.bufs, q.numBuffers, 0, forced, driver);
    ReleaseKeepsLayout(q.bufs, q.numBuffers, 0, forced, driver);
    ReleaseCountsFreedSlots(q.bufs, q.numBuffers, 0, forced, driver);
    forall i | 0 <= i < |r.0| && r.0[i].Some?
      ensures r.0[i].value.clist.index == i && r.0[i].value.Shaped() && r.0[i].value.clist.direction == q.direction
    {
      SameLayoutShaped(r.0[i].value, q.bufs[i].value);
    }
  }

  /** Stopping keeps the queue valid, whether it succeeds, fails or is forced. */
  lemma StopKeepsValid(q: Queue, forced: bool, driver: map<nat, int>)
    requires Valid(q)
    ensures Valid(Stop(q, forced, driver).0)
  {
    var cleared := Clear(q).(streaming := false);
    var s := Stop(q, forced, driver).0;
    if forced || !(cleared.queuedCount > 0 || cleared.processCount > 0 || cleared.doneCount > 0) {
      var r := ReleaseFrom(q.bufs, q.numBuffers, 0, forced, driver);
      ReleaseKeepsReady(q, forced, driver);
      assert s.bufs == r.0 && s.numBuffers == r.1 && s.queued == [] && s.queuedCount == 0 && s.done == [];
      assert s.limits == q.limits && s.direction == q.direction;
      assert s.formats == q.formats || s.formats.None?;
    } else {
      assert s == cleared;
    }
  }

  /**
   * The FORMAT bit outlives a stop: a queue that had negotiated a format
   * can be started again after a successful stop, although its format
   * array is gone and a new bundle could no longer be built.
   */
  lemma StartAfterStop(q: Queue, driver: map<nat, int>)
    requires Valid(q) && q.formatReady && q.formatCount > 0
    requires Stop(q, false, driver).1 == 0
    ensures Start(Stop(q, false, driver).0).1 == 0
    ensures !FormatsReadable(Start(Stop(q, false, driver).0).0)
  {
  }

  // ---------------------------------------------------------------------
  // vb_queue_prepare, vb_queue_qbuf, vb_queue_unprepare

  /** `a` has as many slots as `b` and agrees with it on every slot but `i`. */
  predicate OnlySlotChanged(a: seq<Option<Bundle>>, b: seq<Option<Bundle>>, i: nat)
  {
    |a| == |b| && forall j :: 0 <= j < |a| && j != i ==> a[j] == b[j]
  }

  /**
   * The request's slot holds a prepared bundle in the given state that
   * describes the request's buffers and carries its flags and id.
   */
  predicate HoldsRequest(q: Queue, c: VContainerList, state: BufState)
  {
    && c.index as int < |q.bufs| && q.bufs[c.index].Some?
    && q.bufs[c.index].value.Prepared() && q.bufs[c.index].value.state == state
    && Describes(q.bufs[c.index].value, c)
  }

  /** The bundle describes the request's buffers and carries its flags and id. */
  predicate Describes(b: Bundle, c: VContainerList)
  {
    Matches(b, c) && b.clist.flags == c.flags && b.clist.id == c.id
  }

  /** Every container of the request names at most VB_MAX_BUFFER buffers. */
  predicate BuffersWithinLimit(q: Queue, c: VContainerList)
  {
    forall i :: 0 <= i < |c.containers| ==> |c.containers[i].buffers| <= q.limits.maxBuffer
  }

  /**
   * The argument checks shared by vb_queue_prepare and vb_queue_qbuf, in
   * their order: direction, index below VB_MAX_CONTAINERLIST, buffer counts,
   * index below VB_MAX_BUFFER.
   */
  predicate Admissible(q: Queue, c: VContainerList)
  {
    && c.direction == q.direction
    && c.index as int < q.limits.maxContainerList
    && BuffersWithinLimit(q, c)
    && c.index as int < q.limits.maxBuffer
  }

  /**
   * __vb_queue_alloc for an empty slot: reject more containers than
   * VB_MAX_CONTAINERLIST, fail with -ENOMEM when the allocation does, and
   * -EINVAL when a target has no negotiated format; otherwise install the
   * new bundle and count it.
   */
  function Alloc(q: Queue, c: VContainerList, allocOk: bool): (r: (Queue, int))
    requires FormatsReadable(q)
    requires c.index as int < |q.bufs| && q.bufs[c.index].None?
    ensures r.1 == 0 || r.1 == -EINVAL || r.1 == -ENOMEM
    ensures r.1 != 0 ==> r.0 == q
    ensures r.1 == 0 <==> |c.containers| <= q.limits.maxContainerList && allocOk
                          && NewBundle(c, Negotiated(q)).Some?
    ensures r.1 == 0 ==> r.0 == q.(bufs := q.bufs[c.index := NewBundle(c, Negotiated(q))], numBuffers := q.numBuffers + 1)
  {
    if |c.containers| > q.limits.maxContainerList then (q, -EINVAL)
    else if !allocOk then (q, -ENOMEM)
    else
      match NewBundle(c, Negotiated(q))
      case None => (q, -EINVAL)
      case Some(b) => (q.(bufs := q.bufs[c.index := Some(b)], numBuffers := q.numBuffers + 1), 0)
  }

  /** Find the request's bundle: check the one in its slot, or allocate one. */
  function Admit(q: Queue, c: VContainerList, allocOk: bool): (r: (Queue, int))
    requires c.index as int < |q.bufs| && AllocReadable(q, c)
    ensures r.1 == 0 || r.1 == -EINVAL || r.1 == -ENOMEM
    ensures r.0 == q.(bufs := r.0.bufs, numBuffers := r.0.numBuffers)
    ensures OnlySlotChanged(r.0.bufs, q.bufs, c.index as nat)
    ensures r.1 == 0 ==> r.0.bufs[c.index].Some? && Describes(r.0.bufs[c.index].value, c)
    ensures q.bufs[c.index].Some? ==>
      && r.0.numBuffers == q.numBuffers && r.0.bufs[c.index].Some?
      && r.0.bufs[c.index].value == q.bufs[c.index].value.(clist := r.0.bufs[c.index].value.clist)
      && (r.1 == 0 <==> Matches(q.bufs[c.index].value, c))
    ensures q.bufs[c.index].None? ==> r == Alloc(q, c, allocOk)
  {
    match q.bufs[c.index]
    case Some(b) =>
      var (checked, ret) := Check(b, c);
      if ret == 0 then CheckKeepsMatch(b, c); (q.(bufs := q.bufs[c.index := Some(checked)]), ret)
      else (q.(bufs := q.bufs[c.index := Some(checked)]), ret)
    case None => Alloc(q, c, allocOk)
  }

  /** The bundle a successful admission leaves in the request's slot can size its buffers. */
  lemma AdmittedShaped(q: Queue, c: VContainerList, allocOk: bool)
    requires SlotsReady(q)
    requires c.index as int < |q.bufs| && AllocReadable(q, c) && Admit(q, c, allocOk).1 == 0
    ensures Admit(q, c, allocOk).0.bufs[c.index].value.Shaped()
  {
    match q.bufs[c.index]
    case Some(b) =>
      CheckKeepsShape(b, c);
    case None =>
      NewBundleUnmapped(c, Negotiated(q));
  }

  /** Finding or building the request's bundle keeps the queue valid. */
  lemma AdmitKeepsValid(q: Queue, c: VContainerList, allocOk: bool)
    requires Valid(q)
    requires c.index as int < |q.bufs| && AllocReadable(q, c) && c.direction == q.direction
    ensures Valid(Admit(q, c, allocOk).0)
  {
    if q.bufs[c.index].Some? {
      CheckInSlotKeepsValid(q, c);
    } else {
      AllocKeepsValid(q, c, allocOk);
    }
  }

  /** Checking the bundle in the request's slot keeps the queue valid. */
  lemma CheckInSlotKeepsValid(q: Queue, c: VContainerList)
    requires Valid(q) && c.index as int < |q.bufs| && q.bufs[c.index].Some?
    ensures Valid(q.(bufs := q.bufs[c.index := Some(Check(q.bufs[c.index].value, c).0)]))
  {
    var b := q.bufs[c.index].value;
    CheckKeepsShape(b, c);
    ReplaceKeepsValid(q, c.index as nat, Check(b, c).0);
  }

  /** Allocating a bundle for an empty slot keeps the queue valid. */
  lemma AllocKeepsValid(q: Queue, c: VContainerList, allocOk: bool)
    requires Valid(q) && FormatsReadable(q)
    requires c.index as int < |q.bufs| && q.bufs[c.index].None? && c.direction == q.direction
    ensures Valid(Alloc(q, c, allocOk).0)
  {
    if Alloc(q, c, allocOk).1 == 0 {
      NewBundleUnmapped(c, Negotiated(q));
      InstallKeepsValid(q, c.index as nat, NewBundle(c, Negotiated(q)).value);
    }
  }

  /**
   * vb_queue_prepare: the argument checks, then check-or-allocate, refuse a
   * bundle that is not DEQUEUED, and map it (__vb_buf_prepare).
   */
  function QueuePrepare(q: Queue, c: VContainerList, allocOk: bool, dma: DmaOracle, driverRet: int): (r: (Queue, int))
    requires SlotsReady(q) && (Admissible(q, c) ==> AllocReadable(q, c))
    ensures !Admissible(q, c) ==> r == (q, -EINVAL)
    ensures r.0 == q.(bufs := r.0.bufs, numBuffers := r.0.numBuffers)
    ensures OnlySlotChanged(r.0.bufs, q.bufs, c.index as nat)
    ensures r.1 == 0 ==> HoldsRequest(r.0, c, Dequeued)
    ensures Admissible(q, c) && q.bufs[c.index].Some? && q.bufs[c.index].value.state != Dequeued ==> r.1 == -EINVAL
  {
    if !Admissible(q, c) then (q, -EINVAL)
    else
      var (admitted, ret) := Admit(q, c, allocOk);
      if ret != 0 then (admitted, ret)
      else
        AdmittedShaped(q, c, allocOk);
        PrepareAdmitted(admitted, c, dma, driverRet)
  }

  /** The rest of vb_queue_prepare once the bundle is found: refuse it unless DEQUEUED, else map it. */
  function PrepareAdmitted(q: Queue, c: VContainerList, dma: DmaOracle, driverRet: int): (r: (Queue, int))
    requires c.index as int < |q.bufs| && q.bufs[c.index].Some?
    requires q.bufs[c.index].value.Shaped() && Matches(q.bufs[c.index].value, c)
    ensures r.0 == q.(bufs := r.0.bufs) && |r.0.bufs| == |q.bufs|
    ensures r.0.bufs == q.bufs[c.index := r.0.bufs[c.index]] && r.0.bufs[c.index].Some?
    ensures q.bufs[c.index].value.state != Dequeued ==> r == (q, -EINVAL)
    ensures r.1 == 0 ==>
      && r.0.bufs[c.index].value.Prepared() && r.0.bufs[c.index].value.state == Dequeued
      && Matches(r.0.bufs[c.index].value, c)
      && r.0.bufs[c.index].value.clist.flags == q.bufs[c.index].value.clist.flags
      && r.0.bufs[c.index].value.clist.id == q.bufs[c.index].value.clist.id
  {
    var b := q.bufs[c.index].value;
    if b.state != Dequeued then (q, -EINVAL)
    else
      var (prepared, ret) := BufPrepare(b, dma, driverRet);
      MatchesSameLayout(prepared, b, c);
      (q.(bufs := q.bufs[c.index := Some(prepared)]), ret)
  }

  /** Preparing on its own keeps the queue valid. */
  lemma QueuePrepareKeepsValid(q: Queue, c: VContainerList, allocOk: bool, dma: DmaOracle, driverRet: int)
    requires Valid(q) && (Admissible(q, c) ==> AllocReadable(q, c))
    ensures Valid(QueuePrepare(q, c, allocOk, dma, driverRet).0)
  {
    if Admissible(q, c) {
      AdmitKeepsValid(q, c, allocOk);
      var (admitted, ret) := Admit(q, c, allocOk);
      var i := c.index as int;
      if ret == 0 && admitted.bufs[i].value.state == Dequeued {
        var b := admitted.bufs[i].value;
        var prepared := BufPrepare(b, dma, driverRet).0;
        SameLayoutShaped(prepared, b);
        assert i !in admitted.queued;
        ReplaceKeepsValid(admitted, i, prepared);
      }
    }
  }

  /**
   * The tail of vb_queue_qbuf after a successful prepare: copy the caller's
   * reserved words in (except for VIRTPTR containers), append the bundle to
   * the queued list, mark it QUEUED and count it.
   */
  function Enqueue(q: Queue, c: VContainerList): (r: Queue)
    requires c.index as int < |q.bufs| && q.bufs[c.index].Some? && Matches(q.bufs[c.index].value, c)
    ensures r == q.(bufs := r.bufs, queued := r.queued, queuedCount := r.queuedCount)
    ensures r.queued == q.queued + [c.index as nat] && r.queuedCount == q.queuedCount + 1
    ensures |r.bufs| == |q.bufs| && r.bufs[c.index].Some?
    ensures forall j :: 0 <= j < |q.bufs| && j != c.index as int ==> r.bufs[j] == q.bufs[j]
    ensures r.bufs[c.index].value == ReservedIn(q.bufs[c.index].value, c).(state := Queued)
    ensures Matches(r.bufs[c.index].value, c)
  {
    var b := ReservedIn(q.bufs[c.index].value, c).(state := Queued);
    assert SameLayout(b, q.bufs[c.index].value);
    MatchesSameLayout(b, q.bufs[c.index].value, c);
    q.(bufs := q.bufs[c.index := Some(b)], queued := q.queued + [c.index as nat], queuedCount := q.queuedCount + 1)
  }

  /**
   * vb_queue_qbuf: everything vb_queue_prepare does, then enqueue.  On
   * success the request's bundle is prepared, QUEUED, describes the
   * request's buffers and is the newest queued entry; on failure the
   * queued list is untouched.
   */
  function Qbuf(q: Queue, c: VContainerList, allocOk: bool, dma: DmaOracle, driverRet: int): (r: (Queue, int))
    requires SlotsReady(q) && (Admissible(q, c) ==> AllocReadable(q, c))
    ensures !Admissible(q, c) ==> r == (q, -EINVAL)
    ensures OnlySlotChanged(r.0.bufs, q.bufs, c.index as nat)
    ensures r.1 == 0 ==>
      HoldsRequest(r.0, c, Queued) && r.0.queued == q.queued + [c.index as nat] && r.0.queuedCount == q.queuedCount + 1
    ensures r.1 != 0 ==> r.0.queued == q.queued && r.0.queuedCount == q.queuedCount
    ensures r.0.done == q.done && r.0.formats == q.formats && r.0.streaming == q.streaming
  {
    var (prepared, ret) := QueuePrepare(q, c, allocOk, dma, driverRet);
    if ret != 0 then (prepared, ret)
    else
      (Enqueue(prepared, c), 0)
  }

  /** Enqueueing a DEQUEUED bundle keeps the queue valid. */
  lemma EnqueueKeepsValid(q: Queue, c: VContainerList)
    requires Valid(q)
    requires c.index as int < |q.bufs| && q.bufs[c.index].Some? && Matches(q.bufs[c.index].value, c)
    requires q.bufs[c.index].value.state == Dequeued
    ensures Valid(Enqueue(q, c))
  {
    var i := c.index as int;
    var b := q.bufs[i].value;
    ReservedInKeepsLayout(b, c);
    SameLayoutShaped(ReservedIn(b, c), b);
    var nb := ReservedIn(b, c).(state := Queued);
    assert i !in q.queued;
    ReplaceKeepsValid(q, i, nb);
    AppendQueuedKeepsValid(q.(bufs := q.bufs[i := Some(nb)]), i);
  }

  /** Appending a QUEUED slot that is not yet on the queued list keeps the queue valid. */
  lemma AppendQueuedKeepsValid(q: Queue, i: nat)
    requires Valid(q) && i < |q.bufs| && q.bufs[i].Some? && q.bufs[i].value.state == Queued
    requires i !in q.queued
    ensures Valid(q.(queued := q.queued + [i], queuedCount := q.queuedCount + 1))
  {
    var s := q.queued + [i];
    assert forall k :: 0 <= k < |q.queued| ==> s[k] == q.queued[k];
  }

  /** Submission keeps the queue valid; in particular no slot is queued twice. */
  lemma QbufKeepsValid(q: Queue, c: VContainerList, allocOk: bool, dma: DmaOracle, driverRet: int)
    requires Valid(q) && (Admissible(q, c) ==> AllocReadable(q, c))
    ensures Valid(Qbuf(q, c, allocOk, dma, driverRet).0)
  {
    QueuePrepareKeepsValid(q, c, allocOk, dma, driverRet);
    var (prepared, ret) := QueuePrepare(q, c, allocOk, dma, driverRet);
    if ret == 0 {
      EnqueueKeepsValid(prepared, c);
    }
  }

  /** A bundle that is queued, in process or done cannot be submitted again. */
  lemma QbufRefusesBusyBundle(q: Queue, c: VContainerList, allocOk: bool, dma: DmaOracle, driverRet: int)
    requires Valid(q) && Admissible(q, c)
    requires q.bufs[c.index].Some? && q.bufs[c.index].value.state != Dequeued
    ensures Qbuf(q, c, allocOk, dma, driverRet).1 == -EINVAL
    ensures Qbuf(q, c, allocOk, dma, driverRet).0.queued == q.queued
  {
  }

  /** Submitting the same request twice in a row fails the second time. */
  lemma QbufTwiceRefused(q: Queue, c: VContainerList, allocOk: bool, dma: DmaOracle, driverRet: int,
                         allocOk2: bool, dma2: DmaOracle, driverRet2: int)
    requires Valid(q) && (Admissible(q, c) ==> AllocReadable(q, c))
    requires Qbuf(q, c, allocOk, dma, driverRet).1 == 0
    ensures Valid(Qbuf(q, c, allocOk, dma, driverRet).0)
    ensures Qbuf(Qbuf(q, c, allocOk, dma, driverRet).0, c, allocOk2, dma2, driverRet2).1 == -EINVAL
  {
    QbufKeepsValid(q, c, allocOk, dma, driverRet);
    var q1 := Qbuf(q, c, allocOk, dma, driverRet).0;
    QbufRefusesBusyBundle(q1, c, allocOk2, dma2, driverRet2);
  }

  /**
   * vb_queue_unprepare: direction and index checks, -ENOMEM for an empty
   * slot, the reuse check, then __vb_buf_unprepare.
   */
  function QueueUnprepare(q: Queue, c: VContainerList, driverRet: int): (r: (Queue, int))
    requires SlotsConsistent(q)
    ensures c.direction != q.direction || c.index as int >= q.limits.maxBuffer ==> r == (q, -EINVAL)
    ensures c.direction == q.direction && c.index as int < q.limits.maxBuffer && q.bufs[c.index].None? ==> r == (q, -ENOMEM)
    ensures r.0 == q.(bufs := r.0.bufs)
    ensures OnlySlotChanged(r.0.bufs, q.bufs, c.index as nat)
    ensures r.1 == 0 ==> c.index as int < |q.bufs| && r.0.bufs[c.index].Some? && !r.0.bufs[c.index].value.Prepared()
    ensures c.index as int < |q.bufs| && q.bufs[c.index].Some? ==>
      r.0.bufs[c.index].Some? && r.0.bufs[c.index].value.state == q.bufs[c.index].value.state
  {
    if c.direction != q.direction || c.index as int >= q.limits.maxBuffer then (q, -EINVAL)
    else
      match q.bufs[c.index]
      case None => (q, -ENOMEM)
      case Some(b) =>
        var (checked, ret) := Check(b, c);
        if ret != 0 then (q.(bufs := q.bufs[c.index := Some(checked)]), ret)
        else
          var (unprepared, ret2) := BufUnprepare(checked, driverRet);
          (q.(bufs := q.bufs[c.index := Some(unprepared)]), ret2)
  }

  /** Unpreparing keeps the queue valid. */
  lemma QueueUnprepareKeepsValid(q: Queue, c: VContainerList, driverRet: int)
    requires Valid(q)
    ensures Valid(QueueUnprepare(q, c, driverRet).0)
  {
    if c.direction == q.direction && c.index as int < q.limits.maxBuffer && q.bufs[c.index].Some? {
      var i := c.index as int;
      var b := q.bufs[i].value;
      CheckKeepsShape(b, c);
      var checked := Check(b, c).0;
      if Check(b, c).1 != 0 {
        ReplaceKeepsValid(q, i, checked);
      } else {
        var unprepared := BufUnprepare(checked, driverRet).0;
        SameLayoutShaped(unprepared, checked);
        ReplaceKeepsValid(q, i, unprepared);
      }
    }
  }

  /** Preparing a request into an empty slot installs the new bundle, prepared. */
  lemma PrepareIntoEmptySlot(q: Queue, c: VContainerList, allocOk: bool, dma: DmaOracle, driverRet: int)
    requires SlotsReady(q) && FormatsReadable(q) && Admissible(q, c)
    requires q.bufs[c.index].None?
    requires QueuePrepare(q, c, allocOk, dma, driverRet).1 == 0
    ensures NewBundle(c, Negotiated(q)).Some?
    ensures NewBundle(c, Negotiated(q)).value.Shaped()
    ensures QueuePrepare(q, c, allocOk, dma, driverRet).0 ==
      q.(bufs := q.bufs[c.index := Some(BufPrepare(NewBundle(c, Negotiated(q)).value, dma, driverRet).0)],
         numBuffers := q.numBuffers + 1)
  {
    AdmittedShaped(q, c, allocOk);
    NewBundleUnmapped(c, Negotiated(q));
  }

  /** A bundle prepared from a fresh one passes the check against its own request untouched. */
  lemma PreparedNewBundlePassesCheck(c: VContainerList, formats: seq<VbFormat>, dma: DmaOracle, driverRet: int)
    requires NewBundle(c, formats).Some? && NewBundle(c, formats).value.Shaped()
    ensures Check(BufPrepare(NewBundle(c, formats).value, dma, driverRet).0, c)
         == (BufPrepare(NewBundle(c, formats).value, dma, driverRet).0, 0)
  {
    var nb := NewBundle(c, formats).value;
    var p := BufPrepare(nb, dma, driverRet).0;
    NewBundlePassesCheck(c, formats);
    MatchesSameLayout(p, nb, c);
    forall k, j | 0 <= k < |c.containers| && 0 <= j < |c.containers[k].buffers|
      ensures p.clist.containers[k].buffers[j].roi == c.containers[k].buffers[j].roi
    {
      assert nb.clist.containers[k].buffers[j] == NewBuffer(c.containers[k].buffers[j]);
    }
    CheckIdentity(p, c);
  }

  /**
   * Prepare and unprepare undo each other: preparing a request into an
   * empty slot (all callbacks succeeding) and unpreparing it again leaves
   * the freshly built, unmapped bundle in the slot.
   */
  lemma QueueUnprepareAfterPrepare(q: Queue, c: VContainerList, dma: DmaOracle)
    requires Valid(q) && FormatsReadable(q) && Admissible(q, c)
    requires q.bufs[c.index].None?
    requires QueuePrepare(q, c, true, dma, 0).1 == 0
    ensures QueueUnprepare(QueuePrepare(q, c, true, dma, 0).0, c, 0) ==
      (q.(bufs := q.bufs[c.index := NewBundle(c, Negotiated(q))], numBuffers := q.numBuffers + 1), 0)
  {
    QueuePrepareKeepsValid(q, c, true, dma, 0);
    PrepareIntoEmptySlot(q, c, true, dma, 0);
    var q1 := QueuePrepare(q, c, true, dma, 0).0;
    UnprepareFreshlyPrepared(q1, c, Negotiated(q), dma);
    var nb := NewBundle(c, Negotiated(q)).value;
    assert q1.bufs[c.index := Some(nb)] == q.bufs[c.index := Some(nb)];
  }

  /** Unpreparing a slot that holds a freshly built, then prepared, bundle puts the fresh bundle back. */
  lemma UnprepareFreshlyPrepared(q: Queue, c: VContainerList, formats: seq<VbFormat>, dma: DmaOracle)
    requires SlotsConsistent(q) && c.direction == q.direction && c.index as int < q.limits.maxBuffer
    requires NewBundle(c, formats).Some? && NewBundle(c, formats).value.Shaped()
    requires BufPrepare(NewBundle(c, formats).value, dma, 0).1 == 0
    requires q.bufs[c.index] == Some(BufPrepare(NewBundle(c, formats).value, dma, 0).0)
    ensures QueueUnprepare(q, c, 0) == (q.(bufs := q.bufs[c.index := NewBundle(c, formats)]), 0)
  {
    var nb := NewBundle(c, formats).value;
    NewBundleUnmapped(c, formats);
    PreparedNewBundlePassesCheck(c, formats, dma, 0);
    UnprepareAfterPrepare(nb, dma);
  }

  // ---------------------------------------------------------------------
  // vb_queue_dqbuf

  /** What vb_queue_dqbuf does: return, with the queue and the caller's list afterwards, or block. */
  datatype DqResult =
    | DqReturn(queue: Queue, list: VContainerList, ret: int)
    | DqBlocks

  /**
   * vb_queue_dqbuf: direction check, refuse when not streaming, -EWOULDBLOCK
   * (or block) when nothing is done; otherwise the first done bundle must
   * be DONE, is reported into the caller's list and goes back to DEQUEUED.
   * It is not taken off the done list.
   */
  function Dqbuf(q: Queue, c: VContainerList, nonblocking: bool): (r: DqResult)
    requires SlotsConsistent(q) && DoneListValid(q)
    ensures r.DqBlocks? <==> c.direction == q.direction && q.streaming && q.done == [] && !nonblocking
    ensures r.DqReturn? && r.ret != 0 ==> r.queue == q && r.list == c
    ensures r.DqReturn? ==> (r.ret == 0 || r.ret == -EINVAL || r.ret == -EWOULDBLOCK)
    ensures r.DqReturn? && r.ret == -EWOULDBLOCK <==>
      c.direction == q.direction && q.streaming && q.done == [] && nonblocking
    ensures r.DqReturn? && r.ret == 0 ==>
      && c.direction == q.direction && q.streaming && |q.done| > 0
      && q.bufs[q.done[0]].value.state == DoneState
      && r.list.index as int == q.done[0] && r.list.id == q.bufs[q.done[0]].value.clist.id
      && r.list == Fill(q.bufs[q.done[0]].value, c, false)
      && r.queue == q.(bufs := q.bufs[q.done[0] := Some(q.bufs[q.done[0]].value.(state := Dequeued))])
  {
    if c.direction != q.direction then DqReturn(q, c, -EINVAL)
    else if !q.streaming then DqReturn(q, c, -EINVAL)
    else if |q.done| == 0 then
      if nonblocking then DqReturn(q, c, -EWOULDBLOCK) else DqBlocks
    else
      var slot := q.done[0];
      var b := q.bufs[slot].value;
      if b.state != DoneState then DqReturn(q, c, -EINVAL)
      else DqReturn(q.(bufs := q.bufs[slot := Some(b.(state := Dequeued))]), Fill(b, c, false), 0)
  }

  /** Retrieval keeps the queue valid. */
  lemma DqbufKeepsValid(q: Queue, c: VContainerList, nonblocking: bool)
    requires Valid(q)
    ensures Dqbuf(q, c, nonblocking).DqReturn? ==> Valid(Dqbuf(q, c, nonblocking).queue)
  {
    var r := Dqbuf(q, c, nonblocking);
    if r.DqReturn? && r.ret == 0 {
      var slot := q.done[0];
      OccupiedUpdate(q.bufs, slot, r.queue.bufs[slot]);
      assert forall k :: 0 <= k < |q.queued| ==> q.queued[k] != slot;
    }
  }

  /**
   * The done list is never consumed here: after a successful retrieval the
   * same bundle is still first on it, now DEQUEUED, so the next retrieval
   * fails with -EINVAL until the list is changed elsewhere.
   */
  lemma DqbufTwiceRefused(q: Queue, c: VContainerList, nonblocking: bool, c2: VContainerList, nonblocking2: bool)
    requires Valid(q)
    requires Dqbuf(q, c, nonblocking).DqReturn? && Dqbuf(q, c, nonblocking).ret == 0
    requires c2.direction == q.direction
    ensures Valid(Dqbuf(q, c, nonblocking).queue)
    ensures Dqbuf(Dqbuf(q, c, nonblocking).queue, c2, nonblocking2) == DqReturn(Dqbuf(q, c, nonblocking).queue, c2, -EINVAL)
  {
    DqbufKeepsValid(q, c, nonblocking);
  }

  // ---------------------------------------------------------------------
  // vb_queue_process and vb_queue_done

  /**
   * vb_queue_process: the driver takes a queued bundle; it becomes PROCESS
   * and leaves the queued list.  The bundle must be on that list and of the
   * queue's direction.
   */
  function Process(q: Queue, slot: nat): (r: Queue)
    requires Distinct(q.queued)
    requires slot < |q.bufs| && q.bufs[slot].Some? && slot in q.queued
    ensures r == q.(bufs := r.bufs, queued := r.queued, queuedCount := r.queuedCount)
    ensures |r.bufs| == |q.bufs| && r.bufs[slot].Some? && r.bufs[slot].value.state == BufState.Process
    ensures forall j :: 0 <= j < |q.bufs| && j != slot ==> r.bufs[j] == q.bufs[j]
    ensures slot !in r.queued && |r.queued| == |q.queued| - 1 && r.queuedCount == q.queuedCount - 1
    ensures forall y :: y in q.queued && y != slot ==> y in r.queued
  {
    var b := q.bufs[slot].value;
    q.(bufs := q.bufs[slot := Some(b.(state := BufState.Process))], queued := Without(q.queued, slot),
       queuedCount := q.queuedCount - 1)
  }

  /** Handing a bundle to the driver keeps the queue valid. */
  lemma ProcessKeepsValid(q: Queue, slot: nat)
    requires Valid(q)
    requires slot < |q.bufs| && q.bufs[slot].Some? && slot in q.queued
    ensures Valid(Process(q, slot))
  {
    var r := Process(q, slot);
    OccupiedUpdate(q.bufs, slot, r.bufs[slot]);
    forall k | 0 <= k < |r.queued|
      ensures r.queued[k] < |r.bufs| && r.bufs[r.queued[k]].Some? && r.bufs[r.queued[k]].value.state == Queued
    {
      assert r.queued[k] in q.queued;
    }
  }

  /**
   * vb_queue_done: the driver finished a bundle of the queue's direction;
   * with ENABLE_FENCE in its container list it goes straight back to
   * DEQUEUED, otherwise it becomes DONE.
   */
  function Done(q: Queue, slot: nat): (r: Queue)
    requires slot < |q.bufs| && q.bufs[slot].Some?
    requires q.bufs[slot].value.clist.direction == q.direction
    ensures r == q.(bufs := r.bufs)
    ensures |r.bufs| == |q.bufs| && r.bufs[slot].Some?
    ensures forall j :: 0 <= j < |q.bufs| && j != slot ==> r.bufs[j] == q.bufs[j]
    ensures r.bufs[slot].value == q.bufs[slot].value.(state := r.bufs[slot].value.state)
    ensures r.bufs[slot].value.state == Dequeued <==> EnableFence in q.bufs[slot].value.clist.flags
    ensures r.bufs[slot].value.state == DoneState <==> EnableFence !in q.bufs[slot].value.clist.flags
  {
    var b := q.bufs[slot].value;
    var state := if EnableFence in b.clist.flags then Dequeued else DoneState;
    q.(bufs := q.bufs[slot := Some(b.(state := state))])
  }

  /** Completing a bundle that is off the queued list keeps the queue valid. */
  lemma DoneKeepsValid(q: Queue, slot: nat)
    requires Valid(q)
    requires slot < |q.bufs| && q.bufs[slot].Some? && slot !in q.queued
    ensures Valid(Done(q, slot))
  {
    var r := Done(q, slot);
    OccupiedUpdate(q.bufs, slot, r.bufs[slot]);
    assert forall k :: 0 <= k < |q.queued| ==> q.queued[k] != slot;
  }

  // ---------------------------------------------------------------------
  // A round through the queue

  /**
   * The driver's part of a request's life: take a queued bundle, complete
   * it, and put it alone on the done list.
   */
  function Finish(q: Queue, slot: nat): (r: Queue)
    requires Valid(q) && slot < |q.bufs| && q.bufs[slot].Some? && slot in q.queued
    ensures Valid(r)
    ensures r.done == [slot] && r.streaming == q.streaming && r.direction == q.direction
    ensures |r.bufs| == |q.bufs|
    ensures r.bufs[slot] == Some(q.bufs[slot].value.(state :=
      if EnableFence in q.bufs[slot].value.clist.flags then Dequeued else DoneState))
  {
    ProcessKeepsValid(q, slot);
    DoneKeepsValid(Process(q, slot), slot);
    Done(Process(q, slot), slot).(done := [slot])
  }

  /** Retrieving the first done bundle reports its index, id and completion flags. */
  lemma DqbufReportsFirstDone(q: Queue, out: VContainerList)
    requires Valid(q) && q.streaming && out.direction == q.direction
    requires |q.done| > 0 && q.bufs[q.done[0]].value.state == DoneState
    ensures Dqbuf(q, out, true).DqReturn? && Dqbuf(q, out, true).ret == 0
    ensures Dqbuf(q, out, true).list.index as int == q.done[0]
    ensures Dqbuf(q, out, true).list.id == q.bufs[q.done[0]].value.clist.id
    ensures Prepare in Dqbuf(q, out, true).list.flags <==> q.bufs[q.done[0]].value.Prepared()
    ensures Dqbuf(q, out, true).queue.bufs[q.done[0]].value.state == Dequeued
  {
    var b := q.bufs[q.done[0]].value;
    var l := Dqbuf(q, out, true).list;
    assert Prepare in l.flags <==> Prepare in l.flags * BUNDLE_REPORTED;
    assert Prepare in b.flags <==> Prepare in b.flags * BUNDLE_REPORTED;
  }

  /**
   * The life of one request: submitted, taken by the driver, completed
   * without a fence, put on the done list, and retrieved: the caller gets
   * its own index and id back, with PREPARE reported, and the bundle is
   * DEQUEUED again.
   */
  lemma RoundTrip(q: Queue, c: VContainerList, allocOk: bool, dma: DmaOracle, driverRet: int, out: VContainerList)
    requires Valid(q) && (Admissible(q, c) ==> AllocReadable(q, c)) && q.streaming
    requires EnableFence !in c.flags
    requires Qbuf(q, c, allocOk, dma, driverRet).1 == 0
    requires out.direction == q.direction
    ensures Valid(Qbuf(q, c, allocOk, dma, driverRet).0)
    ensures c.index as int < |q.bufs| && Qbuf(q, c, allocOk, dma, driverRet).0.bufs[c.index].Some?
    ensures c.index as nat in Qbuf(q, c, allocOk, dma, driverRet).0.queued
    ensures
      var queued := Qbuf(q, c, allocOk, dma, driverRet).0;
      var slot := c.index as nat;
      var r := Dqbuf(Finish(queued, slot), out, true);
      && r.DqReturn? && r.ret == 0
      && r.list.index == c.index && r.list.id == c.id
      && Prepare in r.list.flags
      && r.queue.bufs[slot].value.state == Dequeued
  {
    QbufKeepsValid(q, c, allocOk, dma, driverRet);
    var queued := Qbuf(q, c, allocOk, dma, driverRet).0;
    var slot := c.index as nat;
    assert queued.queued[|queued.queued| - 1] == slot;
    DqbufReportsFirstDone(Finish(queued, slot), out);
  }
}
