# Vision buffer queue, IMX258 conversions and USB notify encoding in Dafny

This project models three pieces of a Linux kernel tree as pure Dafny functions and proves properties about them.

1. **The vision buffer-queue engine** (`drivers/vision/vision-core/vision-buffer.c`).
   - A caller submits *bundles*: container lists of dma-buf backed buffers. Each bundle lives in the slot of `bufs[]` named by its index.
   - A bundle moves DEQUEUED → QUEUED (qbuf) → PROCESS (the driver takes it) → DONE (the driver finishes it) → DEQUEUED (dqbuf). With ENABLE_FENCE it goes from processing straight back to DEQUEUED.
   - Around that state machine the engine keeps:
     - the static format table and per-plane sizes;
     - format negotiation, which gates streaming;
     - allocation and reuse-checking of slots;
     - idempotent prepare/unprepare, which maps and unmaps every buffer and rolls back a failed map;
     - stop, forced or not, which tears everything down.
2. **The IMX258 sensor's unit conversions** (`drivers/media/platform/exynos/camera/sensor/module_framework/cis/is-cis-imx258.c`).
   - Analog gain, converted between permille and register code.
   - The clamping of gain, frame rate, frame duration and coarse integration time.
   - The rounding of the maximum frame rate.
   - All of it uses the driver's u16/u32/u64 arithmetic, with wrap-around written out.
3. **The USB notify event encoding** (`include/linux/usb_notify.h`).
   - The `otg_notify_events` enumeration.
   - The `VIRT_EVENT`/`PHY_EVENT`/`IS_VIRTUAL` tagging macros, on `unsigned long`.
   - The event-type and block-type bit-flag enumerations.

## Files

| file | module | contents |
|---|---|---|
| `kernel_types.dfy` | `KernelTypes` | Option, u16/u32/u64, C truncation and wrapping subtraction, errno values |
| `arith.dfy` | `Arith` | division lemmas used by the IMX258 proofs |
| `vision_types.dfy` | `VisionTypes` | the engine's records: caller side (`vs4l_*`) and kernel side (`vb_*`) |
| `vision_format.dfy` | `VisionFormat` | format table, lookup, plane sizes, per-entry negotiation |
| `vision_dma.dfy` | `VisionDma` | mapping and unmapping one buffer against a dma-buf oracle |
| `vision_bundle.dfy` | `VisionBundle` | building, reuse-checking, preparing, unpreparing and reporting one bundle |
| `vision_queue.dfy` | `VisionQueue` | the queue, its invariant `Valid`, and every `vb_queue_*` entry point |
| `imx258.dfy` | `Imx258` | gain, frame-timing and exposure conversions |
| `usb_notify.dfy` | `UsbNotify` | event enumeration, virtual tagging, flag enumerations |

## How the model is shaped

- **Values, not objects.** Queue, bundle, container and buffer are immutable datatypes.
  - Every entry point is a function from the old state to a pair (new state, C return code).
  - Return codes are C ints: 0 or a negated errno (EINVAL 22, ENOMEM 12, EWOULDBLOCK = EAGAIN 11).
- **Slots and lists.** Slots are a `seq<Option<Bundle>>`. The queued and done lists hold slot numbers; a bundle always sits in the slot its index names.
- **Build-time constants.** `VB_MAX_BUFFER`, `VB_MAX_CONTAINERLIST` and `VB_MAX_PLANES` come from a header that is not part of this model. They are a `Limits` record of positive numbers that the queue carries.
- **VS4L_* enumerations.** Their numeric values are not part of this model either. Each is a datatype with one constructor for every value the engine tests, plus one constructor standing for any other value.
- **Foreign behaviour becomes parameters:**
  - the dma-buf layer is an oracle `DmaOracle`, giving per fd the backing size and the outcome of each mapping step;
  - kzalloc/kcalloc success is `allocOk`;
  - the driver's `buf_prepare`/`buf_unprepare` callbacks are return codes (for stop, a map from slot to code);
  - the IMX258 register writes are their return code `writeRet`.
- **The done list.** This file never appends to it, so it is a field that other code may change. No operation here does.
- **The queue invariant `Valid`:**
  - every bundle sits in its own slot, can size its buffers and has the queue's direction;
  - the negotiated formats number `format.count` and each has a usable plane;
  - `num_buffers` is the number of occupied slots;
  - the queued list names distinct occupied QUEUED slots, and `queued_count` is its length;
  - the done list names occupied slots.

  Init, negotiation, start, stop (forced, failed or successful), qbuf, prepare, unprepare, dqbuf, process and done each preserve it.

### Behaviour the model follows from the code

Where the code behaves unexpectedly, the model follows it:

- **Stop** frees the format array and clears the START bit. It leaves the FORMAT bit and `format.count` as they are. So `vb_queue_start` succeeds again after a stop even though no formats are left (`VisionQueue.StartAfterStop`).
  - An empty slot would then make `__vb_queue_alloc` scan `format.count` entries through a NULL array.
  - Building a new bundle therefore needs `FormatsReadable`: formats negotiated, or none counted. Admission, prepare and qbuf ask for it only when the request's slot is empty (`VisionQueue.AllocReadable`); a request for an occupied slot never reads the formats and is served in any state.
- **Prepare accepts only DMABUF memory.** Any other memory kind fails with -EINVAL, although the qbuf and done sync loops skip only VIRTPTR containers (`VisionBundle.PrepareRejectsOtherMemory`, `VisionBundle.PreparedContainersAreDmabuf`).
- **dqbuf does not remove anything from the done list.** It reports the first done bundle and sets it back to DEQUEUED. A second dqbuf then finds that bundle not DONE and fails with -EINVAL (`VisionQueue.DqbufTwiceRefused`).
- **The reuse check writes early.** `__vb_queue_check` first compares index, direction and container count. It then writes the caller's flags, id and non-zero timestamp into the bundle, and each buffer's region as it goes, before any per-container comparison can fail.
- **`__vb_queue_clear` only unlinks.** It takes QUEUED bundles off the queued list without changing their state.
- **Negotiation records `format.count` before validating.** A failed negotiation records the new count, leaves the FORMAT bit as it was, and leaves the array NULL.
- **A failed prepare rolls back only the failing buffer.** Buffers mapped before it stay mapped.

## Model

| member | source | states |
|---|---|---|
| VisionFormat.FindIn | drivers/vision/vision-core/vision-buffer.c:212-224 | the scan finds nothing exactly when no entry has the colorspace, and otherwise returns the first entry that has it |
| VisionFormat.FindFormat | drivers/vision/vision-core/vision-buffer.c:212-224 | exactly the thirteen listed colorspaces are found, each with its own table entry; every other code yields NULL |
| VisionFormat.FindFormatIsEntry | drivers/vision/vision-core/vision-buffer.c:212-224 | scanning `vb_fmts[]` gives the entry of a listed colorspace and nothing for any other code |
| VisionFormat.FormatTableColorspacesDistinct | drivers/vision/vision-core/vision-buffer.c:109-176 | no colorspace appears twice in `vb_fmts[]`, so the first match is the only one |
| VisionFormat.TableHoldsEntries | drivers/vision/vision-core/vision-buffer.c:109-176 | every element of the table is the entry of a listed colorspace |
| VisionFormat.TableEntriesWellFormed | drivers/vision/vision-core/vision-buffer.c:109-176 | every entry has one or two planes with whole bytes per pixel (8 to 32 bits); two planes exactly for NV12 and NV21 |
| VisionFormat.PlaneSizes | drivers/vision/vision-core/vision-buffer.c:226-260 | -EINVAL exactly when the format has more planes than VB_MAX_PLANES; otherwise one size per possible plane, zero past the format's planes |
| VisionFormat.PlaneSizesExact | drivers/vision/vision-core/vision-buffer.c:249-256 | for a table format without u32 overflow, plane p holds exactly bitsperpixel[p]/8 bytes per pixel |
| VisionFormat.AcceleratorPlaneSizes | drivers/vision/vision-core/vision-buffer.c:241-248 | every NPU/DSP plane has plane 0's size, which is pixel_format/8 × channels × width × height when that fits in u32 |
| VisionFormat.EntryFormat | drivers/vision/vision-core/vision-buffer.c:942-994 | an entry is accepted exactly when its colorspace is listed, its plane is below VB_MAX_PLANES and the format's planes fit; the result copies the caller's fields unchanged, refers to the table entry and can size a buffer |
| VisionFormat.AllConverted | drivers/vision/vision-core/vision-buffer.c:942-995 | the loop, which gives up at the first entry that fails, succeeds exactly when no entry fails, and then holds every converted entry in order |
| VisionFormat.BuildFormats | drivers/vision/vision-core/vision-buffer.c:942-995 | negotiation of the entries succeeds exactly when every entry has a listed colorspace, a plane below VB_MAX_PLANES and planes that fit, and then holds each entry's conversion at that entry's position |
| VisionDma.Held | drivers/vision/vision-core/vision-buffer.c:272-282 | a buffer holds nothing exactly when none of its mapping fields is set |
| VisionDma.Unmap | drivers/vision/vision-core/vision-buffer.c:262-293 | afterwards the buffer holds no mapping and no size but keeps its region and fd; exactly what it held is released |
| VisionDma.UnmapUnmappedReleasesNothing | drivers/vision/vision-core/vision-buffer.c:272-289 | unmapping a buffer that holds nothing releases nothing, and a second unmap releases nothing and changes nothing |
| VisionDma.Map | drivers/vision/vision-core/vision-buffer.c:295-375 | returns 0 exactly when get, size check, attach, map, address lookup and vmap all succeed, and then holds those handles and the requested size; any failure returns a negative code with the buffer fully unmapped |
| VisionDma.Fail | drivers/vision/vision-core/vision-buffer.c:371-373 | the failure exit keeps its code, leaves the buffer unmapped and releases what the partial mapping held |
| VisionDma.MapReleasesWhatItAcquired | drivers/vision/vision-core/vision-buffer.c:308-375 | a failed map releases precisely the references it acquired, newest first |
| VisionDma.MapHoldsWhatItAcquired | drivers/vision/vision-core/vision-buffer.c:308-367 | a successful map holds precisely the references it acquired |
| VisionDma.MapForgetsEarlierMapping | drivers/vision/vision-core/vision-buffer.c:308-319 | for an fd that dma_buf_get cannot resolve, the map releases nothing and leaves the buffer unmapped, even if it held an earlier mapping |
| VisionBundle.LookupTarget | drivers/vision/vision-core/vision-buffer.c:457-462 | no format is found exactly when no negotiated format has the target; otherwise the first one with that target is found |
| VisionBundle.NewBuffer | drivers/vision/vision-core/vision-buffer.c:471-481 | a new kernel buffer has the caller's region and fd and holds no mapping |
| VisionBundle.BuildContainers | drivers/vision/vision-core/vision-buffer.c:446-482 | building succeeds exactly when every container's target has a negotiated format, and each container is then bound to the first such format |
| VisionBundle.NewBundle | drivers/vision/vision-core/vision-buffer.c:425-482 | a bundle exists exactly when every target is negotiated; it is DEQUEUED with no bundle flag set and carries the caller's index, id, direction, flags and timestamp |
| VisionBundle.NewBundleUnmapped | drivers/vision/vision-core/vision-buffer.c:446-481 | a fresh bundle maps no buffer; each container keeps the caller's target, memory kind and buffer type, and is bound to a negotiated format of that same target |
| VisionBundle.FirstFdMismatch | drivers/vision/vision-core/vision-buffer.c:570-579 | the position where the fd comparison fails first: all earlier fds agree and the one there does not |
| VisionBundle.CheckBuffers | drivers/vision/vision-core/vision-buffer.c:570-579 | the buffer loop succeeds exactly when every fd agrees; each buffer either stays as it was or takes the caller's region, and on success every buffer takes it |
| VisionBundle.FirstContainerMismatch | drivers/vision/vision-core/vision-buffer.c:553-580 | the first container whose target, buffer count or some fd disagrees; all earlier ones agree |
| VisionBundle.CheckedContainer | drivers/vision/vision-core/vision-buffer.c:553-580 | whatever container the loop stops at, every container differs from before only in regions taken from the caller |
| VisionBundle.CheckContainers | drivers/vision/vision-core/vision-buffer.c:553-580 | the container loop returns 0 exactly when every container agrees in target, count and fds, else -EINVAL; only regions change, all of them on success |
| VisionBundle.Check | drivers/vision/vision-core/vision-buffer.c:513-587 | returns 0 exactly when the request describes the same buffers (index, direction, counts, targets, fds), else -EINVAL; a header mismatch writes nothing; otherwise flags, id, a non-zero timestamp and regions are written even if a later comparison fails, and state, bundle flags and formats stay |
| VisionBundle.NewBundlePassesCheck | drivers/vision/vision-core/vision-buffer.c:513-587 | a bundle just built from a request passes the reuse check against that request and is left unchanged |
| VisionBundle.CheckKeepsMatch | drivers/vision/vision-core/vision-buffer.c:548-580 | after a successful check the bundle still describes the request's buffers |
| VisionBundle.CheckKeepsShape | drivers/vision/vision-core/vision-buffer.c:548-580 | the check never changes a bundle's slot, direction, state or bundle flags, and leaves every container able to size its buffers |
| VisionBundle.CheckIdentity | drivers/vision/vision-core/vision-buffer.c:548-579 | a request that already agrees in every field the check writes leaves the bundle unchanged and passes |
| VisionBundle.ReservedInKeepsLayout | drivers/vision/vision-core/vision-buffer.c:1197-1213 | copying the caller's reserved words in changes no header field, container field, fd or region |
| VisionBundle.FirstMapFailure | drivers/vision/vision-core/vision-buffer.c:625-643 | the first buffer whose map would fail; every earlier one maps |
| VisionBundle.MapBuffers | drivers/vision/vision-core/vision-buffer.c:625-643 | buffers up to the first failure are mapped (the failing one rolled back), later ones are untouched, and the result is the failing map's code or 0 |
| VisionBundle.PrepareContainer | drivers/vision/vision-core/vision-buffer.c:603-651 | one container succeeds exactly when its type is supported, its memory is DMABUF and every buffer maps; its fds, regions and format stay as they were |
| VisionBundle.FirstUnpreparable | drivers/vision/vision-core/vision-buffer.c:603-652 | the first container prepare cannot map completely; every earlier one can |
| VisionBundle.PrepareContainers | drivers/vision/vision-core/vision-buffer.c:603-652 | containers are prepared in order up to and including the first failing one, the rest stay as they were, and the result is that container's code or 0 |
| VisionBundle.BufPrepare | drivers/vision/vision-core/vision-buffer.c:589-664 | a no-op returning 0 when PREPARE is set; otherwise 0 exactly when every container maps completely and the driver's buf_prepare returns 0, and PREPARE is set exactly then; state, other flags and the buffers' layout are kept |
| VisionBundle.Released | drivers/vision/vision-core/vision-buffer.c:700-711 | every buffer of the container is unmapped and keeps its fd and region |
| VisionBundle.FirstUnreleasable | drivers/vision/vision-core/vision-buffer.c:680-718 | the first container of an unsupported type or non-DMABUF memory; every earlier one is releasable |
| VisionBundle.UnprepareContainers | drivers/vision/vision-core/vision-buffer.c:680-718 | containers before the first unreleasable one are released and the rest untouched; -EINVAL exactly when there is an unreleasable one |
| VisionBundle.BufUnprepare | drivers/vision/vision-core/vision-buffer.c:666-732 | a no-op returning 0 when PREPARE is clear; otherwise 0 exactly when every container is releasable and buf_unprepare returns 0, and PREPARE is cleared exactly then; a prepared bundle whose containers are all releasable ends with every buffer unmapped |
| VisionBundle.UnprepareIdempotent | drivers/vision/vision-core/vision-buffer.c:666-732 | after a successful unprepare, a second one changes nothing and returns 0 |
| VisionBundle.PrepareIdempotent | drivers/vision/vision-core/vision-buffer.c:589-664 | after a successful prepare, a second one changes nothing and returns 0, whatever the oracle and callback say |
| VisionBundle.UnmapAfterMap | drivers/vision/vision-core/vision-buffer.c:262-375 | unmapping a buffer mapped from the unmapped state gives back the original buffer |
| VisionBundle.ReleaseAfterPrepare | drivers/vision/vision-core/vision-buffer.c:589-732 | releasing a container after a complete prepare from the unmapped state restores the container |
| VisionBundle.UnprepareAfterPrepare | drivers/vision/vision-core/vision-buffer.c:589-732 | prepare and unprepare are inverse: an unmapped bundle that prepares, with both callbacks succeeding, unprepares back to itself |
| VisionBundle.UnprepareOfPreparedFailsOnlyInDriver | drivers/vision/vision-core/vision-buffer.c:666-732 | unpreparing a bundle that prepare accepted returns exactly the driver callback's code |
| VisionBundle.PreparedContainersAreDmabuf | drivers/vision/vision-core/vision-buffer.c:623-651 | every container of a successfully prepared bundle is in DMABUF memory |
| VisionBundle.PrepareRejectsOtherMemory | drivers/vision/vision-core/vision-buffer.c:645-651 | a non-DMABUF container reached by the loop makes prepare return -EINVAL and leaves PREPARE clear |
| VisionBundle.ReportedFlags | drivers/vision/vision-core/vision-buffer.c:816-846 | caller flags outside the seven reported ones survive; TIMESTAMP is set exactly when the container list has it; each completion flag is set exactly when the bundle has it |
| VisionBundle.Fill | drivers/vision/vision-core/vision-buffer.c:808-861 | the caller receives the reported flags, the bundle's index and id, and its timestamp when TIMESTAMP is set; with `fill` also every kernel buffer's reserved word, the containers changing only in their buffers |
| VisionBundle.ReservedRoundTrip | drivers/vision/vision-core/vision-buffer.c:1197-1213 | reserved words make a round trip: after qbuf copies the caller's words in, a report with fill (855-860) hands the same words back, except for VIRTPTR containers, which report the bundle's own words |
| VisionQueue.Without | drivers/vision/vision-core/vision-buffer.c:1381 | unlinking removes exactly the slot's entry, keeps all others, and keeps a list of distinct entries distinct |
| VisionQueue.Init | drivers/vision/vision-core/vision-buffer.c:871-914 | initialisation sets the direction, turns streaming off and clears FORMAT, and leaves the slot array and the START bit untouched |
| VisionQueue.InitValid | drivers/vision/vision-core/vision-buffer.c:871-914 | an initialised queue satisfies the queue invariant exactly when the slot array it inherits is empty |
| VisionQueue.InitZeroedValid | drivers/vision/vision-core/vision-buffer.c:871-914 | a zero-filled queue object satisfies the invariant after initialisation |
| VisionQueue.SetFormat | drivers/vision/vision-core/vision-buffer.c:916-1003 | -ENOMEM exactly when a non-empty allocation fails; 0 exactly when the allocation succeeds (an empty one always does), the count is at most VB_MAX_BUFFER and every entry converts; FORMAT is set and each entry's conversion recorded only then; on failure the array is NULL and FORMAT is as before; the count is always recorded |
| VisionQueue.SetFormatAcceptsListedColorspaces | drivers/vision/vision-core/vision-buffer.c:942-994 | with room for two planes, negotiation accepts exactly the lists whose every colorspace is in the table and whose every plane index is below VB_MAX_PLANES |
| VisionQueue.SetFormatKeepsValid | drivers/vision/vision-core/vision-buffer.c:916-1003 | negotiation, successful or not, keeps the queue invariant |
| VisionQueue.Start | drivers/vision/vision-core/vision-buffer.c:1005-1019 | succeeds exactly when FORMAT is set, and then turns streaming on and sets START; otherwise -EINVAL with nothing changed |
| VisionQueue.KeepUnqueued | drivers/vision/vision-core/vision-buffer.c:1028-1033 | the surviving entries come from the list, and none survives when every listed bundle is QUEUED |
| VisionQueue.Clear | drivers/vision/vision-core/vision-buffer.c:1021-1034 | only the queued list and its count change, the count dropping by one per unlinked entry; on a valid queue the list ends empty with count 0 |
| VisionQueue.ReleaseFrom | drivers/vision/vision-core/vision-buffer.c:1075-1097 | the slot loop keeps the number of slots, and a forced loop always runs to the end |
| VisionQueue.ReleaseCountsFreedSlots | drivers/vision/vision-core/vision-buffer.c:1075-1097 | num_buffers drops by exactly one for every slot the loop frees |
| VisionQueue.ReleaseKeepsLayout | drivers/vision/vision-core/vision-buffer.c:1075-1097 | slots before the loop's start are untouched, and a bundle the loop does not free keeps its buffers' layout and its state |
| VisionQueue.ReleaseOutcome | drivers/vision/vision-core/vision-buffer.c:1075-1097 | the loop runs to the end exactly when it is forced or every occupied slot unprepares cleanly, and then every slot from its start on is empty |
| VisionQueue.Stop | drivers/vision/vision-core/vision-buffer.c:1036-1115 | streaming always ends; a forced stop returns 0; a normal stop succeeds exactly when the process and done counts are not positive and every bundle unprepares cleanly; success leaves every slot empty, num_buffers 0, formats NULL, START clear and the lists empty, while FORMAT and format.count stay |
| VisionQueue.ReleaseKeepsReady | drivers/vision/vision-core/vision-buffer.c:1075-1107 | the slots the stop loop leaves are consistent, and the count it keeps equals the occupied slots, so after a complete loop it is 0 and the memory-leak BUG() cannot fire |
| VisionQueue.StopKeepsValid | drivers/vision/vision-core/vision-buffer.c:1036-1115 | a stop keeps the queue invariant whether it succeeds, fails or is forced |
| VisionQueue.StartAfterStop | drivers/vision/vision-core/vision-buffer.c:1099-1108 | after a successful stop of a negotiated queue, start succeeds again although the formats are gone and a new bundle could not be built |
| VisionQueue.Alloc | drivers/vision/vision-core/vision-buffer.c:377-489 | 0 exactly when the container count is within VB_MAX_CONTAINERLIST, the allocation succeeds and every target has a negotiated format; success installs the new bundle and raises num_buffers by one, and any failure changes nothing |
| VisionQueue.Admit | drivers/vision/vision-core/vision-buffer.c:1163-1177 | only the request's slot changes; an occupied slot passes exactly when its bundle describes the request, and keeps its state and bundle flags; an empty slot is allocated, and only then must the formats be readable; on success the slot's bundle describes the request |
| VisionQueue.AdmittedShaped | drivers/vision/vision-core/vision-buffer.c:1163-1177 | the bundle admission leaves in the request's slot can size its buffers, whether the formats are readable or not when the slot was occupied |
| VisionQueue.AdmitKeepsValid | drivers/vision/vision-core/vision-buffer.c:1163-1177 | checking or allocating the request's bundle keeps the queue invariant; an occupied slot needs no readable formats |
| VisionQueue.CheckInSlotKeepsValid | drivers/vision/vision-core/vision-buffer.c:1163-1169 | the reuse check on an occupied slot keeps the queue invariant, even when it fails halfway |
| VisionQueue.AllocKeepsValid | drivers/vision/vision-core/vision-buffer.c:1170-1177 | allocating into an empty slot keeps the queue invariant, num_buffers included |
| VisionQueue.QueuePrepare | drivers/vision/vision-core/vision-buffer.c:1231-1294 | a request failing the direction, index or buffer-count checks gets -EINVAL with nothing changed; a busy bundle gets -EINVAL; only the request's slot and num_buffers change; on success the slot holds a prepared DEQUEUED bundle that describes the request and carries its flags and id |
| VisionQueue.PrepareAdmitted | drivers/vision/vision-core/vision-buffer.c:1280-1290 | a bundle not DEQUEUED is refused with nothing changed; on success it is prepared, still DEQUEUED, still describes the request, and keeps its flags and id |
| VisionQueue.QueuePrepareKeepsValid | drivers/vision/vision-core/vision-buffer.c:1231-1294 | preparing on its own keeps the queue invariant, including for an occupied slot after a failed renegotiation |
| VisionQueue.Enqueue | drivers/vision/vision-core/vision-buffer.c:1196-1225 | the bundle takes the caller's reserved words and becomes QUEUED, is appended at the tail of the queued list and counted; every other slot is untouched and the bundle still describes the request |
| VisionQueue.Qbuf | drivers/vision/vision-core/vision-buffer.c:1127-1229 | failed argument checks give -EINVAL with nothing changed; only the request's slot changes; on success the slot holds a prepared QUEUED bundle describing the request, appended once to the queued list with queued_count raised by one; on failure the queued list and count are untouched |
| VisionQueue.EnqueueKeepsValid | drivers/vision/vision-core/vision-buffer.c:1196-1225 | enqueueing a DEQUEUED bundle keeps the queue invariant |
| VisionQueue.AppendQueuedKeepsValid | drivers/vision/vision-core/vision-buffer.c:1223-1225 | appending a QUEUED slot that is not yet listed keeps the queue invariant |
| VisionQueue.QbufKeepsValid | drivers/vision/vision-core/vision-buffer.c:1127-1229 | submission keeps the queue invariant, including for an occupied slot after a failed renegotiation; in particular no slot is on the queued list twice |
| VisionQueue.QbufRefusesBusyBundle | drivers/vision/vision-core/vision-buffer.c:1179-1183 | on any valid queue, whatever the state of its formats, a bundle that is QUEUED, in PROCESS or DONE cannot be submitted again, and the queued list stays as it was |
| VisionQueue.QbufTwiceRefused | drivers/vision/vision-core/vision-buffer.c:1127-1229 | submitting the same request twice in a row fails the second time with -EINVAL |
| VisionQueue.QueueUnprepare | drivers/vision/vision-core/vision-buffer.c:1296-1335 | a wrong direction or index gives -EINVAL and an empty slot -ENOMEM, both with nothing changed; only the request's slot changes and its state is kept; on success its bundle is no longer prepared |
| VisionQueue.QueueUnprepareKeepsValid | drivers/vision/vision-core/vision-buffer.c:1296-1335 | unpreparing keeps the queue invariant |
| VisionQueue.PrepareIntoEmptySlot | drivers/vision/vision-core/vision-buffer.c:1264-1290 | preparing into an empty slot installs the freshly built bundle, prepared, and counts it |
| VisionQueue.PreparedNewBundlePassesCheck | drivers/vision/vision-core/vision-buffer.c:1313-1320 | a bundle built from a request and then prepared passes the reuse check against that request unchanged |
| VisionQueue.QueueUnprepareAfterPrepare | drivers/vision/vision-core/vision-buffer.c:1231-1335 | queue-level prepare and unprepare undo each other: preparing into an empty slot and unpreparing leaves exactly the freshly built, unmapped bundle in the slot |
| VisionQueue.UnprepareFreshlyPrepared | drivers/vision/vision-core/vision-buffer.c:1313-1331 | unpreparing a slot that holds a freshly built and prepared bundle puts the fresh bundle back and returns 0 |
| VisionQueue.Dqbuf | drivers/vision/vision-core/vision-buffer.c:1337-1371 | it blocks exactly when the direction matches, the queue is streaming, the call is blocking and nothing is done; -EWOULDBLOCK exactly when non-blocking with nothing done; on success the first done bundle was DONE, its index, id, flags and timestamp are reported, and it alone becomes DEQUEUED; a failure changes nothing |
| VisionQueue.DqbufKeepsValid | drivers/vision/vision-core/vision-buffer.c:1337-1371 | retrieval keeps the queue invariant |
| VisionQueue.DqbufTwiceRefused | drivers/vision/vision-core/vision-buffer.c:1357-1367 | the done list is not consumed: right after a successful retrieval the next one fails with -EINVAL and changes nothing |
| VisionQueue.Process | drivers/vision/vision-core/vision-buffer.c:1373-1383 | the bundle becomes PROCESS and leaves the queued list, with queued_count one lower; every other slot and list entry stays |
| VisionQueue.ProcessKeepsValid | drivers/vision/vision-core/vision-buffer.c:1373-1383 | handing a queued bundle to the driver keeps the queue invariant |
| VisionQueue.Done | drivers/vision/vision-core/vision-buffer.c:1385-1432 | only the bundle's state changes: DEQUEUED exactly when its container list has ENABLE_FENCE, DONE exactly when it does not |
| VisionQueue.DoneKeepsValid | drivers/vision/vision-core/vision-buffer.c:1423-1428 | completing a bundle that is off the queued list keeps the queue invariant |
| VisionQueue.Finish | drivers/vision/vision-core/vision-buffer.c:1373-1432 | process then done, with the bundle put alone on the done list, yields a valid queue whose slot holds the bundle DONE, or DEQUEUED under a fence |
| VisionQueue.DqbufReportsFirstDone | drivers/vision/vision-core/vision-buffer.c:1337-1371 | a non-blocking retrieval with a DONE bundle first on the done list succeeds, reports its index and id, reports PREPARE exactly when the bundle is prepared, and leaves it DEQUEUED |
| VisionQueue.RoundTrip | drivers/vision/vision-core/vision-buffer.c:1127-1432 | one request's life: submitted, processed, completed without a fence and retrieved, the caller gets its own index and id back with PREPARE reported, and the bundle is DEQUEUED again |
| Imx258.CalcAgainCode | drivers/media/platform/exynos/camera/sensor/module_framework/cis/is-cis-imx258.c:187-193 | 0 for 0 permille; at most 512 for requests of at least 999 permille; exactly 512 above x512; and for 1..998 permille the u32 subtraction wraps to a code of at least 2^32 - 511488 |
| Imx258.AgainCodeLeastReaching | drivers/media/platform/exynos/camera/sensor/module_framework/cis/is-cis-imx258.c:187-193 | for 999..512000 permille the code is the least one whose exact gain 512/(512 - code) reaches the request |
| Imx258.CalcAgainPermile | drivers/media/platform/exynos/camera/sensor/module_framework/cis/is-cis-imx258.c:195-201 | a code below 512 gives its exact gain truncated to permille, between 1000 and 512000; codes of 512 and above give 1000 |
| Imx258.AgainRangeEndpoints | drivers/media/platform/exynos/camera/sensor/module_framework/cis/is-cis-imx258.c:887-948 | the fixed code range 0..480 is x1..x16: 0 and 1000 permille, and 480 and 16000 permille, convert into each other |
| Imx258.AgainCodeRoundTrip | drivers/media/platform/exynos/camera/sensor/module_framework/cis/is-cis-imx258.c:187-201 | every code below 512 survives the trip through permille unchanged |
| Imx258.AgainPermileRoundsUp | drivers/media/platform/exynos/camera/sensor/module_framework/cis/is-cis-imx258.c:187-201 | a request of at least 999 permille is rounded up to a representable gain, never down |
| Imx258.AgainPermileMonotone | drivers/media/platform/exynos/camera/sensor/module_framework/cis/is-cis-imx258.c:195-201 | a larger code never gives a smaller gain |
| Imx258.ClampAgainCode | drivers/media/platform/exynos/camera/sensor/module_framework/cis/is-cis-imx258.c:750-754 | a code above the maximum becomes the maximum, else a code below the minimum becomes the minimum; with ordered bounds the result lies between them |
| Imx258.AdjustAnalogGain | drivers/media/platform/exynos/camera/sensor/module_framework/cis/is-cis-imx258.c:724-768 | with an ordered code range below 512, the applied gain lies between the range's gains and its code lies in the range |
| Imx258.ClampedPermileInRange | drivers/media/platform/exynos/camera/sensor/module_framework/cis/is-cis-imx258.c:750-756 | a code inside the range has a gain between the bounds' gains and reads back as itself |
| Imx258.AdjustAnalogGainFixedRange | drivers/media/platform/exynos/camera/sensor/module_framework/cis/is-cis-imx258.c:748-756 | with the driver's range 0..480, every adjusted gain lies between x1 and x16 |
| Imx258.AdjustAnalogGainKeepsRepresentable | drivers/media/platform/exynos/camera/sensor/module_framework/cis/is-cis-imx258.c:748-756 | a gain the sensor represents within the range is returned unchanged |
| Imx258.AdjustAnalogGainIdempotent | drivers/media/platform/exynos/camera/sensor/module_framework/cis/is-cis-imx258.c:748-765 | adjusting an already adjusted gain changes nothing |
| Imx258.AdjustAnalogGainSubUnityJumpsToMax | drivers/media/platform/exynos/camera/sensor/module_framework/cis/is-cis-imx258.c:748-756 | as written, any request of 1..998 permille is clamped to the MAXIMUM gain of the range |
| Imx258.AdjustAnalogGainNotMonotone | drivers/media/platform/exynos/camera/sensor/module_framework/cis/is-cis-imx258.c:748-756 | as written, 500 permille is adjusted to x16 while 1000 permille stays x1 |
| Imx258.CalcAgainCodeSaturating | drivers/media/platform/exynos/camera/sensor/module_framework/cis/is-cis-imx258.c:187-193 | the corrected conversion gives code 0 below x1, agrees with the driver from 999 permille on, and never exceeds 512 |
| Imx258.AgainCodeSaturatingMonotone | drivers/media/platform/exynos/camera/sensor/module_framework/cis/is-cis-imx258.c:187-193 | the corrected conversion never gives a larger request a smaller code |
| Imx258.AdjustAnalogGainSaturating | drivers/media/platform/exynos/camera/sensor/module_framework/cis/is-cis-imx258.c:748-756 | the corrected adjustment clamps sub-unity requests to the minimum gain, agrees with the driver from x1 on, and stays between the range's gains |
| Imx258.AdjustAnalogGainSaturatingMonotone | drivers/media/platform/exynos/camera/sensor/module_framework/cis/is-cis-imx258.c:748-756 | the corrected adjustment never gives a larger request a smaller gain |
| Imx258.MaxFps | drivers/media/platform/exynos/camera/sensor/module_framework/cis/is-cis-imx258.c:128-130 | max_fps is the truncated frame rate or that rate plus one, taken in u32 |
| Imx258.MaxFpsWithoutWrap | drivers/media/platform/exynos/camera/sensor/module_framework/cis/is-cis-imx258.c:123-130 | without overflow, max_fps is pclk/pixels, plus one exactly when the first decimal of the exact rate is 5 or more |
| Imx258.MaxFpsRoundsHalfUp | drivers/media/platform/exynos/camera/sensor/module_framework/cis/is-cis-imx258.c:123-130 | without overflow, max_fps is the exact frame rate rounded half up |
| Imx258.DataCalculation | drivers/media/platform/exynos/camera/sensor/module_framework/cis/is-cis-imx258.c:110-166 | the current frame time equals the minimum one; max_fps is the rounded rate of the PLL setting; pclk, frame length and line length are taken from the setting; the fine minimum and maximum, the coarse minimum and the coarse margin become the sensor's constants; no other modelled field changes |
| Imx258.DataCalculationFrameTime | drivers/media/platform/exynos/camera/sensor/module_framework/cis/is-cis-imx258.c:110-115 | without overflow, the minimum frame time is the frame's length in whole microseconds at the pixel clock, and it is the duration adjust_frame_duration computes for a frame of that many lines |
| Imx258.AdjustFrameDuration | drivers/media/platform/exynos/camera/sensor/module_framework/cis/is-cis-imx258.c:544-598 | the duration is the larger of the minimum frame time and the duration of the frame holding the exposure plus the coarse margin: at least both, and equal to one of them |
| Imx258.AdjustFrameDurationZeroIsMin | drivers/media/platform/exynos/camera/sensor/module_framework/cis/is-cis-imx258.c:572-576 | an exposure of 0 is treated exactly like one of the minimum frame time |
| Imx258.AdjustFrameDurationMonotone | drivers/media/platform/exynos/camera/sensor/module_framework/cis/is-cis-imx258.c:572-590 | without overflow, a longer exposure never gets a shorter frame |
| Imx258.SetFrameDuration | drivers/media/platform/exynos/camera/sensor/module_framework/cis/is-cis-imx258.c:600-661 | returns the write's code; a failed write changes nothing; otherwise the duration is raised to the minimum, frame_length_lines is its u16 line count, max coarse is that count minus the margin (wrapping in u32), and nothing else changes |
| Imx258.EffectiveFps | drivers/media/platform/exynos/camera/sensor/module_framework/cis/is-cis-imx258.c:685-695 | the applied rate is at least 1 and at most max_fps (or 1); a request of 0 becomes 1, a request within 1..max_fps is kept and one above max_fps becomes max_fps |
| Imx258.FrameLengthLinesWholeLines | drivers/media/platform/exynos/camera/sensor/module_framework/cis/is-cis-imx258.c:637-640 | without wrap-around, frame_length_lines is the number of whole lines that fit in the duration at the pixel clock: those lines fit and one more would not |
| Imx258.SetFrameDurationWholeLines | drivers/media/platform/exynos/camera/sensor/module_framework/cis/is-cis-imx258.c:628-653 | without wrap-around, a successful set_frame_duration programs the longest whole-line frame that fits in the recorded duration, and that frame lasts no longer than the duration |
| Imx258.FrameDurationOfLinesWithin | drivers/media/platform/exynos/camera/sensor/module_framework/cis/is-cis-imx258.c:581 | a frame of lines that fit in a duration lasts no longer than that duration |
| Imx258.SetFrameRate | drivers/media/platform/exynos/camera/sensor/module_framework/cis/is-cis-imx258.c:663-722 | returns the write's code; a failed write changes nothing; otherwise the sensor state is exactly what set_frame_duration makes of a frame of 1000000 over the applied rate microseconds (frame length, current frame time, max coarse), with that duration as the new minimum frame time, at most one second, and every other field kept |
| Imx258.ClampCoarse | drivers/media/platform/exynos/camera/sensor/module_framework/cis/is-cis-imx258.c:390-412 | with ordered bounds the value ends between them, a value already inside stays, and crossed bounds give the minimum |
| Imx258.EffectiveFpsMonotone | drivers/media/platform/exynos/camera/sensor/module_framework/cis/is-cis-imx258.c:685-695 | a faster requested rate is never applied as a slower one |
| Imx258.SetFrameRateWholeMicroseconds | drivers/media/platform/exynos/camera/sensor/module_framework/cis/is-cis-imx258.c:685-712 | on success the new minimum frame time is the longest whole number of microseconds a frame at the applied rate lasts, and never shorter than max_fps allows |
| Imx258.SetFrameRateAntitone | drivers/media/platform/exynos/camera/sensor/module_framework/cis/is-cis-imx258.c:685-712 | asking for a higher frame rate never lengthens the minimum frame time |
| Imx258.CoarseIntegrationWholeLines | drivers/media/platform/exynos/camera/sensor/module_framework/cis/is-cis-imx258.c:383-388 | without wrap-around, the coarse integration time is the number of whole lines that fit in the exposure's pixel clocks after the minimum fine integration time |
| Imx258.SetExposureTimeWritesWholeLines | drivers/media/platform/exynos/camera/sensor/module_framework/cis/is-cis-imx258.c:383-415 | without wrap-around and within the coarse bounds, the short coarse value written is exactly the whole lines that fit in the requested exposure |
| Imx258.SetExposureTime | drivers/media/platform/exynos/camera/sensor/module_framework/cis/is-cis-imx258.c:357-431 | -EINVAL exactly when either exposure is 0 or the write returns it; otherwise both coarse values are computed and clamped into the coarse range and the write's code is returned |
| UsbNotify.Ordinal | include/linux/usb_notify.h:24-68 | every enumerator's value is at most NOTIFY_EVENT_VIRTUAL, and only NOTIFY_EVENT_VIRTUAL has that value |
| UsbNotify.EventOf | include/linux/usb_notify.h:24-68 | a value names an enumerator exactly when it is at most NOTIFY_EVENT_VIRTUAL |
| UsbNotify.OrdinalRoundTrip | include/linux/usb_notify.h:24-68 | every enumerator is recovered from its value |
| UsbNotify.VirtEvent | include/linux/usb_notify.h:70 | the value plus 42, wrapping modulo 2^64 |
| UsbNotify.PhyEvent | include/linux/usb_notify.h:71 | the result is below 42 and leaves values below 42 unchanged |
| UsbNotify.IsVirtual | include/linux/usb_notify.h:72 | 1 exactly for values of at least 42, and 0 exactly for the others |
| UsbNotify.VirtualRoundTrip | include/linux/usb_notify.h:24-72 | tagging a physical event as virtual and stripping the tag gives the event back, and the tagged value reads as virtual |
| UsbNotify.VirtEventIsVirtual | include/linux/usb_notify.h:70-72 | any value that does not wrap reads as virtual once tagged, and stripping gives the same physical event as before |
| UsbNotify.VirtEventWraps | include/linux/usb_notify.h:70-72 | the last 42 unsigned long values wrap when tagged and read as physical |
| UsbNotify.PhysicalEventsAreNotVirtual | include/linux/usb_notify.h:24-72 | an enumerator reads as not virtual exactly when it is a physical event |
| UsbNotify.PhyEventIdempotent | include/linux/usb_notify.h:24-71 | stripping twice is stripping once, and the result always names a physical enumerator |
| UsbNotify.EvtBit | include/linux/usb_notify.h:83-92 | every event-type value is a single bit within the low byte |
| UsbNotify.EvtBitsDisjoint | include/linux/usb_notify.h:83-92 | two event types share a bit exactly when they are the same type |
| UsbNotify.EvtTypes | include/linux/usb_notify.h:83-92 | a type word names exactly the types whose bit it has set |
| UsbNotify.EvtMaskRoundTrip | include/linux/usb_notify.h:83-92 | OR-ing a set of event types into a word loses nothing: the set reads back |
| UsbNotify.EvtMaskHas | include/linux/usb_notify.h:83-92 | a type's bit is set in the combined word exactly when the type was included |
| UsbNotify.BlockTypeAllIsHostAndClient | include/linux/usb_notify.h:94-99 | ALL is HOST OR CLIENT; HOST and CLIENT share no bit; ALL covers both; NONE has no bit of ALL |

## Left out

- Locking and waiting: the queue mutex, `wait_event` in blocking dqbuf, `wake_up`/`wake_up_all`, the done spinlock and `local_irq_save`. These are concurrency. A blocking dqbuf with nothing done is the outcome `DqBlocks`, with no state change.
- The `CONFIG_NPU_USE_ASYNC` variant of waiting (`__is_done_for_me`): only the synchronous build is modelled.
- DMA direction selection and cache maintenance (`vision_dma_buf_sync`, `vb_queue_sync`, the sync loops' size computation). They move no state the engine keeps.
- Real dma-buf, IOMMU and vmap calls. They are foreign and are replaced by `DmaOracle`. `vision_dma_buf_add_attr` is left out.
- The NULL-pointer paths: -EFAULT for a NULL queue or buffer, and the `BUG_ON`s on NULL arguments. Values are never NULL in the model.
- The flat single allocation of a bundle and its pointer arithmetic. Nested sequences stand for it.
- Debug printing, and the format table's names, which only debug output uses.
- Timestamps other than `timestamp[5].tv_usec`. That is the only entry copied in; `Fill` reports the same entry.
- The process list and the process and done counters. This file never changes them; the model carries the counters for stop's checks.
- Fields of `vb_queue_init` that only store pointers (alloc context, ops, lock). `VisionQueue.Init` also does not clear the slot array, as the source does not; `InitValid` states what that needs.
- IMX258 register I/O, stream control, set-file selection and probe. Each register write is its return code.
- The IMX258 fields derived through `sensor_cis_do_div64`, and the `CAMERA_REAR2` variants (`min_sync_frame_us_time`). The model takes the build without `CAMERA_REAR2`.
- The USB notify declarations, stubs and callback structures, and the `otg_notify_event_status` enumeration. They carry no arithmetic.
- `VIRT_EVENT` with a compound argument. The macro does not parenthesise its argument; it is modelled on plain values only.
- VisionFormat.PlaneSizesExact: the exact byte count is stated only without u32 overflow. `PlaneSizes` itself computes the truncated value in every case.
- Imx258.MaxFps: when the u64 tenths value `pclk*10` or the u32 rate wraps, the contract does not fix which of the rate and the rate plus one is taken; it states only that the result is one of the two.
- Imx258.MaxFpsWithoutWrap: stated only when neither the u64 tenths product nor the u32 frame rate wraps.
- Imx258.AdjustFrameDurationMonotone: stated only when no intermediate u64/u32 value wraps.
- Imx258.FrameLengthLinesWholeLines: stated only when no u64 product, u32 line-length product or u16 line count wraps. The operation itself computes the wrapped values on every input.
- Imx258.SetFrameDurationWholeLines: stated only when no u64 product, u32 line-length product or u16 line count wraps. The operation itself computes the wrapped values on every input.
- Imx258.DataCalculationFrameTime: stated only when no u64 product or u32 frame time wraps. The operation itself computes the wrapped values on every input.
- Imx258.CoarseIntegrationWholeLines: stated only when no u64 product, u64 subtraction or u16 coarse value wraps. The operation itself computes the wrapped values on every input.
- Imx258.SetExposureTimeWritesWholeLines: stated only when no u64 product, u64 subtraction or u16 coarse value wraps. The operation itself computes the wrapped values on every input.
- VisionQueue.Process: the driver's `BUG_ON` on the bundle's direction is not a precondition, because the transition does not depend on it. The bundle must be on the queued list, since `list_del` needs a linked entry.
- VisionQueue.Alloc: requires `FormatsReadable`; `VisionQueue.Admit`, `QueuePrepare` and `Qbuf` ask for it only when the request's slot is empty. The source would read through a NULL format array after a stop (see above), and that read is not modelled.

## Findings

| source | as written | input that shows it | evidently intended | confidence | as-written member | corrected member |
|---|---|---|---|---|---|---|
| drivers/media/platform/exynos/camera/sensor/module_framework/cis/is-cis-imx258.c:187-193 | `512 - 512000/permile` in u32 wraps for 1..998 permille. `adjust_analog_gain` then clamps the huge code to the maximum, so a gain below x1 becomes the largest gain. | `adjust_analog_gain(500)` with the range 0..480 gives 16000 (x16), while `adjust_analog_gain(1000)` gives 1000 (x1) | a request below x1 saturates at code 0 and is clamped to the minimum gain, so the adjustment is monotone | medium, not executed | Imx258.AdjustAnalogGainSubUnityJumpsToMax | Imx258.AdjustAnalogGainSaturatingMonotone |
