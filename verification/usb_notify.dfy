/**
 * Encoding of USB notify events (include/linux/usb_notify.h): the
 * `otg_notify_events` enumeration, the VIRT_EVENT / PHY_EVENT / IS_VIRTUAL
 * macros that tag an event as "virtual" by adding NOTIFY_EVENT_VIRTUAL, and
 * the two bit-flag enumerations for event types and block types.
 *
 * Event numbers travel as `unsigned long` (the type `send_otg_notify` takes),
 * modelled as a 64-bit unsigned value with C wrap-around.
 */
module UsbNotify {
  import opened KernelTypes

  /** `enum otg_notify_events`, in declaration order. */
  datatype OtgEvent =
    | EventNone
    | EventVbus
    | EventHost
    | EventCharger
    | EventSmartdockTa
    | EventSmartdockUsb
    | EventAudiodock
    | EventLanhub
    | EventLanhubTa
    | EventMmdock
    | EventHmt
    | EventGamepad
    | EventPogo
    | EventHostReload
    | EventDriveVbus
    | EventAllDisable
    | EventHostDisable
    | EventClientDisable
    | EventMdmOnOff
    | EventMdmOnOffForId
    | EventMdmOnOffForSerial
    | EventOvercurrent
    | EventSmscOvc
    | EventSmtdExtCurrent
    | EventMmdExtCurrent
    | EventHmdExtCurrent
    | EventDeviceConnect
    | EventGamepadConnect
    | EventLanhubConnect
    | EventPowerSource
    | EventPdContract
    | EventPdUsbCommCapable
    | EventVbusReset
    | EventReserveBooster
    | EventUsbCable
    | EventUsbdSuspended
    | EventUsbdUnconfigured
    | EventUsbdConfigured
    | EventVbuspower
    | EventDrSwap
    | EventReverseBypassDeviceConnect
    | EventReverseBypassDeviceAttach
    | EventVirtual

  /** NOTIFY_EVENT_VIRTUAL: the enumerator following the last physical event. */
  const NOTIFY_EVENT_VIRTUAL: nat := 42

  /** The C value of an enumerator. */
  function Ordinal(e: OtgEvent): (v: nat)
    ensures v <= NOTIFY_EVENT_VIRTUAL
    ensures v == NOTIFY_EVENT_VIRTUAL <==> e == EventVirtual
  {
    match e
    case EventNone => 0
    case EventVbus => 1
    case EventHost => 2
    case EventCharger => 3
    case EventSmartdockTa => 4
    case EventSmartdockUsb => 5
    case EventAudiodock => 6
    case EventLanhub => 7
    case EventLanhubTa => 8
    case EventMmdock => 9
    case EventHmt => 10
    case EventGamepad => 11
    case EventPogo => 12
    case EventHostReload => 13
    case EventDriveVbus => 14
    case EventAllDisable => 15
    case EventHostDisable => 16
    case EventClientDisable => 17
    case EventMdmOnOff => 18
    case EventMdmOnOffForId => 19
    case EventMdmOnOffForSerial => 20
    case EventOvercurrent => 21
    case EventSmscOvc => 22
    case EventSmtdExtCurrent => 23
    case EventMmdExtCurrent => 24
    case EventHmdExtCurrent => 25
    case EventDeviceConnect => 26
    case EventGamepadConnect => 27
    case EventLanhubConnect => 28
    case EventPowerSource => 29
    case EventPdContract => 30
    case EventPdUsbCommCapable => 31
    case EventVbusReset => 32
    case EventReserveBooster => 33
    case EventUsbCable => 34
    case EventUsbdSuspended => 35
    case EventUsbdUnconfigured => 36
    case EventUsbdConfigured => 37
    case EventVbuspower => 38
    case EventDrSwap => 39
    case EventReverseBypassDeviceConnect => 40
    case EventReverseBypassDeviceAttach => 41
    case EventVirtual => 42
  }

  /** The enumerator with C value `v`, if there is one. */
  function EventOf(v: u64): (r: Option<OtgEvent>)
    ensures r.Some? <==> v <= NOTIFY_EVENT_VIRTUAL
  {
    match v
    case 0 => Some(EventNone)
    case 1 => Some(EventVbus)
    case 2 => Some(EventHost)
    case 3 => Some(EventCharger)
    case 4 => Some(EventSmartdockTa)
    case 5 => Some(EventSmartdockUsb)
    case 6 => Some(EventAudiodock)
    case 7 => Some(EventLanhub)
    case 8 => Some(EventLanhubTa)
    case 9 => Some(EventMmdock)
    case 10 => Some(EventHmt)
    case 11 => Some(EventGamepad)
    case 12 => Some(EventPogo)
    case 13 => Some(EventHostReload)
    case 14 => Some(EventDriveVbus)
    case 15 => Some(EventAllDisable)
    case 16 => Some(EventHostDisable)
    case 17 => Some(EventClientDisable)
    case 18 => Some(EventMdmOnOff)
    case 19 => Some(EventMdmOnOffForId)
    case 20 => Some(EventMdmOnOffForSerial)
    case 21 => Some(EventOvercurrent)
    case 22 => Some(EventSmscOvc)
    case 23 => Some(EventSmtdExtCurrent)
    case 24 => Some(EventMmdExtCurrent)
    case 25 => Some(EventHmdExtCurrent)
    case 26 => Some(EventDeviceConnect)
    case 27 => Some(EventGamepadConnect)
    case 28 => Some(EventLanhubConnect)
    case 29 => Some(EventPowerSource)
    case 30 => Some(EventPdContract)
    case 31 => Some(EventPdUsbCommCapable)
    case 32 => Some(EventVbusReset)
    case 33 => Some(EventReserveBooster)
    case 34 => Some(EventUsbCable)
    case 35 => Some(EventUsbdSuspended)
    case 36 => Some(EventUsbdUnconfigured)
    case 37 => Some(EventUsbdConfigured)
    case 38 => Some(EventVbuspower)
    case 39 => Some(EventDrSwap)
    case 40 => Some(EventReverseBypassDeviceConnect)
    case 41 => Some(EventReverseBypassDeviceAttach)
    case 42 => Some(EventVirtual)
    case _ => None
  }

  /** Every enumerator is recovered from its C value. */
  lemma OrdinalRoundTrip(e: OtgEvent)
    ensures EventOf(Ordinal(e)) == Some(e)
  {
    match e
    case EventNone => case EventVbus => case EventHost => case EventCharger =>
    case EventSmartdockTa => case EventSmartdockUsb => case EventAudiodock => case EventLanhub =>
    case EventLanhubTa => case EventMmdock => case EventHmt => case EventGamepad =>
    case EventPogo => case EventHostReload => case EventDriveVbus => case EventAllDisable =>
    case EventHostDisable => case EventClientDisable => case EventMdmOnOff => case EventMdmOnOffForId =>
    case EventMdmOnOffForSerial => case EventOvercurrent => case EventSmscOvc => case EventSmtdExtCurrent =>
    case EventMmdExtCurrent => case EventHmdExtCurrent => case EventDeviceConnect => case EventGamepadConnect =>
    case EventLanhubConnect => case EventPowerSource => case EventPdContract => case EventPdUsbCommCapable =>
    case EventVbusReset => case EventReserveBooster => case EventUsbCable => case EventUsbdSuspended =>
    case EventUsbdUnconfigured => case EventUsbdConfigured => case EventVbuspower => case EventDrSwap =>
    case EventReverseBypassDeviceConnect => case EventReverseBypassDeviceAttach => case EventVirtual =>
  }

  /** VIRT_EVENT(a): `a + NOTIFY_EVENT_VIRTUAL` on unsigned long. */
  function VirtEvent(a: u64): (r: u64)
    ensures a + NOTIFY_EVENT_VIRTUAL < U64_LIMIT ==> r == a + NOTIFY_EVENT_VIRTUAL
    ensures a + NOTIFY_EVENT_VIRTUAL >= U64_LIMIT ==> r == a + NOTIFY_EVENT_VIRTUAL - U64_LIMIT
  {
    Trunc64(a + NOTIFY_EVENT_VIRTUAL)
  }

  /** PHY_EVENT(a): `a % NOTIFY_EVENT_VIRTUAL`; strips any number of virtual tags. */
  function PhyEvent(a: u64): (r: u64)
    ensures r < NOTIFY_EVENT_VIRTUAL
    ensures a < NOTIFY_EVENT_VIRTUAL ==> r == a
  {
    a % NOTIFY_EVENT_VIRTUAL
  }

  /** IS_VIRTUAL(a): 1 for values at or above NOTIFY_EVENT_VIRTUAL, else 0. */
  function IsVirtual(a: u64): (r: nat)
    ensures r == 1 <==> a >= NOTIFY_EVENT_VIRTUAL
    ensures r == 0 <==> a < NOTIFY_EVENT_VIRTUAL
  {
    if a >= NOTIFY_EVENT_VIRTUAL then 1 else 0
  }

  /** Tagging a physical event as virtual and stripping the tag gives the event back. */
  lemma VirtualRoundTrip(e: OtgEvent)
    requires e != EventVirtual
    ensures PhyEvent(VirtEvent(Ordinal(e))) == Ordinal(e)
    ensures IsVirtual(VirtEvent(Ordinal(e))) == 1
    ensures EventOf(PhyEvent(VirtEvent(Ordinal(e)))) == Some(e)
  {
    OrdinalRoundTrip(e);
  }

  /** Any value that does not wrap is marked virtual once tagged. */
  lemma VirtEventIsVirtual(a: u64)
    requires a + NOTIFY_EVENT_VIRTUAL < U64_LIMIT
    ensures IsVirtual(VirtEvent(a)) == 1
    ensures PhyEvent(VirtEvent(a)) == PhyEvent(a)
  {
  }

  /** The last 42 unsigned long values wrap when tagged and read back as physical. */
  lemma VirtEventWraps(a: u64)
    requires a + NOTIFY_EVENT_VIRTUAL >= U64_LIMIT
    ensures IsVirtual(VirtEvent(a)) == 0
  {
  }

  /** No physical enumerator is virtual; NOTIFY_EVENT_VIRTUAL itself is. */
  lemma PhysicalEventsAreNotVirtual(e: OtgEvent)
    ensures IsVirtual(Ordinal(e)) == 0 <==> e != EventVirtual
  {
  }

  /** PHY_EVENT is idempotent and always names an enumerated physical event. */
  lemma PhyEventIdempotent(a: u64)
    ensures PhyEvent(PhyEvent(a)) == PhyEvent(a)
    ensures EventOf(PhyEvent(a)).Some? && EventOf(PhyEvent(a)).value != EventVirtual
  {
  }

  /** `enum otg_notify_evt_type`: attribute bits of an event. */
  datatype EvtType =
    | EvtExtra | EvtState | EvtDelay | EvtNeedVbusDrive
    | EvtNoBlocking | EvtNoSave | EvtNeedHost | EvtNeedClient

  const AllEvtTypes: set<EvtType> :=
    {EvtExtra, EvtState, EvtDelay, EvtNeedVbusDrive, EvtNoBlocking, EvtNoSave, EvtNeedHost, EvtNeedClient}

  /** The enumerator value of each event type. */
  function EvtBit(t: EvtType): (b: bv32)
    ensures b != 0 && (b & (b - 1)) == 0
    ensures b < 0x100
  {
    match t
    case EvtExtra => 1 << 0
    case EvtState => 1 << 1
    case EvtDelay => 1 << 2
    case EvtNeedVbusDrive => 1 << 3
    case EvtNoBlocking => 1 << 4
    case EvtNoSave => 1 << 5
    case EvtNeedHost => 1 << 6
    case EvtNeedClient => 1 << 7
  }

  /** Event-type values are pairwise disjoint single bits. */
  lemma EvtBitsDisjoint(s: EvtType, t: EvtType)
    ensures s != t <==> (EvtBit(s) & EvtBit(t)) == 0
  {
  }

  /** The word whose bit k is set exactly when the k-th flag is. */
  function Bits8(b0: bool, b1: bool, b2: bool, b3: bool, b4: bool, b5: bool, b6: bool, b7: bool): bv32
  {
    (if b0 then 1 << 0 else 0) | (if b1 then 1 << 1 else 0) | (if b2 then 1 << 2 else 0) | (if b3 then 1 << 3 else 0)
    | (if b4 then 1 << 4 else 0) | (if b5 then 1 << 5 else 0) | (if b6 then 1 << 6 else 0) | (if b7 then 1 << 7 else 0)
  }

  /** Each flag reads back from its own bit, and nothing lies above bit 7. */
  lemma Bits8Reads(b0: bool, b1: bool, b2: bool, b3: bool, b4: bool, b5: bool, b6: bool, b7: bool)
    ensures var m := Bits8(b0, b1, b2, b3, b4, b5, b6, b7);
      && ((m & (1 << 0)) != 0 <==> b0) && ((m & (1 << 1)) != 0 <==> b1)
      && ((m & (1 << 2)) != 0 <==> b2) && ((m & (1 << 3)) != 0 <==> b3)
      && ((m & (1 << 4)) != 0 <==> b4) && ((m & (1 << 5)) != 0 <==> b5)
      && ((m & (1 << 6)) != 0 <==> b6) && ((m & (1 << 7)) != 0 <==> b7)
      && m < 0x100
  {
  }

  /** The type word formed by OR-ing the bits of a set of event types. */
  function EvtMask(ts: set<EvtType>): (m: bv32)
    ensures m < 0x100
  {
    Bits8Reads(EvtExtra in ts, EvtState in ts, EvtDelay in ts, EvtNeedVbusDrive in ts,
               EvtNoBlocking in ts, EvtNoSave in ts, EvtNeedHost in ts, EvtNeedClient in ts);
    Bits8(EvtExtra in ts, EvtState in ts, EvtDelay in ts, EvtNeedVbusDrive in ts,
          EvtNoBlocking in ts, EvtNoSave in ts, EvtNeedHost in ts, EvtNeedClient in ts)
  }

  /** The event types whose bit is set in a type word. */
  function EvtTypes(m: bv32): (ts: set<EvtType>)
    ensures forall t :: t in ts <==> (m & EvtBit(t)) != 0
  {
    set t | t in AllEvtTypes && (m & EvtBit(t)) != 0
  }

  /** Combining event types into a word loses nothing: the set reads back. */
  lemma EvtMaskRoundTrip(ts: set<EvtType>)
    ensures EvtTypes(EvtMask(ts)) == ts
  {
    forall t
      ensures ((EvtMask(ts) & EvtBit(t)) != 0) <==> t in ts
    {
      EvtMaskHas(ts, t);
    }
  }

  /** One type's bit in the combined word is set exactly when the type was included. */
  lemma EvtMaskHas(ts: set<EvtType>, t: EvtType)
    ensures ((EvtMask(ts) & EvtBit(t)) != 0) <==> t in ts
  {
    Bits8Reads(EvtExtra in ts, EvtState in ts, EvtDelay in ts, EvtNeedVbusDrive in ts,
               EvtNoBlocking in ts, EvtNoSave in ts, EvtNeedHost in ts, EvtNeedClient in ts);
  }

  /** `enum otg_notify_block_type`. */
  const NOTIFY_BLOCK_TYPE_NONE: bv32 := 0
  const NOTIFY_BLOCK_TYPE_HOST: bv32 := 1 << 0
  const NOTIFY_BLOCK_TYPE_CLIENT: bv32 := 1 << 1
  const NOTIFY_BLOCK_TYPE_ALL: bv32 := ((1 as bv32) << 0) | ((1 as bv32) << 1)

  /** Blocking "all" is blocking host and client, two separate bits. */
  lemma BlockTypeAllIsHostAndClient()
    ensures NOTIFY_BLOCK_TYPE_ALL == (NOTIFY_BLOCK_TYPE_HOST | NOTIFY_BLOCK_TYPE_CLIENT)
    ensures (NOTIFY_BLOCK_TYPE_HOST & NOTIFY_BLOCK_TYPE_CLIENT) == 0
    ensures (NOTIFY_BLOCK_TYPE_ALL & NOTIFY_BLOCK_TYPE_HOST) != 0 && (NOTIFY_BLOCK_TYPE_ALL & NOTIFY_BLOCK_TYPE_CLIENT) != 0
    ensures (NOTIFY_BLOCK_TYPE_NONE & NOTIFY_BLOCK_TYPE_ALL) == 0
  {
  }
}
