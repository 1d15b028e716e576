/**
  The SensorTag luxometer client of ble_sensortag_client.c, stated on values:
  each entry point is a function from the client's fields (and its input) to
  the new fields, the events handed to the application's handler and the GATT
  writes requested from the SoftDevice. The class in module SensorTagClient is
  proved to follow these functions; the lemmas here state what they promise.
 */
module SensorTagLogic {
  import opened Ble
  import opened SensorTagTypes

  /** `ble_db_discovery_evt_type_t`. */
  datatype DiscEvtType = DbDiscoveryComplete | DbDiscoveryError | DbDiscoverySrvNotFound | DbDiscoveryAvailable

  /** `ble_gatt_db_char_t`: a discovered characteristic, its value handle and the handle of its CCCD. */
  datatype DbChar = DbChar(uuid: Uuid, handleValue: u16, cccdHandle: u16)

  /** `ble_db_discovery_evt_t`: the discovered service and its characteristics, in discovery order. */
  datatype DbDiscoveryEvt = DbDiscoveryEvt(evtType: DiscEvtType, connHandle: u16, srvUuid: Uuid, chars: seq<DbChar>)

  /**
    The `ble_evt_t` events the client tells apart. Every member of the event
    union starts with the connection handle, which is what the client reads
    first. For a notification, `len` is the stack's 16-bit length field and
    `data` the bytes it delivered.
   */
  datatype BleEvt =
    | GattcHvx(connHandle: u16, handle: u16, len: u16, data: seq<byte>)
    | GapDisconnected(connHandle: u16)
    | OtherBleEvt(evtId: u16, connHandle: u16)

  /** The fields of `ble_st_c_t`; `hasHandler` says whether `evt_handler` is non-NULL. */
  datatype ClientState = ClientState(uuidType: u8, connHandle: u16, handles: Handles, hasHandler: bool)

  /** One call of `sd_ble_gattc_write`: the connection and the write parameters. */
  datatype GattWrite = GattWrite(connHandle: u16, writeOp: u8, flags: u8, handle: u16, offset: u16, value: seq<byte>)

  // ---------------------------------------------------------------------------
  // Initialisation

  /**
    `ble_st_c_init`: the new fields and the return code, given the results of
    the base-UUID registration (`vsAddErr`, `vsUuidType`) and of the discovery
    registration (`regErr`). The handles are set to the CONNECTION sentinel and
    the CCCD handle is left as it was.
   */
  function InitStep(s: ClientState, vsAddErr: u32, vsUuidType: u8, handler: bool, regErr: u32): (r: (ClientState, u32))
    ensures r.1 == vsAddErr || r.1 == regErr
    ensures r.1 == NRF_SUCCESS <==> vsAddErr == NRF_SUCCESS && regErr == NRF_SUCCESS
    ensures vsAddErr != NRF_SUCCESS ==> r == (s, vsAddErr)
    ensures vsAddErr == NRF_SUCCESS ==> r.1 == regErr && r.0 == ClientState(vsUuidType, BLE_CONN_HANDLE_INVALID,
      Handles(BLE_CONN_HANDLE_INVALID, s.handles.luxoDataCccdHandle, BLE_CONN_HANDLE_INVALID, BLE_CONN_HANDLE_INVALID),
      handler)
    ensures r.0.handles.luxoDataCccdHandle == s.handles.luxoDataCccdHandle
  {
    if vsAddErr != NRF_SUCCESS then (s, vsAddErr)
    else
      var h := s.handles.(luxoDataHandle := BLE_CONN_HANDLE_INVALID,
                          luxoConfHandle := BLE_CONN_HANDLE_INVALID,
                          luxoPeriHandle := BLE_CONN_HANDLE_INVALID);
      (ClientState(vsUuidType, BLE_CONN_HANDLE_INVALID, h, handler), regErr)
  }

  /**
    After a successful initialisation the connection is marked invalid and the
    handler is stored, but the three handles hold 0xFFFF, which the readiness
    and routing checks (comparing with BLE_GATT_HANDLE_INVALID) take as valid.
   */
  lemma InitSentinels(s: ClientState, vsUuidType: u8, handler: bool, regErr: u32)
    ensures var t := InitStep(s, NRF_SUCCESS, vsUuidType, handler, regErr).0;
      && t.connHandle == BLE_CONN_HANDLE_INVALID
      && t.hasHandler == handler
      && t.uuidType == vsUuidType
      && t.handles.luxoDataHandle == BLE_CONN_HANDLE_INVALID
      && t.handles.luxoConfHandle == BLE_CONN_HANDLE_INVALID
      && t.handles.luxoPeriHandle == BLE_CONN_HANDLE_INVALID
      && BLE_CONN_HANDLE_INVALID != BLE_GATT_HANDLE_INVALID
  {
  }

  // ---------------------------------------------------------------------------
  // Discovery

  /** The discovery result the client acts on: a completed discovery of the luxometer service of its own UUID type. */
  predicate IsLuxoDiscovery(uuidType: u8, e: DbDiscoveryEvt)
  {
    && e.evtType == DbDiscoveryComplete
    && e.srvUuid.uuid == BLE_UUID_ST_LUXO_SERVICE
    && e.srvUuid.uuidType == uuidType
  }

  /** One pass of the `switch` in the discovery loop: the 16-bit UUID alone selects the handle to overwrite. */
  function RecordChar(h: Handles, c: DbChar): Handles
  {
    if c.uuid.uuid == BLE_UUID_ST_LX_DATA_CHRC then
      h.(luxoDataHandle := c.handleValue, luxoDataCccdHandle := c.cccdHandle)
    else if c.uuid.uuid == BLE_UUID_ST_LX_CONF_CHRC then
      h.(luxoConfHandle := c.handleValue)
    else if c.uuid.uuid == BLE_UUID_ST_LX_PERI_CHRC then
      h.(luxoPeriHandle := c.handleValue)
    else
      h
  }

  /**
    Handle `v` is either the previous handle `dflt` or the value handle (the
    CCCD handle when `cccd`) of some characteristic of `cs` with UUID `uuid`.
   */
  predicate TakenFrom(v: u16, dflt: u16, cs: seq<DbChar>, uuid: u16, cccd: bool)
  {
    || v == dflt
    || (exists k :: 0 <= k < |cs| && cs[k].uuid.uuid == uuid &&
          v == (if cccd then cs[k].cccdHandle else cs[k].handleValue))
  }

  /**
    The handle table after the discovery loop has processed the characteristics
    `cs` in order: every handle is the one it held before or comes from a
    characteristic of its own role.
   */
  function RecordChars(h: Handles, cs: seq<DbChar>): (r: Handles)
    ensures TakenFrom(r.luxoDataHandle, h.luxoDataHandle, cs, BLE_UUID_ST_LX_DATA_CHRC, false)
    ensures TakenFrom(r.luxoDataCccdHandle, h.luxoDataCccdHandle, cs, BLE_UUID_ST_LX_DATA_CHRC, true)
    ensures TakenFrom(r.luxoConfHandle, h.luxoConfHandle, cs, BLE_UUID_ST_LX_CONF_CHRC, false)
    ensures TakenFrom(r.luxoPeriHandle, h.luxoPeriHandle, cs, BLE_UUID_ST_LX_PERI_CHRC, false)
    decreases |cs|
  {
    if cs == [] then h else RecordChar(RecordChars(h, cs[..|cs| - 1]), cs[|cs| - 1])
  }

  /** The position of the last characteristic with 16-bit UUID `uuid` in `cs`, or -1 if there is none. */
  function LastIndexWith(cs: seq<DbChar>, uuid: u16): (j: int)
    ensures -1 <= j < |cs|
    ensures j >= 0 ==> cs[j].uuid.uuid == uuid
    ensures forall k :: j < k < |cs| ==> cs[k].uuid.uuid != uuid
    decreases |cs|
  {
    if cs == [] then -1
    else if cs[|cs| - 1].uuid.uuid == uuid then |cs| - 1
    else LastIndexWith(cs[..|cs| - 1], uuid)
  }

  /** The value handle of the last characteristic with UUID `uuid`, or `dflt` if `cs` has none. */
  function LastValueHandle(cs: seq<DbChar>, uuid: u16, dflt: u16): u16
  {
    var j := LastIndexWith(cs, uuid);
    if j < 0 then dflt else cs[j].handleValue
  }

  /** The CCCD handle of the last data characteristic, or `dflt` if `cs` has none. */
  function LastDataCccdHandle(cs: seq<DbChar>, dflt: u16): u16
  {
    var j := LastIndexWith(cs, BLE_UUID_ST_LX_DATA_CHRC);
    if j < 0 then dflt else cs[j].cccdHandle
  }

  /** The handle table a discovery listing `cs` leaves: last entry wins, absent roles keep their old handle. */
  function LastWins(h: Handles, cs: seq<DbChar>): Handles
  {
    Handles(
      LastValueHandle(cs, BLE_UUID_ST_LX_DATA_CHRC, h.luxoDataHandle),
      LastDataCccdHandle(cs, h.luxoDataCccdHandle),
      LastValueHandle(cs, BLE_UUID_ST_LX_CONF_CHRC, h.luxoConfHandle),
      LastValueHandle(cs, BLE_UUID_ST_LX_PERI_CHRC, h.luxoPeriHandle))
  }

  /** The discovery loop overwrites each role with the last matching characteristic and leaves the others alone. */
  lemma {:induction false} RecordCharsIsLastWins(h: Handles, cs: seq<DbChar>)
    ensures RecordChars(h, cs) == LastWins(h, cs)
    decreases |cs|
  {
    if cs != [] {
      var p := cs[..|cs| - 1];
      RecordCharsIsLastWins(h, p);
      forall u: u16 ensures LastIndexWith(cs, u) == if cs[|cs| - 1].uuid.uuid == u then |cs| - 1 else LastIndexWith(p, u) {
      }
      forall j | 0 <= j < |p| ensures cs[j] == p[j] {
      }
    }
  }

  /** Processing the same characteristic list twice leaves the table as processing it once. */
  lemma {:induction false} RecordCharsIdempotent(h: Handles, cs: seq<DbChar>)
    ensures RecordChars(RecordChars(h, cs), cs) == RecordChars(h, cs)
  {
    RecordCharsIsLastWins(h, cs);
    RecordCharsIsLastWins(RecordChars(h, cs), cs);
  }

  /** Characteristics other than data, conf and period change no handle. */
  lemma {:induction false} RecordCharsIgnoresOtherUuids(h: Handles, cs: seq<DbChar>)
    requires forall k :: 0 <= k < |cs| ==>
      cs[k].uuid.uuid != BLE_UUID_ST_LX_DATA_CHRC && cs[k].uuid.uuid != BLE_UUID_ST_LX_CONF_CHRC && cs[k].uuid.uuid != BLE_UUID_ST_LX_PERI_CHRC
    ensures RecordChars(h, cs) == h
  {
    RecordCharsIsLastWins(h, cs);
  }

  /**
    `ble_st_c_on_db_disc_evt`: the new fields and the events handed to the
    application's handler.
   */
  function DiscoveryStep(s: ClientState, e: DbDiscoveryEvt): (r: (ClientState, seq<ClientEvent>))
    ensures r.0.uuidType == s.uuidType && r.0.hasHandler == s.hasHandler
    ensures |r.1| <= 1
  {
    if !IsLuxoDiscovery(s.uuidType, e) then (s, [])
    else
      (s.(connHandle := e.connHandle, handles := RecordChars(s.handles, e.chars)),
       if s.hasHandler then [ClientEvent(DiscoveryComplete, e.connHandle, [], 0)] else [])
  }

  /** A discovery that is not a completed luxometer discovery of the client's UUID type changes nothing and emits nothing. */
  lemma DiscoveryIgnoresOtherServices(s: ClientState, e: DbDiscoveryEvt)
    requires e.evtType != DbDiscoveryComplete || e.srvUuid.uuid != BLE_UUID_ST_LUXO_SERVICE || e.srvUuid.uuidType != s.uuidType
    ensures DiscoveryStep(s, e) == (s, [])
  {
  }

  /**
    A matching discovery adopts the event's connection, resolves each handle
    to the last characteristic of its role (keeping it when the role is
    absent) and emits exactly one DISCOVERY_COMPLETE for that connection when
    a handler is registered.
   */
  lemma DiscoveryResolves(s: ClientState, e: DbDiscoveryEvt)
    requires IsLuxoDiscovery(s.uuidType, e)
    ensures var r := DiscoveryStep(s, e);
      && r.0.connHandle == e.connHandle
      && r.0.handles == LastWins(s.handles, e.chars)
      && (s.hasHandler ==> r.1 == [ClientEvent(DiscoveryComplete, e.connHandle, [], 0)])
      && (!s.hasHandler ==> r.1 == [])
  {
    RecordCharsIsLastWins(s.handles, e.chars);
  }

  /** Applying the same discovery result twice yields the same fields as applying it once. */
  lemma DiscoveryIdempotent(s: ClientState, e: DbDiscoveryEvt)
    ensures DiscoveryStep(DiscoveryStep(s, e).0, e).0 == DiscoveryStep(s, e).0
  {
    if IsLuxoDiscovery(s.uuidType, e) {
      RecordCharsIdempotent(s.handles, e.chars);
    }
  }

  // ---------------------------------------------------------------------------
  // BLE events: notifications and disconnection

  /** The filter at the head of `ble_st_c_on_ble_evt`. */
  predicate OnActiveConnection(s: ClientState, e: BleEvt)
  {
    s.connHandle != BLE_CONN_HANDLE_INVALID && s.connHandle == e.connHandle
  }

  /** `on_hvx`: the events a notification produces. The 16-bit length is narrowed into the 8-bit `data_len`. */
  function HvxEvents(s: ClientState, e: BleEvt): (out: seq<ClientEvent>)
    requires e.GattcHvx?
    ensures |out| <= 1
  {
    if && s.handles.luxoDataHandle != BLE_GATT_HANDLE_INVALID
       && e.handle == s.handles.luxoDataHandle
       && s.hasHandler
    then [ClientEvent(LxDataEvt, 0, e.data, e.len % 256)]
    else []
  }

  /** `ble_st_c_on_ble_evt`: the new fields and the events handed to the application's handler. */
  function BleEvtStep(s: ClientState, e: BleEvt): (r: (ClientState, seq<ClientEvent>))
    ensures r.0.handles == s.handles && r.0.uuidType == s.uuidType && r.0.hasHandler == s.hasHandler
    ensures r.0.connHandle == s.connHandle || r.0.connHandle == BLE_CONN_HANDLE_INVALID
    ensures |r.1| <= 1
    ensures e.OtherBleEvt? ==> r == (s, [])
  {
    if !OnActiveConnection(s, e) then (s, [])
    else
      match e
      case GattcHvx(_, _, _, _) => (s, HvxEvents(s, e))
      case GapDisconnected(conn) =>
        if conn == s.connHandle && s.hasHandler then
          (s.(connHandle := BLE_CONN_HANDLE_INVALID), [ClientEvent(Disconnected, 0, [], 0)])
        else
          (s, [])
      case OtherBleEvt(_, _) => (s, [])
  }

  /** Any event while no connection is active, or for another connection, is ignored. */
  lemma BleEvtFiltered(s: ClientState, e: BleEvt)
    requires s.connHandle == BLE_CONN_HANDLE_INVALID || s.connHandle != e.connHandle
    ensures BleEvtStep(s, e) == (s, [])
  {
  }

  /**
    A notification yields an LX_DATA_EVT exactly when it arrives on the active
    connection, on the data handle, that handle is not BLE_GATT_HANDLE_INVALID
    and a handler is registered; the payload is passed on unchanged with its
    length narrowed to 8 bits, and the event carries no connection handle.
   */
  lemma NotificationRouting(s: ClientState, e: BleEvt)
    requires e.GattcHvx?
    ensures var r := BleEvtStep(s, e);
      && r.0 == s
      && (r.1 != [] <==>
            OnActiveConnection(s, e) && s.handles.luxoDataHandle != BLE_GATT_HANDLE_INVALID
            && e.handle == s.handles.luxoDataHandle && s.hasHandler)
      && (r.1 != [] ==> r.1 == [ClientEvent(LxDataEvt, 0, e.data, e.len % 256)])
  {
  }

  /**
    A disconnect of the active connection with a handler registered clears the
    connection and emits exactly one DISCONNECTED event; without a handler, or
    for another connection, it is a no-op. The handles are never touched.
   */
  lemma DisconnectScoping(s: ClientState, conn: u16)
    ensures var r := BleEvtStep(s, GapDisconnected(conn));
      && r.0.handles == s.handles
      && (s.connHandle != BLE_CONN_HANDLE_INVALID && conn == s.connHandle && s.hasHandler ==>
            r.0 == s.(connHandle := BLE_CONN_HANDLE_INVALID) && r.1 == [ClientEvent(Disconnected, 0, [], 0)])
      && (s.connHandle == BLE_CONN_HANDLE_INVALID || conn != s.connHandle || !s.hasHandler ==>
            r == (s, []))
  {
  }

  // ---------------------------------------------------------------------------
  // Gated writes

  /**
    `cccd_configure`: the write request that sets the Client Characteristic
    Configuration descriptor. Its 2-byte little-endian value is 0x0001
    (notifications on, section 3.3.3.3 of Bluetooth Core Specification Vol 3
    Part G) or 0x0000; the indication bit is never set.
   */
  function CccdConfigure(connHandle: u16, cccdHandle: u16, enable: bool): (w: GattWrite)
    ensures w.connHandle == connHandle && w.handle == cccdHandle && w.offset == 0
    ensures w.writeOp == BLE_GATT_OP_WRITE_REQ
    ensures |w.value| == BLE_CCCD_VALUE_LEN
    ensures Le16(w.value[0], w.value[1]) == if enable then 0x0001 else 0x0000
  {
    GattWrite(connHandle, BLE_GATT_OP_WRITE_REQ, BLE_GATT_EXEC_WRITE_FLAG_PREPARED_WRITE, cccdHandle, 0,
              [if enable then BLE_GATT_HVX_NOTIFICATION else 0, 0])
  }

  /** The write command that switches the luxometer on or off: one byte, 0x01 or 0x00. */
  function ConfWrite(connHandle: u16, confHandle: u16, on: bool): (w: GattWrite)
    ensures w.connHandle == connHandle && w.handle == confHandle && w.offset == 0
    ensures w.writeOp == BLE_GATT_OP_WRITE_CMD
    ensures |w.value| == BLE_ST_CONF_CHRC_MSG_LEN
    ensures w.value[0] == 1 <==> on
    ensures w.value[0] == 0 <==> !on
  {
    GattWrite(connHandle, BLE_GATT_OP_WRITE_CMD, BLE_GATT_EXEC_WRITE_FLAG_PREPARED_WRITE, confHandle, 0,
              [if on then 0x01 else 0x00])
  }

  /** The readiness check of `ble_st_c_lux_data_start_notify`. */
  predicate NotifyReady(s: ClientState)
  {
    s.connHandle != BLE_CONN_HANDLE_INVALID && s.handles.luxoDataCccdHandle != BLE_GATT_HANDLE_INVALID
  }

  /** The readiness check of `ble_st_c_lux_conf_enable`. */
  predicate ConfReady(s: ClientState)
  {
    s.connHandle != BLE_CONN_HANDLE_INVALID && s.handles.luxoConfHandle != BLE_GATT_HANDLE_INVALID
  }

  /**
    `ble_st_c_lux_data_start_notify`: the return code and the writes issued,
    given the code `writeErr` the SoftDevice returns for the write.
   */
  function StartNotifyStep(s: ClientState, on: bool, writeErr: u32): (r: (u32, seq<GattWrite>))
    ensures r.0 == NRF_SUCCESS <==> NotifyReady(s) && writeErr == NRF_SUCCESS
    ensures !NotifyReady(s) ==> r == (NRF_ERROR_INVALID_STATE, [])
    ensures NotifyReady(s) ==> r == (writeErr, [CccdConfigure(s.connHandle, s.handles.luxoDataCccdHandle, on)])
  {
    if !NotifyReady(s) then (NRF_ERROR_INVALID_STATE, [])
    else (writeErr, [CccdConfigure(s.connHandle, s.handles.luxoDataCccdHandle, on)])
  }

  /**
    `ble_st_c_lux_conf_enable`: the return code and the writes issued, given
    the code `writeErr` the SoftDevice returns for the write.
   */
  function ConfEnableStep(s: ClientState, on: bool, writeErr: u32): (r: (u32, seq<GattWrite>))
    ensures r.0 == NRF_SUCCESS <==> ConfReady(s) && writeErr == NRF_SUCCESS
    ensures !ConfReady(s) ==> r == (NRF_ERROR_INVALID_STATE, [])
    ensures ConfReady(s) ==> r == (writeErr, [ConfWrite(s.connHandle, s.handles.luxoConfHandle, on)])
  {
    if !ConfReady(s) then (NRF_ERROR_INVALID_STATE, [])
    else (writeErr, [ConfWrite(s.connHandle, s.handles.luxoConfHandle, on)])
  }

  /**
    `luxometer_enable`: the notification write first, then the sensor switch
    only if the first returned success; the result is the first failure.
   */
  function LuxometerEnableStep(s: ClientState, on: bool, notifyErr: u32, confErr: u32): (r: (u32, seq<GattWrite>))
    ensures r.0 == NRF_SUCCESS <==>
      NotifyReady(s) && ConfReady(s) && notifyErr == NRF_SUCCESS && confErr == NRF_SUCCESS
    ensures r.0 == NRF_SUCCESS ==>
      r.1 == [CccdConfigure(s.connHandle, s.handles.luxoDataCccdHandle, on),
              ConfWrite(s.connHandle, s.handles.luxoConfHandle, on)]
    ensures r.1 != [] ==> NotifyReady(s) && r.1[0] == CccdConfigure(s.connHandle, s.handles.luxoDataCccdHandle, on)
    ensures |r.1| == 2 ==> notifyErr == NRF_SUCCESS && ConfReady(s)
  {
    var (e1, w1) := StartNotifyStep(s, on, notifyErr);
    if e1 != NRF_SUCCESS then (e1, w1)
    else
      var (e2, w2) := ConfEnableStep(s, on, confErr);
      (e2, w1 + w2)
  }

  /**
    `luxometer_enable` succeeds exactly when both gates pass and both writes
    are accepted, and then it has issued the CCCD write and the sensor switch,
    in that order. The switch is issued only after an accepted CCCD write, and
    a failure code is the one of the first step that failed.
   */
  lemma LuxometerEnableComposition(s: ClientState, on: bool, notifyErr: u32, confErr: u32)
    ensures var r := LuxometerEnableStep(s, on, notifyErr, confErr);
      && (r.0 == NRF_SUCCESS <==>
            NotifyReady(s) && ConfReady(s) && notifyErr == NRF_SUCCESS && confErr == NRF_SUCCESS)
      && (r.0 == NRF_SUCCESS ==>
            r.1 == [CccdConfigure(s.connHandle, s.handles.luxoDataCccdHandle, on),
                    ConfWrite(s.connHandle, s.handles.luxoConfHandle, on)])
      && (StartNotifyStep(s, on, notifyErr).0 != NRF_SUCCESS ==>
            r == StartNotifyStep(s, on, notifyErr))
      && (StartNotifyStep(s, on, notifyErr).0 == NRF_SUCCESS ==>
            r.0 == ConfEnableStep(s, on, confErr).0
            && r.1 == StartNotifyStep(s, on, notifyErr).1 + ConfEnableStep(s, on, confErr).1)
  {
    var n := StartNotifyStep(s, on, notifyErr);
    var c := ConfEnableStep(s, on, confErr);
    assert LuxometerEnableStep(s, on, notifyErr, confErr) == if n.0 != NRF_SUCCESS then n else (c.0, n.1 + c.1);
  }

  // ---------------------------------------------------------------------------
  // Payload decoding

  /**
    `extract_luxometer_data`: valid exactly for an LX_DATA_EVT whose `data_len`
    exceeds 1; the value is then the little-endian 16-bit number in the first
    two payload bytes. The caller must supply at least the two bytes read.
   */
  function ExtractLuxometerData(e: ClientEvent): (d: StData)
    requires e.evtType == LxDataEvt && e.dataLen > 1 ==> |e.data| >= 2
    ensures d.valid <==> e.evtType == LxDataEvt && e.dataLen > 1
    ensures d.valid ==> Le16Bytes(d.data) == e.data[..2]
    ensures !d.valid ==> d.data == 0
  {
    if e.evtType == LxDataEvt && e.dataLen > 1 then StData(true, e.data[1] as int * 256 + e.data[0])
    else StData(false, 0)
  }

  /** The bytes `[v & 0xff, v >> 8]` in an LX_DATA_EVT decode back to any 16-bit `v`. */
  lemma LuxometerRoundTrip(v: u16, conn: u16)
    ensures ExtractLuxometerData(ClientEvent(LxDataEvt, conn, Le16Bytes(v), 2)) == StData(true, v)
  {
    var d := ExtractLuxometerData(ClientEvent(LxDataEvt, conn, Le16Bytes(v), 2));
    assert Le16Bytes(d.data) == Le16Bytes(v);
    assert Le16(Le16Bytes(d.data)[0], Le16Bytes(d.data)[1]) == d.data;
  }

  /**
    A routed notification whose payload has the advertised length can be
    decoded; it is valid exactly when the length, taken modulo 256, exceeds 1,
    and its value is the first two payload bytes read little-endian.
   */
  lemma NotificationDecodes(s: ClientState, e: BleEvt)
    requires e.GattcHvx? && |e.data| == e.len
    requires BleEvtStep(s, e).1 != []
    ensures var ev := BleEvtStep(s, e).1[0];
      && (ev.evtType == LxDataEvt && ev.dataLen > 1 ==> |ev.data| >= 2)
      && ExtractLuxometerData(ev).valid == (e.len % 256 > 1)
      && (ExtractLuxometerData(ev).valid ==> ExtractLuxometerData(ev).data == Le16(e.data[0], e.data[1]))
  {
    NotificationRouting(s, e);
  }

  /**
    The 8-bit narrowing of the length: a 256-byte notification arrives with
    `data_len` 0 and is reported invalid although it holds a sample.
   */
  lemma NarrowedLengthDropsSample(s: ClientState, e: BleEvt)
    requires e.GattcHvx? && e.len == 256
    requires BleEvtStep(s, e).1 != []
    ensures BleEvtStep(s, e).1[0].dataLen == 0
    ensures !ExtractLuxometerData(BleEvtStep(s, e).1[0]).valid
  {
    NotificationRouting(s, e);
  }

  // ---------------------------------------------------------------------------
  // Consequences of the sentinels and of keeping handles across connections

  /**
    Handles survive a disconnect: after the active connection drops, a new
    discovery of the service that lists none of its characteristics makes the
    client ready again with the previous session's handles.
   */
  lemma StaleHandlesAfterReconnect(s: ClientState, e: DbDiscoveryEvt)
    requires s.hasHandler && NotifyReady(s) && ConfReady(s)
    requires IsLuxoDiscovery(s.uuidType, e) && e.chars == [] && e.connHandle != BLE_CONN_HANDLE_INVALID
    ensures var dropped := BleEvtStep(s, GapDisconnected(s.connHandle)).0;
      && !NotifyReady(dropped) && !ConfReady(dropped)
      && var again := DiscoveryStep(dropped, e).0;
      && again.handles == s.handles && NotifyReady(again) && ConfReady(again)
  {
    DisconnectScoping(s, s.connHandle);
  }

  /**
    Because initialisation stores the connection sentinel 0xFFFF in the data
    handle, a discovery that does not list the data characteristic leaves
    0xFFFF there, and a notification on attribute handle 0xFFFF is then routed
    to the application as luxometer data.
   */
  lemma InitSentinelRoutesNotification(s: ClientState, vsUuidType: u8, e: DbDiscoveryEvt, payload: seq<byte>)
    requires IsLuxoDiscovery(vsUuidType, e) && e.chars == []
    requires e.connHandle != BLE_CONN_HANDLE_INVALID
    requires |payload| < 0x1_0000
    ensures var t := InitStep(s, NRF_SUCCESS, vsUuidType, true, NRF_SUCCESS).0;
      && var u := DiscoveryStep(t, e).0;
      && var n := GattcHvx(e.connHandle, 0xFFFF, |payload|, payload);
      && BleEvtStep(u, n).1 == [ClientEvent(LxDataEvt, 0, payload, |payload| % 256)]
  {
  }
}
