/**
  The client object `ble_st_c_t` of ble_sensortag_client.c and its entry
  points. The application's event handler is replaced by a ghost log of the
  events handed to it, and `sd_ble_gattc_write` by a ghost log of the write
  requests together with a return code supplied by the caller. Every entry
  point is proved to follow the value-level specification in SensorTagLogic.
 */
module SensorTagClient {
  import opened Ble
  import opened SensorTagTypes
  import opened SensorTagLogic

  class Client {
    var uuidType: u8
    var connHandle: u16
    var handles: Handles
    /** Whether `evt_handler` is non-NULL. */
    var hasHandler: bool

    /** Every call of the application's event handler, in order. */
    ghost var events: seq<ClientEvent>
    /** Every call of `sd_ble_gattc_write`, in order. */
    ghost var writes: seq<GattWrite>
    /** Every call of `ble_db_discovery_evt_register`, in order. */
    ghost var registrations: seq<Uuid>

    /** The client's fields as a value. */
    function State(): ClientState
      reads this
    {
      ClientState(uuidType, connHandle, handles, hasHandler)
    }

    /** The client object as static storage provides it: every field zero, no handler. */
    constructor ()
      ensures State() == ClientState(0, 0, Handles(0, 0, 0, 0), false)
      ensures events == [] && writes == [] && registrations == []
    {
      uuidType, connHandle, hasHandler := 0, 0, false;
      handles := Handles(0, 0, 0, 0);
      events, writes, registrations := [], [], [];
    }

    /**
      `ble_st_c_add_vs_base_uuid`: registers the SensorTag base UUID; the
      SoftDevice returns `vsAddErr` and, on success, the UUID type `vsUuidType`.
     */
    method AddVsBaseUuid(vsAddErr: u32, vsUuidType: u8) returns (err: u32)
      modifies this`uuidType
      ensures err == vsAddErr
      ensures uuidType == if vsAddErr == NRF_SUCCESS then vsUuidType else old(uuidType)
    {
      if vsAddErr == NRF_SUCCESS {
        uuidType := vsUuidType;
      }
      err := vsAddErr;
    }

    /**
      `ble_st_c_init`. `vsAddErr` and `vsUuidType` are what `sd_ble_uuid_vs_add`
      returns; `regErr` is what `ble_db_discovery_evt_register` returns for the
      luxometer service UUID of the new type.
     */
    method Init(vsAddErr: u32, vsUuidType: u8, handler: bool, regErr: u32) returns (err: u32)
      modifies this
      ensures (State(), err) == InitStep(old(State()), vsAddErr, vsUuidType, handler, regErr)
      ensures registrations == old(registrations) +
        (if vsAddErr == NRF_SUCCESS then [Uuid(BLE_UUID_ST_LUXO_SERVICE, vsUuidType)] else [])
      ensures events == old(events) && writes == old(writes)
    {
      if vsAddErr != NRF_SUCCESS {
        return vsAddErr;
      }
      uuidType := vsUuidType;
      connHandle := BLE_CONN_HANDLE_INVALID;
      hasHandler := handler;
      handles := handles.(luxoDataHandle := BLE_CONN_HANDLE_INVALID);
      handles := handles.(luxoConfHandle := BLE_CONN_HANDLE_INVALID);
      handles := handles.(luxoPeriHandle := BLE_CONN_HANDLE_INVALID);
      var stLxUuid := Uuid(BLE_UUID_ST_LUXO_SERVICE, uuidType);
      registrations := registrations + [stLxUuid];
      err := regErr;
    }

    /** `ble_st_c_on_db_disc_evt`. */
    method OnDbDiscEvt(e: DbDiscoveryEvt)
      modifies this
      ensures State() == DiscoveryStep(old(State()), e).0
      ensures events == old(events) + DiscoveryStep(old(State()), e).1
      ensures writes == old(writes) && registrations == old(registrations)
    {
      if e.evtType == DbDiscoveryComplete && e.srvUuid.uuid == BLE_UUID_ST_LUXO_SERVICE && e.srvUuid.uuidType == uuidType {
        connHandle := e.connHandle;
        var chars := e.chars;
        var i := 0;
        while i < |chars|
          invariant 0 <= i <= |chars|
          invariant handles == RecordChars(old(handles), chars[..i])
          invariant uuidType == old(uuidType) && hasHandler == old(hasHandler) && connHandle == e.connHandle
          invariant events == old(events) && writes == old(writes) && registrations == old(registrations)
        {
          assert chars[..i + 1][..i] == chars[..i];
          var c := chars[i];
          if c.uuid.uuid == BLE_UUID_ST_LX_DATA_CHRC {
            handles := handles.(luxoDataHandle := c.handleValue);
            handles := handles.(luxoDataCccdHandle := c.cccdHandle);
          } else if c.uuid.uuid == BLE_UUID_ST_LX_CONF_CHRC {
            handles := handles.(luxoConfHandle := c.handleValue);
          } else if c.uuid.uuid == BLE_UUID_ST_LX_PERI_CHRC {
            handles := handles.(luxoPeriHandle := c.handleValue);
          }
          i := i + 1;
        }
        assert chars[..i] == chars;
        if hasHandler {
          events := events + [ClientEvent(DiscoveryComplete, e.connHandle, [], 0)];
        }
      }
    }

    /** `on_hvx`: forwards a notification on the data handle; it does not look at the connection. */
    method OnHvx(e: BleEvt)
      requires e.GattcHvx?
      modifies this`events
      ensures events == old(events) + HvxEvents(State(), e)
    {
      if handles.luxoDataHandle != BLE_GATT_HANDLE_INVALID && e.handle == handles.luxoDataHandle && hasHandler {
        var lxEvt := ClientEvent(LxDataEvt, 0, e.data, e.len % 256);
        events := events + [lxEvt];
      }
    }

    /** `ble_st_c_on_ble_evt`. */
    method OnBleEvt(e: BleEvt)
      modifies this
      ensures State() == BleEvtStep(old(State()), e).0
      ensures events == old(events) + BleEvtStep(old(State()), e).1
      ensures writes == old(writes) && registrations == old(registrations)
    {
      if connHandle == BLE_CONN_HANDLE_INVALID || connHandle != e.connHandle {
        return;
      }
      match e
      case GattcHvx(_, _, _, _) =>
        OnHvx(e);
      case GapDisconnected(conn) =>
        if conn == connHandle && hasHandler {
          var disconnectEvt := ClientEvent(Disconnected, 0, [], 0);
          connHandle := BLE_CONN_HANDLE_INVALID;
          events := events + [disconnectEvt];
        }
      case OtherBleEvt(_, _) =>
    }

    /** `sd_ble_gattc_write`: records the request and returns the SoftDevice's code `writeErr`. */
    method GattcWrite(w: GattWrite, writeErr: u32) returns (err: u32)
      modifies this`writes
      ensures writes == old(writes) + [w] && err == writeErr
    {
      writes := writes + [w];
      err := writeErr;
    }

    /** `ble_st_c_lux_data_start_notify`, with `cccd_configure` building the request. */
    method LuxDataStartNotify(on: bool, writeErr: u32) returns (err: u32)
      modifies this`writes
      ensures err == StartNotifyStep(State(), on, writeErr).0
      ensures writes == old(writes) + StartNotifyStep(State(), on, writeErr).1
    {
      if connHandle == BLE_CONN_HANDLE_INVALID || handles.luxoDataCccdHandle == BLE_GATT_HANDLE_INVALID {
        return NRF_ERROR_INVALID_STATE;
      }
      err := GattcWrite(CccdConfigure(connHandle, handles.luxoDataCccdHandle, on), writeErr);
    }

    /** `ble_st_c_lux_conf_enable`. */
    method LuxConfEnable(on: bool, writeErr: u32) returns (err: u32)
      modifies this`writes
      ensures err == ConfEnableStep(State(), on, writeErr).0
      ensures writes == old(writes) + ConfEnableStep(State(), on, writeErr).1
    {
      if connHandle == BLE_CONN_HANDLE_INVALID || handles.luxoConfHandle == BLE_GATT_HANDLE_INVALID {
        return NRF_ERROR_INVALID_STATE;
      }
      var buf: seq<byte> := [if on then 0x01 else 0x00];
      var params := GattWrite(connHandle, BLE_GATT_OP_WRITE_CMD, BLE_GATT_EXEC_WRITE_FLAG_PREPARED_WRITE,
                              handles.luxoConfHandle, 0, buf);
      err := GattcWrite(params, writeErr);
    }

    /**
      `luxometer_enable`. `notifyErr` and `confErr` are the codes the SoftDevice
      returns for the CCCD write and for the sensor switch.
     */
    method LuxometerEnable(on: bool, notifyErr: u32, confErr: u32) returns (err: u32)
      modifies this`writes
      ensures err == LuxometerEnableStep(State(), on, notifyErr, confErr).0
      ensures writes == old(writes) + LuxometerEnableStep(State(), on, notifyErr, confErr).1
    {
      err := LuxDataStartNotify(on, notifyErr);
      if err == NRF_SUCCESS {
        err := LuxConfEnable(on, confErr);
      }
    }
  }

  /**
    `ble_st_c_get_typed_uuid`: the short UUID with the client's UUID type, or
    with BLE_UUID_TYPE_UNKNOWN when there is no client.
   */
  function GetTypedUuid(c: Client?, uuid: u16): (u: Uuid)
    reads c
    ensures u.uuid == uuid
    ensures c != null ==> u.uuidType == c.uuidType
    ensures c == null ==> u.uuidType == BLE_UUID_TYPE_UNKNOWN
  {
    if c == null then Uuid(uuid, BLE_UUID_TYPE_UNKNOWN) else Uuid(uuid, c.uuidType)
  }

  /**
    A discovery result is acted upon exactly when it is complete and names the
    typed luxometer UUID that `ble_st_c_get_typed_uuid` builds for the client.
   */
  lemma TypedUuidSelectsDiscovery(c: Client, e: DbDiscoveryEvt)
    ensures IsLuxoDiscovery(c.uuidType, e) <==>
      e.evtType == DbDiscoveryComplete && e.srvUuid == GetTypedUuid(c, BLE_UUID_ST_LUXO_SERVICE)
  {
  }

  /**
    A client session: initialise, discover the luxometer with all three
    characteristics, enable it, receive a sample and disconnect. The log shows
    DISCOVERY_COMPLETE, LX_DATA_EVT and DISCONNECTED in that order, and the two
    writes: the CCCD set to notifications, then the sensor switched on.
   */
  method Session(uuidType: u8, conn: u16, sample: u16)
    requires conn != BLE_CONN_HANDLE_INVALID
  {
    var client := new Client();
    var err := client.Init(NRF_SUCCESS, uuidType, true, NRF_SUCCESS);
    assert err == NRF_SUCCESS;
    var chars := [DbChar(Uuid(BLE_UUID_ST_LX_DATA_CHRC, uuidType), 0x0010, 0x0011),
                  DbChar(Uuid(BLE_UUID_ST_LX_CONF_CHRC, uuidType), 0x0013, 0),
                  DbChar(Uuid(BLE_UUID_ST_LX_PERI_CHRC, uuidType), 0x0015, 0)];
    ghost var h0 := client.handles;
    client.OnDbDiscEvt(DbDiscoveryEvt(DbDiscoveryComplete, conn, Uuid(BLE_UUID_ST_LUXO_SERVICE, uuidType), chars));
    assert chars[..2][..1] == chars[..1] && chars[..1][..0] == [];
    assert RecordChars(h0, chars[..1]) == RecordChar(h0, chars[0]);
    assert RecordChars(h0, chars[..2]) == RecordChar(RecordChars(h0, chars[..1]), chars[1]);
    assert RecordChars(h0, chars) == RecordChar(RecordChars(h0, chars[..2]), chars[2]);
    assert client.handles == Handles(0x0010, 0x0011, 0x0013, 0x0015);
    err := client.LuxometerEnable(true, NRF_SUCCESS, NRF_SUCCESS);
    assert err == NRF_SUCCESS;
    assert client.writes == [CccdConfigure(conn, 0x0011, true), ConfWrite(conn, 0x0013, true)];
    var payload := Le16Bytes(sample);
    client.OnBleEvt(GattcHvx(conn, 0x0010, 2, payload));
    assert client.events[1] == ClientEvent(LxDataEvt, 0, payload, 2);
    LuxometerRoundTrip(sample, 0);
    assert ExtractLuxometerData(client.events[1]) == StData(true, sample);
    client.OnBleEvt(GapDisconnected(conn));
    assert client.connHandle == BLE_CONN_HANDLE_INVALID;
    assert client.handles == Handles(0x0010, 0x0011, 0x0013, 0x0015);
    assert |client.events| == 3 && client.events[2].evtType == Disconnected;
    err := client.LuxometerEnable(true, NRF_SUCCESS, NRF_SUCCESS);
    assert err == NRF_ERROR_INVALID_STATE;
  }
}
