/**
  The types and constants that the SensorTag client header declares: the
  luxometer service and characteristic UUIDs, the client event kinds, the
  event record handed to the application, the decoded sample and the table of
  attribute handles discovered on the peer.
 */
module SensorTagTypes {
  import opened Ble

  /** Vendor-specific base UUID of the SensorTag, least significant byte first. */
  const BLE_UUID_ST_BASE_UUID: seq<byte> :=
    [0x00, 0x00, 0x00, 0x00, 0x00, 0x00, 0x00, 0xb0, 0x00, 0x40, 0x51, 0x04, 0x00, 0x00, 0x00, 0xf0]

  const BLE_UUID_ST_MVMT_SERVICE: u16 := 0xaa80
  const BLE_UUID_ST_LUXO_SERVICE: u16 := 0xaa70
  /** Declared by the header; nothing in the client uses it. */
  const BLE_UUID_ST_TEMP_SERVICE: u16 := 0xaa00
  const BLE_UUID_ST_LX_DATA_CHRC: u16 := 0xaa71
  const BLE_UUID_ST_LX_CONF_CHRC: u16 := 0xaa72
  const BLE_UUID_ST_LX_PERI_CHRC: u16 := 0xaa73

  /** Length of the message written to the luxometer's sensor-enable switch. */
  const BLE_ST_CONF_CHRC_MSG_LEN: nat := 1

  /** `ble_st_c_evt_type_t`. */
  datatype EvtType = DiscoveryComplete | LxDataEvt | Disconnected

  /** The numbering of `ble_st_c_evt_type_t`, which starts at 1. */
  function EvtTypeCode(t: EvtType): (n: u8)
    ensures 1 <= n <= 3
  {
    match t
    case DiscoveryComplete => 1
    case LxDataEvt => 2
    case Disconnected => 3
  }

  /**
    `ble_st_c_evt_t`. `data` stands for the bytes behind `p_data` (empty for a
    NULL pointer) and `dataLen` for the 8-bit `data_len` field.
   */
  datatype ClientEvent = ClientEvent(evtType: EvtType, connHandle: u16, data: seq<byte>, dataLen: u8)

  /** `ble_st_c_data_t`: a decoded sample and its validity flag. */
  datatype StData = StData(valid: bool, data: u16)

  /** `ble_st_c_handles_t`: the attribute handles found on the peer. */
  datatype Handles = Handles(
    luxoDataHandle: u16,
    luxoDataCccdHandle: u16,
    luxoConfHandle: u16,
    luxoPeriHandle: u16)

  /** The data, conf and period characteristics sit at offsets 1, 2 and 3 from the service UUID. */
  lemma CharacteristicOffsets()
    ensures BLE_UUID_ST_LX_DATA_CHRC == BLE_UUID_ST_LUXO_SERVICE + 1
    ensures BLE_UUID_ST_LX_CONF_CHRC == BLE_UUID_ST_LUXO_SERVICE + 2
    ensures BLE_UUID_ST_LX_PERI_CHRC == BLE_UUID_ST_LUXO_SERVICE + 3
  {
  }

  /** The three event kinds have distinct codes 1, 2 and 3. */
  lemma EvtTypeCodesDistinct(a: EvtType, b: EvtType)
    ensures EvtTypeCode(a) == EvtTypeCode(b) <==> a == b
    ensures EvtTypeCode(DiscoveryComplete) == 1
    ensures EvtTypeCode(LxDataEvt) == 2
    ensures EvtTypeCode(Disconnected) == 3
  {
  }
}
