/**
  Types and constants of the Nordic SoftDevice API that the SensorTag client
  and the advertising-report parser use. The numeric values are those of the
  SoftDevice headers (ble_types.h, ble_gatt.h, nrf_error.h); the C structs
  `ble_uuid_t` and the little-endian 16-bit field layout are given as values.
 */
module Ble {

  /** Fixed-width unsigned integers of the C source. */
  type u8 = x: int | 0 <= x < 0x100
  type u16 = x: int | 0 <= x < 0x1_0000
  type u32 = x: int | 0 <= x < 0x1_0000_0000

  /** Payload and report octets. */
  type byte = u8

  datatype Option<T> = None | Some(value: T)

  /** Return codes (nrf_error.h). */
  const NRF_SUCCESS: u32 := 0
  const NRF_ERROR_INVALID_STATE: u32 := 8

  /** The two "invalid" sentinels: one for connections, one for attribute handles. */
  const BLE_CONN_HANDLE_INVALID: u16 := 0xFFFF
  const BLE_GATT_HANDLE_INVALID: u16 := 0x0000

  /** UUID types (ble_types.h). */
  const BLE_UUID_TYPE_UNKNOWN: u8 := 0x00
  const BLE_UUID_TYPE_BLE: u8 := 0x01

  /** GATT client write parameters (ble_gatt.h). */
  const BLE_GATT_OP_WRITE_REQ: u8 := 0x01
  const BLE_GATT_OP_WRITE_CMD: u8 := 0x02
  const BLE_GATT_EXEC_WRITE_FLAG_PREPARED_WRITE: u8 := 0x01
  const BLE_GATT_HVX_NOTIFICATION: u8 := 0x01
  const BLE_CCCD_VALUE_LEN: nat := 2

  /** `ble_uuid_t`: a 16-bit UUID and the table entry (type) it belongs to. */
  datatype Uuid = Uuid(uuid: u16, uuidType: u8)

  /** The 16-bit value of two bytes stored least significant first. */
  function Le16(lo: byte, hi: byte): (v: u16)
    ensures v % 256 == lo && v / 256 == hi
  {
    lo + 256 * hi
  }

  /** The two bytes, least significant first, of a 16-bit value. */
  function Le16Bytes(v: u16): (b: seq<byte>)
    ensures |b| == 2
    ensures Le16(b[0], b[1]) == v
  {
    [v % 256, v / 256]
  }

}
