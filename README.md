# SensorTag luxometer client and advertising-report search, in Dafny

This project models the central side of a Nordic nRF5 application that finds a
TI CC2650 SensorTag by its advertising data, connects to it and reads its
luxometer (ambient light sensor). It covers two parts of the firmware.

* **The SensorTag client** (`ble_sensortag_client.c/.h`) is modelled as the
  class `SensorTagClient.Client`. Its fields are those of `ble_st_c_t`:
  - the vendor UUID type;
  - the active connection handle;
  - the four attribute handles of the luxometer service;
  - whether an application event handler is registered.

  Each entry point is a method that updates those fields in place:
  - `ble_st_c_add_vs_base_uuid` and `ble_st_c_init`;
  - `ble_st_c_on_db_disc_evt`, which records the handles found by service discovery;
  - `ble_st_c_on_ble_evt` and `on_hvx`, which filter BLE events, forward notifications and handle disconnection;
  - `ble_st_c_lux_data_start_notify`, `ble_st_c_lux_conf_enable` and `luxometer_enable`.

  Two dependencies are modelled as ghost logs that the methods append to:
  - calls of the application's event handler become `events`;
  - `sd_ble_gattc_write` becomes `writes`.

  Each method is proved to follow a value-level step function in
  `SensorTagLogic` (`InitStep`, `DiscoveryStep`, `BleEvtStep`,
  `StartNotifyStep`, `ConfEnableStep`, `LuxometerEnableStep`). The lemmas are
  stated over those functions. `extract_luxometer_data` and
  `ble_st_c_get_typed_uuid` are pure functions.
* **The advertising-report parser** (`scan_support.c`) consists of two
  methods with loops:
  - `is_uuid_present` walks the length–type–value AD structures of a report
    (section 11 of the Bluetooth Core Specification, Vol 3 Part C);
  - `compare_uuid` searches one service UUID list (section 1.1 of the Core
    Specification Supplement, Part A) for a 16-bit target.

  `is_uuid_present` is proved against the recursive predicate `UuidPresentFrom`.
  `compare_uuid` is proved against `ListContains`, which says some entry of the
  list matches. The lemmas
  characterise what the walk visits and what can match.

The model keeps these behaviours of the code as written, and proves them:
* initialisation stores the *connection* sentinel 0xFFFF in the three value
  handles, while every check compares against the *attribute* sentinel 0;
* the CCCD handle is never initialised;
* handles survive a disconnect;
* the connection is cleared on disconnect only when a handler is registered;
* a notification's 16-bit length is narrowed into an 8-bit `data_len`;
* the LX_DATA event carries no connection handle;
* a 16-bit list of even length reads one byte past its end.
* a well-formed report whose all-zero non-significant part runs to the end of
  the buffer is read one byte past the buffer.

The SoftDevice constants are given their nRF5 SDK values. These values come
from SDK headers, which are not part of this model:
* `BLE_CONN_HANDLE_INVALID` is 0xFFFF;
* `BLE_GATT_HANDLE_INVALID` is 0;
* `NRF_SUCCESS` is 0;
* `NRF_ERROR_INVALID_STATE` is 8;
* `BLE_UUID_TYPE_UNKNOWN` is 0 and `BLE_UUID_TYPE_BLE` is 1;
* the write operations are 1 for a request and 2 for a command;
* `BLE_GATT_HVX_NOTIFICATION` is 1.

Files:
- `ble.dfy` defines the integer widths, the SoftDevice constants, `Uuid`, `Option` and little-endian 16-bit encoding.
- `sensortag_types.dfy` holds the header's constants and records.
- `sensortag_logic.dfy` holds the value-level specification of the client and the lemmas about it.
- `sensortag_client.dfy` holds the `Client` class and `ble_st_c_get_typed_uuid`.
- `scan_support.dfy` holds `compare_uuid` and `is_uuid_present` with their specification predicates.
- `scan_lemmas.dfy` holds the properties of the report walk.

## Model

| member | source | states |
|---|---|---|
| SensorTagTypes.CharacteristicOffsets | ble_sensortag_client.h:29-33 | The data, conf and period characteristic UUIDs are the luxometer service UUID plus 1, 2 and 3. |
| SensorTagTypes.EvtTypeCode | ble_sensortag_client.h:41-46 | The client event kinds are numbered from 1 to 3. |
| SensorTagTypes.EvtTypeCodesDistinct | ble_sensortag_client.h:41-46 | The codes are 1, 2 and 3, one per kind, and are distinct. |
| SensorTagLogic.InitStep | ble_sensortag_client.c:21-46 | If vs_add fails, the result is exactly the old state and the vs_add code. If it succeeds: the result is the discovery-register code; the UUID type and handler are stored; the connection and the three value handles become BLE_CONN_HANDLE_INVALID (0xFFFF); the CCCD handle is kept. Success exactly when both calls succeed. |
| SensorTagLogic.InitSentinels | ble_sensortag_client.c:36-40 | After a successful init the connection and the three value handles equal BLE_CONN_HANDLE_INVALID, which differs from the BLE_GATT_HANDLE_INVALID the later checks compare with. |
| SensorTagClient.Client.constructor | event_loop.c:12 | The client starts as static storage provides it: all fields zero, no handler, empty logs. |
| SensorTagClient.Client.AddVsBaseUuid | ble_sensortag_client.c:12-19 | Returns the SoftDevice's code. The UUID type is updated only on success. |
| SensorTagClient.Client.Init | ble_sensortag_client.c:21-46 | The new fields and return code are InitStep's. One discovery registration for the typed luxometer UUID is logged, only on vs_add success. |
| SensorTagClient.GetTypedUuid | ble_sensortag_client.c:48-55 | Keeps the short UUID. Takes the client's UUID type, or UNKNOWN for a null client. |
| SensorTagClient.TypedUuidSelectsDiscovery | ble_sensortag_client.c:66-68 | A discovery is acted on exactly when it is complete and its service UUID equals the typed luxometer UUID. |
| SensorTagLogic.DiscoveryStep | ble_sensortag_client.c:57-99 | Discovery never changes the UUID type or handler and emits at most one event. |
| SensorTagClient.Client.OnDbDiscEvt | ble_sensortag_client.c:57-99 | The loop over the characteristics is proved to yield DiscoveryStep's fields and events. |
| SensorTagLogic.RecordChars | ble_sensortag_client.c:75-90 | After the loop, every handle is either its previous value or the value (for the data CCCD: the CCCD) handle of a listed characteristic of its own role. |
| SensorTagLogic.RecordCharsIsLastWins | ble_sensortag_client.c:75-90 | The loop leaves each role holding the last characteristic with that UUID, and the old handle when there is none. The data role takes both the value and the CCCD handle. |
| SensorTagLogic.RecordCharsIdempotent | ble_sensortag_client.c:75-90 | Processing a characteristic list twice equals processing it once. |
| SensorTagLogic.RecordCharsIgnoresOtherUuids | ble_sensortag_client.c:77-89 | Characteristics other than data, conf and period change no handle. |
| SensorTagLogic.DiscoveryIgnoresOtherServices | ble_sensortag_client.c:66-68 | An incomplete discovery, another service, or another UUID type leaves the state unchanged and emits nothing. |
| SensorTagLogic.DiscoveryResolves | ble_sensortag_client.c:66-97 | A matching discovery adopts the event's connection and resolves handles last-wins. It emits exactly one DISCOVERY_COMPLETE with that connection when a handler is registered, and none otherwise. |
| SensorTagLogic.DiscoveryIdempotent | ble_sensortag_client.c:66-90 | Applying the same discovery result twice gives the same fields as once. |
| SensorTagLogic.HvxEvents | ble_sensortag_client.c:109-123 | A notification produces at most one event. |
| SensorTagClient.Client.OnHvx | ble_sensortag_client.c:109-123 | Appends exactly HvxEvents to the event log and changes nothing else. |
| SensorTagLogic.BleEvtStep | ble_sensortag_client.c:125-155 | BLE events never change handles, UUID type or handler. The connection is kept or becomes invalid. At most one event is emitted. Any event other than a notification or a disconnect changes nothing and emits nothing. |
| SensorTagClient.Client.OnBleEvt | ble_sensortag_client.c:125-155 | The new fields and the logged events are BleEvtStep's. |
| SensorTagLogic.BleEvtFiltered | ble_sensortag_client.c:132-136 | With no active connection, or for another connection, any event is ignored. |
| SensorTagLogic.NotificationRouting | ble_sensortag_client.c:109-122 | A notification emits an event iff all hold: it is on the active connection and on the data handle, that handle is not BLE_GATT_HANDLE_INVALID, and a handler is registered. The event carries the payload unchanged, the length mod 256, and connection 0. The state is unchanged. |
| SensorTagLogic.DisconnectScoping | ble_sensortag_client.c:145-153 | A disconnect of the active connection with a handler clears the connection and emits one DISCONNECTED. Otherwise it is a no-op. Handles are never cleared. |
| SensorTagLogic.CccdConfigure | ble_sensortag_client.c:157-176 | Builds a write request of 2 bytes at offset 0 on the CCCD handle. Read little-endian, the bytes are 1 when enabling and 0 when disabling. |
| SensorTagLogic.ConfWrite | ble_sensortag_client.c:197-207 | Builds a write command of one byte on the conf handle. The byte is 1 iff switching on and 0 iff switching off. |
| SensorTagLogic.StartNotifyStep | ble_sensortag_client.c:178-186 | Succeeds iff the connection is valid, the CCCD handle is not BLE_GATT_HANDLE_INVALID, and the SoftDevice accepts. If not ready, returns INVALID_STATE with no write. If ready, issues exactly the CccdConfigure write for the connection, the CCCD handle and `on`, whatever the SoftDevice returns, and returns the SoftDevice's code. |
| SensorTagClient.Client.LuxDataStartNotify | ble_sensortag_client.c:178-186 | The return code and the logged write are StartNotifyStep's. |
| SensorTagLogic.ConfEnableStep | ble_sensortag_client.c:188-210 | Succeeds iff the connection is valid, the conf handle is not BLE_GATT_HANDLE_INVALID, and the SoftDevice accepts. If not ready, returns INVALID_STATE with no write. If ready, issues exactly the ConfWrite for the connection, the conf handle and `on`, and returns the SoftDevice's code. |
| SensorTagClient.Client.LuxConfEnable | ble_sensortag_client.c:188-210 | The return code and the logged write are ConfEnableStep's. |
| SensorTagClient.Client.GattcWrite | ble_sensortag_client.c:175 | Logs the write request and returns the SoftDevice's code. |
| SensorTagLogic.LuxometerEnableStep | ble_sensortag_client.c:212-224 | Succeeds iff both gates pass and both writes are accepted, and then issues the CCCD write and the sensor switch in that order. Any write issued starts with the CCCD write, and the sensor switch is issued only after an accepted CCCD write. |
| SensorTagLogic.LuxometerEnableComposition | ble_sensortag_client.c:212-224 | Succeeds iff both gates pass and both writes are accepted; it has then issued the CCCD write and the sensor switch, in that order. The switch is attempted only after an accepted CCCD write. The result is the first failure. |
| SensorTagClient.Client.LuxometerEnable | ble_sensortag_client.c:212-224 | The return code and the logged writes are LuxometerEnableStep's. |
| SensorTagLogic.ExtractLuxometerData | ble_sensortag_client.c:226-234 | The result is valid iff the event is LX_DATA with data_len > 1. The value is then the little-endian number in the first two payload bytes; otherwise it is 0. |
| SensorTagLogic.LuxometerRoundTrip | ble_sensortag_client.c:226-234 | Any 16-bit sample sent little-endian in an LX_DATA event decodes back to itself. |
| SensorTagLogic.NotificationDecodes | ble_sensortag_client.c:115-119 | A forwarded notification decodes to a valid sample iff its length mod 256 exceeds 1. The value is then its first two bytes, read little-endian. |
| SensorTagLogic.NarrowedLengthDropsSample | ble_sensortag_client.c:118 | A 256-byte notification arrives with data_len 0 and decodes as invalid. |
| SensorTagLogic.StaleHandlesAfterReconnect | ble_sensortag_client.c:145-153 | Disconnect makes the client not ready. A new discovery that lists no characteristics makes it ready again with the old session's handles. |
| SensorTagLogic.InitSentinelRoutesNotification | ble_sensortag_client.c:38 | After init and a discovery without the data characteristic, a notification on attribute handle 0xFFFF is forwarded as luxometer data. |
| ScanSupport.CompareUuid | scan_support.c:93-113 | Returns true iff one of the first field_length / stride entries decodes successfully to a Bluetooth SIG UUID with the target's value. Entry k is at index + 2 + k * stride. |
| ScanSupport.UuidListLayout | scan_support.c:126-150 | Only AD types 0x02 to 0x07 are searched. 16-bit lists use stride 2 and decode 2 bytes. 32-bit lists use stride 4 and decode only 2 bytes. 128-bit lists use stride 16 and decode 16 bytes. |
| ScanSupport.FieldMatch | scan_support.c:126-141 | A structure can match only if its type is a service UUID list type. |
| ScanSupport.IsUuidPresent | scan_support.c:115-158 | Under the memory-safety precondition, the loop returns exactly the recursive walk's answer. The walk starts at offset 0, stops at dlen, and steps by length + 1. |
| ScanSupportLemmas.Structures | scan_support.c:118-156 | Lists the offsets the walk visits. They start at 0 and stay below dlen, each in bounds, and each next offset is the previous one plus its length byte plus 1. |
| ScanSupportLemmas.PresentIffSomeStructureMatches | scan_support.c:151-157 | The walk answers true iff some visited structure contains the target. |
| ScanSupportLemmas.OnlyUuidListsMatch | scan_support.c:126-150 | A report with no service UUID list never matches. |
| ScanSupportLemmas.TargetTypeIgnored | scan_support.c:105-106 | The result does not depend on the target's UUID type. Only the decoded entry's type must be BLE. |
| ScanSupportLemmas.Uuid32EntryReadsLowHalf | scan_support.c:132-135 | A 32-bit list entry matches iff its first two bytes, read little-endian, equal the target. |
| ScanSupportLemmas.Uuid32ListReadsLowHalves | scan_support.c:132-135 | A structure of type 0x04 or 0x05 contains the target iff one of its length / 4 entries holds the target's value in its first two bytes, read little-endian. Upper halves are never looked at. |
| ScanSupportLemmas.ListedUuid16IsFound | scan_support.c:127-131 | A target listed in a 16-bit service UUID list of a visited structure is found. |
| ScanSupportLemmas.WholeEntriesInside | scan_support.c:98-102 | In a list holding whole entries, every entry compare_uuid decodes lies inside its structure. |
| ScanSupportLemmas.ZeroTailWalk | scan_support.c:120-123 | Over an all-zero non-significant part, the walk stays inside the buffer iff dlen is short of the buffer's end. |
| ScanSupportLemmas.WellFormedIsSafe | scan_support.c:120-123 | A report laid out as the Core Specification prescribes meets the memory-safety precondition, except exactly when the walk reaches an all-zero non-significant part and dlen is the buffer's whole length. |
| ScanSupportLemmas.ZeroTailAtBufferEnd | scan_support.c:122-123 | The well-formed report [02 01 06 00] read with dlen 4 from a 4-byte buffer reads past the buffer. From a 5-byte buffer it is read safely. |
| ScanSupportLemmas.SensorTagAdvertisementMatches | event_loop.c:95-96 | The SensorTag's advertising payload matches the movement service 0xaa80 with target type UNKNOWN. |
| ScanSupportLemmas.OddListReadsNextLengthByte | scan_support.c:98 | The entry count counts the type byte, so a one-byte 16-bit list reads the next structure's length byte as its high byte and reports 0x0318 present. |

## Left out

- `printf`/`putc` output (the local-name printing in `is_uuid_present`, the messages in `ble_st_c_on_db_disc_evt` and `luxometer_enable`) is console I/O with no effect on results; the local-name branch is an empty branch.
- The NULL-pointer guards (`VERIFY_PARAM_NOT_NULL`, the `p_ble_st_c == NULL` returns) are not modelled: references are never null in the model, except the explicit null case of `ble_st_c_get_typed_uuid`.
- The SoftDevice and SDK calls are replaced by parameters: `sd_ble_uuid_vs_add` (its code and the type it assigns), `ble_db_discovery_evt_register` (its code), `sd_ble_gattc_write` (its code) and `sd_ble_uuid_decode` (an arbitrary function, with `DecodesShortUuids` as the assumption about 2-byte input); their internal behaviour is not part of this model.
- SensorTagClient.Client.AddVsBaseUuid: when `sd_ble_uuid_vs_add` fails, the UUID type is assumed unchanged; the SoftDevice may write it regardless.
- SensorTagClient.Client.Init: when `sd_ble_uuid_vs_add` fails, the UUID type is assumed unchanged; the SoftDevice may write it regardless.
- The event handler is a log of the events passed to it; a handler that calls back into the client is not modelled (the source calls it only after its own updates, so the log order is the same).
- `p_data` is modelled as the payload value, not as a pointer into the SoftDevice's event buffer: aliasing and the lifetime of that buffer are not modelled.
- The discovery event's error variants carry only their kind; their error codes are never read by the client.
- The DISCOVERY_COMPLETE and DISCONNECTED events, built by `memset` or a designated initialiser, carry an empty payload; `data_len` is 0 in both.
- ScanSupport.IsUuidPresent and ScanSupport.CompareUuid require `SafeWalk`: the source reads `p_data[index]`, `p_data[index+1]` and each list entry without checking them against `dlen` or the buffer, so out-of-bounds reads are excluded rather than modelled; `WellFormedIsSafe` shows every well-formed report is safe, except one whose all-zero non-significant part runs to the buffer's end, where `p_data[dlen]` is read.
- ScanSupport.IsUuidPresent: the local-name branch also reads `p_data[index+2 .. index+field_length]` unchecked in order to print it; the model passes over the name, so `SafeWalk` does not cover those reads.
- The 32-bit `index` of `is_uuid_present` is passed to `compare_uuid`'s 8-bit parameter; under `SafeWalk` with an 8-bit `dlen` the index is always below 256, so the truncation never occurs in the model.
- The temperature service UUID is declared but unused by the client, as in the source; the movement-service search lives in `event_loop.c`, which is not part of this model beyond the example lemma.
- `scan_start`, `connect_peer`, the BLE stack and discovery initialisation (`init_support.c`), the event dispatch of `event_loop.c` and `main.c` are not part of this model.
- The header's comment on `luxometer_enable` names the conf write before the notification write; the code issues the notification write first, and the model follows the code.
