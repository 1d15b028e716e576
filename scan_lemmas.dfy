/**
  What the advertising-report walk of scan_support.c promises: which AD
  structures it visits, that it answers true exactly when one of them lists
  the target, which structures can match at all, how each list is read, and
  that a report laid out as the Core Specification prescribes is read without
  leaving its buffer.
 */
module ScanSupportLemmas {
  import opened Ble
  import opened ScanSupport

  /**
    The offsets of the AD structures the walk from `index` visits: it starts
    at `index`, each next structure begins `length + 1` bytes after the
    previous one's length byte, and all of them lie below `dlen`.
   */
  function Structures(data: seq<byte>, dlen: nat, index: nat): (r: seq<nat>)
    requires SafeWalk(data, dlen, index)
    ensures forall i :: 0 <= i < |r| ==> index <= r[i] < dlen && FieldInBounds(data, r[i])
    ensures forall j :: j in r ==> index <= j < dlen && FieldInBounds(data, j)
    ensures index < dlen <==> r != []
    ensures r != [] ==> r[0] == index
    ensures forall i :: 0 <= i < |r| - 1 ==> r[i] < |data| && r[i + 1] == r[i] + data[r[i]] + 1
    decreases dlen - index
  {
    if index >= dlen then [] else [index] + Structures(data, dlen, index + data[index] + 1)
  }

  /** The walk answers true exactly when some structure it visits contains the target. */
  lemma {:induction false} PresentIffSomeStructureMatches(decode: UuidDecoder, target: Uuid, data: seq<byte>, dlen: nat, index: nat)
    requires SafeWalk(data, dlen, index)
    ensures UuidPresentFrom(decode, target, data, dlen, index) <==>
      exists j :: j in Structures(data, dlen, index) && FieldMatch(decode, target, data, j)
    decreases dlen - index
  {
    if index < dlen {
      var next := index + data[index] + 1;
      PresentIffSomeStructureMatches(decode, target, data, dlen, next);
      assert Structures(data, dlen, index) == [index] + Structures(data, dlen, next);
    }
  }

  /** Only the six service UUID list types can produce a match: a report without one never does. */
  lemma OnlyUuidListsMatch(decode: UuidDecoder, target: Uuid, data: seq<byte>, dlen: nat)
    requires SafeWalk(data, dlen, 0)
    requires forall j :: j in Structures(data, dlen, 0) ==>
      !(BLE_GAP_AD_TYPE_16BIT_SERVICE_UUID_MORE_AVAILABLE <= data[j + 1] <= BLE_GAP_AD_TYPE_128BIT_SERVICE_UUID_COMPLETE)
    ensures !UuidPresentFrom(decode, target, data, dlen, 0)
  {
    PresentIffSomeStructureMatches(decode, target, data, dlen, 0);
  }

  /** Whether the target is found does not depend on the target's own UUID type. */
  lemma {:induction false} TargetTypeIgnored(decode: UuidDecoder, target: Uuid, data: seq<byte>, dlen: nat, index: nat, otherType: u8)
    requires SafeWalk(data, dlen, index)
    ensures UuidPresentFrom(decode, target, data, dlen, index) ==
      UuidPresentFrom(decode, target.(uuidType := otherType), data, dlen, index)
    decreases dlen - index
  {
    if index < dlen {
      TargetTypeIgnored(decode, target, data, dlen, index + data[index] + 1, otherType);
      var t := target.(uuidType := otherType);
      match UuidListLayout(data[index + 1])
      case None =>
      case Some(l) =>
        forall k | 0 <= k < data[index] / l.strideSize
          ensures EntryMatches(decode, target, data, index, l.strideSize, l.decodeSize, k)
              == EntryMatches(decode, t, data, index, l.strideSize, l.decodeSize, k)
        {
        }
    }
  }

  /**
    An entry of a 32-bit UUID list matches exactly when its first two bytes,
    read little-endian, are the target's value; its last two bytes are not read.
   */
  lemma Uuid32EntryReadsLowHalf(decode: UuidDecoder, target: Uuid, data: seq<byte>, index: nat, fieldLength: nat, k: nat)
    requires DecodesShortUuids(decode)
    requires EntriesInBounds(data, index, fieldLength, UUID32_SIZE, UUID16_SIZE)
    requires k < fieldLength / UUID32_SIZE
    ensures var s := EntryStart(index, UUID32_SIZE, k);
      EntryMatches(decode, target, data, index, UUID32_SIZE, UUID16_SIZE, k) <==> Le16(data[s], data[s + 1]) == target.uuid
  {
    var s := EntryStart(index, UUID32_SIZE, k);
    var b := data[s..s + 2];
    assert b[0] == data[s] && b[1] == data[s + 1];
  }

  /**
    A structure of a 32-bit service UUID list type contains the target exactly
    when one of its `length / 4` entries has the target's value in its first
    two bytes, read little-endian: the walk never looks at an entry's upper half.
   */
  lemma Uuid32ListReadsLowHalves(decode: UuidDecoder, target: Uuid, data: seq<byte>, j: nat)
    requires DecodesShortUuids(decode)
    requires FieldInBounds(data, j)
    requires data[j + 1] == BLE_GAP_AD_TYPE_32BIT_SERVICE_UUID_MORE_AVAILABLE
          || data[j + 1] == BLE_GAP_AD_TYPE_32BIT_SERVICE_UUID_COMPLETE
    ensures FieldMatch(decode, target, data, j) <==>
      exists k :: 0 <= k < data[j] / UUID32_SIZE &&
        Le16(data[EntryStart(j, UUID32_SIZE, k)], data[EntryStart(j, UUID32_SIZE, k) + 1]) == target.uuid
  {
    forall k | 0 <= k < data[j] / UUID32_SIZE
      ensures EntryMatches(decode, target, data, j, UUID32_SIZE, UUID16_SIZE, k) <==>
        Le16(data[EntryStart(j, UUID32_SIZE, k)], data[EntryStart(j, UUID32_SIZE, k) + 1]) == target.uuid
    {
      Uuid32EntryReadsLowHalf(decode, target, data, j, data[j], k);
    }
  }

  /**
    Under the decoding assumption, a target listed little-endian in a 16-bit
    service UUID list of any structure the walk visits is found.
   */
  lemma ListedUuid16IsFound(decode: UuidDecoder, target: Uuid, data: seq<byte>, dlen: nat, j: nat, k: nat)
    requires DecodesShortUuids(decode)
    requires SafeWalk(data, dlen, 0) && j in Structures(data, dlen, 0)
    requires data[j + 1] == BLE_GAP_AD_TYPE_16BIT_SERVICE_UUID_MORE_AVAILABLE
          || data[j + 1] == BLE_GAP_AD_TYPE_16BIT_SERVICE_UUID_COMPLETE
    requires k < data[j] / UUID16_SIZE
    requires Le16(data[EntryStart(j, 2, k)], data[EntryStart(j, 2, k) + 1]) == target.uuid
    ensures UuidPresentFrom(decode, target, data, dlen, 0)
  {
    var s := EntryStart(j, 2, k);
    var b := data[s..s + 2];
    assert b[0] == data[s] && b[1] == data[s + 1];
    assert UuidListLayout(data[j + 1]) == Some(Layout(UUID16_SIZE, UUID16_SIZE));
    assert EntryMatches(decode, target, data, j, UUID16_SIZE, UUID16_SIZE, k);
    assert ListContains(decode, target, data, j, data[j], UUID16_SIZE, UUID16_SIZE);
    PresentIffSomeStructureMatches(decode, target, data, dlen, 0);
  }

  // ---------------------------------------------------------------------------
  // Reports laid out as the Core Specification prescribes

  /**
    The non-significant part of a report: every octet from `index` up to
    `dlen` is zero.
   */
  predicate ZeroTail(data: seq<byte>, dlen: nat, index: nat)
    requires dlen <= |data|
  {
    forall j :: index <= j < dlen ==> data[j] == 0
  }

  /**
    A report laid out as the Core Specification prescribes, up to `dlen`
    (inside the buffer): a sequence of AD structures, each with a non-zero
    length that ends within `dlen` and whose service UUID list holds whole
    entries, optionally followed by an all-zero non-significant part.
   */
  predicate WellFormedFrom(data: seq<byte>, dlen: nat, index: nat)
    decreases dlen - index
  {
    && dlen <= |data|
    && (index < dlen ==>
          if data[index] == 0 then ZeroTail(data, dlen, index)
          else
            && index + data[index] + 1 <= dlen
            && (match UuidListLayout(data[index + 1])
                case None => true
                case Some(l) => (data[index] - 1) % l.strideSize == 0)
            && WellFormedFrom(data, dlen, index + data[index] + 1))
  }

  /** Whether the walk over a well-formed report reaches its non-significant part. */
  predicate ReachesZeroTail(data: seq<byte>, dlen: nat, index: nat)
    requires WellFormedFrom(data, dlen, index)
    decreases dlen - index
  {
    index < dlen && (data[index] == 0 || ReachesZeroTail(data, dlen, index + data[index] + 1))
  }

  /**
    Over the non-significant part the walk steps one zero octet at a time and
    reads each one's successor as a type byte, so for the last zero octet it
    reads `data[dlen]`: that stays in the buffer exactly when `dlen` is short of
    its end.
   */
  lemma {:induction false} ZeroTailWalk(data: seq<byte>, dlen: nat, index: nat)
    requires dlen <= |data| && index < dlen && ZeroTail(data, dlen, index)
    ensures SafeWalk(data, dlen, index) <==> dlen < |data|
    decreases dlen - index
  {
    if index + 1 < dlen {
      ZeroTailWalk(data, dlen, index + 1);
    }
  }

  /**
    In a structure of length `fieldLength` that holds whole entries, the
    entries `compare_uuid` examines are the ones the structure holds: each lies
    inside it.
   */
  lemma {:induction false} WholeEntriesInside(index: nat, fieldLength: nat, l: Layout, k: nat)
    requires UuidListLayout(BLE_GAP_AD_TYPE_16BIT_SERVICE_UUID_MORE_AVAILABLE) == Some(l)
          || UuidListLayout(BLE_GAP_AD_TYPE_32BIT_SERVICE_UUID_MORE_AVAILABLE) == Some(l)
          || UuidListLayout(BLE_GAP_AD_TYPE_128BIT_SERVICE_UUID_MORE_AVAILABLE) == Some(l)
    requires 1 <= fieldLength && (fieldLength - 1) % l.strideSize == 0
    requires k < fieldLength / l.strideSize
    ensures index + 2 <= EntryStart(index, l.strideSize, k)
    ensures EntryStart(index, l.strideSize, k) + l.decodeSize <= index + fieldLength + 1
  {
    if l.strideSize == 2 {
      assert fieldLength / 2 == (fieldLength - 1) / 2;
    } else if l.strideSize == 4 {
      assert fieldLength / 4 == (fieldLength - 1) / 4;
    } else {
      assert fieldLength / 16 == (fieldLength - 1) / 16;
    }
  }

  /**
    A report laid out as the Core Specification prescribes is read without
    leaving its buffer, except when the walk reaches its all-zero
    non-significant part and `dlen` is the buffer's whole length: then the type
    byte of the last zero octet is read one past the end.
   */
  lemma {:induction false} WellFormedIsSafe(data: seq<byte>, dlen: nat, index: nat)
    requires WellFormedFrom(data, dlen, index)
    ensures SafeWalk(data, dlen, index) <==> !(ReachesZeroTail(data, dlen, index) && dlen == |data|)
    decreases dlen - index
  {
    if index < dlen {
      if data[index] == 0 {
        ZeroTailWalk(data, dlen, index);
      } else {
        WellFormedIsSafe(data, dlen, index + data[index] + 1);
        match UuidListLayout(data[index + 1])
        case None =>
        case Some(l) =>
          forall k | 0 <= k < data[index] / l.strideSize
            ensures 0 <= EntryStart(index, l.strideSize, k) && EntryStart(index, l.strideSize, k) + l.decodeSize <= |data|
          {
            WholeEntriesInside(index, data[index], l, k);
          }
      }
    }
  }

  // ---------------------------------------------------------------------------
  // Examples

  /**
    The SensorTag's advertising payload: flags, then a complete 16-bit list
    holding the movement service 0xaa80. The application's search for it,
    with a target of type BLE_UUID_TYPE_UNKNOWN, succeeds.
   */
  lemma SensorTagAdvertisementMatches(decode: UuidDecoder)
    requires DecodesShortUuids(decode)
    ensures var report := [0x02, 0x01, 0x06, 0x03, 0x03, 0x80, 0xaa];
      && SafeWalk(report, 7, 0)
      && UuidPresentFrom(decode, Uuid(0xaa80, BLE_UUID_TYPE_UNKNOWN), report, 7, 0)
  {
    var report: seq<byte> := [0x02, 0x01, 0x06, 0x03, 0x03, 0x80, 0xaa];
    assert SafeWalk(report, 7, 7);
    assert SafeWalk(report, 7, 3);
    assert SafeWalk(report, 7, 0);
    assert Structures(report, 7, 0) == [0, 3];
    ListedUuid16IsFound(decode, Uuid(0xaa80, BLE_UUID_TYPE_UNKNOWN), report, 7, 3, 0);
  }

  /**
    The entry count `field_length / stride` includes the type byte, so in a
    16-bit list of even length the last entry takes its second byte from the
    next structure's length byte. Here the list holds the single byte 0x18 and
    the next structure has length 3, and 0x0318 is reported present.
   */
  lemma OddListReadsNextLengthByte(decode: UuidDecoder)
    requires DecodesShortUuids(decode)
    ensures var report := [0x02, 0x03, 0x18, 0x03, 0x19, 0x00, 0x00];
      && SafeWalk(report, 7, 0)
      && !WellFormedFrom(report, 7, 0)
      && UuidPresentFrom(decode, Uuid(0x0318, BLE_UUID_TYPE_BLE), report, 7, 0)
  {
    var report: seq<byte> := [0x02, 0x03, 0x18, 0x03, 0x19, 0x00, 0x00];
    assert SafeWalk(report, 7, 7);
    assert SafeWalk(report, 7, 3);
    assert SafeWalk(report, 7, 0);
    assert Structures(report, 7, 0) == [0, 3];
    ListedUuid16IsFound(decode, Uuid(0x0318, BLE_UUID_TYPE_BLE), report, 7, 0, 0);
  }

  /**
    Flags followed by one zero octet of non-significant data: well formed, but
    when `dlen` fills the 4-byte buffer the walk reads the type byte at offset
    4, outside it; in a 5-byte buffer the same report is read safely.
   */
  lemma ZeroTailAtBufferEnd()
    ensures var report := [0x02, 0x01, 0x06, 0x00];
      && WellFormedFrom(report, 4, 0)
      && !SafeWalk(report, 4, 0)
      && SafeWalk(report + [0x00], 4, 0)
  {
    var report: seq<byte> := [0x02, 0x01, 0x06, 0x00];
    assert WellFormedFrom(report, 4, 3);
    assert !SafeWalk(report, 4, 3);
    var padded := report + [0x00];
    assert SafeWalk(padded, 4, 4);
    assert SafeWalk(padded, 4, 3);
  }
}
