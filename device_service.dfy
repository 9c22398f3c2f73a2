/** The device service: serial numbers are issued from the maker, model, two-digit year, ISO week
    and factory, followed by a sequence number; a device is reported as a dictionary of its five
    columns. */
module DeviceService {
  import opened Wrappers
  import opened Text
  import opened Civil
  import opened Counting
  import opened DeviceRepository

  const MANUFACTURER := "SF"
  const MODEL := "RXC1"
  const FACTORY := "GF"

  /** `{manufacturer}{model}{year}{week}{factory}` for the (UTC) day of the request. */
  function SerialPrefix(day: Date): string
    requires ValidDate(day)
  {
    PrefixFor(day.year % 100, IsoWeek(day))
  }

  /** The prefix for a year modulo 100 and a week, each written with `str(n).zfill(2)`. */
  function PrefixFor(yy: nat, week: nat): string {
    MANUFACTURER + MODEL + ZFill(NatToString(yy), 2) + ZFill(NatToString(week), 2) + FACTORY
  }

  /** The prefix followed by `str(existing + 1).zfill(5)`. */
  function SerialNumber(prefix: string, existing: nat): string {
    prefix + ZFill(NatToString(existing + 1), 5)
  }

  /** The prefix has twelve characters whose year and week fields read back as the day's year
      modulo 100 and ISO week, and the serial number ends in at least five digits that read back
      as the sequence number. */
  lemma SerialNumberFields(day: Date, existing: nat)
    requires ValidDate(day)
    ensures |SerialPrefix(day)| == 12 && SerialPrefix(day)[..6] == "SFRXC1" && SerialPrefix(day)[10..] == "GF"
    ensures AllDigits(SerialPrefix(day)[6..10])
    ensures ParseNat(SerialPrefix(day)[6..8]) == day.year % 100 && ParseNat(SerialPrefix(day)[8..10]) == IsoWeek(day)
    ensures StartsWith(SerialNumber(SerialPrefix(day), existing), SerialPrefix(day))
    ensures |SerialNumber(SerialPrefix(day), existing)| >= 17
    ensures SequenceOf(SerialNumber(SerialPrefix(day), existing), 12) == Some(existing + 1)
  {
    PrefixForFields(day.year % 100, IsoWeek(day));
    SequenceReadsBack(SerialPrefix(day), existing);
  }

  lemma PrefixForFields(yy: nat, week: nat)
    requires yy < 100 && week < 100
    ensures var p := PrefixFor(yy, week);
      |p| == 12 && p[..6] == "SFRXC1" && p[10..] == "GF" && AllDigits(p[6..10])
      && ParseNat(p[6..8]) == yy && ParseNat(p[8..10]) == week
  {
    Pad2IsZFill(yy);
    Pad2IsZFill(week);
    assert PrefixFor(yy, week) == "SFRXC1" + Pad2(yy) + Pad2(week) + "GF";
    PrefixLayout(Pad2(yy), Pad2(week));
  }

  lemma PrefixLayout(a: string, b: string)
    requires |a| == 2 && |b| == 2
    ensures var p := "SFRXC1" + a + b + "GF";
      |p| == 12 && p[..6] == "SFRXC1" && p[6..8] == a && p[8..10] == b && p[6..10] == a + b && p[10..] == "GF"
  {
  }

  /** The digits after the first `n` characters, read as a number. */
  function SequenceOf(sn: string, n: nat): Option<nat> {
    if n <= |sn| && AllDigits(sn[n..]) then Some(ParseNat(sn[n..])) else None
  }

  lemma SequenceReadsBack(prefix: string, existing: nat)
    ensures SequenceOf(SerialNumber(prefix, existing), |prefix|) == Some(existing + 1)
    ensures |SerialNumber(prefix, existing)| >= |prefix| + 5
  {
    var digits := NatToString(existing + 1);
    ZFillDigits(digits, 5);
    ParseNatToString(existing + 1);
    assert SerialNumber(prefix, existing)[|prefix|..] == ZFill(digits, 5);
  }

  /** Different sequence numbers give different serial numbers. */
  lemma SerialNumberInjective(prefix: string, j: nat, k: nat)
    requires SerialNumber(prefix, j) == SerialNumber(prefix, k)
    ensures j == k
  {
    SequenceReadsBack(prefix, j);
    SequenceReadsBack(prefix, k);
  }

  /** The new serial number is fresh when the serial numbers already issued with the prefix
      are exactly sequence numbers below their count; after a deletion the count can fall
      below the highest issued number, and the next serial number can then already exist. */
  lemma SerialFreshWhenDense(rows: seq<Device>, prefix: string)
    requires forall i :: 0 <= i < |rows| && HasSerialPrefix(rows[i], prefix) ==>
      exists k :: 0 <= k < Count(rows, (d: Device) => HasSerialPrefix(d, prefix)) && rows[i].sn == Some(SerialNumber(prefix, k))
    ensures forall i :: 0 <= i < |rows| ==>
      rows[i].sn != Some(SerialNumber(prefix, Count(rows, (d: Device) => HasSerialPrefix(d, prefix))))
  {
    var n := Count(rows, (d: Device) => HasSerialPrefix(d, prefix));
    forall i | 0 <= i < |rows| ensures rows[i].sn != Some(SerialNumber(prefix, n)) {
      if rows[i].sn == Some(SerialNumber(prefix, n)) {
        assert StartsWith(SerialNumber(prefix, n), prefix);
        var k :| 0 <= k < n && rows[i].sn == Some(SerialNumber(prefix, k));
        SerialNumberInjective(prefix, k, n);
      }
    }
  }

  datatype DeviceError = IpRequired

  /** `generate_and_register_sn`: `day` is the UTC date of the request and `deviceId` the
      generated UUID. A missing or empty IP is rejected before anything is stored; otherwise the
      device is stored with the next serial number and the stream URL of its IP. */
  method GenerateAndRegisterSn(store: DeviceStore, ip: Option<string>, day: Date, deviceId: string)
    returns (r: Result<string, DeviceError>)
    requires ValidDate(day)
    modifies store
    ensures ip.None? || ip.value == [] ==> r == Err(IpRequired) && store.rows == old(store.rows)
    ensures ip.Some? && ip.value != [] ==>
      r == Ok(SerialNumber(SerialPrefix(day), old(store.CountSerialPrefix(SerialPrefix(day)))))
      && store.rows == old(store.rows) + [Device(Some(deviceId), Some(r.value), None, ip, Some(RtspUrl(ip.value)))]
    ensures r.Ok? ==> store.CountSerialPrefix(SerialPrefix(day)) == old(store.CountSerialPrefix(SerialPrefix(day))) + 1
  {
    if ip.None? || ip.value == [] {
      return Err(IpRequired);
    }
    var prefix := SerialPrefix(day);
    var existing := store.CountSerialPrefix(prefix);
    var sn := SerialNumber(prefix, existing);
    var device := Device(Some(deviceId), Some(sn), None, ip, Some(RtspUrl(ip.value)));
    ghost var before := store.rows;
    store.CreateDevice(device);
    SequenceReadsBack(prefix, existing);
    assert HasSerialPrefix(device, prefix);
    CountAppend(before, [device], (d: Device) => HasSerialPrefix(d, prefix));
    r := Ok(sn);
  }

  /** `_device_to_dict`: exactly the five columns. */
  function DeviceToDict(d: Device): (m: map<string, Option<string>>)
    ensures m.Keys == COLUMNS
    ensures forall k :: k in m ==> m[k] == ColumnValue(d, k)
  {
    map["device_id" := d.deviceId, "SN" := d.sn, "UID" := d.uid, "IP" := d.ip, "rtsp_url" := d.rtspUrl]
  }

  /** Writing a device's dictionary back with `update` reproduces the device, whatever was stored. */
  lemma UpdateWithOwnDict(stored: Device, d: Device)
    ensures Assign(stored, DeviceToDict(d)) == d
  {
  }
}
