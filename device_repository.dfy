/** The device table and its repository: lookups by id and serial number, field updates, the
    serial-number update that keeps the stream URL in step with the IP, deletion and the count
    of serial numbers with a prefix. The table is held in insertion order, which is the order a
    query without `ORDER BY` is taken to return. */
module DeviceRepository {
  import opened Wrappers
  import opened Text
  import opened Counting

  /** A `device` row. Every column is nullable text except the primary key, which the table
      keeps non-null; updates may write `None` to any column, as `setattr` does. */
  datatype Device = Device(deviceId: Option<string>, sn: Option<string>, uid: Option<string>,
                           ip: Option<string>, rtspUrl: Option<string>)

  /** The column names, which are the device's attributes. */
  const COLUMNS: set<string> := {"device_id", "SN", "UID", "IP", "rtsp_url"}

  /** An update's `data` dictionary: column names (or other keys) to values. */
  type Changes = map<string, Option<string>>

  /** `rtsp://{ip}:8554/stream`. */
  function RtspUrl(ip: string): string {
    "rtsp://" + ip + ":8554/stream"
  }

  /** The value a dictionary gives a column, or the current one when it says nothing. */
  function Given(data: Changes, column: string, current: Option<string>): Option<string> {
    if column in data then data[column] else current
  }

  /** `setattr(device, key, value)` for every key of `data` that names a column; the order of the
      keys does not matter because a dictionary holds each key once. */
  function Assign(d: Device, data: Changes): (r: Device)
    ensures forall k :: k in data && k in COLUMNS ==> ColumnValue(r, k) == data[k]
    ensures forall k :: k in COLUMNS && k !in data ==> ColumnValue(r, k) == ColumnValue(d, k)
  {
    Device(Given(data, "device_id", d.deviceId), Given(data, "SN", d.sn), Given(data, "UID", d.uid),
           Given(data, "IP", d.ip), Given(data, "rtsp_url", d.rtspUrl))
  }

  /** The value of a named column; `None` for a name that is not a column. */
  function ColumnValue(d: Device, column: string): Option<string> {
    if column == "device_id" then d.deviceId
    else if column == "SN" then d.sn
    else if column == "UID" then d.uid
    else if column == "IP" then d.ip
    else if column == "rtsp_url" then d.rtspUrl
    else None
  }

  /** Two devices with the same column values are the same device. */
  lemma ColumnsDetermine(a: Device, b: Device)
    requires forall k :: k in COLUMNS ==> ColumnValue(a, k) == ColumnValue(b, k)
    ensures a == b
  {
    assert ColumnValue(a, "device_id") == ColumnValue(b, "device_id");
    assert ColumnValue(a, "SN") == ColumnValue(b, "SN");
    assert ColumnValue(a, "UID") == ColumnValue(b, "UID");
    assert ColumnValue(a, "IP") == ColumnValue(b, "IP");
    assert ColumnValue(a, "rtsp_url") == ColumnValue(b, "rtsp_url");
  }

  /** Keys that are not columns have no effect, and applying the same changes twice is applying
      them once. */
  lemma AssignColumnsOnly(d: Device, data: Changes, other: Changes)
    requires forall k :: k in COLUMNS ==> (k in data <==> k in other) && (k in data ==> data[k] == other[k])
    ensures Assign(d, data) == Assign(d, other)
    ensures Assign(Assign(d, data), data) == Assign(d, data)
  {
  }

  /** The new IP of an update: `data.get("IP")`. */
  function NewIp(data: Changes): Option<string> {
    if "IP" in data then data["IP"] else None
  }

  /** `if new_ip and new_ip != old_ip`: a non-empty IP different from the stored one. */
  predicate IpChanged(d: Device, data: Changes) {
    NewIp(data).Some? && NewIp(data).value != [] && NewIp(data) != d.ip
  }

  /** `update_by_sn` on a found device: the column keys are applied, then a changed IP rewrites
      the stream URL, overriding any `rtsp_url` in the data. */
  function UpdatedBySn(d: Device, data: Changes): (r: Device)
    ensures IpChanged(d, data) ==> r.ip == NewIp(data) && r.rtspUrl == Some(RtspUrl(NewIp(data).value))
    ensures !IpChanged(d, data) ==> r == Assign(d, data)
    ensures r.deviceId == Assign(d, data).deviceId && r.sn == Assign(d, data).sn && r.uid == Assign(d, data).uid
            && r.ip == Assign(d, data).ip
  {
    var applied := Assign(d, data);
    if IpChanged(d, data) then applied.(rtspUrl := Some(RtspUrl(NewIp(data).value))) else applied
  }

  /** The stream URL is the one derived from the device's non-empty IP. */
  predicate StreamFollowsIp(d: Device) {
    d.ip.Some? && d.ip.value != [] && d.rtspUrl == Some(RtspUrl(d.ip.value))
  }

  /** An update by serial number keeps the stream URL derived from the IP whenever it does not
      set `rtsp_url` itself and does not clear the IP; with a new IP it re-derives it even when
      `rtsp_url` is set. */
  lemma UpdateKeepsStream(d: Device, data: Changes)
    ensures StreamFollowsIp(d) && "rtsp_url" !in data && ("IP" in data ==> data["IP"].Some? && data["IP"].value != []) ==>
      StreamFollowsIp(UpdatedBySn(d, data))
    ensures IpChanged(d, data) ==> StreamFollowsIp(UpdatedBySn(d, data))
    ensures !IpChanged(d, data) ==> UpdatedBySn(d, data).rtspUrl == Given(data, "rtsp_url", d.rtspUrl)
  {
  }

  /** The position of the first element that passes `p`. */
  function FirstIndex<T>(s: seq<T>, p: T -> bool): (r: Option<nat>)
    ensures r.Some? ==> r.value < |s| && p(s[r.value]) && forall j :: 0 <= j < r.value ==> !p(s[j])
    ensures r.None? ==> forall j :: 0 <= j < |s| ==> !p(s[j])
  {
    if s == [] then None
    else if p(s[0]) then Some(0)
    else
      var r := FirstIndex(s[1..], p);
      if r.None? then None else Some(r.value + 1)
  }

  predicate HasSerialPrefix(d: Device, prefix: string) {
    d.sn.Some? && StartsWith(d.sn.value, prefix)
  }

  /** Device ids are distinct, as the primary key demands. */
  predicate UniqueIds(rows: seq<Device>) {
    forall i, j :: 0 <= i < j < |rows| && rows[i].deviceId.Some? ==> rows[i].deviceId != rows[j].deviceId
  }

  /** Deleting the device with an id leaves no other device with that id when ids are distinct. */
  lemma DeleteRemovesId(rows: seq<Device>, i: nat, id: string)
    requires UniqueIds(rows) && i < |rows| && rows[i].deviceId == Some(id)
    ensures forall d :: d in rows[..i] + rows[i + 1..] ==> d.deviceId != Some(id)
    ensures |rows[..i] + rows[i + 1..]| == |rows| - 1
  {
    var rest := rows[..i] + rows[i + 1..];
    forall j | 0 <= j < |rest| ensures rest[j].deviceId != Some(id) {
      if j < i {
        assert rest[j] == rows[j];
      } else {
        assert rest[j] == rows[j + 1];
      }
    }
    assert forall d :: d in rest ==> exists j :: 0 <= j < |rest| && rest[j] == d;
  }

  /** The table, as the repository sees it through a session. */
  class DeviceStore {
    var rows: seq<Device>

    constructor (initial: seq<Device>)
      ensures rows == initial
    {
      rows := initial;
    }

    /** `get_by_id(...).first()`. */
    function FindById(id: string): (r: Option<nat>)
      reads this
      ensures r.Some? ==> r.value < |rows| && rows[r.value].deviceId == Some(id)
      ensures r.None? ==> forall j :: 0 <= j < |rows| ==> rows[j].deviceId != Some(id)
    {
      FirstIndex(rows, (d: Device) => d.deviceId == Some(id))
    }

    /** `get_device_by_sn(...).first()`. */
    function FindBySn(sn: string): (r: Option<nat>)
      reads this
      ensures r.Some? ==> r.value < |rows| && rows[r.value].sn == Some(sn)
      ensures r.Some? ==> forall j :: 0 <= j < r.value ==> rows[j].sn != Some(sn)
      ensures r.None? ==> forall j :: 0 <= j < |rows| ==> rows[j].sn != Some(sn)
    {
      FirstIndex(rows, (d: Device) => d.sn == Some(sn))
    }

    /** `count_serial_prefix`: the devices whose serial number starts with `prefix` (the
        `LIKE '{prefix}%'` filter; the prefixes used contain neither `%` nor `_`). */
    function CountSerialPrefix(prefix: string): (n: nat)
      reads this
      ensures n <= |rows|
    {
      Count(rows, (d: Device) => HasSerialPrefix(d, prefix))
    }

    /** `create_device`: the new row is added. */
    method CreateDevice(d: Device)
      modifies this
      ensures rows == old(rows) + [d]
    {
      rows := rows + [d];
    }

    /** `update`: every column key of `data` is set on the device with the id; `None` and no
        change for an unknown id. */
    method Update(id: string, data: Changes) returns (r: Option<Device>)
      modifies this
      ensures old(FindById(id)).None? ==> r.None? && rows == old(rows)
      ensures old(FindById(id)).Some? ==>
        var i := old(FindById(id)).value;
        rows == old(rows)[i := Assign(old(rows)[i], data)] && r == Some(rows[i])
    {
      var found := FindById(id);
      if found.None? {
        return None;
      }
      var i := found.value;
      rows := rows[i := Assign(rows[i], data)];
      r := Some(rows[i]);
    }

    /** `update_by_sn`: the first device with the serial number is updated; `None` and no
        change for an unknown serial number. */
    method UpdateBySn(sn: string, data: Changes) returns (r: Option<Device>)
      modifies this
      ensures old(FindBySn(sn)).None? ==> r.None? && rows == old(rows)
      ensures old(FindBySn(sn)).Some? ==>
        var i := old(FindBySn(sn)).value;
        rows == old(rows)[i := UpdatedBySn(old(rows)[i], data)] && r == Some(rows[i])
    {
      var found := FindBySn(sn);
      if found.None? {
        return None;
      }
      var i := found.value;
      rows := rows[i := UpdatedBySn(rows[i], data)];
      r := Some(rows[i]);
    }

    /** `delete`: removes the device with the id and reports whether there was one. */
    method Delete(id: string) returns (deleted: bool)
      modifies this
      ensures deleted <==> old(FindById(id)).Some?
      ensures !deleted ==> rows == old(rows)
      ensures deleted ==> var i := old(FindById(id)).value; rows == old(rows[..i] + rows[i + 1..])
    {
      var found := FindById(id);
      if found.None? {
        return false;
      }
      var i := found.value;
      rows := rows[..i] + rows[i + 1..];
      deleted := true;
    }
  }
}
