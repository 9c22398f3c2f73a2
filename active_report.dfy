/** The `active_reports` table: one activity value per (SN, DATE, TIME) key, written by an
    insert-or-update inside a database session and read back by two queries. */
module ActiveReport {
  import opened Wrappers
  import opened Text

  datatype Key = Key(sn: string, date: string, time: string)

  /** One row of an activity frame, or one stored record. */
  datatype Row = Row(sn: string, date: string, time: string, active: real)

  function KeyOf(r: Row): Key { Key(r.sn, r.date, r.time) }

  /** The table as a map from key to `active`: the key columns identify at most one record. */
  type Table = map<Key, real>

  /** The table after upserting `rows` in order. */
  function ApplyRows(t: Table, rows: seq<Row>): Table
    decreases |rows|
  {
    if rows == [] then t
    else
      var last := rows[|rows| - 1];
      ApplyRows(t, rows[..|rows| - 1])[KeyOf(last) := last.active]
  }

  /** Upserting a frame overrides the table with the frame's own last-wins values. */
  lemma {:induction false} ApplyRowsOverride(t: Table, rows: seq<Row>)
    ensures ApplyRows(t, rows) == t + ApplyRows(map[], rows)
    decreases |rows|
  {
    if rows != [] {
      ApplyRowsOverride(t, rows[..|rows| - 1]);
    }
  }

  /** Saving the same frame twice leaves the table as after one save. */
  lemma ApplyRowsIdempotent(t: Table, rows: seq<Row>)
    ensures ApplyRows(ApplyRows(t, rows), rows) == ApplyRows(t, rows)
  {
    ApplyRowsOverride(t, rows);
    ApplyRowsOverride(ApplyRows(t, rows), rows);
    var l := ApplyRows(map[], rows);
    assert (t + l) + l == t + l;
  }

  /** The stored value of a key is that of the last row with the key. */
  lemma {:induction false} LastRowWins(t: Table, rows: seq<Row>, i: nat)
    requires i < |rows|
    requires forall j :: i < j < |rows| ==> KeyOf(rows[j]) != KeyOf(rows[i])
    ensures KeyOf(rows[i]) in ApplyRows(t, rows)
    ensures ApplyRows(t, rows)[KeyOf(rows[i])] == rows[i].active
    decreases |rows|
  {
    if i < |rows| - 1 {
      LastRowWins(t, rows[..|rows| - 1], i);
    }
  }

  /** Keys no row names keep their value, and no key disappears. */
  lemma {:induction false} ApplyRowsOthers(t: Table, rows: seq<Row>, k: Key)
    requires forall j :: 0 <= j < |rows| ==> KeyOf(rows[j]) != k
    ensures k in ApplyRows(t, rows) <==> k in t
    ensures k in t ==> ApplyRows(t, rows)[k] == t[k]
    decreases |rows|
  {
    if rows != [] {
      ApplyRowsOthers(t, rows[..|rows| - 1], k);
    }
  }

  /** The key set grows by exactly the keys of the rows. */
  lemma {:induction false} ApplyRowsKeys(t: Table, rows: seq<Row>)
    ensures ApplyRows(t, rows).Keys == t.Keys + set j | 0 <= j < |rows| :: KeyOf(rows[j])
    decreases |rows|
  {
    if rows != [] {
      var p := rows[..|rows| - 1];
      ApplyRowsKeys(t, p);
      var ks := set j | 0 <= j < |rows| :: KeyOf(rows[j]);
      var kp := set j | 0 <= j < |p| :: KeyOf(p[j]);
      assert ks == kp + {KeyOf(rows[|rows| - 1])} by {
        forall k | k in ks ensures k in kp + {KeyOf(rows[|rows| - 1])} {
          var j :| 0 <= j < |rows| && KeyOf(rows[j]) == k;
          if j < |p| {
            assert p[j] == rows[j];
          }
        }
        forall k | k in kp ensures k in ks {
          var j :| 0 <= j < |p| && KeyOf(p[j]) == k;
          assert p[j] == rows[j];
        }
      }
    }
  }

  /** `DATE` descending, then `TIME` descending, compares `a` below `b`. */
  predicate Before(a: Key, b: Key) {
    StrLess(a.date, b.date) || (a.date == b.date && StrLess(a.time, b.time))
  }

  lemma BeforeTotal(a: Key, b: Key)
    requires a.sn == b.sn && a != b
    ensures Before(a, b) || Before(b, a)
  {
    StrLessTotal(a.date, b.date);
    StrLessTotal(a.time, b.time);
  }

  lemma BeforeTransitive(a: Key, b: Key, c: Key)
    requires Before(a, b) && Before(b, c)
    ensures Before(a, c)
  {
    if StrLess(a.date, b.date) && StrLess(b.date, c.date) {
      StrLessTransitive(a.date, b.date, c.date);
    } else if a.date == b.date && b.date == c.date {
      StrLessTransitive(a.time, b.time, c.time);
    }
  }

  lemma BeforeIrreflexive(a: Key, b: Key)
    requires Before(a, b)
    ensures !Before(b, a) && a != b
  {
    if StrLess(a.date, b.date) {
      StrLessAsymmetric(a.date, b.date);
      StrLessIrreflexive(a.date);
    } else {
      StrLessAsymmetric(a.time, b.time);
      StrLessIrreflexive(a.time);
      StrLessIrreflexive(a.date);
    }
  }

  /** The keys of device `sn` in `t`. */
  function KeysOfSn(t: Table, sn: string): set<Key> {
    set k | k in t && k.sn == sn
  }

  /** A database session over the table: `committed` is what other sessions see, `view` is
      what this session sees (committed data plus its own uncommitted writes). */
  class ReportStore {
    var committed: Table
    var view: Table

    constructor (t: Table)
      ensures committed == t && view == t
    {
      committed := t;
      view := t;
    }

    /** `save_or_update`: afterwards the key holds exactly the given value; an existing record
        changes only its `active`, and every other key is untouched. */
    method SaveOrUpdate(sn: string, date: string, time: string, active: real) returns (ok: bool)
      modifies this
      ensures ok
      ensures view == old(view)[Key(sn, date, time) := active]
      ensures committed == old(committed)
    {
      view := view[Key(sn, date, time) := active];
      ok := true;
    }

    method Commit()
      modifies this
      ensures committed == old(view) && view == old(view)
    {
      committed := view;
    }

    method Rollback()
      modifies this
      ensures view == old(committed) && committed == old(committed)
    {
      view := committed;
    }

    /** `save_activity_data`: upserts the rows in order and commits, returning their count; an
        empty frame returns 0 and touches nothing. `fault == Some(i)` makes the `i`-th upsert
        raise (or the commit, for `i == |rows|`); the session is then rolled back and the
        error re-raised, so nothing of the frame is stored. */
    method SaveActivityData(rows: seq<Row>, fault: Option<nat>) returns (r: Result<nat, string>)
      modifies this
      ensures rows == [] ==> r == Ok(0) && view == old(view) && committed == old(committed)
      ensures rows != [] && (fault.None? || fault.value > |rows|) ==>
        r == Ok(|rows|) && committed == ApplyRows(old(view), rows) && view == committed
      ensures rows != [] && fault.Some? && fault.value <= |rows| ==>
        r.Err? && view == old(committed) && committed == old(committed)
    {
      if rows == [] {
        return Ok(0);
      }
      var count := 0;
      while count < |rows|
        invariant 0 <= count <= |rows|
        invariant view == ApplyRows(old(view), rows[..count])
        invariant committed == old(committed)
        invariant fault.Some? ==> count <= fault.value
      {
        if fault == Some(count) {
          Rollback();
          return Err("database error");
        }
        var row := rows[count];
        var _ := SaveOrUpdate(row.sn, row.date, row.time, row.active);
        assert rows[..count + 1][..count] == rows[..count];
        count := count + 1;
      }
      assert rows[..count] == rows;
      if fault == Some(count) {
        Rollback();
        return Err("database error");
      }
      Commit();
      r := Ok(count);
    }

    /** `get_by_sn_and_date`: exactly the committed records of that device and date, each once,
        in no particular order. The query reads `committed`; a session that flushes before it
        queries would also see its own pending writes, `view`, which matters only to a caller
        that reads between a save and its commit. */
    method GetBySnAndDate(sn: string, date: string) returns (recs: seq<Row>)
      ensures forall r :: r in recs <==>
        (r.sn == sn && r.date == date && KeyOf(r) in committed && committed[KeyOf(r)] == r.active)
      ensures forall i, j :: 0 <= i < j < |recs| ==> KeyOf(recs[i]) != KeyOf(recs[j])
    {
      recs := [];
      var todo := committed.Keys;
      while todo != {}
        invariant todo <= committed.Keys
        invariant forall r :: r in recs <==>
          (r.sn == sn && r.date == date && KeyOf(r) in committed - todo && committed[KeyOf(r)] == r.active)
        invariant forall i, j :: 0 <= i < j < |recs| ==> KeyOf(recs[i]) != KeyOf(recs[j])
        decreases |todo|
      {
        var k :| k in todo;
        if k.sn == sn && k.date == date {
          recs := recs + [Row(k.sn, k.date, k.time, committed[k])];
        }
        todo := todo - {k};
      }
    }

    /** `get_latest_by_sn`: the device's records ordered by DATE then TIME, newest first, at
        most `limit` of them, and no record left out is newer than one returned. */
    method GetLatestBySn(sn: string, limit: nat) returns (recs: seq<Row>)
      ensures |recs| == if limit < |KeysOfSn(committed, sn)| then limit else |KeysOfSn(committed, sn)|
      ensures forall i :: 0 <= i < |recs| ==>
        KeyOf(recs[i]) in KeysOfSn(committed, sn) && committed[KeyOf(recs[i])] == recs[i].active
      ensures forall i, j :: 0 <= i < j < |recs| ==> Before(KeyOf(recs[j]), KeyOf(recs[i]))
      ensures forall k, i :: k in KeysOfSn(committed, sn) && 0 <= i < |recs| && k !in KeysOfRows(recs) ==>
        Before(k, KeyOf(recs[i]))
    {
      recs := [];
      var t := committed;
      var rest := KeysOfSn(t, sn);
      while |recs| < limit && rest != {}
        invariant LatestInv(t, sn, recs, rest, limit)
        decreases |rest|
      {
        var m := Newest(rest, sn);
        var row := Row(m.sn, m.date, m.time, t[m]);
        LatestStep(t, sn, recs, rest, limit, m);
        recs := recs + [row];
        rest := rest - {m};
      }
      LatestDone(t, sn, recs, rest, limit);
    }
  }

  /** The state of the newest-first selection: `recs` are the newest records taken so far, in
      order, and `rest` holds the device's other keys, all older than every one taken. */
  ghost predicate LatestInv(t: Table, sn: string, recs: seq<Row>, rest: set<Key>, limit: nat) {
    && rest <= KeysOfSn(t, sn)
    && KeysOfRows(recs) !! rest
    && KeysOfRows(recs) + rest == KeysOfSn(t, sn)
    && |recs| + |rest| == |KeysOfSn(t, sn)|
    && |recs| <= limit
    && (forall i :: 0 <= i < |recs| ==> KeyOf(recs[i]) in KeysOfSn(t, sn) && t[KeyOf(recs[i])] == recs[i].active)
    && (forall i, j :: 0 <= i < j < |recs| ==> Before(KeyOf(recs[j]), KeyOf(recs[i])))
    && (forall k, i :: k in rest && 0 <= i < |recs| ==> Before(k, KeyOf(recs[i])))
  }

  lemma LatestStep(t: Table, sn: string, recs: seq<Row>, rest: set<Key>, limit: nat, m: Key)
    requires LatestInv(t, sn, recs, rest, limit) && |recs| < limit
    requires m in rest && forall k :: k in rest && k != m ==> Before(k, m)
    ensures LatestInv(t, sn, recs + [Row(m.sn, m.date, m.time, t[m])], rest - {m}, limit)
  {
    var row := Row(m.sn, m.date, m.time, t[m]);
    assert KeyOf(row) == m;
    LatestSetsStep(t, sn, recs, rest, m, row);
    LatestRowsStep(t, sn, recs, row);
    LatestOrderStep(recs, rest, m, row);
    OlderThanTaken(rest, recs, m, row);
  }

  lemma LatestSetsStep(t: Table, sn: string, recs: seq<Row>, rest: set<Key>, m: Key, row: Row)
    requires rest <= KeysOfSn(t, sn) && KeysOfRows(recs) !! rest
    requires KeysOfRows(recs) + rest == KeysOfSn(t, sn) && |recs| + |rest| == |KeysOfSn(t, sn)|
    requires m in rest && KeyOf(row) == m
    ensures rest - {m} <= KeysOfSn(t, sn) && KeysOfRows(recs + [row]) !! rest - {m}
    ensures KeysOfRows(recs + [row]) + (rest - {m}) == KeysOfSn(t, sn)
    ensures |recs + [row]| + |rest - {m}| == |KeysOfSn(t, sn)|
  {
    KeysOfRowsAppend(recs, row);
  }

  lemma LatestRowsStep(t: Table, sn: string, recs: seq<Row>, row: Row)
    requires forall i :: 0 <= i < |recs| ==> KeyOf(recs[i]) in KeysOfSn(t, sn) && t[KeyOf(recs[i])] == recs[i].active
    requires KeyOf(row) in KeysOfSn(t, sn) && t[KeyOf(row)] == row.active
    ensures forall i :: 0 <= i < |recs + [row]| ==>
      KeyOf((recs + [row])[i]) in KeysOfSn(t, sn) && t[KeyOf((recs + [row])[i])] == (recs + [row])[i].active
  {
    var recs' := recs + [row];
    forall i | 0 <= i < |recs'| ensures KeyOf(recs'[i]) in KeysOfSn(t, sn) && t[KeyOf(recs'[i])] == recs'[i].active {
      if i < |recs| {
        assert recs'[i] == recs[i];
      }
    }
  }

  lemma LatestOrderStep(recs: seq<Row>, rest: set<Key>, m: Key, row: Row)
    requires forall i, j :: 0 <= i < j < |recs| ==> Before(KeyOf(recs[j]), KeyOf(recs[i]))
    requires forall k, i :: k in rest && 0 <= i < |recs| ==> Before(k, KeyOf(recs[i]))
    requires m in rest && KeyOf(row) == m
    ensures forall i, j :: 0 <= i < j < |recs + [row]| ==> Before(KeyOf((recs + [row])[j]), KeyOf((recs + [row])[i]))
  {
    var recs' := recs + [row];
    forall i, j | 0 <= i < j < |recs'| ensures Before(KeyOf(recs'[j]), KeyOf(recs'[i])) {
      assert recs'[i] == recs[i];
      if j < |recs| {
        assert recs'[j] == recs[j];
      }
    }
  }

  lemma OlderThanTaken(rest: set<Key>, recs: seq<Row>, m: Key, row: Row)
    requires KeyOf(row) == m
    requires forall k, i :: k in rest && 0 <= i < |recs| ==> Before(k, KeyOf(recs[i]))
    requires forall k :: k in rest && k != m ==> Before(k, m)
    ensures forall k, i :: k in rest - {m} && 0 <= i < |recs + [row]| ==> Before(k, KeyOf((recs + [row])[i]))
  {
    forall k, i | k in rest - {m} && 0 <= i < |recs + [row]| ensures Before(k, KeyOf((recs + [row])[i])) {
      if i < |recs| {
        assert (recs + [row])[i] == recs[i];
      } else {
        assert (recs + [row])[i] == row;
      }
    }
  }

  lemma LatestDone(t: Table, sn: string, recs: seq<Row>, rest: set<Key>, limit: nat)
    requires LatestInv(t, sn, recs, rest, limit) && !(|recs| < limit && rest != {})
    ensures |recs| == if limit < |KeysOfSn(t, sn)| then limit else |KeysOfSn(t, sn)|
    ensures forall i :: 0 <= i < |recs| ==> KeyOf(recs[i]) in KeysOfSn(t, sn) && t[KeyOf(recs[i])] == recs[i].active
    ensures forall i, j :: 0 <= i < j < |recs| ==> Before(KeyOf(recs[j]), KeyOf(recs[i]))
    ensures forall k, i :: k in KeysOfSn(t, sn) && 0 <= i < |recs| && k !in KeysOfRows(recs) ==>
      Before(k, KeyOf(recs[i]))
  {
    if |recs| < limit {
      assert rest == {};
    }
  }

  /** The keys of a sequence of records. */
  function KeysOfRows(recs: seq<Row>): set<Key> {
    set i | 0 <= i < |recs| :: KeyOf(recs[i])
  }

  lemma KeysOfRowsAppend(recs: seq<Row>, r: Row)
    ensures KeysOfRows(recs + [r]) == KeysOfRows(recs) + {KeyOf(r)}
  {
    var s := recs + [r];
    forall k | k in KeysOfRows(s) ensures k in KeysOfRows(recs) + {KeyOf(r)} {
      var i :| 0 <= i < |s| && KeyOf(s[i]) == k;
      if i < |recs| {
        assert s[i] == recs[i];
      }
    }
    forall k | k in KeysOfRows(recs) ensures k in KeysOfRows(s) {
      var i :| 0 <= i < |recs| && KeyOf(recs[i]) == k;
      assert s[i] == recs[i];
    }
    assert s[|recs|] == r;
  }

  /** The newest key of a non-empty set of one device's keys. */
  method Newest(ks: set<Key>, sn: string) returns (m: Key)
    requires ks != {} && forall k :: k in ks ==> k.sn == sn
    ensures m in ks && forall k :: k in ks && k != m ==> Before(k, m)
  {
    m :| m in ks;
    var todo := ks - {m};
    while todo != {}
      invariant todo <= ks && m in ks && m !in todo
      invariant forall k :: k in ks - todo && k != m ==> Before(k, m)
      decreases |todo|
    {
      var k :| k in todo;
      if k != m {
        BeforeTotal(k, m);
        if Before(m, k) {
          forall j | j in ks - todo && j != k ensures Before(j, k) {
            if j != m {
              BeforeTransitive(j, m, k);
            }
          }
          m := k;
        }
      }
      todo := todo - {k};
    }
  }

  /** A column of the dictionary `_record_to_dict` returns. */
  datatype Field = Text(text: string) | Number(number: real)

  /** `_record_to_dict`: exactly the four columns, with their values unchanged. */
  function RecordToDict(r: Row): (d: map<string, Field>)
    ensures d.Keys == {"SN", "DATE", "TIME", "active"}
  {
    map["SN" := Text(r.sn), "DATE" := Text(r.date), "TIME" := Text(r.time), "active" := Number(r.active)]
  }

  /** Reading the four columns back out of such a dictionary. */
  function DictToRecord(d: map<string, Field>): Option<Row> {
    if "SN" in d && d["SN"].Text? && "DATE" in d && d["DATE"].Text? && "TIME" in d && d["TIME"].Text?
       && "active" in d && d["active"].Number?
    then Some(Row(d["SN"].text, d["DATE"].text, d["TIME"].text, d["active"].number))
    else None
  }

  /** The dictionary preserves SN, DATE, TIME and active exactly. */
  lemma RecordToDictPreserves(r: Row)
    ensures DictToRecord(RecordToDict(r)) == Some(r)
  {
    var d := RecordToDict(r);
    assert d["SN"] == Text(r.sn) && d["DATE"] == Text(r.date) && d["TIME"] == Text(r.time);
    assert d["active"] == Number(r.active);
  }
}
