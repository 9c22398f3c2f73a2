/** The pet-health service's read path: one day's health record together with the weight of
    every day of that month and the average weight of every month of that year. */
module PetHealth {
  import opened Wrappers
  import opened Text
  import opened Civil

  /** A `pet_health` row; its date is never null. */
  datatype Record = Record(petId: string, date: Date, weight: Option<real>, memo: Option<string>,
                           shedding: Option<string>)

  /** One `{"day" | "month": name, "value": value}` entry. */
  datatype Stat = Stat(name: string, value: Option<real>)

  // ---------------------------------------------------------------------------------------
  // The month's daily weights

  /** A row the monthly query returns: the pet's, in the month, with a weight. */
  predicate InMonth(r: Record, pet: string, y: int, m: int) {
    r.petId == pet && r.date.year == y && r.date.month == m && r.weight.Some?
  }

  /** `{r.date.day: r.weight for r in results}` over the rows in the order the query returns
      them: a later row of the same day overwrites an earlier one. */
  function DailyWeights(records: seq<Record>, pet: string, y: int, m: int): map<int, real>
    decreases |records|
  {
    if records == [] then map[]
    else
      var daily := DailyWeights(records[..|records| - 1], pet, y, m);
      var last := records[|records| - 1];
      if InMonth(last, pet, y, m) then daily[last.date.day := last.weight.value] else daily
  }

  /** A day has a weight exactly when some row of the month falls on it. */
  lemma {:induction false} DailyWeightsDomain(records: seq<Record>, pet: string, y: int, m: int, day: int)
    ensures day in DailyWeights(records, pet, y, m) <==>
      exists i :: 0 <= i < |records| && InMonth(records[i], pet, y, m) && records[i].date.day == day
    decreases |records|
  {
    if records != [] {
      var p := records[..|records| - 1];
      DailyWeightsDomain(p, pet, y, m, day);
      if exists i :: 0 <= i < |p| && InMonth(p[i], pet, y, m) && p[i].date.day == day {
        var i :| 0 <= i < |p| && InMonth(p[i], pet, y, m) && p[i].date.day == day;
        assert records[i] == p[i];
      }
      if exists i :: 0 <= i < |records| && InMonth(records[i], pet, y, m) && records[i].date.day == day {
        var i :| 0 <= i < |records| && InMonth(records[i], pet, y, m) && records[i].date.day == day;
        if i < |p| {
          assert p[i] == records[i];
        }
      }
    }
  }

  /** Of several rows on one day, the last one's weight is reported. */
  lemma {:induction false} DailyWeightsLastWins(records: seq<Record>, pet: string, y: int, m: int, k: nat)
    requires k < |records| && InMonth(records[k], pet, y, m)
    requires forall j :: k < j < |records| ==>
      !(InMonth(records[j], pet, y, m) && records[j].date.day == records[k].date.day)
    ensures records[k].date.day in DailyWeights(records, pet, y, m)
    ensures DailyWeights(records, pet, y, m)[records[k].date.day] == records[k].weight.value
    decreases |records|
  {
    if k < |records| - 1 {
      var p := records[..|records| - 1];
      assert p[k] == records[k];
      DailyWeightsLastWins(p, pet, y, m, k);
    }
  }

  /** `_get_monthly_weight_stats`: one entry for each day of the month, labelled `str(day)`,
      with that day's weight or `None`. */
  method MonthlyWeightStats(records: seq<Record>, pet: string, y: int, m: int) returns (stats: seq<Stat>)
    ensures |stats| == DaysInMonth(y, m)
    ensures forall i :: 0 <= i < |stats| ==>
      var daily := DailyWeights(records, pet, y, m);
      stats[i] == Stat(NatToString(i + 1), if i + 1 in daily then Some(daily[i + 1]) else None)
  {
    var daysInMonth := DaysInMonth(y, m);
    var daily := DailyWeights(records, pet, y, m);
    stats := [];
    for day := 1 to daysInMonth + 1
      invariant |stats| == day - 1
      invariant forall i :: 0 <= i < |stats| ==>
        stats[i] == Stat(NatToString(i + 1), if i + 1 in daily then Some(daily[i + 1]) else None)
    {
      var value := if day in daily then Some(daily[day]) else None;
      stats := stats + [Stat(NatToString(day), value)];
    }
  }

  // ---------------------------------------------------------------------------------------
  // The year's monthly averages

  /** The total weight and the number of the pet's weighed rows in the month. */
  function MonthTotals(records: seq<Record>, pet: string, y: int, m: int): (r: (real, nat))
    ensures r.1 <= |records|
    decreases |records|
  {
    if records == [] then (0.0, 0)
    else
      var (total, count) := MonthTotals(records[..|records| - 1], pet, y, m);
      var last := records[|records| - 1];
      if InMonth(last, pet, y, m) then (total + last.weight.value, count + 1) else (total, count)
  }

  /** `func.avg(weight)` of one `GROUP BY` month, or `None` for a month without weights. */
  function MonthlyAverage(records: seq<Record>, pet: string, y: int, m: int): Option<real> {
    var (total, count) := MonthTotals(records, pet, y, m);
    if count == 0 then None else Some(total / (count as real))
  }

  /** `{int(r.month): r.avg_weight for r in results}`: the months that have weights. */
  function MonthlyAverages(records: seq<Record>, pet: string, y: int): (avgs: map<int, real>)
    ensures forall m :: m in avgs ==> 1 <= m <= 12 && MonthlyAverage(records, pet, y, m) == Some(avgs[m])
    ensures forall m :: 1 <= m <= 12 && MonthlyAverage(records, pet, y, m).Some? ==> m in avgs
  {
    map m | 1 <= m <= 12 && MonthlyAverage(records, pet, y, m).Some? :: MonthlyAverage(records, pet, y, m).value
  }

  /** `_get_yearly_weight_stats`: twelve entries labelled "1" to "12", each with the month's
      average weight or `None`. */
  method YearlyWeightStats(records: seq<Record>, pet: string, y: int) returns (stats: seq<Stat>)
    ensures |stats| == 12
    ensures forall i :: 0 <= i < 12 ==> stats[i] == Stat(NatToString(i + 1), MonthlyAverage(records, pet, y, i + 1))
  {
    var avgs := MonthlyAverages(records, pet, y);
    stats := [];
    for month := 1 to 13
      invariant |stats| == month - 1
      invariant forall i :: 0 <= i < |stats| ==> stats[i] == Stat(NatToString(i + 1), MonthlyAverage(records, pet, y, i + 1))
    {
      var value := if month in avgs then Some(avgs[month]) else None;
      stats := stats + [Stat(NatToString(month), value)];
    }
  }

  /** The labels are the day or month numbers written in decimal, so they read back as the
      numbers and no two entries share one. */
  lemma LabelsReadBack(i: nat, j: nat)
    ensures AllDigits(NatToString(i + 1)) && ParseNat(NatToString(i + 1)) == i + 1
    ensures i != j ==> NatToString(i + 1) != NatToString(j + 1)
  {
    ParseNatToString(i + 1);
    ParseNatToString(j + 1);
  }

  /** A month whose weighed rows all carry the same weight averages to that weight. */
  lemma ConstantWeightAverage(records: seq<Record>, pet: string, y: int, m: int, w: real)
    requires forall i :: 0 <= i < |records| && InMonth(records[i], pet, y, m) ==> records[i].weight == Some(w)
    ensures MonthlyAverage(records, pet, y, m).Some? ==> MonthlyAverage(records, pet, y, m) == Some(w)
  {
    ConstantWeightTotal(records, pet, y, m, w);
    var r := MonthTotals(records, pet, y, m);
    if r.1 > 0 {
      DivideBack(r.0, r.1 as real, w);
    }
  }

  lemma {:induction false} ConstantWeightTotal(records: seq<Record>, pet: string, y: int, m: int, w: real)
    requires forall i :: 0 <= i < |records| && InMonth(records[i], pet, y, m) ==> records[i].weight == Some(w)
    ensures MonthTotals(records, pet, y, m).0 == w * (MonthTotals(records, pet, y, m).1 as real)
    decreases |records|
  {
    if records != [] {
      var p := records[..|records| - 1];
      assert forall i :: 0 <= i < |p| ==> p[i] == records[i];
      ConstantWeightTotal(p, pet, y, m, w);
      var c := MonthTotals(p, pet, y, m).1;
      Distribute(w, c as real);
    }
  }

  lemma Distribute(w: real, c: real)
    ensures w * (c + 1.0) == w * c + w
  {
  }

  lemma DivideBack(total: real, count: real, w: real)
    requires count > 0.0 && total == w * count
    ensures total / count == w
  {
  }

  // ---------------------------------------------------------------------------------------
  // The request

  /** The response: the record's fields, or `None` fields when there is no record, always with
      both lists filled in. */
  datatype HealthView = HealthView(petId: string, date: string, weight: Option<real>, memo: Option<string>,
                                   shedding: Option<string>, monthOfWeight: seq<Stat>, yearOfWeight: seq<Stat>)

  /** `get_pet_health`; `found` is the repository's lookup of the day's record. */
  method GetPetHealth(records: seq<Record>, found: Option<Record>, pet: string, day: Date) returns (v: HealthView)
    requires ValidDate(day) && (found.Some? ==> ValidDate(found.value.date))
    ensures found.None? ==>
      v.petId == pet && v.date == DateDashed(day) && v.weight.None? && v.memo.None? && v.shedding.None?
    ensures found.Some? ==>
      v.petId == found.value.petId && v.date == DateDashed(found.value.date)
      && v.weight == found.value.weight && v.memo == found.value.memo && v.shedding == found.value.shedding
    ensures |v.monthOfWeight| == DaysInMonth(day.year, day.month) && |v.yearOfWeight| == 12
    ensures forall i :: 0 <= i < |v.monthOfWeight| ==>
      var daily := DailyWeights(records, pet, day.year, day.month);
      v.monthOfWeight[i] == Stat(NatToString(i + 1), if i + 1 in daily then Some(daily[i + 1]) else None)
    ensures forall i :: 0 <= i < 12 ==>
      v.yearOfWeight[i] == Stat(NatToString(i + 1), MonthlyAverage(records, pet, day.year, i + 1))
  {
    if found.Some? {
      var r := found.value;
      v := HealthView(r.petId, DateDashed(r.date), r.weight, r.memo, r.shedding, [], []);
    } else {
      v := HealthView(pet, DateDashed(day), None, None, None, [], []);
    }
    var month := MonthlyWeightStats(records, pet, day.year, day.month);
    var year := YearlyWeightStats(records, pet, day.year);
    v := v.(monthOfWeight := month, yearOfWeight := year);
  }
}
