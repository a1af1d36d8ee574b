// controllers/farmController.js: a farmer's fields, the dashboard
// statistics, today's tasks, and the expense shortcut.
module Farm {
  import opened Common
  import opened FarmModel
  import Sorting
  import Store

  datatype FarmReply =
    | FieldCreated(id: nat)
    | MissingFields
    | CropNotFound
    | FieldNotFound
    | TaskNotFound
    | Updated
    | ServerError

  // ---------------------------------------------------------------
  // createField

  /** The field createField stores. The body's `crop` and
      `irrigationType` are not paths of the Field schema, so under the
      schema's strict mode they are not stored; `healthScore: null` is not
      stored either. */
  function NewField(farmer: nat, name: string, area: int, soilType: Option<string>,
                    coordinates: Option<Coordinates>): (f: Field)
    ensures f.soilType == (if Given(soilType) then soilType else Some("Unknown"))
    ensures f.coordinates == (if coordinates.Some? then coordinates.value else Coordinates(0, 0))
    ensures f.status == Preparing && f.healthScore.None? && f.cropId.None?
  {
    Field(farmer, name, area, None, OrElse(soilType, Some("Unknown")),
          if coordinates.Some? then coordinates.value else Coordinates(0, 0),
          Preparing, None, None, None, None)
  }

  /** createField: name, area and crop must be truthy. */
  method CreateField(db: Store.Db, farmer: nat, name: Option<string>, area: Option<int>, crop: Option<string>,
                     soilType: Option<string>, irrigationType: Option<string>, coordinates: Option<Coordinates>)
    returns (reply: FarmReply)
    modifies db`fields
    ensures !(Given(name) && GivenNum(area) && Given(crop)) ==>
              reply == MissingFields && db.fields == old(db.fields)
    ensures Given(name) && GivenNum(area) && Given(crop) ==>
              reply == FieldCreated(|old(db.fields)|) &&
              db.fields == old(db.fields) + [NewField(farmer, name.value, area.value, soilType, coordinates)]
  {
    if !(Given(name) && GivenNum(area) && Given(crop)) {
      return MissingFields;
    }
    db.fields := db.fields + [NewField(farmer, name.value, area.value, soilType, coordinates)];
    reply := FieldCreated(|db.fields| - 1);
  }

  // ---------------------------------------------------------------
  // updateFieldCrop

  /** `Field.findOne({ _id, farmerId })` */
  predicate OwnsField(fields: seq<Field>, id: nat, farmer: nat)
  {
    id < |fields| && fields[id].farmerId == farmer
  }

  /** The planted field: the crop, the planting date (today by default), the
      expected harvest when one is given, status Growing and health 85. */
  function Planted(f: Field, cropId: nat, plantedDate: Option<int>, expectedHarvest: Option<int>, now: int): (r: Field)
    ensures r.cropId == Some(cropId) && r.status == Growing && r.health == Some(85)
    ensures r.plantedDate == Some(if plantedDate.Some? then plantedDate.value else now)
    ensures r.expectedHarvest == (if expectedHarvest.Some? then expectedHarvest else f.expectedHarvest)
    ensures r.farmerId == f.farmerId && r.name == f.name && r.area == f.area && r.healthScore == f.healthScore
  {
    f.(cropId := Some(cropId),
       plantedDate := Some(if plantedDate.Some? then plantedDate.value else now),
       expectedHarvest := if expectedHarvest.Some? then expectedHarvest else f.expectedHarvest,
       status := Growing, health := Some(85))
  }

  /** updateFieldCrop: the crop must exist, then the field must be the
      caller's. An absent expected harvest is dropped from the update and
      leaves the stored one. */
  method UpdateFieldCrop(db: Store.Db, farmer: nat, fieldId: nat, cropId: Option<nat>,
                         plantedDate: Option<int>, expectedHarvest: Option<int>, now: int)
    returns (reply: FarmReply)
    modifies db`fields
    ensures (cropId.None? || cropId.value >= |db.cropMasters|) ==>
              reply == CropNotFound && db.fields == old(db.fields)
    ensures cropId.Some? && cropId.value < |db.cropMasters| && !OwnsField(old(db.fields), fieldId, farmer) ==>
              reply == FieldNotFound && db.fields == old(db.fields)
    ensures cropId.Some? && cropId.value < |db.cropMasters| && OwnsField(old(db.fields), fieldId, farmer) ==>
              reply == Updated &&
              db.fields == old(db.fields)[fieldId := Planted(old(db.fields)[fieldId], cropId.value, plantedDate,
                                                             expectedHarvest, now)]
  {
    if cropId.None? || cropId.value >= |db.cropMasters| {
      return CropNotFound;
    }
    if !OwnsField(db.fields, fieldId, farmer) {
      return FieldNotFound;
    }
    db.fields := db.fields[fieldId := Planted(db.fields[fieldId], cropId.value, plantedDate, expectedHarvest, now)];
    reply := Updated;
  }

  // ---------------------------------------------------------------
  // getFarmStats

  function OfFarmer(farmer: nat): Field -> bool
  {
    (f: Field) => f.farmerId == farmer
  }

  /** `$sum: '$area'` */
  function TotalArea(fs: seq<Field>): int
  {
    if fs == [] then 0 else fs[0].area + TotalArea(fs[1..])
  }

  /** `$sum` of `$cond [status == 'Growing', 1, 0]` */
  function ActiveCount(fs: seq<Field>): (n: nat)
    ensures n <= |fs|
  {
    if fs == [] then 0 else (if fs[0].status == Growing then 1 else 0) + ActiveCount(fs[1..])
  }

  /** `$sum: '$healthScore'`; a missing score adds nothing. */
  function HealthTotal(fs: seq<Field>): int
  {
    if fs == [] then 0
    else (if fs[0].healthScore.Some? then fs[0].healthScore.value else 0) + HealthTotal(fs[1..])
  }

  /** The aggregate's `$cond: ['$healthScore', 1, 0]` counts a truthy score. */
  predicate Scored(f: Field)
  {
    f.healthScore.Some? && f.healthScore.value != 0
  }

  function HealthCount(fs: seq<Field>): (n: nat)
    ensures n == 0 <==> forall f :: f in fs ==> !Scored(f)
  {
    if fs == [] then 0
    else
      assert fs == [fs[0]] + fs[1..];
      (if Scored(fs[0]) then 1 else 0) + HealthCount(fs[1..])
  }

  /** `Math.round(t / c)` for c > 0: halves round up. */
  function RoundDiv(t: int, c: int): (r: int)
    requires c > 0
    ensures 2 * c * r - c <= 2 * t < 2 * c * r + c
  {
    var r := (2 * t + c) / (2 * c);
    assert 2 * t + c == 2 * c * r + (2 * t + c) % (2 * c);
    r
  }

  /** avgHealth: null when no field has a truthy score, else the rounded
      mean. Zero scores add nothing to the total and are not counted. */
  function AvgHealth(fs: seq<Field>): (r: Option<int>)
    ensures r.None? <==> forall f :: f in fs ==> !Scored(f)
  {
    if HealthCount(fs) > 0 then Some(RoundDiv(HealthTotal(fs), HealthCount(fs))) else None
  }

  lemma {:induction false} HealthBounds(fs: seq<Field>, lo: int, hi: int)
    requires forall f :: f in fs && Scored(f) ==> lo <= f.healthScore.value <= hi
    ensures lo * HealthCount(fs) <= HealthTotal(fs) <= hi * HealthCount(fs)
  {
    if fs != [] {
      var rest := fs[1..];
      assert forall f :: f in rest ==> f in fs;
      HealthBounds(rest, lo, hi);
      var c, t := HealthCount(rest), HealthTotal(rest);
      if Scored(fs[0]) {
        var v := fs[0].healthScore.value;
        assert HealthCount(fs) == c + 1 && HealthTotal(fs) == t + v;
        MulSucc(lo, c);
        MulSucc(hi, c);
      } else {
        assert HealthCount(fs) == c && HealthTotal(fs) == t;
      }
    }
  }

  lemma RoundWithin(t: int, c: int, lo: int, hi: int)
    requires c > 0 && lo * c <= t <= hi * c
    ensures lo <= RoundDiv(t, c) <= hi
  {
    var r := RoundDiv(t, c);
    if r > hi {
      MulMono(2 * c, hi + 1, r);
      assert false;
    }
    if r < lo {
      MulMono(2 * c, r, lo - 1);
      assert false;
    }
  }

  lemma MulSucc(a: int, c: int)
    ensures a * (c + 1) == a * c + a
  {
  }

  lemma MulMono(c: int, a: int, b: int)
    requires c > 0 && a <= b
    ensures c * a <= c * b
  {
    assert c * b - c * a == c * (b - a);
  }

  /** When every counted score lies in [lo, hi], so does avgHealth. */
  lemma AvgHealthWithin(fs: seq<Field>, lo: int, hi: int)
    requires forall f :: f in fs && Scored(f) ==> lo <= f.healthScore.value <= hi
    requires exists f :: f in fs && Scored(f)
    ensures AvgHealth(fs).Some? && lo <= AvgHealth(fs).value <= hi
  {
    HealthBounds(fs, lo, hi);
    RoundWithin(HealthTotal(fs), HealthCount(fs), lo, hi);
  }

  /** Fields made by createField carry no score, so a farmer with only
      such fields sees avgHealth null. */
  lemma CreatedFieldsHaveNoAverage(fs: seq<Field>)
    requires forall f :: f in fs ==> f.healthScore.None?
    ensures AvgHealth(fs).None?
  {
  }

  datatype FarmStats = FarmStats(totalArea: int, activeFields: nat, totalFields: nat,
                                 avgHealth: Option<int>, todaysTasks: nat)

  /** getFarmStats over the caller's fields and tasks. */
  function Stats(fields: seq<Field>, tasks: seq<Task>, farmer: nat, now: int, offset: int): (s: FarmStats)
    ensures s.totalFields == |Sorting.Filter(fields, OfFarmer(farmer))|
    ensures s.activeFields <= s.totalFields
    ensures s.avgHealth.None? <==> forall f :: f in fields && f.farmerId == farmer ==> !Scored(f)
    ensures s.todaysTasks == |TodaysTasks(tasks, farmer, now, offset)|
  {
    var mine := Sorting.Filter(fields, OfFarmer(farmer));
    var due := Sorting.Filter(tasks, DueTodayFor(farmer, now, offset));
    assert |due| == |multiset(due)| == |multiset(TodaysTasks(tasks, farmer, now, offset))|;
    FarmStats(TotalArea(mine), ActiveCount(mine), |mine|, AvgHealth(mine), |due|)
  }

  // ---------------------------------------------------------------
  // Today's tasks

  /** `today.setHours(0, 0, 0, 0)` in a zone `offset` ms ahead of UTC. */
  function LocalMidnight(now: int, offset: int): (m: int)
    ensures m <= now < m + DayMs
    ensures (m + offset) % DayMs == 0
  {
    now - (now + offset) % DayMs
  }

  /** The local calendar day of an instant. */
  function LocalDay(t: int, offset: int): int
  {
    (t + offset) / DayMs
  }

  /** The window [today, tomorrow) holds exactly the instants of the same
      local day as now. */
  lemma WindowIsLocalDay(now: int, offset: int, t: int)
    ensures LocalMidnight(now, offset) <= t < LocalMidnight(now, offset) + DayMs <==>
            LocalDay(t, offset) == LocalDay(now, offset)
  {
    var m := LocalMidnight(now, offset);
    var k := (now + offset) / DayMs;
    assert m + offset == k * DayMs;
  }

  predicate DueToday(t: Task, farmer: nat, now: int, offset: int)
  {
    t.farmerId == farmer && !t.isCompleted &&
    LocalMidnight(now, offset) <= t.dueDate < LocalMidnight(now, offset) + DayMs
  }

  function DueTodayFor(farmer: nat, now: int, offset: int): Task -> bool
  {
    (t: Task) => DueToday(t, farmer, now, offset)
  }

  function EarlierDue(): (Task, Task) -> bool
  {
    (a: Task, b: Task) => a.dueDate <= b.dueDate
  }

  /** getTodaysTasks: the caller's incomplete tasks due on the local day of
      `now`, earliest due first. */
  function TodaysTasks(tasks: seq<Task>, farmer: nat, now: int, offset: int): (r: seq<Task>)
    ensures forall t :: t in r <==>
              t in tasks && t.farmerId == farmer && !t.isCompleted && LocalDay(t.dueDate, offset) == LocalDay(now, offset)
    ensures multiset(r) == multiset(Sorting.Filter(tasks, DueTodayFor(farmer, now, offset)))
    ensures forall j, k :: 0 <= j < k < |r| ==> r[j].dueDate <= r[k].dueDate
  {
    assert Sorting.Total(EarlierDue()) && Sorting.Transitive(EarlierDue());
    var r := Sorting.Sort(Sorting.Filter(tasks, DueTodayFor(farmer, now, offset)), EarlierDue());
    forall t
      ensures t in r <==> t in tasks && t.farmerId == farmer && !t.isCompleted &&
                          LocalDay(t.dueDate, offset) == LocalDay(now, offset)
    {
      WindowIsLocalDay(now, offset, t.dueDate);
    }
    r
  }

  /** completeTask: only the caller's task; it becomes completed. */
  method CompleteTask(db: Store.Db, farmer: nat, id: nat) returns (reply: FarmReply)
    modifies db`tasks
    ensures !(id < |old(db.tasks)| && old(db.tasks)[id].farmerId == farmer) ==>
              reply == TaskNotFound && db.tasks == old(db.tasks)
    ensures id < |old(db.tasks)| && old(db.tasks)[id].farmerId == farmer ==>
              reply == Updated && db.tasks == old(db.tasks)[id := old(db.tasks)[id].(isCompleted := true)]
  {
    if !(id < |db.tasks| && db.tasks[id].farmerId == farmer) {
      return TaskNotFound;
    }
    db.tasks := db.tasks[id := db.tasks[id].(isCompleted := true)];
    reply := Updated;
  }

  /** A completed task is no longer among today's tasks, and completing a
      task again changes nothing. */
  lemma CompletedTaskLeavesToday(tasks: seq<Task>, id: nat, now: int, offset: int)
    requires id < |tasks|
    ensures var done := tasks[id := tasks[id].(isCompleted := true)];
            tasks[id].(isCompleted := true) !in TodaysTasks(done, tasks[id].farmerId, now, offset) &&
            done[id := done[id].(isCompleted := true)] == done
  {
  }

  // ---------------------------------------------------------------
  // recordExpense

  /** recordExpense: category, item and amount must be truthy. The
      document it then creates has no userId, userType or title, which the
      Expense schema requires, so the create always fails. */
  method RecordExpense(db: Store.Db, farmer: nat, category: Option<string>, item: Option<string>,
                       amount: Option<int>) returns (reply: FarmReply)
    ensures !(Given(category) && Given(item) && GivenNum(amount)) ==> reply == MissingFields
    ensures Given(category) && Given(item) && GivenNum(amount) ==> reply == ServerError
  {
    if !(Given(category) && Given(item) && GivenNum(amount)) {
      return MissingFields;
    }
    reply := ServerError;
  }
}
