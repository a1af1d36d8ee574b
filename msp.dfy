// controllers/mspController.js: the government's minimum support price
// list: create one entry per crop, change it, retire it, list it.
module Msps {
  import opened Common
  import opened MspModel
  import Sorting
  import Store

  datatype MspReply =
    | MspCreated(id: nat)
    | MissingFields
    | AlreadyExists
    | NothingToUpdate
    | MspNotFound
    | MspUpdated
    | ServerError

  /** `MSP.findOne({ cropName })`: any entry of that name, active or not. */
  predicate Named(msps: seq<Msp>, cropName: string)
  {
    exists i :: 0 <= i < |msps| && msps[i].cropName == cropName
  }

  /** No two entries share a crop name. */
  ghost predicate OnePerCrop(msps: seq<Msp>)
  {
    forall i, j :: 0 <= i < j < |msps| ==> msps[i].cropName != msps[j].cropName
  }

  /** The entry createMSP saves: unit "quintal", season year-round and
      effective now unless given; active; stamped with the officer. */
  function NewMsp(govt: nat, cropName: string, price: int, unit: Option<string>, season: Option<Season>,
                  effectiveFrom: Option<int>, now: int): (m: Msp)
    ensures m.unit == (if Given(unit) then unit.value else "quintal")
    ensures m.season == (if season.Some? then season.value else YearRound)
    ensures m.effectiveFrom == (if effectiveFrom.Some? then effectiveFrom.value else now)
    ensures m.isActive && m.lastUpdatedBy == Some(govt) && m.cropName == cropName && m.price == price
  {
    Msp(cropName, price, if Given(unit) then unit.value else "quintal",
        if season.Some? then season.value else YearRound,
        Some(govt), if effectiveFrom.Some? then effectiveFrom.value else now, true)
  }

  /** createMSP: crop name and price must be truthy, and no entry may
      have that crop name; a negative price fails the schema. */
  method CreateMsp(db: Store.Db, govt: nat, cropName: Option<string>, price: Option<int>, unit: Option<string>,
                   season: Option<Season>, effectiveFrom: Option<int>, now: int) returns (reply: MspReply)
    modifies db`msps
    ensures !(Given(cropName) && GivenNum(price)) ==> reply == MissingFields && db.msps == old(db.msps)
    ensures Given(cropName) && GivenNum(price) && Named(old(db.msps), cropName.value) ==>
              reply == AlreadyExists && db.msps == old(db.msps)
    ensures Given(cropName) && GivenNum(price) && !Named(old(db.msps), cropName.value) && price.value < 0 ==>
              reply == ServerError && db.msps == old(db.msps)
    ensures Given(cropName) && GivenNum(price) && !Named(old(db.msps), cropName.value) && price.value >= 0 ==>
              reply == MspCreated(|old(db.msps)|) &&
              db.msps == old(db.msps) + [NewMsp(govt, cropName.value, price.value, unit, season, effectiveFrom, now)]
  {
    if !(Given(cropName) && GivenNum(price)) {
      return MissingFields;
    }
    if Named(db.msps, cropName.value) {
      return AlreadyExists;
    }
    var m := NewMsp(govt, cropName.value, price.value, unit, season, effectiveFrom, now);
    if !SchemaValid(m) {
      return ServerError;
    }
    db.msps := db.msps + [m];
    reply := MspCreated(|db.msps| - 1);
  }

  lemma CreateKeepsOnePerCrop(msps: seq<Msp>, m: Msp)
    requires OnePerCrop(msps) && !Named(msps, m.cropName)
    ensures OnePerCrop(msps + [m]) && Named(msps + [m], m.cropName)
  {
    assert (msps + [m])[|msps|] == m;
  }

  // ---------------------------------------------------------------
  // updateMSP

  /** The `updateData` object: lastUpdatedBy and each supplied field. */
  datatype UpdateData = UpdateData(
    lastUpdatedBy: nat,
    price: Option<int>,
    unit: Option<string>,
    season: Option<Season>,
    effectiveFrom: Option<int>,
    isActive: Option<bool>)

  /** The guard: no truthy price, unit or season and no effectiveFrom or
      isActive at all. A lone price of 0 is refused by it. */
  predicate NoField(price: Option<int>, unit: Option<string>, season: Option<Season>,
                    effectiveFrom: Option<int>, isActive: Option<bool>)
  {
    !GivenNum(price) && !Given(unit) && season.None? && effectiveFrom.None? && isActive.None?
  }

  /** The update validators: a price being set is at least 0. */
  predicate DataValid(d: UpdateData)
  {
    d.price.Some? ==> d.price.value >= 0
  }

  function Apply(m: Msp, d: UpdateData): (r: Msp)
    ensures r.cropName == m.cropName && r.lastUpdatedBy == Some(d.lastUpdatedBy)
    ensures r.price == (if d.price.Some? then d.price.value else m.price)
    ensures r.unit == (if d.unit.Some? then d.unit.value else m.unit)
    ensures r.season == (if d.season.Some? then d.season.value else m.season)
    ensures r.effectiveFrom == (if d.effectiveFrom.Some? then d.effectiveFrom.value else m.effectiveFrom)
    ensures r.isActive == (if d.isActive.Some? then d.isActive.value else m.isActive)
  {
    m.(lastUpdatedBy := Some(d.lastUpdatedBy),
       price := if d.price.Some? then d.price.value else m.price,
       unit := if d.unit.Some? then d.unit.value else m.unit,
       season := if d.season.Some? then d.season.value else m.season,
       effectiveFrom := if d.effectiveFrom.Some? then d.effectiveFrom.value else m.effectiveFrom,
       isActive := if d.isActive.Some? then d.isActive.value else m.isActive)
  }

  /** updateMSP. The update holds lastUpdatedBy, a price whenever one is
      supplied (0 included), a truthy unit, a season, a truthy
      effectiveFrom and any isActive. Validators run before the lookup. */
  method UpdateMsp(db: Store.Db, govt: nat, id: nat, price: Option<int>, unit: Option<string>,
                   season: Option<Season>, effectiveFrom: Option<int>, isActive: Option<bool>)
    returns (reply: MspReply, data: UpdateData)
    modifies db`msps
    ensures NoField(price, unit, season, effectiveFrom, isActive) ==>
              reply == NothingToUpdate && db.msps == old(db.msps)
    ensures !NoField(price, unit, season, effectiveFrom, isActive) ==>
              data == UpdateData(govt, price, if Given(unit) then unit else None, season, effectiveFrom, isActive)
    ensures !NoField(price, unit, season, effectiveFrom, isActive) && !DataValid(data) ==>
              reply == ServerError && db.msps == old(db.msps)
    ensures !NoField(price, unit, season, effectiveFrom, isActive) && DataValid(data) && id >= |old(db.msps)| ==>
              reply == MspNotFound && db.msps == old(db.msps)
    ensures !NoField(price, unit, season, effectiveFrom, isActive) && DataValid(data) && id < |old(db.msps)| ==>
              reply == MspUpdated && db.msps == old(db.msps)[id := Apply(old(db.msps)[id], data)]
  {
    data := UpdateData(govt, None, None, None, None, None);
    if NoField(price, unit, season, effectiveFrom, isActive) {
      return NothingToUpdate, data;
    }
    if price.Some? {
      data := data.(price := price);
    }
    if Given(unit) {
      data := data.(unit := unit);
    }
    if season.Some? {
      data := data.(season := season);
    }
    if effectiveFrom.Some? {
      data := data.(effectiveFrom := effectiveFrom);
    }
    if isActive.Some? {
      data := data.(isActive := isActive);
    }
    if !DataValid(data) {
      return ServerError, data;
    }
    if id >= |db.msps| {
      return MspNotFound, data;
    }
    db.msps := db.msps[id := Apply(db.msps[id], data)];
    reply := MspUpdated;
  }

  /** Updates never rename an entry, so names stay unique. */
  lemma UpdateKeepsOnePerCrop(msps: seq<Msp>, id: nat, d: UpdateData)
    requires OnePerCrop(msps) && id < |msps|
    ensures OnePerCrop(msps[id := Apply(msps[id], d)])
  {
    var r := msps[id := Apply(msps[id], d)];
    forall i, j | 0 <= i < j < |r|
      ensures r[i].cropName != r[j].cropName
    {
      assert r[i].cropName == msps[i].cropName && r[j].cropName == msps[j].cropName;
    }
  }

  // ---------------------------------------------------------------
  // deleteMSP

  /** deleteMSP: a soft delete that only clears isActive and stamps the
      officer. */
  method DeleteMsp(db: Store.Db, govt: nat, id: nat) returns (reply: MspReply)
    modifies db`msps
    ensures id >= |old(db.msps)| ==> reply == MspNotFound && db.msps == old(db.msps)
    ensures id < |old(db.msps)| ==>
              reply == MspUpdated &&
              db.msps == old(db.msps)[id := old(db.msps)[id].(isActive := false, lastUpdatedBy := Some(govt))]
  {
    if id >= |db.msps| {
      return MspNotFound;
    }
    db.msps := db.msps[id := db.msps[id].(isActive := false, lastUpdatedBy := Some(govt))];
    reply := MspUpdated;
  }

  /** A retired entry leaves the listing but keeps its name, so the crop
      can never be created again, only reactivated by an update. */
  lemma RetiredStillBlocksCreate(msps: seq<Msp>, id: nat, govt: nat, season: Option<Season>)
    requires id < |msps|
    ensures var r := msps[id := msps[id].(isActive := false, lastUpdatedBy := Some(govt))];
            Named(r, msps[id].cropName) && r[id] !in ActiveList(r, season)
  {
    var r := msps[id := msps[id].(isActive := false, lastUpdatedBy := Some(govt))];
    assert r[id].cropName == msps[id].cropName;
  }

  // ---------------------------------------------------------------
  // getAllMSP

  /** Code-unit order on strings, as the store sorts them. */
  predicate StrLe(a: string, b: string)
    decreases |a|
  {
    |a| == 0 || (|b| > 0 && (a[0] < b[0] || (a[0] == b[0] && StrLe(a[1..], b[1..]))))
  }

  lemma {:induction false} StrLeTotal(a: string, b: string)
    ensures StrLe(a, b) || StrLe(b, a)
    decreases |a|
  {
    if |a| > 0 && |b| > 0 && a[0] == b[0] {
      StrLeTotal(a[1..], b[1..]);
    }
  }

  lemma {:induction false} StrLeTrans(a: string, b: string, c: string)
    requires StrLe(a, b) && StrLe(b, c)
    ensures StrLe(a, c)
    decreases |a|
  {
    if |a| > 0 && a[0] == b[0] && b[0] == c[0] {
      StrLeTrans(a[1..], b[1..], c[1..]);
    }
  }

  lemma {:induction false} StrLeAntisym(a: string, b: string)
    requires StrLe(a, b) && StrLe(b, a)
    ensures a == b
    decreases |a|
  {
    if |a| > 0 {
      StrLeAntisym(a[1..], b[1..]);
      assert a == [a[0]] + a[1..] && b == [b[0]] + b[1..];
    }
  }

  function ByCropName(): (Msp, Msp) -> bool
  {
    (x: Msp, y: Msp) => StrLe(x.cropName, y.cropName)
  }

  lemma ByCropNameIsOrder()
    ensures Sorting.Total(ByCropName()) && Sorting.Transitive(ByCropName())
  {
    forall x: Msp, y: Msp
      ensures ByCropName()(x, y) || ByCropName()(y, x)
    {
      StrLeTotal(x.cropName, y.cropName);
    }
    forall x: Msp, y: Msp, z: Msp | ByCropName()(x, y) && ByCropName()(y, z)
      ensures ByCropName()(x, z)
    {
      StrLeTrans(x.cropName, y.cropName, z.cropName);
    }
  }

  predicate Listed(m: Msp, season: Option<Season>)
  {
    m.isActive && (season.None? || m.season == season.value)
  }

  function ListedFor(season: Option<Season>): Msp -> bool
  {
    (m: Msp) => Listed(m, season)
  }

  /** getAllMSP: exactly the active entries, of the season when one is
      asked, in crop-name order. */
  function ActiveList(msps: seq<Msp>, season: Option<Season>): (r: seq<Msp>)
    ensures forall m :: m in r <==> m in msps && m.isActive && (season.None? || m.season == season.value)
    ensures multiset(r) == multiset(Sorting.Filter(msps, ListedFor(season)))
    ensures forall j, k :: 0 <= j < k < |r| ==> StrLe(r[j].cropName, r[k].cropName)
  {
    ByCropNameIsOrder();
    Sorting.Sort(Sorting.Filter(msps, ListedFor(season)), ByCropName())
  }

  /** With one entry per crop the listing never shows a name twice, so it
      is strictly ordered by name. */
  lemma ListingStrictlyOrdered(msps: seq<Msp>, season: Option<Season>, j: nat, k: nat)
    requires OnePerCrop(msps)
    requires j < k < |ActiveList(msps, season)|
    ensures var r := ActiveList(msps, season);
            r[j].cropName != r[k].cropName
  {
    var r := ActiveList(msps, season);
    if r[j].cropName == r[k].cropName {
      assert r[j] in r && r[k] in r;
      var a :| 0 <= a < |msps| && msps[a] == r[j];
      var b :| 0 <= b < |msps| && msps[b] == r[k];
      assert a == b;
      TwiceInList(r, j, k);
      OnceInStore(msps, a);
      assert false;
    }
  }

  lemma TwiceInList(r: seq<Msp>, j: nat, k: nat)
    requires j < k < |r| && r[j] == r[k]
    ensures multiset(r)[r[j]] >= 2
  {
    assert r == r[..j] + [r[j]] + r[j + 1..k] + [r[k]] + r[k + 1..];
  }

  /** With unique names an entry occurs once in the store. */
  lemma OnceInStore(msps: seq<Msp>, a: nat)
    requires OnePerCrop(msps) && a < |msps|
    ensures multiset(msps)[msps[a]] == 1
  {
    var m := msps[a];
    assert msps == msps[..a] + [m] + msps[a + 1..];
    forall i | 0 <= i < |msps| && i != a
      ensures msps[i] != m
    {
      if i < a {
        assert msps[i].cropName != m.cropName;
      } else {
        assert msps[a].cropName != msps[i].cropName;
      }
    }
    assert m !in msps[..a];
    assert m !in msps[a + 1..];
  }
}
