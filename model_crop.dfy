// models/Crop.js: the fixed catalogue of crop keys with display names and
// icons, the lookups with their fallbacks, and the crop document's
// defaults and bounds.
module CropCatalog {
  import opened Common

  datatype CropEntry = CropEntry(key: string, name: string, icon: string)

  /** CROP_ENUM, in declaration order. */
  const CropEnum: seq<CropEntry> := [
    CropEntry("PADDY_COMMON", "Paddy (Common)", "rice"),
    CropEntry("PADDY_GRADE_A", "Paddy (Grade A)", "rice"),
    CropEntry("WHEAT", "Wheat", "wheat"),
    CropEntry("MAIZE", "Maize", "corn"),
    CropEntry("BARLEY", "Barley", "barley"),
    CropEntry("JOWAR_HYBRID", "Jowar (Hybrid)", "sorghum"),
    CropEntry("JOWAR_MALDANDI", "Jowar (Maldandi)", "sorghum"),
    CropEntry("BAJRA", "Bajra", "sorghum"),
    CropEntry("RAGI", "Ragi", "food-apple"),
    CropEntry("ARHAR_TUR", "Arhar (Tur)", "sprout"),
    CropEntry("MOONG", "Moong", "seed"),
    CropEntry("URAD", "Urad", "seed"),
    CropEntry("GRAM", "Gram", "seed"),
    CropEntry("MASUR_LENTIL", "Masur (Lentil)", "sprout"),
    CropEntry("GROUNDNUT", "Groundnut", "peanut"),
    CropEntry("SOYABEAN_YELLOW", "Soyabean (Yellow)", "soy-sauce"),
    CropEntry("SUNFLOWER_SEED", "Sunflower Seed", "flower"),
    CropEntry("SESAMUM", "Sesamum", "seed-outline"),
    CropEntry("NIGER_SEED", "Niger Seed", "seed-outline"),
    CropEntry("RAPESEED_MUSTARD", "Rapeseed/Mustard", "flower-tulip"),
    CropEntry("SAFFLOWER", "Safflower", "flower-outline"),
    CropEntry("TORIA", "Toria", "flower-tulip"),
    CropEntry("COTTON_MEDIUM", "Cotton (Medium Staple)", "cotton"),
    CropEntry("COTTON_LONG", "Cotton (Long Staple)", "cotton"),
    CropEntry("JUTE", "Jute", "leaf"),
    CropEntry("SUGARCANE", "Sugarcane", "sugar-cube"),
    CropEntry("COPRA_COCONUT", "Copra (Coconut)", "palm-tree"),
    CropEntry("DEHUSKED_COCONUT", "De-husked Coconut", "palm-tree")
  ]

  /** CROP_KEYS = Object.keys(CROP_ENUM): the keys in declaration order. */
  function CropKeys(): (keys: seq<string>)
    ensures |keys| == |CropEnum| == 28
    ensures forall i :: 0 <= i < |keys| ==> keys[i] == CropEnum[i].key
  {
    seq(|CropEnum|, i requires 0 <= i < |CropEnum| => CropEnum[i].key)
  }

  /** `CROP_ENUM[key]`: the first entry declared under `key`, if any. */
  function Lookup(entries: seq<CropEntry>, key: string): (r: Option<CropEntry>)
    ensures r.Some? ==> r.value in entries && r.value.key == key
    ensures r.None? <==> forall e :: e in entries ==> e.key != key
  {
    if entries == [] then None
    else if entries[0].key == key then Some(entries[0])
    else Lookup(entries[1..], key)
  }

  /** getCropDisplayName: the catalogue name, or the key itself when the key
      is unknown (or its name is empty). */
  function DisplayName(key: string): (r: string)
    ensures Lookup(CropEnum, key).Some? && Lookup(CropEnum, key).value.name != "" ==>
              r == Lookup(CropEnum, key).value.name
    ensures Lookup(CropEnum, key).None? ==> r == key
  {
    match Lookup(CropEnum, key)
    case Some(e) => if e.name != "" then e.name else key
    case None => key
  }

  /** getCropIcon: the catalogue icon, or "crop" for an unknown key. */
  function Icon(key: string): (r: string)
    ensures Lookup(CropEnum, key).Some? && Lookup(CropEnum, key).value.icon != "" ==>
              r == Lookup(CropEnum, key).value.icon
    ensures Lookup(CropEnum, key).None? ==> r == "crop"
  {
    match Lookup(CropEnum, key)
    case Some(e) => if e.icon != "" then e.icon else "crop"
    case None => "crop"
  }

  /** A key is known to the lookups exactly when it is one of CROP_KEYS. */
  lemma {:induction false} KnownIffListed(entries: seq<CropEntry>, key: string)
    ensures Lookup(entries, key).Some? <==> exists i :: 0 <= i < |entries| && entries[i].key == key
  {
    if entries != [] && entries[0].key != key {
      KnownIffListed(entries[1..], key);
      if exists i :: 0 <= i < |entries| && entries[i].key == key {
        var i :| 0 <= i < |entries| && entries[i].key == key;
        assert entries[1..][i - 1].key == key;
      }
    }
  }

  /** The entry declared at position i is the one found for its key when no
      earlier entry has the same key. */
  lemma {:induction false} LookupFindsFirst(entries: seq<CropEntry>, i: nat)
    requires i < |entries|
    requires forall j :: 0 <= j < i ==> entries[j].key != entries[i].key
    ensures Lookup(entries, entries[i].key) == Some(entries[i])
  {
    if i > 0 {
      assert entries[1..][i - 1] == entries[i];
      LookupFindsFirst(entries[1..], i - 1);
    }
  }

  lemma WheatLookups()
    ensures DisplayName("WHEAT") == "Wheat" && Icon("WHEAT") == "wheat"
  {
    var e := CropEnum;
    assert e[2] == CropEntry("WHEAT", "Wheat", "wheat");
    assert |e[0].key| != 5 && |e[1].key| != 5;
    LookupFindsFirst(e, 2);
  }

  datatype Crop = Crop(
    farmerId: nat,
    cropType: string,
    cropIcon: string,
    cropDisplayName: string,
    area: Option<int>,
    growthDuration: Option<int>,
    isActive: bool)

  /** Schema validation: cropType is one of CROP_KEYS; area is at least 0
      and growthDuration at least 1 when given. */
  predicate SchemaValid(c: Crop)
  {
    c.cropType in CropKeys() &&
    (c.area.Some? ==> c.area.value >= 0) &&
    (c.growthDuration.Some? ==> c.growthDuration.value >= 1)
  }

  /** The pre-save hook: fills an empty icon or display name from the
      crop type, and leaves filled ones alone. */
  function PreSave(c: Crop): (r: Crop)
    ensures c.cropIcon != "" ==> r.cropIcon == c.cropIcon
    ensures c.cropDisplayName != "" ==> r.cropDisplayName == c.cropDisplayName
    ensures c.cropType != "" && c.cropIcon == "" ==> r.cropIcon == Icon(c.cropType)
    ensures c.cropType != "" && c.cropDisplayName == "" ==> r.cropDisplayName == DisplayName(c.cropType)
    ensures r.(cropIcon := c.cropIcon, cropDisplayName := c.cropDisplayName) == c
  {
    if c.cropType == "" then c
    else
      c.(cropIcon := if c.cropIcon == "" then Icon(c.cropType) else c.cropIcon,
         cropDisplayName := if c.cropDisplayName == "" then DisplayName(c.cropType) else c.cropDisplayName)
  }

  /** After the hook a typed crop has a non-empty icon and display name. */
  lemma PreSaveFills(c: Crop)
    requires c.cropType != ""
    ensures PreSave(c).cropIcon != "" && PreSave(c).cropDisplayName != ""
  {
  }
}
