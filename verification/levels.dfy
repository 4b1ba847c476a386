/**
 * The level model (backend/levels/models.py) and the checks and the update of
 * its serializers (backend/levels/serializers.py). LevelSerializer and
 * LevelUpdateSerializer carry identical field checks and cross-field check
 * (lines 57-97 and 161-201); each is modelled once.
 */
module Levels {
  import opened Wrappers

  /** The stored fields of a level. */
  datatype LevelRecord = LevelRecord(
    level: int,
    clickPower: int,
    clickCapacity: int,
    clickRegeneration: int,
    experienceNeed: int)

  /** The attribute names; Number is the `level` attribute, the level's key. */
  datatype LevelField = Number | ClickPower | ClickCapacity | ClickRegeneration | ExperienceNeed

  /** One (attribute, value) pair of the validated data; every attribute of a
      level is an integer. */
  datatype LevelItem = LevelItem(field: LevelField, value: int)

  /** A level instance whose attributes the update serializer overwrites in place. */
  class Level {
    var level: int
    var clickPower: int
    var clickCapacity: int
    var clickRegeneration: int
    var experienceNeed: int

    constructor (r: LevelRecord)
      ensures Snapshot() == r
    {
      level, clickPower, clickCapacity := r.level, r.clickPower, r.clickCapacity;
      clickRegeneration, experienceNeed := r.clickRegeneration, r.experienceNeed;
    }

    /** The values of the instance's attributes. */
    function Snapshot(): LevelRecord
      reads this
    {
      LevelRecord(level, clickPower, clickCapacity, clickRegeneration, experienceNeed)
    }

    /** setattr(instance, attr, value) for one validated item. */
    method SetAttr(item: LevelItem)
      modifies this
      ensures Snapshot() == With(old(Snapshot()), item)
    {
      match item.field
      case Number => level := item.value;
      case ClickPower => clickPower := item.value;
      case ClickCapacity => clickCapacity := item.value;
      case ClickRegeneration => clickRegeneration := item.value;
      case ExperienceNeed => experienceNeed := item.value;
    }
  }

  /** getattr: the value a record holds for a field. */
  function Field(r: LevelRecord, f: LevelField): int
  {
    match f
    case Number => r.level
    case ClickPower => r.clickPower
    case ClickCapacity => r.clickCapacity
    case ClickRegeneration => r.clickRegeneration
    case ExperienceNeed => r.experienceNeed
  }

  /** The record after setattr of one item: that item's field takes its value,
      every other field keeps its own. */
  function With(r: LevelRecord, item: LevelItem): (w: LevelRecord)
    ensures forall f :: Field(w, f) == if f == item.field then item.value else Field(r, f)
  {
    match item.field
    case Number => r.(level := item.value)
    case ClickPower => r.(clickPower := item.value)
    case ClickCapacity => r.(clickCapacity := item.value)
    case ClickRegeneration => r.(clickRegeneration := item.value)
    case ExperienceNeed => r.(experienceNeed := item.value)
  }

  /** The record after setattr of every item, in order. */
  function Apply(r: LevelRecord, items: seq<LevelItem>): LevelRecord
  {
    if items == [] then r else With(Apply(r, items[..|items| - 1]), items[|items| - 1])
  }

  /** data.get(field): the value the validated data gives a field, if any
      (the last one, should a field occur twice). */
  function Get(items: seq<LevelItem>, f: LevelField): Option<int>
  {
    if items == [] then None
    else if items[|items| - 1].field == f then Some(items[|items| - 1].value)
    else Get(items[..|items| - 1], f)
  }

  /** The update sets exactly the fields named in the validated data: a named
      field takes the given value, every other field is unchanged. */
  lemma {:induction false} ApplyField(r: LevelRecord, items: seq<LevelItem>, f: LevelField)
    ensures Field(Apply(r, items), f) == match Get(items, f) case Some(v) => v case None => Field(r, f)
  {
    if items != [] {
      ApplyField(r, items[..|items| - 1], f);
    }
  }

  /** `level` is read-only in the update serializer, so its validated data
      never names it, and then the level number is kept. */
  lemma ReadOnlyLevelKept(r: LevelRecord, items: seq<LevelItem>)
    requires Get(items, Number) == None
    ensures Apply(r, items).level == r.level
  {
    ApplyField(r, items, Number);
  }

  /** LevelUpdateSerializer.update: setattr for every validated item, in order;
      hands back the same instance. Saving it is persistence, outside the model. */
  method Update(instance: Level, validatedData: seq<LevelItem>) returns (updated: Level)
    modifies instance
    ensures updated == instance
    ensures instance.Snapshot() == Apply(old(instance.Snapshot()), validatedData)
  {
    for k := 0 to |validatedData|
      invariant instance.Snapshot() == Apply(old(instance.Snapshot()), validatedData[..k])
    {
      assert validatedData[..k + 1][..k] == validatedData[..k];
      instance.SetAttr(validatedData[k]);
    }
    assert validatedData[..|validatedData|] == validatedData;
    updated := instance;
  }

  /** LevelUpdateSerializer.partial_update: the same as update. */
  method PartialUpdate(instance: Level, validatedData: seq<LevelItem>) returns (updated: Level)
    modifies instance
    ensures updated == instance
    ensures instance.Snapshot() == Apply(old(instance.Snapshot()), validatedData)
  {
    updated := Update(instance, validatedData);
  }

  datatype LevelError = NotPositive(field: LevelField) | LevelExists(level: int) | RegenerationAboveCapacity

  /** validate_click_power, validate_click_capacity, validate_click_regeneration
      and validate_experience_need: a value of at least 1, handed back unchanged. */
  function ValidatePositive(field: LevelField, value: int): (r: Result<int, LevelError>)
    ensures r.Ok? <==> value >= 1
    ensures r.Ok? ==> r.value == value
    ensures r.Err? ==> r.error == NotPositive(field)
  {
    if value < 1 then Err(NotPositive(field)) else Ok(value)
  }

  /** LevelSerializer.validate_level: a positive level number that no stored
      level has yet. */
  function ValidateLevel(value: int, existingLevels: set<int>): (r: Result<int, LevelError>)
    ensures r.Ok? <==> value >= 1 && value !in existingLevels
    ensures r.Ok? ==> r.value == value
    ensures value < 1 ==> r == Err(NotPositive(Number))
    ensures value >= 1 && value in existingLevels ==> r == Err(LevelExists(value))
  {
    if value < 1 then Err(NotPositive(Number))
    else if value in existingLevels then Err(LevelExists(value))
    else Ok(value)
  }

  /** validate: rejects exactly when the data gives both a regeneration and a
      capacity, both non-zero (Python truthiness), and the regeneration is the
      larger; otherwise hands the data back unchanged. */
  function Validate(data: seq<LevelItem>): (r: Result<seq<LevelItem>, LevelError>)
    ensures r.Err? <==>
              Get(data, ClickRegeneration).Some? && Get(data, ClickCapacity).Some? &&
              Get(data, ClickRegeneration).value != 0 && Get(data, ClickCapacity).value != 0 &&
              Get(data, ClickRegeneration).value > Get(data, ClickCapacity).value
    ensures r.Ok? ==> r.value == data
    ensures r.Err? ==> r.error == RegenerationAboveCapacity
  {
    match (Get(data, ClickRegeneration), Get(data, ClickCapacity))
    case (Some(regeneration), Some(capacity)) =>
      if regeneration != 0 && capacity != 0 && regeneration > capacity
      then Err(RegenerationAboveCapacity) else Ok(data)
    case _ => Ok(data)
  }

  /** The stored level's invariant the field checks and the cross-field check
      aim at: every attribute at least 1, regeneration at most capacity. */
  predicate WellFormed(r: LevelRecord)
  {
    r.level >= 1 && r.clickPower >= 1 && r.clickCapacity >= 1 &&
    r.clickRegeneration >= 1 && r.experienceNeed >= 1 &&
    r.clickRegeneration <= r.clickCapacity
  }

  /** Every item passed its field check (validate_* or the framework's min_value). */
  predicate FieldsPositive(data: seq<LevelItem>)
  {
    forall i :: 0 <= i < |data| ==> data[i].value >= 1
  }

  /** The cross-field check only sees the submitted data: a partial update
      that raises the regeneration above the stored capacity passes it, and
      the updated level breaks the invariant. */
  lemma PartialUpdateBreaksWellFormed()
    ensures var stored := LevelRecord(1, 1, 100, 1, 100);
            var data := [LevelItem(ClickRegeneration, 200)];
            WellFormed(stored) && FieldsPositive(data) && Validate(data).Ok? &&
            !WellFormed(Apply(stored, data))
  {
    var stored := LevelRecord(1, 1, 100, 1, 100);
    var data := [LevelItem(ClickRegeneration, 200)];
    assert data[..0] == [];
  }

  /** The value a field has once the data is applied to the stored level: the
      submitted one if there is one, the stored one otherwise. */
  function Merged(current: LevelRecord, data: seq<LevelItem>, f: LevelField): int
  {
    match Get(data, f) case Some(v) => v case None => Field(current, f)
  }

  /** The cross-field check made against the level as it will be after the
      update, so that a partial update cannot slip past it. */
  function ValidateAgainst(current: LevelRecord, data: seq<LevelItem>): (r: Result<seq<LevelItem>, LevelError>)
    ensures r.Ok? <==> Merged(current, data, ClickRegeneration) <= Merged(current, data, ClickCapacity)
    ensures r.Ok? ==> r.value == data
  {
    var after := Apply(current, data);
    ApplyField(current, data, ClickRegeneration);
    ApplyField(current, data, ClickCapacity);
    if after.clickRegeneration > after.clickCapacity then Err(RegenerationAboveCapacity) else Ok(data)
  }

  /** With the corrected check an update keeps a well-formed level well-formed. */
  lemma ValidateAgainstKeepsWellFormed(current: LevelRecord, data: seq<LevelItem>)
    requires WellFormed(current) && FieldsPositive(data)
    requires ValidateAgainst(current, data).Ok?
    ensures WellFormed(Apply(current, data))
  {
    forall f | true
      ensures Field(Apply(current, data), f) >= 1
    {
      ApplyField(current, data, f);
      GetPositive(data, f);
    }
    assert Field(Apply(current, data), Number) >= 1;
    assert Field(Apply(current, data), ClickPower) >= 1;
    assert Field(Apply(current, data), ExperienceNeed) >= 1;
    ApplyField(current, data, ClickRegeneration);
    ApplyField(current, data, ClickCapacity);
  }

  lemma {:induction false} GetPositive(data: seq<LevelItem>, f: LevelField)
    requires FieldsPositive(data)
    ensures Get(data, f).Some? ==> Get(data, f).value >= 1
  {
    if data != [] && data[|data| - 1].field != f {
      GetPositive(data[..|data| - 1], f);
    }
  }

  /** When the data gives both positive values, the corrected check and the
      one as written agree. */
  lemma ValidateAgainstAgrees(current: LevelRecord, data: seq<LevelItem>)
    requires Get(data, ClickRegeneration).Some? && Get(data, ClickCapacity).Some?
    requires Get(data, ClickRegeneration).value >= 1 && Get(data, ClickCapacity).value >= 1
    ensures ValidateAgainst(current, data).Ok? <==> Validate(data).Ok?
  {
  }
}
