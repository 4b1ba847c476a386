/**
 * The user model (backend/users/models.py) and the checks and the update of
 * its serializers (backend/users/serializers.py).
 *
 * Lookups in storage ("a user with this id exists", "this username is
 * taken") are parameters: the set of keys present when the check runs.
 *
 * Note on the source: backend/users/serializers.py:126 imports
 * django.contrib.auth.models.User under the module-global name `User`, after
 * the app model of the same name was imported at line 2. The methods of the
 * first two serializers look `User` up when they run, so they reach the
 * authentication model: the id and inviter checks consult the accounts of
 * that model, and validate_rank fails because that model has no RANK_CHOICES.
 * The checks below model the evident intent (the app model's ids and rank
 * keys); ValidateRankAsWritten models what validate_rank does as written.
 */
module Users {
  import opened Wrappers

  /** The keys (first components) of RANK_CHOICES, in declaration order. */
  const RankKeys: seq<string> := [
    "bronze 1", "bronze 2", "bronze 3",
    "silver 1", "silver 2", "silver 3",
    "gold 1", "gold 2", "gold 3",
    "master", "elite", "the_legend"
  ]

  /** The stored fields of a user; `stars` is only ever copied, never computed on. */
  datatype UserRecord = UserRecord(
    id: int,
    username: string,
    level: int,
    stars: real,
    invitedBy: int,
    energy: int,
    rank: string)

  /** A user instance whose attributes the update serializer overwrites in place. */
  class User {
    var id: int
    var username: string
    var level: int
    var stars: real
    var invitedBy: int
    var energy: int
    var rank: string

    constructor (r: UserRecord)
      ensures Snapshot() == r
    {
      id, username, level, stars := r.id, r.username, r.level, r.stars;
      invitedBy, energy, rank := r.invitedBy, r.energy, r.rank;
    }

    /** The values of the instance's attributes. */
    function Snapshot(): UserRecord
      reads this
    {
      UserRecord(id, username, level, stars, invitedBy, energy, rank)
    }

    /** setattr(instance, attr, value) for one validated item. */
    method SetAttr(item: UserItem)
      modifies this
      ensures Snapshot() == With(old(Snapshot()), item)
    {
      match item
      case SetId(v) => id := v;
      case SetUsername(v) => username := v;
      case SetLevel(v) => level := v;
      case SetStars(v) => stars := v;
      case SetInvitedBy(v) => invitedBy := v;
      case SetEnergy(v) => energy := v;
      case SetRank(v) => rank := v;
    }
  }

  /** The attribute names the update serializer can write. `id` is among them:
      its Meta assigns read_only_fields twice and the second assignment, which
      names only last_update, is the one that holds. */
  datatype UserField = Id | Username | Level | Stars | InvitedBy | Energy | Rank

  /** One attribute value, whatever its type. */
  datatype UserValue = IntValue(i: int) | TextValue(s: string) | RealValue(x: real)

  /** One (attribute, value) pair of the validated data. */
  datatype UserItem =
    | SetId(id: int)
    | SetUsername(username: string)
    | SetLevel(level: int)
    | SetStars(stars: real)
    | SetInvitedBy(invitedBy: int)
    | SetEnergy(energy: int)
    | SetRank(rank: string)

  function Key(item: UserItem): UserField
  {
    match item
    case SetId(_) => Id
    case SetUsername(_) => Username
    case SetLevel(_) => Level
    case SetStars(_) => Stars
    case SetInvitedBy(_) => InvitedBy
    case SetEnergy(_) => Energy
    case SetRank(_) => Rank
  }

  function Value(item: UserItem): UserValue
  {
    match item
    case SetId(v) => IntValue(v)
    case SetUsername(v) => TextValue(v)
    case SetLevel(v) => IntValue(v)
    case SetStars(v) => RealValue(v)
    case SetInvitedBy(v) => IntValue(v)
    case SetEnergy(v) => IntValue(v)
    case SetRank(v) => TextValue(v)
  }

  /** getattr: the value a record holds for a field. */
  function Field(u: UserRecord, f: UserField): UserValue
  {
    match f
    case Id => IntValue(u.id)
    case Username => TextValue(u.username)
    case Level => IntValue(u.level)
    case Stars => RealValue(u.stars)
    case InvitedBy => IntValue(u.invitedBy)
    case Energy => IntValue(u.energy)
    case Rank => TextValue(u.rank)
  }

  /** The record after setattr of one item: that item's field takes its value,
      every other field keeps its own. */
  function With(u: UserRecord, item: UserItem): (w: UserRecord)
    ensures forall f :: Field(w, f) == if f == Key(item) then Value(item) else Field(u, f)
  {
    match item
    case SetId(v) => u.(id := v)
    case SetUsername(v) => u.(username := v)
    case SetLevel(v) => u.(level := v)
    case SetStars(v) => u.(stars := v)
    case SetInvitedBy(v) => u.(invitedBy := v)
    case SetEnergy(v) => u.(energy := v)
    case SetRank(v) => u.(rank := v)
  }

  /** The record after setattr of every item, in order. */
  function Apply(u: UserRecord, items: seq<UserItem>): UserRecord
  {
    if items == [] then u else With(Apply(u, items[..|items| - 1]), items[|items| - 1])
  }

  /** data.get(field): the value the validated data gives a field, if any
      (the last one, should a field occur twice). */
  function Get(items: seq<UserItem>, f: UserField): Option<UserValue>
  {
    if items == [] then None
    else if Key(items[|items| - 1]) == f then Some(Value(items[|items| - 1]))
    else Get(items[..|items| - 1], f)
  }

  /** The update sets exactly the fields named in the validated data: a named
      field takes the given value, every other field is unchanged. */
  lemma {:induction false} ApplyField(u: UserRecord, items: seq<UserItem>, f: UserField)
    ensures Field(Apply(u, items), f) == match Get(items, f) case Some(v) => v case None => Field(u, f)
  {
    if items != [] {
      ApplyField(u, items[..|items| - 1], f);
    }
  }

  /** UserUpdateSerializer.update: setattr for every validated item, in order;
      hands back the same instance. Saving it is persistence, outside the model. */
  method Update(instance: User, validatedData: seq<UserItem>) returns (updated: User)
    modifies instance
    ensures updated == instance
    ensures instance.Snapshot() == Apply(old(instance.Snapshot()), validatedData)
  {
    for k := 0 to |validatedData|
      invariant instance.Snapshot() == Apply(old(instance.Snapshot()), validatedData[..k])
    {
      assert validatedData[..k + 1][..k] == validatedData[..k];
      instance.SetAttr(validatedData[k]);
    }
    assert validatedData[..|validatedData|] == validatedData;
    updated := instance;
  }

  datatype UserError =
    | IdNotPositive
    | IdTaken(id: int)
    | LevelNotPositive
    | InviterNegative
    | InviterMissing(inviter: int)
    | EnergyNegative
    | UnknownRank(rank: string)
    | RankChoicesMissing

  /** UserSerializer.validate_id: a positive id that no stored user has. */
  function ValidateId(value: int, existingIds: set<int>): (r: Result<int, UserError>)
    ensures r.Ok? <==> 1 <= value && value !in existingIds
    ensures r.Ok? ==> r.value == value
    ensures value < 1 ==> r == Err(IdNotPositive)
    ensures 1 <= value && value in existingIds ==> r == Err(IdTaken(value))
  {
    if value < 1 then Err(IdNotPositive)
    else if value in existingIds then Err(IdTaken(value))
    else Ok(value)
  }

  /** UserSerializer.validate_level: a level of at least 1. */
  function ValidateLevel(value: int): (r: Result<int, UserError>)
    ensures r.Ok? <==> value >= 1
    ensures r.Ok? ==> r.value == value
    ensures r.Err? ==> r.error == LevelNotPositive
  {
    if value < 1 then Err(LevelNotPositive) else Ok(value)
  }

  /** UserSerializer.validate_invited_by: 0 means "invited by nobody" and is
      always accepted; any other inviter must be a non-negative id of a stored user. */
  function ValidateInvitedBy(value: int, existingIds: set<int>): (r: Result<int, UserError>)
    ensures r.Ok? <==> value == 0 || (value > 0 && value in existingIds)
    ensures r.Ok? ==> r.value == value
    ensures value < 0 ==> r == Err(InviterNegative)
    ensures value > 0 && value !in existingIds ==> r == Err(InviterMissing(value))
  {
    if value < 0 then Err(InviterNegative)
    else if value != 0 && value !in existingIds then Err(InviterMissing(value))
    else Ok(value)
  }

  /** UserSerializer.validate_energy: a non-negative energy. */
  function ValidateEnergy(value: int): (r: Result<int, UserError>)
    ensures r.Ok? <==> value >= 0
    ensures r.Ok? ==> r.value == value
    ensures r.Err? ==> r.error == EnergyNegative
  {
    if value < 0 then Err(EnergyNegative) else Ok(value)
  }

  /** UserSerializer.validate_rank as intended: one of the rank keys. */
  function ValidateRank(value: string): (r: Result<string, UserError>)
    ensures r.Ok? <==> value in RankKeys
    ensures r.Ok? ==> r.value == value
    ensures r.Err? ==> r.error == UnknownRank(value)
  {
    if value in RankKeys then Ok(value) else Err(UnknownRank(value))
  }

  /** UserSerializer.validate_rank as written: `User` names the authentication
      model by the time it runs, whose class has no RANK_CHOICES, so reading
      it raises before any value is compared. What it raises is an
      AttributeError, not a ValidationError: the framework does not turn it
      into a field error, and the request ends in a server error. The model
      renders that outcome as the error RankChoicesMissing. */
  function ValidateRankAsWritten(value: string): (r: Result<string, UserError>)
    ensures r == Err(RankChoicesMissing)
  {
    Err(RankChoicesMissing)
  }

  /** As written the rank check turns away even the valid key "gold 3", which
      the intended check accepts. */
  lemma RankCheckAsWrittenRejectsValidRank()
    ensures ValidateRankAsWritten("gold 3").Err?
    ensures ValidateRank("gold 3") == Ok("gold 3")
  {
  }

  /** UserUpdateSerializer.validate: when the data names a non-zero inviter,
      that inviter must be a stored user; the data is handed back unchanged. */
  function ValidateUpdate(data: seq<UserItem>, existingIds: set<int>): (r: Result<seq<UserItem>, UserError>)
    ensures r.Ok? <==> forall v :: Get(data, InvitedBy) == Some(IntValue(v)) ==> v == 0 || v in existingIds
    ensures r.Ok? ==> r.value == data
    ensures r.Err? ==> r.error.InviterMissing? && Get(data, InvitedBy) == Some(IntValue(r.error.inviter))
  {
    match Get(data, InvitedBy)
    case Some(IntValue(v)) =>
      if v != 0 && v !in existingIds then Err(InviterMissing(v)) else Ok(data)
    case _ => Ok(data)
  }

  /** Update keeps the inviter reference sound: a user whose inviter is nobody
      (0) or a stored user still has such an inviter after a validated update. */
  lemma InviterStaysKnown(u: UserRecord, data: seq<UserItem>, existingIds: set<int>)
    requires u.invitedBy == 0 || u.invitedBy in existingIds
    requires ValidateUpdate(data, existingIds).Ok?
    ensures var w := Apply(u, data); w.invitedBy == 0 || w.invitedBy in existingIds
  {
    ApplyField(u, data, InvitedBy);
  }

  /** The attributes AdminCreateSerializer validates. */
  datatype AdminAttrs = AdminAttrs(username: string, email: string, password: string, password2: string)

  datatype AdminError = PasswordsDiffer | UsernameTaken(username: string) | EmailTaken(email: string)

  /** AdminCreateSerializer.validate: the passwords must match, then the
      username must be free, then the email; the first failure is reported. */
  function ValidateAdmin(attrs: AdminAttrs, usernames: set<string>, emails: set<string>): (r: Result<AdminAttrs, AdminError>)
    ensures r == Err(PasswordsDiffer) <==> attrs.password != attrs.password2
    ensures r == Err(UsernameTaken(attrs.username)) <==>
              attrs.password == attrs.password2 && attrs.username in usernames
    ensures r == Err(EmailTaken(attrs.email)) <==>
              attrs.password == attrs.password2 && attrs.username !in usernames && attrs.email in emails
    ensures r.Ok? <==>
              attrs.password == attrs.password2 && attrs.username !in usernames && attrs.email !in emails
    ensures r.Ok? ==> r.value == attrs
  {
    if attrs.password != attrs.password2 then Err(PasswordsDiffer)
    else if attrs.username in usernames then Err(UsernameTaken(attrs.username))
    else if attrs.email in emails then Err(EmailTaken(attrs.email))
    else Ok(attrs)
  }
}
