/**
 * The task model (backend/tasks/models.py) and the checks and the update of
 * its serializers (backend/tasks/serializers.py).
 */
module Tasks {
  import opened Wrappers

  /** The stored fields of a task; description and link may be null. */
  datatype TaskRecord = TaskRecord(
    id: int,
    title: string,
    description: Option<string>,
    link: Option<string>,
    reward: int)

  /** The attribute names. */
  datatype TaskField = Id | Title | Description | Link | Reward

  /** One attribute value, whatever its type. */
  datatype TaskValue = IntValue(i: int) | TextValue(s: string) | NullableText(t: Option<string>)

  /** One (attribute, value) pair of the validated data. */
  datatype TaskItem =
    | SetId(id: int)
    | SetTitle(title: string)
    | SetDescription(description: Option<string>)
    | SetLink(link: Option<string>)
    | SetReward(reward: int)

  /** A task instance whose attributes the update serializer overwrites in place. */
  class Task {
    var id: int
    var title: string
    var description: Option<string>
    var link: Option<string>
    var reward: int

    constructor (r: TaskRecord)
      ensures Snapshot() == r
    {
      id, title, description, link, reward := r.id, r.title, r.description, r.link, r.reward;
    }

    /** The values of the instance's attributes. */
    function Snapshot(): TaskRecord
      reads this
    {
      TaskRecord(id, title, description, link, reward)
    }

    /** setattr(instance, attr, value) for one validated item. */
    method SetAttr(item: TaskItem)
      modifies this
      ensures Snapshot() == With(old(Snapshot()), item)
    {
      match item
      case SetId(v) => id := v;
      case SetTitle(v) => title := v;
      case SetDescription(v) => description := v;
      case SetLink(v) => link := v;
      case SetReward(v) => reward := v;
    }
  }

  function Key(item: TaskItem): TaskField
  {
    match item
    case SetId(_) => Id
    case SetTitle(_) => Title
    case SetDescription(_) => Description
    case SetLink(_) => Link
    case SetReward(_) => Reward
  }

  function Value(item: TaskItem): TaskValue
  {
    match item
    case SetId(v) => IntValue(v)
    case SetTitle(v) => TextValue(v)
    case SetDescription(v) => NullableText(v)
    case SetLink(v) => NullableText(v)
    case SetReward(v) => IntValue(v)
  }

  /** getattr: the value a record holds for a field. */
  function Field(t: TaskRecord, f: TaskField): TaskValue
  {
    match f
    case Id => IntValue(t.id)
    case Title => TextValue(t.title)
    case Description => NullableText(t.description)
    case Link => NullableText(t.link)
    case Reward => IntValue(t.reward)
  }

  /** The record after setattr of one item: that item's field takes its value,
      every other field keeps its own. */
  function With(t: TaskRecord, item: TaskItem): (w: TaskRecord)
    ensures forall f :: Field(w, f) == if f == Key(item) then Value(item) else Field(t, f)
  {
    match item
    case SetId(v) => t.(id := v)
    case SetTitle(v) => t.(title := v)
    case SetDescription(v) => t.(description := v)
    case SetLink(v) => t.(link := v)
    case SetReward(v) => t.(reward := v)
  }

  /** The record after setattr of every item, in order. */
  function Apply(t: TaskRecord, items: seq<TaskItem>): TaskRecord
  {
    if items == [] then t else With(Apply(t, items[..|items| - 1]), items[|items| - 1])
  }

  /** The value the validated data gives a field, if any (the last one,
      should a field occur twice). */
  function Get(items: seq<TaskItem>, f: TaskField): Option<TaskValue>
  {
    if items == [] then None
    else if Key(items[|items| - 1]) == f then Some(Value(items[|items| - 1]))
    else Get(items[..|items| - 1], f)
  }

  /** The update sets exactly the fields named in the validated data: a named
      field takes the given value, every other field is unchanged. */
  lemma {:induction false} ApplyField(t: TaskRecord, items: seq<TaskItem>, f: TaskField)
    ensures Field(Apply(t, items), f) == match Get(items, f) case Some(v) => v case None => Field(t, f)
  {
    if items != [] {
      ApplyField(t, items[..|items| - 1], f);
    }
  }

  /** `id` is read-only in the update serializer, so its validated data never
      names it, and then the task keeps its id. */
  lemma ReadOnlyIdKept(t: TaskRecord, items: seq<TaskItem>)
    requires Get(items, Id) == None
    ensures Apply(t, items).id == t.id
  {
    ApplyField(t, items, Id);
  }

  /** TaskUpdateSerializer.update: setattr for every validated item, in order;
      hands back the same instance. Saving it is persistence, outside the model. */
  method Update(instance: Task, validatedData: seq<TaskItem>) returns (updated: Task)
    modifies instance
    ensures updated == instance
    ensures instance.Snapshot() == Apply(old(instance.Snapshot()), validatedData)
  {
    for k := 0 to |validatedData|
      invariant instance.Snapshot() == Apply(old(instance.Snapshot()), validatedData[..k])
    {
      assert validatedData[..k + 1][..k] == validatedData[..k];
      instance.SetAttr(validatedData[k]);
    }
    assert validatedData[..|validatedData|] == validatedData;
    updated := instance;
  }

  /** The characters Python's str.strip() removes when called without
      arguments: those for which str.isspace() holds. */
  const Whitespace: string :=
    "\t\n\U{B}\U{C}\r\U{1C}\U{1D}\U{1E}\U{1F} \U{85}\U{A0}\U{1680}" +
    "\U{2000}\U{2001}\U{2002}\U{2003}\U{2004}\U{2005}\U{2006}\U{2007}\U{2008}\U{2009}\U{200A}" +
    "\U{2028}\U{2029}\U{202F}\U{205F}\U{3000}"

  predicate IsSpace(c: char)
  {
    c in Whitespace
  }

  /** str.lstrip(): drops the leading whitespace. */
  function TrimStart(s: string): (t: string)
    ensures |t| <= |s| && t == s[|s| - |t|..]
    ensures t == [] || !IsSpace(t[0])
    ensures forall i :: 0 <= i < |s| - |t| ==> IsSpace(s[i])
  {
    if s != [] && IsSpace(s[0]) then TrimStart(s[1..]) else s
  }

  /** str.rstrip(): drops the trailing whitespace. */
  function TrimEnd(s: string): (t: string)
    ensures |t| <= |s| && t == s[..|t|]
    ensures t == [] || !IsSpace(t[|t| - 1])
    ensures forall i :: |t| <= i < |s| ==> IsSpace(s[i])
  {
    if s != [] && IsSpace(s[|s| - 1]) then TrimEnd(s[..|s| - 1]) else s
  }

  /** t is the run of s starting at offset a, and everything of s before
      and after that run is whitespace. */
  predicate StrippedAt(s: string, a: nat, t: string)
  {
    a + |t| <= |s| && t == s[a..a + |t|] &&
    (forall i :: 0 <= i < a ==> IsSpace(s[i])) &&
    (forall i :: a + |t| <= i < |s| ==> IsSpace(s[i]))
  }

  /** str.strip(): the run of s left once the leading and the trailing
      whitespace are dropped; it neither starts nor ends with whitespace. */
  function Strip(s: string): (t: string)
    ensures t == [] || (!IsSpace(t[0]) && !IsSpace(t[|t| - 1]))
    ensures exists a :: StrippedAt(s, a, t)
  {
    var rest := TrimStart(s);
    var t := TrimEnd(rest);
    TrimsCompose(s, rest, t);
    t
  }

  /** Trimming the head and then the tail leaves a run of s between two
      whitespace-only stretches. */
  lemma TrimsCompose(s: string, rest: string, t: string)
    requires |rest| <= |s| && rest == s[|s| - |rest|..]
    requires forall i :: 0 <= i < |s| - |rest| ==> IsSpace(s[i])
    requires |t| <= |rest| && t == rest[..|t|]
    requires forall i :: |t| <= i < |rest| ==> IsSpace(rest[i])
    ensures StrippedAt(s, |s| - |rest|, t)
  {
    var a := |s| - |rest|;
    assert s[a..a + |t|] == s[a..][..|t|];
    forall i | a + |t| <= i < |s|
      ensures IsSpace(s[i])
    {
      assert s[i] == rest[i - a];
    }
  }

  /** A string strips to nothing exactly when every character is whitespace. */
  lemma StripEmptyIffBlank(s: string)
    ensures Strip(s) == [] <==> forall i :: 0 <= i < |s| ==> IsSpace(s[i])
  {
    if Strip(s) == [] {
      assert TrimStart(s) == [];
    }
  }

  datatype TaskError = BlankTitle | NegativeReward

  /** TaskSerializer.validate_title: a title with at least one character that
      is not whitespace; it is handed back as given, not stripped. */
  function ValidateTitle(value: string): (r: Result<string, TaskError>)
    ensures r.Ok? <==> exists i :: 0 <= i < |value| && !IsSpace(value[i])
    ensures r.Ok? ==> r.value == value
    ensures r.Err? ==> r.error == BlankTitle
  {
    StripEmptyIffBlank(value);
    if Strip(value) == [] then Err(BlankTitle) else Ok(value)
  }

  /** TaskSerializer.validate_reward: a non-negative reward, handed back unchanged. */
  function ValidateReward(value: int): (r: Result<int, TaskError>)
    ensures r.Ok? <==> value >= 0
    ensures r.Ok? ==> r.value == value
    ensures r.Err? ==> r.error == NegativeReward
  {
    if value < 0 then Err(NegativeReward) else Ok(value)
  }
}
