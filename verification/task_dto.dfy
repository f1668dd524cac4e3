/** The task form shape: a plain five-field record whose two string fields
    may be null, with field-wise equality and a bean-validation check. */
module Dto {
  import opened Results
  import Text

  /** `id`, `todoId` and `stateId` are Java `long`s; `name` and `priority`
      are nullable `String`s. */
  datatype TaskDto = TaskDto(
    id: int,
    name: Option<string>,
    priority: Option<string>,
    todoId: int,
    stateId: int)

  /** The no-argument constructor: numeric fields zero, strings null. */
  function Blank(): (d: TaskDto)
    ensures d.id == 0 && d.todoId == 0 && d.stateId == 0
    ensures d.name == None && d.priority == None
    ensures !Valid(d)
  {
    TaskDto(0, None, None, 0, 0)
  }

  /** The field constraints: `name` is `@NotBlank` (non-null and not blank
      after trimming) and `priority` is `@NotNull`. The `@NotNull` marks on
      the primitive `todoId` and `stateId` can never fail. */
  predicate Valid(d: TaskDto): (r: bool)
    ensures r <==>
      && d.name.Some?
      && (exists i :: 0 <= i < |d.name.value| && !Text.IsTrimmed(d.name.value[i]))
      && d.priority.Some?
  {
    && d.name.Some? && (Text.NotBlankIffVisible(d.name.value); Text.NotBlank(d.name.value))
    && d.priority.Some?
  }

  /** `Objects.equals` on two nullable strings: both null, or both non-null
      with equal contents. */
  function NullSafeEquals(a: Option<string>, b: Option<string>): (r: bool)
    ensures r <==> a == b
  {
    match (a, b)
    case (None, None) => true
    case (Some(x), Some(y)) => x == y
    case _ => false
  }

  /** `equals` against another object that is a `TaskDto` or null: false for
      null, otherwise the three numeric fields equal and the two strings
      null-safe equal. */
  function Equals(a: TaskDto, o: Option<TaskDto>): (r: bool)
    ensures r <==> o == Some(a)
  {
    match o
    case None => false
    case Some(b) =>
      && a.id == b.id
      && a.todoId == b.todoId
      && a.stateId == b.stateId
      && NullSafeEquals(a.name, b.name)
      && NullSafeEquals(a.priority, b.priority)
  }

  /** The five-argument constructor keeps each argument in its own field:
      two DTOs built from arguments are equal exactly when the arguments are. */
  lemma ConstructorIsFieldwise(id: int, name: Option<string>, priority: Option<string>, todoId: int, stateId: int,
                               d: TaskDto)
    ensures Equals(TaskDto(id, name, priority, todoId, stateId), Some(d)) <==>
      && d.id == id && d.name == name && d.priority == priority
      && d.todoId == todoId && d.stateId == stateId
  {
  }

  /** `equals` is an equivalence relation on non-null DTOs. */
  lemma EqualsIsEquivalence(a: TaskDto, b: TaskDto, c: TaskDto)
    ensures Equals(a, Some(a))
    ensures Equals(a, Some(b)) <==> Equals(b, Some(a))
    ensures Equals(a, Some(b)) && Equals(b, Some(c)) ==> Equals(a, Some(c))
  {
  }

  /** Two freshly constructed DTOs are equal. */
  lemma BlanksAreEqual()
    ensures Equals(Blank(), Some(Blank()))
  {
  }

  /** A DTO whose name is empty or made only of characters `trim` strips
      fails validation, whatever its other fields hold. */
  lemma BlankNameIsInvalid(d: TaskDto)
    requires d.name.Some?
    requires forall i :: 0 <= i < |d.name.value| ==> Text.IsTrimmed(d.name.value[i])
    ensures !Valid(d)
  {
    Text.NotBlankIffVisible(d.name.value);
  }

  function SetId(d: TaskDto, id: int): (r: TaskDto)
    ensures r.id == id
    ensures Equals(r, Some(d)) <==> d.id == id
    ensures r.(id := d.id) == d
  {
    d.(id := id)
  }

  function SetName(d: TaskDto, name: Option<string>): (r: TaskDto)
    ensures r.name == name
    ensures Equals(r, Some(d)) <==> NullSafeEquals(d.name, name)
    ensures r.(name := d.name) == d
  {
    d.(name := name)
  }

  function SetPriority(d: TaskDto, priority: Option<string>): (r: TaskDto)
    ensures r.priority == priority
    ensures Equals(r, Some(d)) <==> NullSafeEquals(d.priority, priority)
    ensures r.(priority := d.priority) == d
  {
    d.(priority := priority)
  }

  function SetTodoId(d: TaskDto, todoId: int): (r: TaskDto)
    ensures r.todoId == todoId
    ensures Equals(r, Some(d)) <==> d.todoId == todoId
    ensures r.(todoId := d.todoId) == d
  {
    d.(todoId := todoId)
  }

  function SetStateId(d: TaskDto, stateId: int): (r: TaskDto)
    ensures r.stateId == stateId
    ensures Equals(r, Some(d)) <==> d.stateId == stateId
    ensures r.(stateId := d.stateId) == d
  {
    d.(stateId := stateId)
  }
}
