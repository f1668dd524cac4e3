/** The persisted entities, the store that holds them, and the service-layer
    reads the controllers build on. */
module Entities {
  import opened Results
  import opened Tables

  /** A `LocalDateTime`; the model never looks inside one. */
  type Timestamp = int

  datatype Role = Role(id: Id, name: string)

  /** A user holds its role by value: roles are read-only reference data. */
  datatype User = User(
    id: Id,
    firstName: string,
    lastName: string,
    email: string,
    password: string,
    role: Option<Role>)

  /** A todo list refers to its owner and collaborators by user id; the owner
      is null until a controller sets it. */
  datatype ToDo = ToDo(
    id: Id,
    title: string,
    createdAt: Timestamp,
    owner: Option<Id>,
    collaborators: seq<Id>)

  datatype State = State(id: Id, name: string)

  /** A task refers to its todo list and workflow state by id. `priority` is
      the name of a `Priority` constant. */
  datatype Task = Task(
    id: Id,
    name: Option<string>,
    priority: Option<string>,
    todo: Id,
    state: Id)

  datatype Store = Store(
    users: Table<User>,
    roles: Table<Role>,
    todos: Table<ToDo>,
    tasks: Table<Task>,
    states: Table<State>)

  /** Every table is well formed and every row is stored under its own id. */
  ghost predicate ValidStore(s: Store) {
    && Valid(s.users) && (forall k :: k in s.users.rows ==> s.users.rows[k].id == k)
    && Valid(s.roles) && (forall k :: k in s.roles.rows ==> s.roles.rows[k].id == k)
    && Valid(s.todos) && (forall k :: k in s.todos.rows ==> s.todos.rows[k].id == k)
    && Valid(s.tasks) && (forall k :: k in s.tasks.rows ==> s.tasks.rows[k].id == k)
    && Valid(s.states) && (forall k :: k in s.states.rows ==> s.states.rows[k].id == k)
  }

  datatype Kind = UserKind | RoleKind | ToDoKind | TaskKind | StateKind

  /** The exceptions a handler can end in. */
  datatype Failure =
    | EntityNotFound(kind: Kind, id: Id)
    | StateNameNotFound(name: string)
    | NullReference

  /** A service `readById`: the row, or `EntityNotFound` when there is none. */
  function ReadById<T>(t: Table<T>, kind: Kind, id: Id): (r: Result<T, Failure>)
    ensures r.Ok? <==> id in t.rows
    ensures r.Ok? ==> r.value == t.rows[id]
    ensures r.Err? ==> r.error == EntityNotFound(kind, id)
  {
    if id in t.rows then Ok(t.rows[id]) else Err(EntityNotFound(kind, id))
  }

  /** A service `update`: saves the row under `id`, which must already exist. */
  function UpdateRow<T>(t: Table<T>, kind: Kind, id: Id, row: T): (r: Result<Table<T>, Failure>)
    ensures r.Ok? <==> id in t.rows
    ensures r.Ok? ==> r.value == Put(t, id, row)
    ensures r.Err? ==> r.error == EntityNotFound(kind, id)
  {
    if id in t.rows then Ok(Put(t, id, row)) else Err(EntityNotFound(kind, id))
  }

  /** A service `delete`: removes the row under `id`, which must exist. */
  function DeleteRow<T>(t: Table<T>, kind: Kind, id: Id): (r: Result<Table<T>, Failure>)
    ensures r.Ok? <==> id in t.rows
    ensures r.Ok? ==> r.value == Remove(t, id)
    ensures r.Err? ==> r.error == EntityNotFound(kind, id)
  {
    if id in t.rows then Ok(Remove(t, id)) else Err(EntityNotFound(kind, id))
  }

  /** The repository's `getByUserId` condition: the user owns the list or
      collaborates on it. */
  predicate Involves(t: ToDo, userId: Id) {
    t.owner == Some(userId) || userId in t.collaborators
  }

  /** `ToDoService.getByUserId`: the todo lists a user owns or collaborates
      on, in insertion order. */
  function TodosOfUser(s: Store, userId: Id): (r: seq<ToDo>)
    ensures forall t :: t in r ==> Involves(t, userId)
    ensures ValidStore(s) ==> forall t :: t in r ==> t.id in s.todos.rows && s.todos.rows[t.id] == t
    ensures Valid(s.todos) ==>
      forall k :: k in s.todos.rows && Involves(s.todos.rows[k], userId) ==> s.todos.rows[k] in r
  {
    AllStoredUnderKey(s.todos, (t: ToDo) => t.id);
    Filter(All(s.todos), (t: ToDo) => Involves(t, userId))
  }

  /** `TaskService.getByTodoId`: the tasks of one todo list, in insertion order. */
  function TasksOfTodo(s: Store, todoId: Id): (r: seq<Task>)
    ensures forall t :: t in r ==> t.todo == todoId
    ensures ValidStore(s) ==> forall t :: t in r ==> t.id in s.tasks.rows && s.tasks.rows[t.id] == t
    ensures Valid(s.tasks) ==>
      forall k :: k in s.tasks.rows && s.tasks.rows[k].todo == todoId ==> s.tasks.rows[k] in r
  {
    AllStoredUnderKey(s.tasks, (t: Task) => t.id);
    Filter(All(s.tasks), (t: Task) => t.todo == todoId)
  }

  /** The first state in `states` with exactly this name. */
  function FirstNamed(states: seq<State>, name: string): (r: Result<State, Failure>)
    ensures r.Ok? ==> r.value in states && r.value.name == name
    ensures r.Err? <==> forall st :: st in states ==> st.name != name
    ensures r.Err? ==> r.error == StateNameNotFound(name)
    decreases |states|
  {
    if |states| == 0 then Err(StateNameNotFound(name))
    else if states[0].name == name then Ok(states[0])
    else
      assert states == [states[0]] + states[1..];
      FirstNamed(states[1..], name)
  }

  /** `StateService.getByName`: the first state so named, in insertion order,
      or `StateNameNotFound` when no state has the name. */
  function StateByName(s: Store, name: string): (r: Result<State, Failure>)
    ensures r.Ok? ==> r.value.name == name
    ensures ValidStore(s) && r.Ok? ==> r.value.id in s.states.rows && s.states.rows[r.value.id] == r.value
    ensures ValidStore(s) ==>
      (r.Err? <==> forall k :: k in s.states.rows ==> s.states.rows[k].name != name)
  {
    AllStoredUnderKey(s.states, (st: State) => st.id);
    FirstNamed(All(s.states), name)
  }

  /** What a handler returns: a view name with the attributes it put in the
      model, or the target of a `redirect:`. */
  datatype Response<P> = Render(view: string, page: P) | Redirect(url: string)

  /** A handler's store after the request together with its response. */
  datatype Step<P> = Step(store: Store, response: Response<P>)
}
