/** The `/tasks` pages: create a task in a todo list, update it, delete it.
    Submitted tasks arrive as `TaskDto` forms and are validated by the DTO's
    own constraints. */
module TaskController {
  import opened Results
  import opened Tables
  import opened Entities
  import Dto
  import Urls

  /** The model attributes each rendered view receives. */
  datatype Page =
    | TaskForm(task: Dto.TaskDto, todo: ToDo, priorities: seq<string>)
    | EditTask(task: Dto.TaskDto, priorities: seq<string>, states: seq<State>)

  /** The names of the `Priority` constants, in declaration order. */
  const Priorities: seq<string> := ["LOW", "MEDIUM", "HIGH"]

  /** The state every new task starts in. */
  const InitialState: string := "New"

  /** Form to entity: copies id, name and priority, and refers to the
      resolved todo list and state. */
  function ToEntity(dto: Dto.TaskDto, todo: ToDo, state: State): (t: Task)
    ensures t.id == dto.id && t.name == dto.name && t.priority == dto.priority
    ensures t.todo == todo.id && t.state == state.id
  {
    Task(dto.id, dto.name, dto.priority, todo.id, state.id)
  }

  /** Entity to form: the references become bare ids. */
  function ToDto(t: Task): (d: Dto.TaskDto)
    ensures d.id == t.id && d.name == t.name && d.priority == t.priority
    ensures d.todoId == t.todo && d.stateId == t.state
  {
    Dto.TaskDto(t.id, t.name, t.priority, t.todo, t.state)
  }

  /** Entity to form and back, resolving the form's ids to the entity's own
      todo list and state, gives the entity back. */
  lemma EntityRoundTrip(t: Task, todo: ToDo, state: State)
    requires todo.id == t.todo && state.id == t.state
    ensures ToEntity(ToDto(t), todo, state) == t
  {
  }

  /** Form to entity and back loses nothing but the two ids, which become
      those of the resolved entities. */
  lemma DtoRoundTrip(d: Dto.TaskDto, todo: ToDo, state: State)
    ensures ToDto(ToEntity(d, todo, state)) == d.(todoId := todo.id, stateId := state.id)
    ensures todo.id == d.todoId && state.id == d.stateId ==> Dto.Equals(ToDto(ToEntity(d, todo, state)), Some(d))
  {
  }

  /** GET /tasks/create/todos/{todo_id}: a blank form, the todo list (which
      must exist) and the priorities. */
  function CreatePage(s: Store, todoId: Id): (r: Result<Response<Page>, Failure>)
    ensures r.Ok? <==> todoId in s.todos.rows
    ensures r.Err? ==> r.error == EntityNotFound(ToDoKind, todoId)
    ensures r.Ok? ==>
      r.value == Render("create-task", TaskForm(Dto.Blank(), s.todos.rows[todoId], Priorities))
  {
    var todo :- ReadById(s.todos, ToDoKind, todoId);
    Ok(Render("create-task", TaskForm(Dto.Blank(), todo, Priorities)))
  }

  /** POST /tasks/create/todos/{todo_id}. An invalid form is shown again with
      the path's todo list (which must exist) and the priorities, and nothing
      is written. A valid one is stored under a new id, in the todo list the
      FORM names and in the first state named "New"; the redirect names the
      PATH's todo list. */
  function Create(s: Store, todoId: Id, dto: Dto.TaskDto): (r: Result<Step<Page>, Failure>)
    ensures !Dto.Valid(dto) ==> (r.Ok? <==> todoId in s.todos.rows)
    ensures !Dto.Valid(dto) && r.Err? ==> r.error == EntityNotFound(ToDoKind, todoId)
    ensures !Dto.Valid(dto) && r.Ok? ==>
      && r.value.store == s
      && r.value.response == Render("create-task", TaskForm(dto, s.todos.rows[todoId], Priorities))
    ensures Dto.Valid(dto) ==>
      (r.Ok? <==> dto.todoId in s.todos.rows && StateByName(s, InitialState).Ok?)
    ensures Dto.Valid(dto) && r.Err? ==>
      r.error == if dto.todoId !in s.todos.rows then EntityNotFound(ToDoKind, dto.todoId)
                 else StateNameNotFound(InitialState)
    ensures Dto.Valid(dto) && r.Ok? ==>
      var s' := r.value.store;
      var id := FreshId(s.tasks);
      var state := StateByName(s, InitialState).value;
      && (ValidStore(s) ==> id !in s.tasks.rows && s'.tasks.next > id)
      && state.name == InitialState
      && Get(s'.tasks, id) == Some(ToEntity(dto, s.todos.rows[dto.todoId], state).(id := id))
      && (forall k :: k != id ==> Get(s'.tasks, k) == Get(s.tasks, k))
      && s'.(tasks := s.tasks) == s
      && r.value.response == Redirect(Urls.TodoTasks(todoId))
    ensures r.Ok? && ValidStore(s) ==> ValidStore(r.value.store)
  {
    if !Dto.Valid(dto) then
      var todo :- ReadById(s.todos, ToDoKind, todoId);
      Ok(Step(s, Render("create-task", TaskForm(dto, todo, Priorities))))
    else
      var todo :- ReadById(s.todos, ToDoKind, dto.todoId);
      var state :- StateByName(s, InitialState);
      var id := FreshId(s.tasks);
      var task := ToEntity(dto, todo, state).(id := id);
      Ok(Step(s.(tasks := Put(s.tasks, id, task)), Redirect(Urls.TodoTasks(todoId))))
  }

  /** A task created from a valid form is listed among the tasks of the todo
      list the form names, in a state named "New". */
  lemma CreatedTaskIsListedAsNew(s: Store, todoId: Id, dto: Dto.TaskDto)
    requires ValidStore(s)
    requires Dto.Valid(dto) && dto.todoId in s.todos.rows
    requires exists k :: k in s.states.rows && s.states.rows[k].name == InitialState
    ensures Create(s, todoId, dto).Ok?
    ensures var s' := Create(s, todoId, dto).value.store;
            exists t :: t in TasksOfTodo(s', dto.todoId) && t.name == dto.name
                        && t.state in s'.states.rows && s'.states.rows[t.state].name == InitialState
  {
    var s' := Create(s, todoId, dto).value.store;
    var id := FreshId(s.tasks);
    assert id in s'.tasks.rows;
    var t := s'.tasks.rows[id];
    assert t.todo == dto.todoId;
    assert t in TasksOfTodo(s', dto.todoId);
  }

  /** GET /tasks/{task_id}/update/todos/{todo_id}: the stored task as a form,
      the priorities and every state. */
  function UpdatePage(s: Store, taskId: Id, todoId: Id): (r: Result<Response<Page>, Failure>)
    ensures r.Ok? <==> taskId in s.tasks.rows
    ensures r.Err? ==> r.error == EntityNotFound(TaskKind, taskId)
    ensures r.Ok? ==>
      && r.value.Render? && r.value.view == "update-task" && r.value.page.EditTask?
      && r.value.page.task == ToDto(s.tasks.rows[taskId])
      && r.value.page.priorities == Priorities
      && r.value.page.states == All(s.states)
      && (Valid(s.states) ==> forall k :: k in s.states.rows ==> s.states.rows[k] in r.value.page.states)
      && (ValidStore(s) ==>
            forall x :: x in r.value.page.states ==> x.id in s.states.rows && s.states.rows[x.id] == x)
  {
    var task :- ReadById(s.tasks, TaskKind, taskId);
    AllStoredUnderKey(s.states, (x: State) => x.id);
    Ok(Render("update-task", EditTask(ToDto(task), Priorities, All(s.states))))
  }

  /** POST /tasks/{task_id}/update/todos/{todo_id}. An invalid form is shown
      again with the priorities and every state, and nothing is written. A
      valid one is saved under the FORM's id (which must exist) with the todo
      list and state the form names, both of which must exist and are looked
      up before anything is written. */
  function Update(s: Store, taskId: Id, todoId: Id, dto: Dto.TaskDto): (r: Result<Step<Page>, Failure>)
    ensures !Dto.Valid(dto) ==>
      && r.Ok? && r.value.store == s
      && r.value.response == Render("update-task", EditTask(dto, Priorities, All(s.states)))
    ensures Dto.Valid(dto) ==>
      (r.Ok? <==> dto.todoId in s.todos.rows && dto.stateId in s.states.rows && dto.id in s.tasks.rows)
    ensures Dto.Valid(dto) && r.Err? ==>
      r.error == if dto.todoId !in s.todos.rows then EntityNotFound(ToDoKind, dto.todoId)
                 else if dto.stateId !in s.states.rows then EntityNotFound(StateKind, dto.stateId)
                 else EntityNotFound(TaskKind, dto.id)
    ensures Dto.Valid(dto) && r.Ok? ==>
      var s' := r.value.store;
      && Get(s'.tasks, dto.id)
           == Some(ToEntity(dto, s.todos.rows[dto.todoId], s.states.rows[dto.stateId]))
      && (forall k :: k != dto.id ==> Get(s'.tasks, k) == Get(s.tasks, k))
      && s'.(tasks := s.tasks) == s
      && r.value.response == Redirect(Urls.TodoTasks(todoId))
    ensures Dto.Valid(dto) && r.Ok? && ValidStore(s) ==>
      && ValidStore(r.value.store)
      && ToDto(r.value.store.tasks.rows[dto.id]) == dto
  {
    if !Dto.Valid(dto) then
      Ok(Step(s, Render("update-task", EditTask(dto, Priorities, All(s.states)))))
    else
      var todo :- ReadById(s.todos, ToDoKind, dto.todoId);
      var state :- ReadById(s.states, StateKind, dto.stateId);
      var task := ToEntity(dto, todo, state);
      var tasks :- UpdateRow(s.tasks, TaskKind, task.id, task);
      Ok(Step(s.(tasks := tasks), Redirect(Urls.TodoTasks(todoId))))
  }

  /** GET /tasks/{task_id}/delete/todos/{todo_id}: removes the task, after
      which no todo list's tasks include it. */
  function Delete(s: Store, taskId: Id, todoId: Id): (r: Result<Step<Page>, Failure>)
    ensures r.Ok? <==> taskId in s.tasks.rows
    ensures r.Err? ==> r.error == EntityNotFound(TaskKind, taskId)
    ensures r.Ok? ==>
      var s' := r.value.store;
      && Get(s'.tasks, taskId) == None
      && (forall k :: k != taskId ==> Get(s'.tasks, k) == Get(s.tasks, k))
      && s'.(tasks := s.tasks) == s
      && r.value.response == Redirect(Urls.TodoTasks(todoId))
    ensures r.Ok? && ValidStore(s) ==>
      && ValidStore(r.value.store)
      && forall x, t :: t in TasksOfTodo(r.value.store, x) ==> t.id != taskId
  {
    var tasks :- DeleteRow(s.tasks, TaskKind, taskId);
    Ok(Step(s.(tasks := tasks), Redirect(Urls.TodoTasks(todoId))))
  }
}
