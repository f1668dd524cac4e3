/** The `/todos` pages: create a list for an owner, show a list with its
    tasks, update, delete, list a user's lists, and add or remove
    collaborators. Each handler maps the store and the request to the new
    store and a view or redirect, or to the exception it ends in. */
module ToDoController {
  import opened Results
  import opened Tables
  import opened Entities
  import Urls

  /** The model attributes each rendered view receives. */
  datatype Page =
    | NewTodo(ownerId: Id)
    | TodoForm(todo: ToDo)
    | TasksPage(todo: ToDo, tasks: seq<Task>, users: seq<User>)
    | UserTodosPage(todos: seq<ToDo>, user: User)

  /** GET /todos/create/users/{owner_id}: a blank form and the owner id, with
      no lookup of the owner. */
  function CreatePage(ownerId: Id): (r: Response<Page>)
    ensures r.Render? && r.view == "create-todo"
    ensures r.page.NewTodo? && r.page.ownerId == ownerId
  {
    Render("create-todo", NewTodo(ownerId))
  }

  /** POST /todos/create/users/{owner_id}. A rejected form is shown again and
      nothing is written. Otherwise the owner must exist, and the submitted
      list is stored under a new id, stamped with `now` (the clock reading)
      and owned by `ownerId`; its title and collaborators are kept as
      submitted. */
  function Create(s: Store, ownerId: Id, todo: ToDo, hasErrors: bool, now: Timestamp)
    : (r: Result<Step<Page>, Failure>)
    ensures hasErrors ==>
      r.Ok? && r.value.store == s && r.value.response == Render("create-todo", TodoForm(todo))
    ensures !hasErrors ==> (r.Ok? <==> ownerId in s.users.rows)
    ensures r.Err? ==> r.error == EntityNotFound(UserKind, ownerId)
    ensures !hasErrors && r.Ok? ==>
      var s' := r.value.store;
      var id := FreshId(s.todos);
      && (ValidStore(s) ==> id !in s.todos.rows && s'.todos.next > id)
      && Get(s'.todos, id) == Some(todo.(id := id, createdAt := now, owner := Some(ownerId)))
      && (forall k :: k != id ==> Get(s'.todos, k) == Get(s.todos, k))
      && s'.(todos := s.todos) == s
      && r.value.response == Redirect(Urls.UserTodos(ownerId))
    ensures r.Ok? && ValidStore(s) ==> ValidStore(r.value.store)
  {
    if hasErrors then Ok(Step(s, Render("create-todo", TodoForm(todo))))
    else
      var _ :- ReadById(s.users, UserKind, ownerId);
      var id := FreshId(s.todos);
      var stored := todo.(id := id, createdAt := now, owner := Some(ownerId));
      Ok(Step(s.(todos := Put(s.todos, id, stored)), Redirect(Urls.UserTodos(ownerId))))
  }

  /** After a successful create, the owner's lists include one with the
      submitted title. */
  lemma CreatedTodoIsListedForOwner(s: Store, ownerId: Id, todo: ToDo, now: Timestamp)
    requires ValidStore(s)
    requires Create(s, ownerId, todo, false, now).Ok?
    ensures exists t :: t in TodosOfUser(Create(s, ownerId, todo, false, now).value.store, ownerId)
                        && t.title == todo.title && t.owner == Some(ownerId)
  {
    var s' := Create(s, ownerId, todo, false, now).value.store;
    var id := FreshId(s.todos);
    assert id in s'.todos.rows;
    var t := s'.todos.rows[id];
    assert Involves(t, ownerId);
    assert t in TodosOfUser(s', ownerId);
  }

  /** GET /todos/{id}/tasks: the list, its tasks, and every user except the
      owner. The owner's id is read inside the filter, once per user, so a
      list without an owner fails only when there is some user to filter. */
  function Read(s: Store, id: Id): (r: Result<Response<Page>, Failure>)
    ensures id !in s.todos.rows ==> r == Err(EntityNotFound(ToDoKind, id))
    ensures id in s.todos.rows ==>
      (r.Err? <==> s.todos.rows[id].owner.None? && |All(s.users)| > 0)
    ensures id in s.todos.rows && r.Err? ==> r.error == NullReference
    ensures r.Ok? ==>
      && r.value.Render? && r.value.view == "todo-tasks" && r.value.page.TasksPage?
      && r.value.page.todo == s.todos.rows[id]
      && r.value.page.tasks == TasksOfTodo(s, id)
      && r.value.page.users == Filter(All(s.users), (u: User) => Some(u.id) != s.todos.rows[id].owner)
      && (forall u :: u in r.value.page.users ==> Some(u.id) != s.todos.rows[id].owner)
    ensures r.Ok? && ValidStore(s) ==>
      && (forall u :: u in r.value.page.users ==> u.id in s.users.rows && s.users.rows[u.id] == u)
      && (forall k :: k in s.users.rows && Some(k) != s.todos.rows[id].owner ==>
            s.users.rows[k] in r.value.page.users)
  {
    var todo :- ReadById(s.todos, ToDoKind, id);
    var tasks := TasksOfTodo(s, id);
    var all := All(s.users);
    if todo.owner.None? && |all| > 0 then Err(NullReference)
    else
      AllStoredUnderKey(s.users, (u: User) => u.id);
      var users := Filter(all, (u: User) => Some(u.id) != todo.owner);
      Ok(Render("todo-tasks", TasksPage(todo, tasks, users)))
  }

  /** GET /todos/{todo_id}/update/users/{owner_id}: the stored list as the form. */
  function UpdatePage(s: Store, todoId: Id, ownerId: Id): (r: Result<Response<Page>, Failure>)
    ensures r.Ok? <==> todoId in s.todos.rows
    ensures r.Err? ==> r.error == EntityNotFound(ToDoKind, todoId)
    ensures r.Ok? ==> r.value == Render("update-todo", TodoForm(s.todos.rows[todoId]))
  {
    var todo :- ReadById(s.todos, ToDoKind, todoId);
    Ok(Render("update-todo", TodoForm(todo)))
  }

  /** POST /todos/{todo_id}/update/users/{owner_id}. A rejected form is shown
      again with its owner set to the user `ownerId` (which must exist), and
      nothing is written. Otherwise the submitted list is saved under its own
      id, which must exist, with the owner and collaborators of the list
      `todoId` whatever the form carried. */
  function Update(s: Store, todoId: Id, ownerId: Id, todo: ToDo, hasErrors: bool)
    : (r: Result<Step<Page>, Failure>)
    ensures hasErrors ==> (r.Ok? <==> ownerId in s.users.rows)
    ensures hasErrors && r.Err? ==> r.error == EntityNotFound(UserKind, ownerId)
    ensures hasErrors && r.Ok? ==>
      && r.value.store == s
      && r.value.response == Render("update-todo", TodoForm(todo.(owner := Some(ownerId))))
    ensures !hasErrors ==> (r.Ok? <==> todoId in s.todos.rows && todo.id in s.todos.rows)
    ensures !hasErrors && r.Err? ==>
      r.error == EntityNotFound(ToDoKind, if todoId in s.todos.rows then todo.id else todoId)
    ensures !hasErrors && r.Ok? ==>
      var prior := s.todos.rows[todoId];
      var s' := r.value.store;
      && Get(s'.todos, todo.id) == Some(todo.(owner := prior.owner, collaborators := prior.collaborators))
      && (forall k :: k != todo.id ==> Get(s'.todos, k) == Get(s.todos, k))
      && s'.(todos := s.todos) == s
      && r.value.response == Redirect(Urls.UserTodos(ownerId))
    ensures r.Ok? && ValidStore(s) ==> ValidStore(r.value.store)
  {
    if hasErrors then
      var _ :- ReadById(s.users, UserKind, ownerId);
      Ok(Step(s, Render("update-todo", TodoForm(todo.(owner := Some(ownerId))))))
    else
      var prior :- ReadById(s.todos, ToDoKind, todoId);
      var saved := todo.(owner := prior.owner, collaborators := prior.collaborators);
      var todos :- UpdateRow(s.todos, ToDoKind, saved.id, saved);
      Ok(Step(s.(todos := todos), Redirect(Urls.UserTodos(ownerId))))
  }

  /** GET /todos/{todo_id}/delete/users/{owner_id}: removes the list, after
      which no user's lists include it. */
  function Delete(s: Store, todoId: Id, ownerId: Id): (r: Result<Step<Page>, Failure>)
    ensures r.Ok? <==> todoId in s.todos.rows
    ensures r.Err? ==> r.error == EntityNotFound(ToDoKind, todoId)
    ensures r.Ok? ==>
      var s' := r.value.store;
      && Get(s'.todos, todoId) == None
      && (forall k :: k != todoId ==> Get(s'.todos, k) == Get(s.todos, k))
      && s'.(todos := s.todos) == s
      && r.value.response == Redirect(Urls.UserTodos(ownerId))
    ensures r.Ok? && ValidStore(s) ==>
      && ValidStore(r.value.store)
      && forall u, t :: t in TodosOfUser(r.value.store, u) ==> t.id != todoId
  {
    var todos :- DeleteRow(s.todos, ToDoKind, todoId);
    Ok(Step(s.(todos := todos), Redirect(Urls.UserTodos(ownerId))))
  }

  /** GET /todos/all/users/{user_id}: the lists the user owns or collaborates
      on, and the user, who must exist. */
  function GetAll(s: Store, userId: Id): (r: Result<Response<Page>, Failure>)
    ensures r.Ok? <==> userId in s.users.rows
    ensures r.Err? ==> r.error == EntityNotFound(UserKind, userId)
    ensures r.Ok? ==>
      && r.value.Render? && r.value.view == "todos-user" && r.value.page.UserTodosPage?
      && r.value.page.todos == TodosOfUser(s, userId)
      && r.value.page.user == s.users.rows[userId]
  {
    var todos := TodosOfUser(s, userId);
    var user :- ReadById(s.users, UserKind, userId);
    Ok(Render("todos-user", UserTodosPage(todos, user)))
  }

  /** The index of the first occurrence of `x`. */
  function FirstIndex(xs: seq<Id>, x: Id): (i: nat)
    requires x in xs
    ensures i < |xs| && xs[i] == x && x !in xs[..i]
    decreases |xs|
  {
    if xs[0] == x then 0
    else
      var j := FirstIndex(xs[1..], x);
      assert xs[..j + 1] == [xs[0]] + xs[1..][..j];
      j + 1
  }

  /** `List.remove(Object)`: drops the first occurrence of `x`, if there is one. */
  function RemoveFirst(xs: seq<Id>, x: Id): (r: seq<Id>)
    ensures x !in xs ==> r == xs
    ensures x in xs ==> r == xs[..FirstIndex(xs, x)] + xs[FirstIndex(xs, x) + 1..]
    decreases |xs|
  {
    if |xs| == 0 then []
    else if xs[0] == x then xs[1..]
    else
      var rest := RemoveFirst(xs[1..], x);
      assert x in xs ==> x in xs[1..];
      assert x in xs ==>
        xs[..FirstIndex(xs, x)] + xs[FirstIndex(xs, x) + 1..]
          == [xs[0]] + (xs[1..][..FirstIndex(xs[1..], x)] + xs[1..][FirstIndex(xs[1..], x) + 1..]);
      [xs[0]] + rest
  }

  /** Removing takes away exactly one occurrence of `x` when there is one. */
  lemma {:induction false} RemoveFirstCount(xs: seq<Id>, x: Id)
    ensures multiset(RemoveFirst(xs, x)) == multiset(xs) - multiset{x}
    decreases |xs|
  {
    if |xs| > 0 {
      assert xs == [xs[0]] + xs[1..];
      if xs[0] != x {
        RemoveFirstCount(xs[1..], x);
      }
    }
  }

  /** Adding a non-collaborator and removing them again restores the list. */
  lemma AppendThenRemoveFirst(xs: seq<Id>, x: Id)
    requires x !in xs
    ensures RemoveFirst(xs + [x], x) == xs
  {
    assert x in xs + [x];
    var i := FirstIndex(xs + [x], x);
    assert (xs + [x])[i] == x;
    assert i == |xs|;
  }

  /** A repeated element outlives one removal. */
  lemma RepeatedAppendSurvivesRemove(xs: seq<Id>, x: Id)
    requires x in xs
    ensures x in RemoveFirst(xs + [x], x)
  {
    RemoveFirstCount(xs + [x], x);
    assert multiset(xs + [x])[x] == multiset(xs)[x] + 1;
    assert multiset(RemoveFirst(xs + [x], x))[x] >= 1;
  }

  /** GET /todos/{id}/add?user_id=: appends the user to the list's
      collaborators, with no check for the owner or a repeat, and saves the
      list. The list and the user must exist. */
  function AddCollaborator(s: Store, id: Id, userId: Id): (r: Result<Step<Page>, Failure>)
    ensures r.Ok? ==> id in s.todos.rows && userId in s.users.rows
    ensures ValidStore(s) ==> (r.Ok? <==> id in s.todos.rows && userId in s.users.rows)
    ensures r.Err? ==>
      r.error == if id !in s.todos.rows then EntityNotFound(ToDoKind, id)
                 else if userId !in s.users.rows then EntityNotFound(UserKind, userId)
                 else EntityNotFound(ToDoKind, s.todos.rows[id].id)
    ensures r.Ok? ==>
      var prior := s.todos.rows[id];
      var s' := r.value.store;
      && Get(s'.todos, prior.id) == Some(prior.(collaborators := prior.collaborators + [userId]))
      && (forall k :: k != prior.id ==> Get(s'.todos, k) == Get(s.todos, k))
      && s'.(todos := s.todos) == s
      && r.value.response == Redirect(Urls.TodoTasks(id))
    ensures r.Ok? && ValidStore(s) ==> ValidStore(r.value.store)
  {
    var todo :- ReadById(s.todos, ToDoKind, id);
    var _ :- ReadById(s.users, UserKind, userId);
    var updated := todo.(collaborators := todo.collaborators + [userId]);
    var todos :- UpdateRow(s.todos, ToDoKind, updated.id, updated);
    Ok(Step(s.(todos := todos), Redirect(Urls.TodoTasks(id))))
  }

  /** GET /todos/{id}/remove?user_id=: drops the first occurrence of the user
      from the list's collaborators (nothing if absent) and saves the list.
      The list and the user must exist. */
  function RemoveCollaborator(s: Store, id: Id, userId: Id): (r: Result<Step<Page>, Failure>)
    ensures r.Ok? ==> id in s.todos.rows && userId in s.users.rows
    ensures ValidStore(s) ==> (r.Ok? <==> id in s.todos.rows && userId in s.users.rows)
    ensures r.Err? ==>
      r.error == if id !in s.todos.rows then EntityNotFound(ToDoKind, id)
                 else if userId !in s.users.rows then EntityNotFound(UserKind, userId)
                 else EntityNotFound(ToDoKind, s.todos.rows[id].id)
    ensures r.Ok? ==>
      var prior := s.todos.rows[id];
      var s' := r.value.store;
      && Get(s'.todos, prior.id) == Some(prior.(collaborators := RemoveFirst(prior.collaborators, userId)))
      && (forall k :: k != prior.id ==> Get(s'.todos, k) == Get(s.todos, k))
      && s'.(todos := s.todos) == s
      && r.value.response == Redirect(Urls.TodoTasks(id))
    ensures r.Ok? && ValidStore(s) ==> ValidStore(r.value.store)
  {
    var todo :- ReadById(s.todos, ToDoKind, id);
    var _ :- ReadById(s.users, UserKind, userId);
    var updated := todo.(collaborators := RemoveFirst(todo.collaborators, userId));
    var todos :- UpdateRow(s.todos, ToDoKind, updated.id, updated);
    Ok(Step(s.(todos := todos), Redirect(Urls.TodoTasks(id))))
  }

  /** Adding a user who is not yet a collaborator and then removing them
      leaves the store exactly as it was. */
  lemma AddThenRemoveRestoresStore(s: Store, id: Id, userId: Id)
    requires ValidStore(s)
    requires id in s.todos.rows && userId in s.users.rows
    requires userId !in s.todos.rows[id].collaborators
    ensures AddCollaborator(s, id, userId).Ok?
    ensures RemoveCollaborator(AddCollaborator(s, id, userId).value.store, id, userId)
            == Ok(Step(s, Redirect(Urls.TodoTasks(id))))
  {
    var prior := s.todos.rows[id];
    var s1 := AddCollaborator(s, id, userId).value.store;
    assert s1.todos.rows[id] == prior.(collaborators := prior.collaborators + [userId]);
    AppendThenRemoveFirst(prior.collaborators, userId);
    var s2 := RemoveCollaborator(s1, id, userId).value.store;
    assert s2.todos.rows == s.todos.rows;
    assert s2.todos.order == s.todos.order;
  }

  /** The collaborator list is a list, not a set: adding a user who already
      collaborates and then removing them once leaves them a collaborator. */
  lemma RepeatedAddSurvivesOneRemove(s: Store, id: Id, userId: Id)
    requires ValidStore(s)
    requires id in s.todos.rows && userId in s.users.rows
    requires userId in s.todos.rows[id].collaborators
    ensures AddCollaborator(s, id, userId).Ok?
    ensures var s1 := AddCollaborator(s, id, userId).value.store;
            var s2 := RemoveCollaborator(s1, id, userId).value.store;
            userId in s2.todos.rows[id].collaborators
  {
    var prior := s.todos.rows[id];
    var s1 := AddCollaborator(s, id, userId).value.store;
    assert s1.todos.rows[id] == prior.(collaborators := prior.collaborators + [userId]);
    var s2 := RemoveCollaborator(s1, id, userId).value.store;
    assert s2.todos.rows[id].collaborators == RemoveFirst(prior.collaborators + [userId], userId);
    RepeatedAppendSurvivesRemove(prior.collaborators, userId);
  }

  /** Nothing stops the owner being added as a collaborator of their own list. */
  lemma OwnerCanBecomeCollaborator(s: Store, id: Id)
    requires ValidStore(s)
    requires id in s.todos.rows && s.todos.rows[id].owner.Some?
    requires s.todos.rows[id].owner.value in s.users.rows
    ensures var owner := s.todos.rows[id].owner.value;
            var r := AddCollaborator(s, id, owner);
            r.Ok? && owner in r.value.store.todos.rows[id].collaborators
  {
  }
}
