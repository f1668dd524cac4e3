/** The `/users` pages: sign up, show, update (with the role guard), delete
    and list users. */
module UserController {
  import opened Results
  import opened Tables
  import opened Entities
  import Urls

  /** The model attributes each rendered view receives. */
  datatype Page =
    | NewUser
    | UserForm(user: User)
    | UserInfoPage(user: User)
    | EditUser(user: User, roles: seq<Role>)
    | UserList(users: seq<User>)

  /** The role a newly created user is given. */
  const DefaultRoleId: Id := 2

  /** Users holding the role of this name keep it on every update. */
  const PlainUserRole: string := "USER"

  /** GET /users/create: a blank form. */
  function CreatePage(): (r: Response<Page>)
    ensures r.Render? && r.view == "create-user" && r.page == NewUser
  {
    Render("create-user", NewUser)
  }

  /** POST /users/create. A rejected form is shown again and nothing is
      written. Otherwise role 2 must exist; the user is stored under a new
      id with that role and the password exactly as submitted, and the
      redirect names the new id. */
  function Create(s: Store, user: User, hasErrors: bool): (r: Result<Step<Page>, Failure>)
    ensures hasErrors ==>
      r.Ok? && r.value.store == s && r.value.response == Render("create-user", UserForm(user))
    ensures !hasErrors ==> (r.Ok? <==> DefaultRoleId in s.roles.rows)
    ensures r.Err? ==> r.error == EntityNotFound(RoleKind, DefaultRoleId)
    ensures !hasErrors && r.Ok? ==>
      var s' := r.value.store;
      var id := FreshId(s.users);
      && (ValidStore(s) ==> id !in s.users.rows && s'.users.next > id)
      && Get(s'.users, id) == Some(user.(id := id, role := Some(s.roles.rows[DefaultRoleId])))
      && s'.users.rows[id].password == user.password
      && (forall k :: k != id ==> Get(s'.users, k) == Get(s.users, k))
      && s'.(users := s.users) == s
      && r.value.response == Redirect(Urls.UserTodos(id))
    ensures r.Ok? && ValidStore(s) ==> ValidStore(r.value.store)
  {
    if hasErrors then Ok(Step(s, Render("create-user", UserForm(user))))
    else
      var role :- ReadById(s.roles, RoleKind, DefaultRoleId);
      var id := FreshId(s.users);
      var created := user.(id := id, role := Some(role));
      Ok(Step(s.(users := Put(s.users, id, created)), Redirect(Urls.UserTodos(created.id))))
  }

  /** GET /users/{id}/read. */
  function Read(s: Store, id: Id): (r: Result<Response<Page>, Failure>)
    ensures r.Ok? <==> id in s.users.rows
    ensures r.Err? ==> r.error == EntityNotFound(UserKind, id)
    ensures r.Ok? ==> r.value == Render("user-info", UserInfoPage(s.users.rows[id]))
  {
    var user :- ReadById(s.users, UserKind, id);
    Ok(Render("user-info", UserInfoPage(user)))
  }

  /** GET /users/{id}/update: the stored user and every role to choose from. */
  function UpdatePage(s: Store, id: Id): (r: Result<Response<Page>, Failure>)
    ensures r.Ok? <==> id in s.users.rows
    ensures r.Err? ==> r.error == EntityNotFound(UserKind, id)
    ensures r.Ok? ==>
      && r.value.Render? && r.value.view == "update-user" && r.value.page.EditUser?
      && r.value.page.user == s.users.rows[id]
      && r.value.page.roles == All(s.roles)
      && (Valid(s.roles) ==> forall k :: k in s.roles.rows ==> s.roles.rows[k] in r.value.page.roles)
      && (ValidStore(s) ==>
            forall x :: x in r.value.page.roles ==> x.id in s.roles.rows && s.roles.rows[x.id] == x)
  {
    var user :- ReadById(s.users, UserKind, id);
    AllStoredUnderKey(s.roles, (x: Role) => x.id);
    Ok(Render("update-user", EditUser(user, All(s.roles))))
  }

  /** The role the role guard picks: a user whose current role is named
      "USER" keeps it; anyone else gets the role `roleId`, which must exist.
      A user with no role fails on reading its name. */
  function GuardedRole(s: Store, current: Option<Role>, roleId: Id): (r: Result<Role, Failure>)
    ensures current.None? ==> r == Err(NullReference)
    ensures current.Some? && current.value.name == PlainUserRole ==> r == Ok(current.value)
    ensures current.Some? && current.value.name != PlainUserRole ==>
      && (r.Ok? <==> roleId in s.roles.rows)
      && (r.Ok? ==> r.value == s.roles.rows[roleId])
      && (r.Err? ==> r.error == EntityNotFound(RoleKind, roleId))
  {
    if current.None? then Err(NullReference)
    else if current.value.name == PlainUserRole then Ok(current.value)
    else ReadById(s.roles, RoleKind, roleId)
  }

  /** POST /users/{id}/update. The stored user `id` is read first, so an
      unknown id fails even for a rejected form. A rejected form is shown
      again carrying the stored user's role, and nothing is written.
      Otherwise the submitted names, email and password are saved under the
      form's id (which the path fills in and must exist) with the role the
      guard picks, and the redirect names the path id. */
  function Update(s: Store, id: Id, user: User, hasErrors: bool, roleId: Id)
    : (r: Result<Step<Page>, Failure>)
    ensures id !in s.users.rows ==> r == Err(EntityNotFound(UserKind, id))
    ensures id in s.users.rows && hasErrors ==>
      && r.Ok? && r.value.store == s
      && r.value.response == Render("update-user", EditUser(user.(role := s.users.rows[id].role), All(s.roles)))
    ensures id in s.users.rows && !hasErrors ==>
      var role := GuardedRole(s, s.users.rows[id].role, roleId);
      && (r.Ok? <==> role.Ok? && user.id in s.users.rows)
      && (r.Err? ==> r.error == if role.Err? then role.error else EntityNotFound(UserKind, user.id))
      && (r.Ok? ==>
            var s' := r.value.store;
            && Get(s'.users, user.id) == Some(user.(role := Some(role.value)))
            && (forall k :: k != user.id ==> Get(s'.users, k) == Get(s.users, k))
            && s'.(users := s.users) == s
            && r.value.response == Redirect(Urls.UserInfo(id)))
    ensures r.Ok? && ValidStore(s) ==> ValidStore(r.value.store)
  {
    var prior :- ReadById(s.users, UserKind, id);
    if hasErrors then
      Ok(Step(s, Render("update-user", EditUser(user.(role := prior.role), All(s.roles)))))
    else
      var role :- GuardedRole(s, prior.role, roleId);
      var saved := user.(role := Some(role));
      var users :- UpdateRow(s.users, UserKind, saved.id, saved);
      Ok(Step(s.(users := users), Redirect(Urls.UserInfo(id))))
  }

  /** For a user whose role is "USER" the submitted role id makes no
      difference: the outcome is the same for any two role ids, and the
      saved role is the old one. */
  lemma PlainUserKeepsRole(s: Store, id: Id, user: User, a: Id, b: Id)
    requires id in s.users.rows
    requires s.users.rows[id].role.Some? && s.users.rows[id].role.value.name == PlainUserRole
    ensures Update(s, id, user, false, a) == Update(s, id, user, false, b)
    ensures Update(s, id, user, false, a).Ok? ==>
      Update(s, id, user, false, a).value.store.users.rows[user.id].role == s.users.rows[id].role
  {
  }

  /** A rejected update leaves every stored user, and so the user's names,
      email, password and role, as they were. */
  lemma RejectedUpdateKeepsUser(s: Store, id: Id, user: User, roleId: Id)
    requires id in s.users.rows
    ensures Update(s, id, user, true, roleId).Ok?
    ensures Read(Update(s, id, user, true, roleId).value.store, id) == Read(s, id)
  {
  }

  /** GET /users/{id}/delete: removes the user, after which reading that id
      fails. */
  function Delete(s: Store, id: Id): (r: Result<Step<Page>, Failure>)
    ensures r.Ok? <==> id in s.users.rows
    ensures r.Err? ==> r.error == EntityNotFound(UserKind, id)
    ensures r.Ok? ==>
      var s' := r.value.store;
      && Read(s', id) == Err(EntityNotFound(UserKind, id))
      && (forall k :: k != id ==> Get(s'.users, k) == Get(s.users, k))
      && s'.(users := s.users) == s
      && r.value.response == Redirect(Urls.AllUsers)
    ensures r.Ok? && ValidStore(s) ==> ValidStore(r.value.store)
  {
    var users :- DeleteRow(s.users, UserKind, id);
    Ok(Step(s.(users := users), Redirect(Urls.AllUsers)))
  }

  /** Deleting a user never frees its id: a user created afterwards gets a
      different id, and so a different redirect target, and the deleted
      user's id stays unused. */
  lemma DeletedIdIsNotReissued(s: Store, id: Id, user: User)
    requires ValidStore(s) && id in s.users.rows
    requires DefaultRoleId in s.roles.rows
    ensures Delete(s, id).Ok?
    ensures var s1 := Delete(s, id).value.store;
            var r := Create(s1, user, false);
            && r.Ok?
            && FreshId(s1.users) != id
            && id !in r.value.store.users.rows
            && r.value.response != Redirect(Urls.UserTodos(id))
  {
    var s1 := Delete(s, id).value.store;
    assert s1.users.next == s.users.next;
    Urls.UserTodosInjective(FreshId(s1.users), id);
  }

  /** GET /users/all: every stored user, in insertion order. */
  function GetAll(s: Store): (r: Response<Page>)
    ensures r.Render? && r.view == "users-list" && r.page.UserList? && r.page.users == All(s.users)
    ensures ValidStore(s) ==>
      && (forall u :: u in r.page.users ==> u.id in s.users.rows && s.users.rows[u.id] == u)
      && (forall k :: k in s.users.rows ==> s.users.rows[k] in r.page.users)
  {
    AllStoredUnderKey(s.users, (u: User) => u.id);
    Render("users-list", UserList(All(s.users)))
  }
}
