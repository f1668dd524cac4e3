# To-do list web application: request handlers and the task form

A model of the request-handling core of a small Spring MVC to-do list
application. Users own to-do lists, invite other users to collaborate on them,
and fill the lists with tasks that carry a priority and a workflow state. The
three controllers (`/todos`, `/users`, `/tasks`) and the `TaskDto` form record
are modelled as pure functions.

Each handler takes the persistent store and the request, and returns either
the new store with the response (a view name with the model attributes it
fills, or a redirect target) or the exception the handler ends in:

    Handler(store, request...) : Result<Step(store', Render(view, page) | Redirect(url)), Failure>

## Layout

| file | module | what it holds |
|---|---|---|
| `results.dfy` | `Results` | `Option` (a nullable value) and `Result` with `:-` propagation |
| `tables.dfy` | `Tables` | `Table<T>`: a map from id to row, the insertion order of the ids, and a key generator that only moves forward; `Put`, `Remove`, `All`, `FreshId`, order-keeping `Filter` |
| `entities.dfy` | `Entities` | `User`, `Role`, `ToDo`, `Task`, `State`, the `Store`, the `ValidStore` invariant, the service-layer reads (`ReadById`, `UpdateRow`, `DeleteRow`, `TodosOfUser`, `TasksOfTodo`, `StateByName`) and the `Failure` a handler can end in |
| `decimal.dfy` | `Decimal` | `Long.toString` of an id, with its parser and injectivity |
| `urls.dfy` | `Urls` | the redirect targets, each injective in its id |
| `text.dfy` | `Text` | `String.trim` and the `@NotBlank` test |
| `task_dto.dfy` | `Dto` | `TaskDto`: constructors, `equals`, setters, field constraints |
| `todo_controller.dfy` | `ToDoController` | the `/todos` handlers |
| `user_controller.dfy` | `UserController` | the `/users` handlers |
| `task_controller.dfy` | `TaskController` | the `/tasks` handlers and the task form/entity conversion |

## Modelling decisions

- The store holds five tables. A table's rows are keyed by id, and its `order`
  lists the ids in insertion order, which is the order `getAll` and the
  repository queries return. `ValidStore` says every table is well formed and
  every row is stored under its own id. Every handler preserves `ValidStore`.
- The services are not part of this model. Their behaviour is fixed as follows:
  `readById`, `update` and `delete` of an unknown id end in
  `EntityNotFound(kind, id)`. `create` stores the row under the key generator's next
  id and ignores the id the form carried. Like an identity column, the
  generator only moves forward: deleting a row does not free its id, so no id
  is handed out twice (`Tables.FreshIdNotReissued`,
  `UserController.DeletedIdIsNotReissued`).
  `update` saves the entity under the entity's OWN id, which is the id the form
  carried, not the id in the request path.
- A to-do list refers to its owner (`Option<Id>`, null until a handler sets it)
  and its collaborators (a `seq<Id>`, a Java `List`, so duplicates are
  possible) by user id. A task refers to its list and its state by id. A user
  holds its role by value, since roles are read-only reference data. Users are
  compared by id.
- Bean Validation of the `User` and `ToDo` forms is the `hasErrors` input.
  Bean Validation of the `TaskDto` form is computed by `Dto.Valid`: `@NotBlank`
  on `name`, using `String.trim` semantics (characters up to U+0020 are
  blank), and `@NotNull` on `priority`.
- `LocalDateTime.now()` is the `now` parameter of `ToDoController.Create`.
- A `NullPointerException` is `Failure.NullReference`. Two handlers can end in
  one. The task page of a list without an owner fails once there is at least
  one user to filter, because the owner is dereferenced inside the filter. The
  user update fails when the stored user has no role.
- The user form's `setPassword(getPassword())` is a no-op: the password is
  stored exactly as submitted.
- The owner may be added as a collaborator of their own list, and one user may
  be added twice. Collaborators read naturally as a set of users other than
  the owner, but the code appends without any check. The model follows
  the code (`ToDoController.OwnerCanBecomeCollaborator`,
  `ToDoController.RepeatedAddSurvivesOneRemove`).

## Model

| member | source | states |
|---|---|---|
| `ToDoController.CreatePage` | src/main/java/com/softserve/itacademy/controller/ToDoController.java:32-38 | renders "create-todo" with a blank form and the owner id from the path, without looking the owner up |
| `ToDoController.Create` | src/main/java/com/softserve/itacademy/controller/ToDoController.java:40-53 | a rejected form renders "create-todo" and leaves the store unchanged; otherwise it succeeds exactly when the owner exists, stores the list under an id the generator has never handed out, moves the generator past it, stamped with `now` and owned by `ownerId`, changes no other row or table, and redirects to the owner's lists; an unknown owner ends in `EntityNotFound(User, ownerId)` |
| `ToDoController.CreatedTodoIsListedForOwner` | src/main/java/com/softserve/itacademy/controller/ToDoController.java:48-52 | after a successful create, the owner's lists include a list with the submitted title, owned by that owner |
| `ToDoController.Read` | src/main/java/com/softserve/itacademy/controller/ToDoController.java:55-66 | an unknown list fails with `EntityNotFound`; an ownerless list fails with a null reference exactly when some user exists; otherwise the page holds the list, exactly its tasks, and exactly the stored users other than the owner, listed as the order-keeping filter of the full `getAll` list, so in its order |
| `ToDoController.UpdatePage` | src/main/java/com/softserve/itacademy/controller/ToDoController.java:68-74 | renders "update-todo" with the stored list; fails for an unknown list |
| `ToDoController.Update` | src/main/java/com/softserve/itacademy/controller/ToDoController.java:76-90 | a rejected form is rendered again owned by user `ownerId` (which must exist) and nothing is written; otherwise the submitted list is saved under its own id with the owner and collaborators of the stored list `todoId`, whatever was submitted, nothing else changes, and it redirects to the owner's lists; fails when either list is unknown |
| `ToDoController.Delete` | src/main/java/com/softserve/itacademy/controller/ToDoController.java:92-97 | removes exactly that list, after which no user's lists include it, and redirects to the owner's lists; fails for an unknown list |
| `ToDoController.GetAll` | src/main/java/com/softserve/itacademy/controller/ToDoController.java:99-106 | renders "todos-user" with the lists the user owns or collaborates on and the user; fails for an unknown user |
| `Entities.TodosOfUser` | src/main/java/com/softserve/itacademy/controller/ToDoController.java:101 | every list returned is a stored list the user owns or collaborates on, and every such stored list is returned |
| `Entities.TasksOfTodo` | src/main/java/com/softserve/itacademy/controller/ToDoController.java:58 | every task returned is a stored task of that list, and every stored task of that list is returned |
| `Tables.FreshIdNotReissued` | src/main/java/com/softserve/itacademy/controller/UserController.java:42 | an id handed out for a new row is never handed out again, whether or not rows are deleted in between |
| `Tables.Filter` | src/main/java/com/softserve/itacademy/controller/ToDoController.java:59-60 | the result holds exactly the elements that pass the test and is no longer than the input |
| `Tables.FilterConcat` | src/main/java/com/softserve/itacademy/controller/ToDoController.java:59-60 | filtering keeps the order: filtering a concatenation is concatenating the filtered parts |
| `ToDoController.AddCollaborator` | src/main/java/com/softserve/itacademy/controller/ToDoController.java:108-117 | appends the user id to the end of the collaborators with no membership check, changes nothing else in the list or the store, and redirects to the list's tasks page; fails when the list or the user is unknown |
| `ToDoController.RemoveFirst` | src/main/java/com/softserve/itacademy/controller/ToDoController.java:123 | `List.remove(Object)`: the list minus the first occurrence of the value, or the list unchanged when the value is absent |
| `ToDoController.RemoveFirstCount` | src/main/java/com/softserve/itacademy/controller/ToDoController.java:123 | removing takes away exactly one occurrence of the value, as multisets |
| `ToDoController.RemoveCollaborator` | src/main/java/com/softserve/itacademy/controller/ToDoController.java:119-128 | drops the first occurrence of the user id from the collaborators (nothing when absent), changes nothing else, and redirects to the list's tasks page; fails when the list or the user is unknown |
| `ToDoController.AddThenRemoveRestoresStore` | src/main/java/com/softserve/itacademy/controller/ToDoController.java:108-128 | adding a user who is not a collaborator and then removing them restores the store exactly |
| `ToDoController.RepeatedAddSurvivesOneRemove` | src/main/java/com/softserve/itacademy/controller/ToDoController.java:108-128 | adding an existing collaborator again and removing them once leaves them a collaborator |
| `ToDoController.OwnerCanBecomeCollaborator` | src/main/java/com/softserve/itacademy/controller/ToDoController.java:108-117 | nothing stops the owner from being added as a collaborator of their own list |
| `UserController.CreatePage` | src/main/java/com/softserve/itacademy/controller/UserController.java:27-32 | renders "create-user" with a blank form |
| `UserController.Create` | src/main/java/com/softserve/itacademy/controller/UserController.java:34-45 | a rejected form renders "create-user" and writes nothing; otherwise it succeeds exactly when role 2 exists, stores the user under an id the generator has never handed out, moves the generator past it, with role 2 and the password unchanged, and redirects to the new user's lists |
| `UserController.Read` | src/main/java/com/softserve/itacademy/controller/UserController.java:47-53 | renders "user-info" with the stored user; fails for an unknown id |
| `UserController.UpdatePage` | src/main/java/com/softserve/itacademy/controller/UserController.java:55-62 | renders "update-user" with the stored user and the full role list: every stored role appears and every listed role is a stored one; fails for an unknown user |
| `UserController.GuardedRole` | src/main/java/com/softserve/itacademy/controller/UserController.java:77-83 | a current role named "USER" is kept; any other role is replaced by role `roleId`, which must exist; no current role is a null reference |
| `UserController.Update` | src/main/java/com/softserve/itacademy/controller/UserController.java:65-87 | the stored user is read first, so an unknown id fails even for a rejected form; a rejected form is rendered with the stored role and nothing is written; otherwise the submitted fields are saved under the form's id with the guarded role, nothing else changes, and it redirects to the user's page |
| `UserController.PlainUserKeepsRole` | src/main/java/com/softserve/itacademy/controller/UserController.java:77-80 | for a user whose role is "USER", the update's outcome does not depend on the submitted role id, and the saved role is the old one |
| `UserController.RejectedUpdateKeepsUser` | src/main/java/com/softserve/itacademy/controller/UserController.java:70-76 | a rejected update of an existing user succeeds and reading that user afterwards gives what it gave before |
| `UserController.Delete` | src/main/java/com/softserve/itacademy/controller/UserController.java:90-95 | removes exactly that user, after which reading that id fails, and redirects to the user list |
| `UserController.DeletedIdIsNotReissued` | src/main/java/com/softserve/itacademy/controller/UserController.java:34-45 | after deleting a user, a user created next gets a different id and a different redirect target, and the deleted id stays unused |
| `UserController.GetAll` | src/main/java/com/softserve/itacademy/controller/UserController.java:97-102 | renders "users-list" with the full `getAll` list: in insertion order, every stored user listed and every listed user a stored one |
| `TaskController.EntityRoundTrip` | src/main/java/com/softserve/itacademy/controller/TaskController.java:65 | a task converted to the form and back, with its own list and state, is the same task |
| `TaskController.DtoRoundTrip` | src/main/java/com/softserve/itacademy/controller/TaskController.java:83-87 | a form converted to a task and back keeps id, name and priority, and its two ids become those of the resolved list and state |
| `TaskController.CreatePage` | src/main/java/com/softserve/itacademy/controller/TaskController.java:32-40 | renders "create-task" with a blank form, the list from the path and the priorities; fails for an unknown list |
| `TaskController.Create` | src/main/java/com/softserve/itacademy/controller/TaskController.java:42-60 | an invalid form renders "create-task" with the path's list and the priorities and writes nothing; a valid one is stored under an id the generator has never handed out, moves the generator past it, in the list the FORM names and in a state named "New", nothing else changes, and it redirects to the PATH's list; it fails when that list or that state is missing |
| `TaskController.CreatedTaskIsListedAsNew` | src/main/java/com/softserve/itacademy/controller/TaskController.java:52-59 | when the form is valid, its list exists and some state is named "New", create succeeds, and the tasks of the form's list include one with the submitted name whose state is named "New" |
| `TaskController.UpdatePage` | src/main/java/com/softserve/itacademy/controller/TaskController.java:62-71 | renders "update-task" with the stored task as a form, the priorities and the full state list: every stored state appears and every listed state is a stored one; fails for an unknown task |
| `TaskController.Update` | src/main/java/com/softserve/itacademy/controller/TaskController.java:73-91 | an invalid form renders "update-task" and writes nothing; a valid one resolves the list and the state from the form's ids, failing before any write when either is unknown, saves the task under the form's id, and redirects to the path's list |
| `TaskController.Delete` | src/main/java/com/softserve/itacademy/controller/TaskController.java:93-99 | removes exactly that task, after which no list's tasks include it, and redirects to the list's tasks page |
| `Dto.Valid` | src/main/java/com/softserve/itacademy/dto/TaskDto.java:10-20 | valid exactly when `name` is non-null with some character `trim` does not strip (`@NotBlank`) and `priority` is non-null (`@NotNull`); the `@NotNull` marks on the primitive `todoId` and `stateId` can never fail |
| `Dto.Blank` | src/main/java/com/softserve/itacademy/dto/TaskDto.java:22-23 | the no-argument constructor gives zero ids and null strings, and such a form fails validation |
| `Dto.BlanksAreEqual` | src/main/java/com/softserve/itacademy/dto/TaskDto.java:22-23 | two freshly constructed forms are equal |
| `Dto.ConstructorIsFieldwise` | src/main/java/com/softserve/itacademy/dto/TaskDto.java:25-31 | the five-argument constructor keeps each argument in its own field |
| `Dto.NullSafeEquals` | src/main/java/com/softserve/itacademy/dto/TaskDto.java:47-48 | `Objects.equals` on nullable strings holds exactly when both are null or both hold equal strings |
| `Dto.Equals` | src/main/java/com/softserve/itacademy/dto/TaskDto.java:37-49 | `equals` is false for null and otherwise holds exactly when all five fields match |
| `Dto.EqualsIsEquivalence` | src/main/java/com/softserve/itacademy/dto/TaskDto.java:39-48 | `equals` is reflexive, symmetric and transitive |
| `Dto.SetId` | src/main/java/com/softserve/itacademy/dto/TaskDto.java:61-63 | sets `id` and leaves the other fields as they were |
| `Dto.SetName` | src/main/java/com/softserve/itacademy/dto/TaskDto.java:69-71 | sets `name` and leaves the other fields as they were |
| `Dto.SetPriority` | src/main/java/com/softserve/itacademy/dto/TaskDto.java:77-79 | sets `priority` and leaves the other fields as they were |
| `Dto.SetTodoId` | src/main/java/com/softserve/itacademy/dto/TaskDto.java:85-87 | sets `todoId` and leaves the other fields as they were |
| `Dto.SetStateId` | src/main/java/com/softserve/itacademy/dto/TaskDto.java:93-95 | sets `stateId` and leaves the other fields as they were |
| `Text.NotBlankIffVisible` | src/main/java/com/softserve/itacademy/dto/TaskDto.java:10-11 | a string is not blank exactly when it has a character that `trim` does not strip |
| `Dto.BlankNameIsInvalid` | src/main/java/com/softserve/itacademy/dto/TaskDto.java:10-11 | a form whose name is empty or only whitespace fails validation |
| `Decimal.ParseIdToString` | src/main/java/com/softserve/itacademy/controller/ToDoController.java:52 | the decimal text of an id parses back to that id |
| `Urls.UserTodosInjective` | src/main/java/com/softserve/itacademy/controller/ToDoController.java:52 | different users get different redirect targets |
| `Urls.TodoTasksInjective` | src/main/java/com/softserve/itacademy/controller/TaskController.java:59 | different lists get different redirect targets |
| `Urls.UserInfoInjective` | src/main/java/com/softserve/itacademy/controller/UserController.java:86 | different users get different redirect targets |

## Left out

- `HomeController`: it forwards to the user list and holds no logic.
- Logging: the SLF4J calls have no effect on the outcome.
- `TaskDto.hashCode`: it needs 32-bit overflow arithmetic, and only its agreement with `equals` matters.
- The getters of `TaskDto`: they are the datatype's field selectors.
- Spring MVC binding and Bean Validation: the `User` and `ToDo` results are the `hasErrors` input. A path variable or form field that fails type conversion is not modelled.
- JPA repositories, transactions and cascades on delete: the store is a set of maps. Deleting a user or a list leaves rows that refer to it as they were, because cascade rules are not part of the code modelled.
- The services, the repositories, `TaskTransformer` and the `Priority` enum are not part of this model. Their assumed behaviour is under "Modelling decisions". The priority list is the three names LOW, MEDIUM and HIGH, in that order.
- TaskController.ToEntity: keeps the submitted priority name as it is. The converter's mapping to the `Priority` enum is not modelled, so an unknown priority name is not a failure here.
- Entities.StateByName: a missing state ends in `StateNameNotFound`. What `StateService.getByName` really does for a missing name is not part of this model.
- Ids are unbounded integers, not 64-bit `long`s. Only fresh ids could exceed the range, and only after 2^63 rows.
- Passwords are stored as submitted. How credentials should be stored is an open design question.
