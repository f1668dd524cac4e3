/** The redirect targets the handlers build by appending an id to a fixed
    path. Each names its id unambiguously. */
module Urls {
  import opened Tables
  import opened Decimal

  /** The page listing one user's todo lists. */
  function UserTodos(userId: Id): string {
    "/todos/all/users/" + IdToString(userId)
  }

  /** The page listing one todo list's tasks. */
  function TodoTasks(todoId: Id): string {
    "/todos/" + IdToString(todoId) + "/tasks"
  }

  /** The page showing one user. */
  function UserInfo(userId: Id): string {
    "/users/" + IdToString(userId) + "/read"
  }

  /** The page listing all users. */
  const AllUsers: string := "/users/all"

  /** Equal concatenations with a common prefix and suffix have equal middles. */
  lemma SameMiddle(p: string, a: string, b: string, q: string)
    requires p + a + q == p + b + q
    ensures a == b
  {
    var x := p + a + q;
    assert |a| == |b|;
    assert a == x[|p|..|p| + |a|];
    assert b == (p + b + q)[|p|..|p| + |b|];
  }

  lemma UserTodosInjective(a: Id, b: Id)
    ensures UserTodos(a) == UserTodos(b) ==> a == b
  {
    if UserTodos(a) == UserTodos(b) {
      SameMiddle("/todos/all/users/", IdToString(a), IdToString(b), "");
      IdToStringInjective(a, b);
    }
  }

  lemma TodoTasksInjective(a: Id, b: Id)
    ensures TodoTasks(a) == TodoTasks(b) ==> a == b
  {
    if TodoTasks(a) == TodoTasks(b) {
      SameMiddle("/todos/", IdToString(a), IdToString(b), "/tasks");
      IdToStringInjective(a, b);
    }
  }

  lemma UserInfoInjective(a: Id, b: Id)
    ensures UserInfo(a) == UserInfo(b) ==> a == b
  {
    if UserInfo(a) == UserInfo(b) {
      SameMiddle("/users/", IdToString(a), IdToString(b), "/read");
      IdToStringInjective(a, b);
    }
  }
}
