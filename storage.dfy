/** The browser's key-value store as the application uses it: one session
    key holding the signed-in user, and one key per user holding that
    user's task list. Values are kept as records; their JSON text is not
    modelled. */
module Storage {
  import opened Types

  datatype Value = UserValue(user: User) | TodosValue(todos: seq<Todo>)

  const SessionKey: string := "taskmaster_user"
  const TodosPrefix: string := "taskmaster_todos_"

  /** The key under which a user's task list is stored. It never collides
      with the session key. */
  function TodosKey(userId: string): (k: string)
    ensures k != SessionKey
    ensures |k| > |TodosPrefix| - 1 && k[|TodosPrefix|..] == userId
  {
    TodosPrefix + userId
  }

  /** Different users have different task-list keys. */
  lemma TodosKeyInjective(a: string, b: string)
    ensures TodosKey(a) == TodosKey(b) <==> a == b
  {
    if TodosKey(a) == TodosKey(b) {
      assert a == TodosKey(a)[|TodosPrefix|..];
    }
  }

  /** `localStorage`: one map shared by every component that holds it. */
  class Store {
    var entries: map<string, Value>

    constructor(initial: map<string, Value>)
      ensures entries == initial
    {
      entries := initial;
    }

    method GetItem(key: string) returns (v: Option<Value>)
      ensures key in entries ==> v == Some(entries[key])
      ensures key !in entries ==> v == None
    {
      if key in entries {
        v := Some(entries[key]);
      } else {
        v := None;
      }
    }

    method SetItem(key: string, v: Value)
      modifies this
      ensures entries == old(entries)[key := v]
    {
      entries := entries[key := v];
    }

    method RemoveItem(key: string)
      modifies this
      ensures entries == old(entries) - {key}
    {
      entries := entries - {key};
    }
  }
}
