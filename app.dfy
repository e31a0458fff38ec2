/** The application shell (App.tsx): the session restored from the store at
    startup, log-in and log-out, and which screen is shown. */
module Session {
  import opened Types
  import opened Storage
  import opened TaskList

  /** The user a startup finds under the session key, if any. */
  function Restored(m: map<string, Value>): (r: Option<User>)
    requires SessionKey in m ==> m[SessionKey].UserValue?
    ensures r.Some? <==> SessionKey in m
    ensures r.Some? ==> m[SessionKey] == UserValue(r.value)
  {
    if SessionKey in m then Some(m[SessionKey].user) else None
  }

  /** The store after `handleLogin`: the user is saved under the session
      key and every other key is left alone. */
  function AfterLogin(m: map<string, Value>, user: User): (r: map<string, Value>)
    ensures SessionKey in r && r[SessionKey] == UserValue(user)
    ensures forall k :: k != SessionKey ==> (k in r <==> k in m)
    ensures forall k :: k != SessionKey && k in m ==> r[k] == m[k]
  {
    m[SessionKey := UserValue(user)]
  }

  /** The task-list key `handleLogout` removes: the signed-in user's, or
      the key built from the text "undefined" when nobody is signed in. */
  function LogoutTodosKey(current: Option<User>): (k: string)
    ensures current.Some? ==> k == TodosKey(current.value.id)
    ensures current.None? ==> k == TodosKey("undefined")
  {
    TodosKey(if current.Some? then current.value.id else "undefined")
  }

  /** The store after `handleLogout`: the session key and the signed-in
      user's task list are gone; every other key is left alone. */
  function AfterLogout(m: map<string, Value>, current: Option<User>): (r: map<string, Value>)
    ensures SessionKey !in r && LogoutTodosKey(current) !in r
    ensures forall k :: k != SessionKey && k != LogoutTodosKey(current) ==> (k in r <==> k in m)
    ensures forall k :: k in r ==> r[k] == m[k]
  {
    m - {SessionKey, LogoutTodosKey(current)}
  }

  /** A log-in survives a reload: the next startup restores that user. */
  lemma LoginThenRestore(m: map<string, Value>, user: User)
    ensures Restored(AfterLogin(m, user)) == Some(user)
  {
  }

  /** After a log-out the next startup shows the sign-in screen. */
  lemma LogoutThenRestore(m: map<string, Value>, current: Option<User>)
    ensures Restored(AfterLogout(m, current)) == None
  {
  }

  /** Logging out and back in as the same user finds no saved list, so the
      task screen installs the sample tasks again: the user's own tasks
      are lost. */
  lemma LogoutThenLoginReseeds(m: map<string, Value>, user: User)
    ensures var after := AfterLogin(AfterLogout(m, Some(user)), user);
            TodosKey(user.id) !in after
            && LoadedTodos(after, user.id) == SampleTodos(user.id)
  {
    var after := AfterLogin(AfterLogout(m, Some(user)), user);
    assert TodosKey(user.id) != SessionKey;
    assert TodosKey(user.id) !in after;
  }

  /** Logging out removes only the signed-in user's tasks: another user's
      saved list is still there. */
  lemma LogoutKeepsOtherLists(m: map<string, Value>, user: User, other: string)
    requires other != user.id && TodosKey(other) in m
    ensures var after := AfterLogout(m, Some(user));
            TodosKey(other) in after && after[TodosKey(other)] == m[TodosKey(other)]
  {
    TodosKeyInjective(other, user.id);
  }

  datatype Screen = Spinner | LoginScreen | TaskScreen(user: User)

  /** The shell's render: the spinner while loading, then the sign-in form
      when nobody is signed in, else the task list of the signed-in user. */
  function Render(isLoading: bool, current: Option<User>): (s: Screen)
    ensures s.Spinner? <==> isLoading
    ensures s.LoginScreen? <==> !isLoading && current.None?
    ensures s.TaskScreen? <==> !isLoading && current.Some?
    ensures s.TaskScreen? ==> s.user == current.value
  {
    if isLoading then Spinner
    else if current.None? then LoginScreen
    else TaskScreen(current.value)
  }

  /** The shell's state, over the store it shares with the task screen. */
  class App {
    const store: Store
    var currentUser: Option<User>
    var isLoading: bool

    /** First render: loading, nobody signed in. */
    constructor(store: Store)
      ensures this.store == store && currentUser == None && isLoading
    {
      this.store := store;
      currentUser := None;
      isLoading := true;
    }

    /** The startup effect, as one step: restore the saved user if there
        is one, then stop loading. The store is only read. */
    method Startup()
      requires SessionKey in store.entries ==> store.entries[SessionKey].UserValue?
      modifies this`currentUser, this`isLoading
      ensures currentUser == (if SessionKey in store.entries then Some(store.entries[SessionKey].user) else old(currentUser))
      ensures !isLoading
    {
      var saved := store.GetItem(SessionKey);
      if saved.Some? {
        currentUser := Some(saved.value.user);
      }
      isLoading := false;
    }

    /** `handleLogin`. */
    method HandleLogin(user: User)
      modifies this`currentUser, store
      ensures currentUser == Some(user)
      ensures store.entries == AfterLogin(old(store.entries), user)
      ensures Restored(store.entries) == Some(user)
    {
      currentUser := Some(user);
      store.SetItem(SessionKey, UserValue(user));
    }

    /** `handleLogout`. */
    method HandleLogout()
      modifies this`currentUser, store
      ensures currentUser == None
      ensures store.entries == AfterLogout(old(store.entries), old(currentUser))
      ensures Restored(store.entries) == None
    {
      var key := LogoutTodosKey(currentUser);
      currentUser := None;
      store.RemoveItem(SessionKey);
      store.RemoveItem(key);
      assert store.entries == old(store.entries) - {SessionKey, key};
    }
  }
}
