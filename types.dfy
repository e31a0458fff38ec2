/** The records the whole application passes around (the `User` and `Todo`
    interfaces of App.tsx), with timestamps as integer milliseconds. */
module Types {

  datatype Option<T> = None | Some(value: T)

  /** A signed-in person; `password` and `image` are optional fields. */
  datatype User = User(id: string, name: string, email: string, password: Option<string>, image: Option<string>)

  datatype Status = Pending | Done

  /** A task. `deadline` and `finishedTime` are instants in milliseconds;
      `finishedTime == None` is an absent (or undefined) field. */
  datatype Todo = Todo(id: string, userId: string, text: string, status: Status, deadline: int, finishedTime: Option<int>)

  /** The editor's payload, `Omit<Todo, 'id' | 'userId'>`: a task without
      its identity. `finishedTime == None` means the key is not in the
      object at all, which matters when the payload is spread over a task. */
  datatype Draft = Draft(text: string, status: Status, deadline: int, finishedTime: Option<int>)

  /** The other status: what a toggle switches to. */
  function Flip(st: Status): (r: Status)
    ensures r != st
  {
    if st == Pending then Done else Pending
  }
}
