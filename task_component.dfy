/** The Task component: four pieces of state changed in place by its
    handlers. Each handler that calls the service is split into the part that
    runs before the `await` (Start...) and the part that runs when the call
    completes (Complete...); the whole handler, when nothing else interleaves,
    is the two run back to back. Every method's new state is also tied to
    TaskState.Step, so the lemmas there about interleaved runs hold of the
    component. */
module TaskComponent {
  import opened TodoList
  import opened TaskState

  class Task {
    var todos: seq<Todo>
    var error: string
    var title: string
    var description: string

    /** The error field only ever holds "" or one of the fixed messages. */
    ghost predicate Valid()
      reads this
    {
      IsShownError(error)
    }

    /** The component's state as a value. */
    function Snapshot(): State
      reads this
    {
      State(todos, error, title, description)
    }

    /** Mounting: an empty list, no error, an empty form. */
    constructor ()
      ensures Valid()
      ensures Snapshot() == Initial
    {
      todos, error, title, description := [], "", "", "";
    }

    /** The title input's change handler. */
    method ChangeTitle(value: string)
      requires Valid()
      modifies this
      ensures Valid()
      ensures Snapshot() == Step(old(Snapshot()), TitleChanged(value))
      ensures title == value
      ensures todos == old(todos) && error == old(error) && description == old(description)
    {
      title := value;
    }

    /** The description input's change handler. */
    method ChangeDescription(value: string)
      requires Valid()
      modifies this
      ensures Valid()
      ensures Snapshot() == Step(old(Snapshot()), DescriptionChanged(value))
      ensures description == value
      ensures todos == old(todos) && error == old(error) && title == old(title)
    {
      description := value;
    }

    /** Loading begins: the error is cleared before the list is requested. */
    method StartLoad()
      requires Valid()
      modifies this
      ensures Valid()
      ensures Snapshot() == Step(old(Snapshot()), LoadStarted)
      ensures error == ""
      ensures todos == old(todos) && title == old(title) && description == old(description)
    {
      error := "";
    }

    /** The list request completes: on success the list becomes exactly what
        the service returned, in its order; on failure only the error changes. */
    method CompleteLoad(loaded: Outcome<seq<Todo>>)
      requires Valid()
      modifies this
      ensures Valid()
      ensures Snapshot() == Step(old(Snapshot()), LoadCompleted(loaded))
      ensures loaded.Success? ==> todos == loaded.value && error == old(error)
      ensures loaded.Failure? ==> todos == old(todos) && error == LoadError
      ensures title == old(title) && description == old(description)
    {
      match loaded {
        case Success(data) => todos := data;
        case Failure => error := LoadError;
      }
    }

    /** The whole load handler, run once when the component mounts. */
    method LoadTodos(loaded: Outcome<seq<Todo>>)
      requires Valid()
      modifies this
      ensures Valid()
      ensures Snapshot() == Run(old(Snapshot()), [LoadStarted, LoadCompleted(loaded)])
      ensures loaded.Success? ==> todos == loaded.value && error == ""
      ensures loaded.Failure? ==> todos == old(todos) && error == LoadError
      ensures title == old(title) && description == old(description)
    {
      ghost var before := Snapshot();
      StartLoad();
      CompleteLoad(loaded);
      RunTwo(before, LoadStarted, LoadCompleted(loaded));
    }

    /** Creating begins: the error is cleared and the payload is the form's
        current title and description. */
    method StartCreate() returns (payload: NewTodo)
      requires Valid()
      modifies this
      ensures Valid()
      ensures Snapshot() == Step(old(Snapshot()), CreateStarted)
      ensures payload == NewTodo(old(title), old(description))
      ensures error == ""
      ensures todos == old(todos) && title == old(title) && description == old(description)
    {
      error := "";
      payload := NewTodo(title, description);
    }

    /** The create request completes: on success the returned record goes at
        the end of the list as it is now and the form is emptied; on failure
        the list and form stay and only the error changes. */
    method CompleteCreate(created: Outcome<Todo>)
      requires Valid()
      modifies this
      ensures Valid()
      ensures Snapshot() == Step(old(Snapshot()), CreateCompleted(created))
      ensures created.Success? ==>
        todos == old(todos) + [created.value] && title == "" && description == "" && error == old(error)
      ensures created.Failure? ==>
        todos == old(todos) && title == old(title) && description == old(description) && error == CreateError
    {
      match created {
        case Success(t) =>
          todos := todos + [t];
          title := "";
          description := "";
        case Failure =>
          error := CreateError;
      }
    }

    /** The whole form-submit handler. */
    method HandleCreateTask(created: Outcome<Todo>) returns (payload: NewTodo)
      requires Valid()
      modifies this
      ensures Valid()
      ensures Snapshot() == Run(old(Snapshot()), [CreateStarted, CreateCompleted(created)])
      ensures payload == NewTodo(old(title), old(description))
      ensures created.Success? ==>
        todos == old(todos) + [created.value] && title == "" && description == "" && error == ""
      ensures created.Failure? ==>
        todos == old(todos) && title == old(title) && description == old(description) && error == CreateError
    {
      ghost var before := Snapshot();
      payload := StartCreate();
      CompleteCreate(created);
      RunTwo(before, CreateStarted, CreateCompleted(created));
    }

    /** Deleting begins: the error is cleared before the request is sent. */
    method StartDelete(id: TodoId)
      requires Valid()
      modifies this
      ensures Valid()
      ensures Snapshot() == Step(old(Snapshot()), DeleteStarted(id))
      ensures error == ""
      ensures todos == old(todos) && title == old(title) && description == old(description)
    {
      error := "";
    }

    /** The delete request completes: on success every record with that id
        leaves the list as it is now and the others keep their order; on
        failure only the error changes. */
    method CompleteDelete(id: TodoId, deleted: Outcome<()>)
      requires Valid()
      modifies this
      ensures Valid()
      ensures Snapshot() == Step(old(Snapshot()), DeleteCompleted(id, deleted))
      ensures deleted.Success? ==> todos == RemoveId(old(todos), id) && error == old(error)
      ensures deleted.Success? ==> IsSubsequence(todos, old(todos))
      ensures deleted.Success? ==> forall t :: t in todos <==> t in old(todos) && t.id != id
      ensures deleted.Success? && !HasId(old(todos), id) ==> todos == old(todos)
      ensures deleted.Failure? ==> todos == old(todos) && error == DeleteError
      ensures title == old(title) && description == old(description)
    {
      match deleted {
        case Success(_) =>
          RemoveIdIsSubsequence(todos, id);
          assert !HasId(todos, id) ==> RemoveId(todos, id) == todos by {
            if !HasId(todos, id) {
              RemoveAbsentId(todos, id);
            }
          }
          todos := RemoveId(todos, id);
        case Failure =>
          error := DeleteError;
      }
    }

    /** The whole delete button handler. */
    method HandleDeleteTask(id: TodoId, deleted: Outcome<()>)
      requires Valid()
      modifies this
      ensures Valid()
      ensures Snapshot() == Run(old(Snapshot()), [DeleteStarted(id), DeleteCompleted(id, deleted)])
      ensures deleted.Success? ==> todos == RemoveId(old(todos), id) && error == ""
      ensures deleted.Failure? ==> todos == old(todos) && error == DeleteError
      ensures title == old(title) && description == old(description)
    {
      ghost var before := Snapshot();
      StartDelete(id);
      CompleteDelete(id, deleted);
      RunTwo(before, DeleteStarted(id), DeleteCompleted(id, deleted));
    }
  }
}
