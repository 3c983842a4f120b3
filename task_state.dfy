/** The Task component's state as a value, and its changes as events applied
    in the order they happen. A service call is split into the event that
    starts it (the handler runs up to its `await`) and the event that
    completes it with the service's outcome (the handler resumes). Events of
    different calls may interleave; each completion applies to the state as
    it stands when it arrives. */
module TaskState {
  import opened TodoList

  /** What a service call ended with: the value it returned, or a thrown error. */
  datatype Outcome<T> = Success(value: T) | Failure

  /** The payload sent to the service when a task is created. */
  datatype NewTodo = NewTodo(title: string, description: string)

  /** The component's four pieces of state; `error == ""` means no error. */
  datatype State = State(todos: seq<Todo>, error: string, title: string, description: string)

  const LoadError := "Could not load tasks."
  const CreateError := "Could not create task."
  const DeleteError := "Could not delete task."

  /** The state the component is mounted with: nothing loaded, nothing typed. */
  const Initial := State([], "", "", "")

  /** The error texts the component can display. */
  predicate IsShownError(m: string)
  {
    m == "" || m == LoadError || m == CreateError || m == DeleteError
  }

  datatype Event =
    | TitleChanged(newTitle: string)
    | DescriptionChanged(newDescription: string)
    | LoadStarted
    | LoadCompleted(loaded: Outcome<seq<Todo>>)
    | CreateStarted
    | CreateCompleted(created: Outcome<Todo>)
    | DeleteStarted(deleting: TodoId)
    | DeleteCompleted(deleted: TodoId, outcome: Outcome<()>)
  {
    /** The handler begins: it clears the error before calling the service. */
    predicate Starts()
    {
      LoadStarted? || CreateStarted? || DeleteStarted?
    }

    /** The service call threw. */
    predicate Failed()
    {
      (LoadCompleted? && loaded.Failure?) ||
      (CreateCompleted? && created.Failure?) ||
      (DeleteCompleted? && outcome.Failure?)
    }

    /** The service call returned. */
    predicate Succeeded()
    {
      (LoadCompleted? && loaded.Success?) ||
      (CreateCompleted? && created.Success?) ||
      (DeleteCompleted? && outcome.Success?)
    }

    /** The event writes the error field (starts clear it, failures set it). */
    predicate SetsError()
    {
      Starts() || Failed()
    }

    /** The text written to the error field by an event that writes it. */
    function ErrorWritten(): (m: string)
      requires SetsError()
    {
      if Starts() then ""
      else if LoadCompleted? then LoadError
      else if CreateCompleted? then CreateError
      else DeleteError
    }
  }

  /** One event applied to the state. */
  function Step(s: State, e: Event): (r: State)
    ensures e.SetsError() ==> r == s.(error := e.ErrorWritten())
    ensures !e.SetsError() ==> r.error == s.error
    ensures !e.Succeeded() ==> r.todos == s.todos
  {
    match e
    case TitleChanged(v) => s.(title := v)
    case DescriptionChanged(v) => s.(description := v)
    case LoadStarted => s.(error := "")
    case CreateStarted => s.(error := "")
    case DeleteStarted(_) => s.(error := "")
    case LoadCompleted(Success(data)) => s.(todos := data)
    case LoadCompleted(Failure) => s.(error := LoadError)
    case CreateCompleted(Success(t)) => s.(todos := s.todos + [t], title := "", description := "")
    case CreateCompleted(Failure) => s.(error := CreateError)
    case DeleteCompleted(id, Success(_)) => s.(todos := RemoveId(s.todos, id))
    case DeleteCompleted(_, Failure) => s.(error := DeleteError)
  }

  /** Events applied one after the other, first to last. */
  function Run(s: State, events: seq<Event>): (r: State)
    decreases |events|
  {
    if events == [] then s else Run(Step(s, events[0]), events[1..])
  }

  /** The error field as the last event that wrote it left it (or `initial`
      when none did), found by scanning the events from the end. */
  function LatestError(initial: string, events: seq<Event>): (m: string)
    decreases |events|
  {
    if events == [] then initial
    else
      var last := events[|events| - 1];
      if last.SetsError() then last.ErrorWritten()
      else LatestError(initial, events[..|events| - 1])
  }

  /** Running two stretches of events is running their concatenation. */
  lemma {:induction false} RunAppend(s: State, a: seq<Event>, b: seq<Event>)
    ensures Run(s, a + b) == Run(Run(s, a), b)
    decreases |a|
  {
    if a == [] {
      assert a + b == b;
    } else {
      assert (a + b)[0] == a[0] && (a + b)[1..] == a[1..] + b;
      RunAppend(Step(s, a[0]), a[1..], b);
    }
  }

  /** A run of two events applies the first, then the second. */
  lemma RunTwo(s: State, e1: Event, e2: Event)
    ensures Run(s, [e1, e2]) == Step(Step(s, e1), e2)
  {
    assert [e1, e2][1..] == [e2] && [e2][1..] == [];
    assert Run(Step(s, e1), [e2]) == Run(Step(Step(s, e1), e2), []);
  }

  /** A run of two pairs of events applies the first pair, then the second. */
  lemma RunFour(s: State, e1: Event, e2: Event, e3: Event, e4: Event)
    ensures Run(s, [e1, e2, e3, e4]) == Step(Step(Step(Step(s, e1), e2), e3), e4)
  {
    assert [e1, e2, e3, e4] == [e1, e2] + [e3, e4];
    RunAppend(s, [e1, e2], [e3, e4]);
    RunTwo(s, e1, e2);
    RunTwo(Step(Step(s, e1), e2), e3, e4);
  }

  /** The last event of a run is applied to the state the earlier ones left. */
  lemma RunLast(s: State, events: seq<Event>, e: Event)
    ensures Run(s, events + [e]) == Step(Run(s, events), e)
  {
    RunAppend(s, events, [e]);
  }

  /** Each completion applies to the list as it stands when it arrives: a
      created record goes after whatever is there, a delete filters whatever
      is there, and a load replaces it. */
  lemma CompletionsApplyToCurrentList(s: State, events: seq<Event>, t: Todo, id: TodoId, data: seq<Todo>)
    ensures Run(s, events + [CreateCompleted(Success(t))]).todos == Run(s, events).todos + [t]
    ensures Run(s, events + [DeleteCompleted(id, Success(()))]).todos == RemoveId(Run(s, events).todos, id)
    ensures Run(s, events + [LoadCompleted(Success(data))]).todos == data
  {
    RunLast(s, events, CreateCompleted(Success(t)));
    RunLast(s, events, DeleteCompleted(id, Success(())));
    RunLast(s, events, LoadCompleted(Success(data)));
  }

  /** The error field is exactly what the last event that wrote it wrote. */
  lemma {:induction false} ErrorIsLatestWritten(s: State, events: seq<Event>)
    ensures Run(s, events).error == LatestError(s.error, events)
    decreases |events|
  {
    if events != [] {
      var n := |events| - 1;
      assert events == events[..n] + [events[n]];
      RunLast(s, events[..n], events[n]);
      ErrorIsLatestWritten(s, events[..n]);
    }
  }

  /** If the event at `i` writes the error and none after it does, the error
      scan stops there. */
  lemma {:induction false} LatestErrorAt(initial: string, events: seq<Event>, i: int)
    requires 0 <= i < |events| && events[i].SetsError()
    requires forall j :: i < j < |events| ==> !events[j].SetsError()
    ensures LatestError(initial, events) == events[i].ErrorWritten()
    decreases |events|
  {
    var n := |events| - 1;
    if i < n {
      var front := events[..n];
      assert forall j :: i < j < |front| ==> front[j] == events[j];
      LatestErrorAt(initial, front, i);
    }
  }

  /** The error shown is the message of the latest failure, as long as no
      handler has started since; successes in between do not clear it. */
  lemma ErrorShowsLatestFailure(s: State, events: seq<Event>, i: int)
    requires 0 <= i < |events| && events[i].Failed()
    requires forall j :: i < j < |events| ==> !events[j].Starts() && !events[j].Failed()
    ensures Run(s, events).error == events[i].ErrorWritten()
    ensures Run(s, events).error != ""
  {
    ErrorIsLatestWritten(s, events);
    LatestErrorAt(s.error, events, i);
  }

  /** Once a handler starts, the error stays empty until some call fails. */
  lemma ErrorEmptyAfterStart(s: State, events: seq<Event>, i: int)
    requires 0 <= i < |events| && events[i].Starts()
    requires forall j :: i < j < |events| ==> !events[j].Failed()
    ensures Run(s, events).error == ""
  {
    ErrorIsLatestWritten(s, events);
    LatestErrorEmpty(s.error, events, i);
  }

  /** The error scan finds "" when a start is followed by no failure. */
  lemma {:induction false} LatestErrorEmpty(initial: string, events: seq<Event>, i: int)
    requires 0 <= i < |events| && events[i].Starts()
    requires forall j :: i < j < |events| ==> !events[j].Failed()
    ensures LatestError(initial, events) == ""
    decreases |events|
  {
    var n := |events| - 1;
    if i < n && !events[n].SetsError() {
      var front := events[..n];
      assert forall j :: i < j < |front| ==> front[j] == events[j];
      LatestErrorEmpty(initial, front, i);
    }
  }

  /** A non-empty error, starting from none, names a failure that happened
      and after which no handler started and nothing else failed. */
  lemma {:induction false} ErrorHasACause(s: State, events: seq<Event>)
    requires s.error == ""
    requires Run(s, events).error != ""
    ensures exists i :: 0 <= i < |events| && events[i].Failed() &&
                        events[i].ErrorWritten() == Run(s, events).error &&
                        forall j :: i < j < |events| ==> !events[j].SetsError()
    decreases |events|
  {
    ErrorIsLatestWritten(s, events);
    var n := |events| - 1;
    var front := events[..n];
    if events[n].SetsError() {
      assert events[n].Failed();
    } else {
      ErrorIsLatestWritten(s, front);
      RunLast(s, front, events[n]);
      assert events == front + [events[n]];
      ErrorHasACause(s, front);
      var i :| 0 <= i < |front| && front[i].Failed() &&
               front[i].ErrorWritten() == Run(s, front).error &&
               forall j :: i < j < |front| ==> !front[j].SetsError();
      assert events[i] == front[i];
    }
  }

  /** The error always holds at most one of the fixed messages. */
  lemma {:induction false} ErrorIsOneMessage(s: State, events: seq<Event>)
    requires IsShownError(s.error)
    ensures IsShownError(Run(s, events).error)
    decreases |events|
  {
    if events != [] {
      ErrorIsOneMessage(Step(s, events[0]), events[1..]);
    }
  }

  /** Failed calls, handler starts and edits never touch the list: a run
      without a successful completion leaves it as it was. */
  lemma {:induction false} ListChangesOnlyOnSuccess(s: State, events: seq<Event>)
    requires forall e :: e in events ==> !e.Succeeded()
    ensures Run(s, events).todos == s.todos
    decreases |events|
  {
    if events != [] {
      assert events[0] in events;
      assert forall e :: e in events[1..] ==> e in events;
      ListChangesOnlyOnSuccess(Step(s, events[0]), events[1..]);
    }
  }

  /** The typed title and description survive until a create succeeds or
      the user types again; a failed create keeps them for a retry. */
  lemma {:induction false} FormKeptUntilCreateSucceeds(s: State, events: seq<Event>)
    requires forall e :: e in events ==>
      !e.TitleChanged? && !e.DescriptionChanged? && !(e.CreateCompleted? && e.created.Success?)
    ensures Run(s, events).title == s.title
    ensures Run(s, events).description == s.description
    decreases |events|
  {
    if events != [] {
      assert events[0] in events;
      assert forall e :: e in events[1..] ==> e in events;
      FormKeptUntilCreateSucceeds(Step(s, events[0]), events[1..]);
    }
  }

  /** Two deletes that both succeed leave the same list in either completion order. */
  lemma DeletesCommute(s: State, a: TodoId, b: TodoId)
    ensures Run(s, [DeleteCompleted(a, Success(())), DeleteCompleted(b, Success(()))]).todos ==
            Run(s, [DeleteCompleted(b, Success(())), DeleteCompleted(a, Success(()))]).todos
  {
    RemoveIdCommutes(s.todos, a, b);
    RunTwo(s, DeleteCompleted(a, Success(())), DeleteCompleted(b, Success(())));
    RunTwo(s, DeleteCompleted(b, Success(())), DeleteCompleted(a, Success(())));
  }

  /** When both calls succeed, deleting a record a second time, after the
      first delete has completed, changes nothing. */
  lemma RepeatedDeleteIsNoOp(s: State, id: TodoId)
    ensures Run(s, [DeleteStarted(id), DeleteCompleted(id, Success(())), DeleteStarted(id), DeleteCompleted(id, Success(()))]) ==
            Run(s, [DeleteStarted(id), DeleteCompleted(id, Success(()))])
  {
    RunTwo(s, DeleteStarted(id), DeleteCompleted(id, Success(())));
    RunFour(s, DeleteStarted(id), DeleteCompleted(id, Success(())), DeleteStarted(id), DeleteCompleted(id, Success(())));
    RemoveIdIdempotent(s.todos, id);
  }

  /** A double click starts two deletes of one id before either completes;
      when both succeed, the state is the one a single delete leaves. */
  lemma OverlappingDeletesAreOneDelete(s: State, id: TodoId)
    ensures Run(s, [DeleteStarted(id), DeleteStarted(id), DeleteCompleted(id, Success(())), DeleteCompleted(id, Success(()))]) ==
            Run(s, [DeleteStarted(id), DeleteCompleted(id, Success(()))])
  {
    RunTwo(s, DeleteStarted(id), DeleteCompleted(id, Success(())));
    RunFour(s, DeleteStarted(id), DeleteStarted(id), DeleteCompleted(id, Success(())), DeleteCompleted(id, Success(())));
    RemoveIdIdempotent(s.todos, id);
  }

  /** Creating a task whose id the service made fresh and then deleting it
      gives back the list as it was before the create. */
  lemma CreateThenDeleteRestoresList(s: State, t: Todo)
    requires !HasId(s.todos, t.id)
    ensures Run(s, [CreateStarted, CreateCompleted(Success(t)), DeleteStarted(t.id), DeleteCompleted(t.id, Success(()))]).todos == s.todos
  {
    RunFour(s, CreateStarted, CreateCompleted(Success(t)), DeleteStarted(t.id), DeleteCompleted(t.id, Success(())));
    AppendThenRemove(s.todos, t);
  }

  /** The run delivers lists whose ids are unique and, on create, a record
      whose id is not already in the list at that moment. The component
      itself does not check this. */
  ghost predicate ServiceKeepsIdsUnique(s: State, events: seq<Event>)
    decreases |events|
  {
    events != [] ==>
      (match events[0]
       case LoadCompleted(Success(data)) => IdsUnique(data)
       case CreateCompleted(Success(t)) => !HasId(s.todos, t.id)
       case _ => true) &&
      ServiceKeepsIdsUnique(Step(s, events[0]), events[1..])
  }

  /** With such a service, the list never holds two records with one id. */
  lemma {:induction false} IdsStayUnique(s: State, events: seq<Event>)
    requires IdsUnique(s.todos) && ServiceKeepsIdsUnique(s, events)
    ensures IdsUnique(Run(s, events).todos)
    decreases |events|
  {
    if events != [] {
      var e := events[0];
      match e {
        case CreateCompleted(Success(t)) => AppendFreshKeepsIdsUnique(s.todos, t);
        case DeleteCompleted(id, Success(_)) => RemoveIdKeepsIdsUnique(s.todos, id);
        case _ =>
      }
      IdsStayUnique(Step(s, e), events[1..]);
    }
  }

  /** The component does not guard against duplicates: when the mount load
      completes with a list that already holds the record being created and
      the create's response arrives afterwards, the record is appended again. */
  lemma LoadBeforeCreateResponseDuplicates(t: Todo)
    ensures Run(Initial, [LoadStarted, CreateStarted, LoadCompleted(Success([t])), CreateCompleted(Success(t))]).todos == [t, t]
    ensures IdsUnique([t]) && !IdsUnique([t, t])
  {
    RunFour(Initial, LoadStarted, CreateStarted, LoadCompleted(Success([t])), CreateCompleted(Success(t)));
    assert [t, t][0].id == [t, t][1].id;
  }

  /** A success does not clear an error raised by a call that failed after
      the succeeding handler had started: the error is cleared only when a
      handler starts. */
  lemma SuccessKeepsInterleavedFailure(s: State, id: TodoId)
    ensures Run(s, [LoadStarted, DeleteStarted(id), LoadCompleted(Failure), DeleteCompleted(id, Success(()))]).error == LoadError
  {
    var events := [LoadStarted, DeleteStarted(id), LoadCompleted(Failure), DeleteCompleted(id, Success(()))];
    ErrorShowsLatestFailure(s, events, 2);
  }
}
