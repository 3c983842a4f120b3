/** The task records held by the Task component and the one list
    transformation it performs on them: keeping every record whose id differs
    from a given one (the `filter` applied when a delete succeeds). */
module TodoList {

  /** Identifier assigned by the service; the component only compares ids. */
  type TodoId = int

  /** A task record as the service returns it. Only `id` is used by the
      component's logic; `title` and `description` are carried for display. */
  datatype Todo = Todo(id: TodoId, title: string, description: string)

  /** True when `id` is the id of some record in `todos`. */
  predicate HasId(todos: seq<Todo>, id: TodoId)
  {
    exists t :: t in todos && t.id == id
  }

  /** No two positions of the list hold records with the same id. */
  ghost predicate IdsUnique(todos: seq<Todo>)
  {
    forall i, j :: 0 <= i < j < |todos| ==> todos[i].id != todos[j].id
  }

  /** `sub` is `s` with some elements dropped and the rest in their order. */
  ghost predicate IsSubsequence(sub: seq<Todo>, s: seq<Todo>)
    decreases |s|
  {
    if sub == [] then true
    else if s == [] then false
    else if sub[0] == s[0] then IsSubsequence(sub[1..], s[1..])
    else IsSubsequence(sub, s[1..])
  }

  /** The records of `todos` whose id is not `id`, scanned front to back. */
  function RemoveId(todos: seq<Todo>, id: TodoId): (r: seq<Todo>)
    ensures |r| <= |todos|
    ensures forall t :: t in r <==> t in todos && t.id != id
  {
    if todos == [] then []
    else if todos[0].id != id then [todos[0]] + RemoveId(todos[1..], id)
    else RemoveId(todos[1..], id)
  }

  /** Every copy of a record with another id survives, as many times as the
      list holds it, and no copy of a record with that id does. */
  lemma {:induction false} RemoveIdKeepsEveryCopy(todos: seq<Todo>, id: TodoId, t: Todo)
    ensures multiset(RemoveId(todos, id))[t] == if t.id != id then multiset(todos)[t] else 0
  {
    if todos != [] {
      assert todos == [todos[0]] + todos[1..];
      RemoveIdKeepsEveryCopy(todos[1..], id, t);
    }
  }

  /** Removing by id works piece by piece: it never moves a record across
      another, so it distributes over concatenation. */
  lemma {:induction false} RemoveIdAppend(a: seq<Todo>, b: seq<Todo>, id: TodoId)
    ensures RemoveId(a + b, id) == RemoveId(a, id) + RemoveId(b, id)
  {
    if a == [] {
      assert a + b == b;
    } else {
      assert (a + b)[1..] == a[1..] + b;
      RemoveIdAppend(a[1..], b, id);
    }
  }

  /** The surviving records keep their original relative order. */
  lemma {:induction false} RemoveIdIsSubsequence(todos: seq<Todo>, id: TodoId)
    ensures IsSubsequence(RemoveId(todos, id), todos)
  {
    if todos != [] {
      RemoveIdIsSubsequence(todos[1..], id);
      if todos[0].id != id {
        var r := RemoveId(todos, id);
        assert r[0] == todos[0] && r[1..] == RemoveId(todos[1..], id);
      } else {
        SubsequenceOfTail(RemoveId(todos[1..], id), todos);
      }
    }
  }

  /** A subsequence of the tail is a subsequence of the whole list. */
  lemma {:induction false} SubsequenceOfTail(sub: seq<Todo>, s: seq<Todo>)
    requires s != [] && IsSubsequence(sub, s[1..])
    ensures IsSubsequence(sub, s)
    decreases |s|, 0
  {
    if sub != [] && sub[0] == s[0] {
      DropHead(sub, s[1..]);
    }
  }

  /** Dropping the first element of a subsequence keeps it a subsequence. */
  lemma {:induction false} DropHead(sub: seq<Todo>, s: seq<Todo>)
    requires sub != [] && IsSubsequence(sub, s)
    ensures IsSubsequence(sub[1..], s)
    decreases |s|, 1
  {
    if sub[0] != s[0] {
      DropHead(sub, s[1..]);
    }
    SubsequenceOfTail(sub[1..], s);
  }

  /** Deleting an id that no record carries leaves the list as it is. */
  lemma {:induction false} RemoveAbsentId(todos: seq<Todo>, id: TodoId)
    requires !HasId(todos, id)
    ensures RemoveId(todos, id) == todos
  {
    if todos != [] {
      assert todos[0] in todos;
      assert !HasId(todos[1..], id) by {
        forall t | t in todos[1..] ensures t.id != id {
          assert t in todos;
        }
      }
      RemoveAbsentId(todos[1..], id);
    }
  }

  /** A second delete of the same id changes nothing. */
  lemma RemoveIdIdempotent(todos: seq<Todo>, id: TodoId)
    ensures RemoveId(RemoveId(todos, id), id) == RemoveId(todos, id)
  {
  }

  /** Two deletes give the same list whichever completes first. */
  lemma {:induction false} RemoveIdCommutes(todos: seq<Todo>, a: TodoId, b: TodoId)
    ensures RemoveId(RemoveId(todos, a), b) == RemoveId(RemoveId(todos, b), a)
  {
    if todos != [] {
      RemoveIdCommutes(todos[1..], a, b);
    }
  }

  /** Deleting a record whose id is fresh right after appending it gives back
      the list as it was before the append. */
  lemma AppendThenRemove(todos: seq<Todo>, t: Todo)
    requires !HasId(todos, t.id)
    ensures RemoveId(todos + [t], t.id) == todos
  {
    RemoveIdAppend(todos, [t], t.id);
    RemoveAbsentId(todos, t.id);
  }

  /** Removing records never creates a duplicate id. */
  lemma {:induction false} RemoveIdKeepsIdsUnique(todos: seq<Todo>, id: TodoId)
    requires IdsUnique(todos)
    ensures IdsUnique(RemoveId(todos, id))
  {
    if todos != [] {
      var tail := todos[1..];
      assert IdsUnique(tail) by {
        forall i, j | 0 <= i < j < |tail| ensures tail[i].id != tail[j].id {
          assert tail[i] == todos[i + 1] && tail[j] == todos[j + 1];
        }
      }
      RemoveIdKeepsIdsUnique(tail, id);
      if todos[0].id != id {
        assert !HasId(tail, todos[0].id) by {
          forall t | t in tail ensures t.id != todos[0].id {
            var m :| 0 <= m < |tail| && tail[m] == t;
            assert todos[m + 1] == t;
          }
        }
        PrependFreshKeepsIdsUnique(todos[0], RemoveId(tail, id));
      }
    }
  }

  /** Putting a record with a fresh id in front keeps the ids unique. */
  lemma PrependFreshKeepsIdsUnique(t: Todo, todos: seq<Todo>)
    requires IdsUnique(todos) && !HasId(todos, t.id)
    ensures IdsUnique([t] + todos)
  {
  }

  /** Appending a record whose id is fresh keeps the ids unique. */
  lemma AppendFreshKeepsIdsUnique(todos: seq<Todo>, t: Todo)
    requires IdsUnique(todos) && !HasId(todos, t.id)
    ensures IdsUnique(todos + [t])
  {
  }
}
