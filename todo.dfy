/** The task collection of the to-do application (`TodoApp` in todo-application/scripts/todo.js),
    stripped of rendering and storage: an ordered list of task records, newest first,
    and the filter the list view is showing. */
module TodoList {
  import opened Seqs
  import opened Text

  /** One task record. `id` comes from the clock in milliseconds and `createdAt` is an
      ISO-8601 timestamp; both are supplied by the caller here. */
  datatype Todo = Todo(id: int, text: string, completed: bool, createdAt: string)

  /** The three numbers shown under the list. */
  datatype Counts = Counts(total: int, pending: int, completed: int)

  predicate IsPending(t: Todo) { !t.completed }

  predicate IsCompleted(t: Todo) { t.completed }

  /** No two records share an id. The application does not enforce this. */
  ghost predicate UniqueIds(todos: seq<Todo>)
  {
    forall i, j :: 0 <= i < j < |todos| ==> todos[i].id != todos[j].id
  }

  ghost predicate HasId(todos: seq<Todo>, id: int)
  {
    exists i :: 0 <= i < |todos| && todos[i].id == id
  }

  /** Every text is non-empty and already trimmed, as every text the app itself writes is. */
  ghost predicate TextsTrimmed(todos: seq<Todo>)
  {
    forall i :: 0 <= i < |todos| ==> todos[i].text != [] && Trim(todos[i].text) == todos[i].text
  }

  /** The list after adding `input`: blank input is ignored; otherwise a fresh, pending
      record carrying the trimmed text goes in front of the old list. */
  function Added(todos: seq<Todo>, input: string, id: int, createdAt: string): (r: seq<Todo>)
    ensures r == todos <==> Trim(input) == []
    ensures r != todos ==> |r| == |todos| + 1 && r[1..] == todos
    ensures r != todos ==> r[0].id == id && r[0].createdAt == createdAt && !r[0].completed
    ensures r != todos ==> r[0].text != [] && Trim(r[0].text) == r[0].text
    ensures r != todos ==> r[0].text == Trim(input)
  {
    var text := Trim(input);
    TrimIdempotent(input);
    if text == [] then todos else [Todo(id, text, false, createdAt)] + todos
  }

  /** The list after toggling `id`: same length and order, `completed` flipped on exactly
      the records carrying `id`, and every other field of every record kept. */
  function Toggled(todos: seq<Todo>, id: int): (r: seq<Todo>)
    ensures |r| == |todos|
    ensures forall i :: 0 <= i < |r| ==>
              r[i].id == todos[i].id && r[i].text == todos[i].text && r[i].createdAt == todos[i].createdAt
    ensures forall i :: 0 <= i < |r| ==> (r[i].completed != todos[i].completed <==> todos[i].id == id)
  {
    seq(|todos|, i requires 0 <= i < |todos| =>
      if todos[i].id == id then todos[i].(completed := !todos[i].completed) else todos[i])
  }

  /** The list after editing `id` to `newText`: nothing changes when the new text is blank;
      otherwise the records carrying `id` get the trimmed text and nothing else changes. */
  function Edited(todos: seq<Todo>, id: int, newText: string): (r: seq<Todo>)
    ensures Trim(newText) == [] ==> r == todos
    ensures |r| == |todos|
    ensures forall i :: 0 <= i < |r| ==>
              r[i].id == todos[i].id && r[i].completed == todos[i].completed && r[i].createdAt == todos[i].createdAt
    ensures forall i :: 0 <= i < |r| && todos[i].id != id ==> r[i] == todos[i]
    ensures forall i :: 0 <= i < |r| && todos[i].id == id ==>
              r[i].text == if Trim(newText) == [] then todos[i].text else Trim(newText)
  {
    var text := Trim(newText);
    if text == [] then todos else
      seq(|todos|, i requires 0 <= i < |todos| =>
        if todos[i].id == id then todos[i].(text := text) else todos[i])
  }

  /** The list after deleting `id`: the records without that id, in their old order. No
      record with `id` is left, every other record stays, and an absent id changes nothing. */
  function Deleted(todos: seq<Todo>, id: int): (r: seq<Todo>)
    ensures IsSubsequence(r, todos)
    ensures forall i :: 0 <= i < |r| ==> r[i].id != id
    ensures forall i :: 0 <= i < |todos| && todos[i].id != id ==> todos[i] in r
    ensures !HasId(todos, id) ==> r == todos
    ensures |r| + |Filter(todos, (t: Todo) => t.id == id)| == |todos|
  {
    var keep := (t: Todo) => t.id != id;
    FilterIsSubsequence(todos, keep);
    FilterKeepsAll(todos, keep);
    FilterPartition(todos, keep, (t: Todo) => t.id == id);
    Filter(todos, keep)
  }

  /** `todos.filter(todo => !todo.completed)`: the pending view, and what clearing the
      completed tasks keeps. */
  function PendingTodos(todos: seq<Todo>): (r: seq<Todo>)
    ensures IsSubsequence(r, todos)
    ensures forall i :: 0 <= i < |r| ==> !r[i].completed
    ensures forall i :: 0 <= i < |todos| && !todos[i].completed ==> todos[i] in r
  {
    FilterIsSubsequence(todos, IsPending);
    Filter(todos, IsPending)
  }

  /** `todos.filter(todo => todo.completed)`: the completed view. */
  function CompletedTodos(todos: seq<Todo>): (r: seq<Todo>)
    ensures IsSubsequence(r, todos)
    ensures forall i :: 0 <= i < |r| ==> r[i].completed
    ensures forall i :: 0 <= i < |todos| && todos[i].completed ==> todos[i] in r
  {
    FilterIsSubsequence(todos, IsCompleted);
    Filter(todos, IsCompleted)
  }

  /** The live task list. Storage, rendering and the confirmation dialog are outside:
      the constructor receives the stored snapshot, and the methods receive the clock
      reading and the user's answer as parameters. */
  class TodoApp {
    var todos: seq<Todo>
    var currentFilter: string

    constructor (stored: seq<Todo>)
      ensures todos == stored && currentFilter == "all"
    {
      todos := stored;
      currentFilter := "all";
    }

    /** Adds the text typed by the user, with the id `now` and the timestamp `createdAt`. */
    method AddTodo(input: string, now: int, createdAt: string)
      modifies this
      ensures todos == Added(old(todos), input, now, createdAt)
      ensures currentFilter == old(currentFilter)
    {
      var text := Trim(input);
      if text != [] {
        var todo := Todo(now, text, false, createdAt);
        todos := [todo] + todos;
      }
    }

    method ToggleTodo(id: int)
      modifies this
      ensures todos == Toggled(old(todos), id)
      ensures currentFilter == old(currentFilter)
    {
      todos := Toggled(todos, id);
    }

    method EditTodo(id: int, newText: string)
      modifies this
      ensures todos == Edited(old(todos), id, newText)
      ensures currentFilter == old(currentFilter)
    {
      if Trim(newText) != [] {
        todos := Edited(todos, id, newText);
      }
    }

    method DeleteTodo(id: int)
      modifies this
      ensures todos == Deleted(old(todos), id)
      ensures currentFilter == old(currentFilter)
    {
      todos := Deleted(todos, id);
    }

    method SetFilter(filter: string)
      modifies this
      ensures currentFilter == filter && todos == old(todos)
    {
      currentFilter := filter;
    }

    method ClearCompleted()
      modifies this
      ensures todos == PendingTodos(old(todos))
      ensures currentFilter == old(currentFilter)
    {
      todos := PendingTodos(todos);
    }

    /** Empties the list when the user confirmed, and does nothing otherwise. */
    method ClearAll(confirmed: bool)
      modifies this
      ensures confirmed ==> todos == []
      ensures !confirmed ==> todos == old(todos)
      ensures currentFilter == old(currentFilter)
    {
      if confirmed {
        todos := [];
      }
    }

    /** The records the list shows under the current filter: the pending ones for
        "pending", the completed ones for "completed", every record for anything else. */
    function GetFilteredTodos(): (r: seq<Todo>)
      reads this
      ensures IsSubsequence(r, todos)
      ensures currentFilter == "pending" ==> r == PendingTodos(todos)
      ensures currentFilter == "completed" ==> r == CompletedTodos(todos)
      ensures currentFilter != "pending" && currentFilter != "completed" ==> r == todos
    {
      match currentFilter
      case "pending" => PendingTodos(todos)
      case "completed" => CompletedTodos(todos)
      case _ => SubsequenceReflexive(todos); todos
    }

    /** The totals shown under the list. The pending count is computed as total minus
        completed, and it equals the length of the pending view. */
    function Stats(): (c: Counts)
      reads this
      ensures c.total == |todos|
      ensures c.completed == |CompletedTodos(todos)|
      ensures c.pending == |PendingTodos(todos)|
      ensures c.pending + c.completed == c.total
    {
      var total := |todos|;
      var completed := |CompletedTodos(todos)|;
      FilterPartition(todos, IsPending, IsCompleted);
      Counts(total, total - completed, completed)
    }
  }

  /** Toggling the same id twice restores the list. */
  lemma ToggleTwice(todos: seq<Todo>, id: int)
    ensures Toggled(Toggled(todos, id), id) == todos
  {
    var r := Toggled(Toggled(todos, id), id);
    forall i | 0 <= i < |todos| ensures r[i] == todos[i] {
    }
  }

  /** Clearing completed tasks twice is clearing them once; afterwards none is completed
      and the completed view is empty. */
  lemma ClearCompletedIdempotent(todos: seq<Todo>)
    ensures PendingTodos(PendingTodos(todos)) == PendingTodos(todos)
    ensures CompletedTodos(PendingTodos(todos)) == []
  {
    FilterIdempotent(todos, IsPending);
    var p := PendingTodos(todos);
    FilterPartition(p, IsPending, IsCompleted);
  }

  /** The pending and completed views split the list: their lengths add up to the total. */
  lemma ViewsPartition(todos: seq<Todo>)
    ensures |PendingTodos(todos)| + |CompletedTodos(todos)| == |todos|
  {
    FilterPartition(todos, IsPending, IsCompleted);
  }

  /** An order-preserving subsequence of a list with unique ids has unique ids. */
  lemma SubsequenceKeepsIdsUnique(r: seq<Todo>, todos: seq<Todo>)
    requires IsSubsequence(r, todos) && UniqueIds(todos)
    ensures UniqueIds(r)
  {
    var idx :| Embeds(r, todos, idx);
    forall i, j | 0 <= i < j < |r| ensures r[i].id != r[j].id {
      assert r[i] == todos[idx[i]] && r[j] == todos[idx[j]] && idx[i] < idx[j];
    }
  }

  /** One user action, with the clock reading and the dialog answer it needs. */
  datatype Action =
    | Add(input: string, now: int, createdAt: string)
    | Toggle(id: int)
    | Edit(id: int, newText: string)
    | Delete(id: int)
    | ClearDone
    | ClearEverything(confirmed: bool)

  function Apply(todos: seq<Todo>, a: Action): seq<Todo>
  {
    match a
    case Add(input, now, createdAt) => Added(todos, input, now, createdAt)
    case Toggle(id) => Toggled(todos, id)
    case Edit(id, newText) => Edited(todos, id, newText)
    case Delete(id) => Deleted(todos, id)
    case ClearDone => PendingTodos(todos)
    case ClearEverything(confirmed) => if confirmed then [] else todos
  }

  function Run(todos: seq<Todo>, actions: seq<Action>): seq<Todo>
    decreases |actions|
  {
    if actions == [] then todos else Run(Apply(todos, actions[0]), actions[1..])
  }

  /** Every id is below `bound`. */
  ghost predicate IdsBelow(todos: seq<Todo>, bound: int)
  {
    forall i :: 0 <= i < |todos| ==> todos[i].id < bound
  }

  /** The clock moves forward between additions: each added id is at least `lower` and
      every later one is larger. */
  ghost predicate ClockAdvances(actions: seq<Action>, lower: int)
    decreases |actions|
  {
    actions == [] ||
    match actions[0]
    case Add(_, now, _) => lower <= now && ClockAdvances(actions[1..], now + 1)
    case _ => ClockAdvances(actions[1..], lower)
  }

  /** Records that pass through an operation keep their ids, so a list whose ids are
      unique and below `bound` keeps both properties. */
  lemma SameIdsKeepIdsUnique(r: seq<Todo>, todos: seq<Todo>, bound: int)
    requires UniqueIds(todos) && IdsBelow(todos, bound)
    requires |r| == |todos| && forall i :: 0 <= i < |r| ==> r[i].id == todos[i].id
    ensures UniqueIds(r) && IdsBelow(r, bound)
  {
  }

  lemma SubsequenceKeepsIdsBelow(r: seq<Todo>, todos: seq<Todo>, bound: int)
    requires IsSubsequence(r, todos) && IdsBelow(todos, bound)
    ensures IdsBelow(r, bound)
  {
    var idx :| Embeds(r, todos, idx);
    forall i | 0 <= i < |r| ensures r[i].id < bound {
      assert r[i] == todos[idx[i]];
    }
  }

  /** Adding with an id above every present id keeps ids unique. */
  lemma AddedKeepsIdsUnique(todos: seq<Todo>, input: string, now: int, createdAt: string, bound: int)
    requires UniqueIds(todos) && IdsBelow(todos, bound) && bound <= now
    ensures UniqueIds(Added(todos, input, now, createdAt))
    ensures IdsBelow(Added(todos, input, now, createdAt), now + 1)
  {
    var r := Added(todos, input, now, createdAt);
    if Trim(input) != [] {
      var t := Todo(now, Trim(input), false, createdAt);
      assert r == [t] + todos;
      assert r[1..] == todos;
      forall i, j | 0 <= i < j < |r| ensures r[i].id != r[j].id {
        assert r[j] == todos[j - 1];
        if i > 0 {
          assert r[i] == todos[i - 1];
        }
      }
      forall i | 0 <= i < |r| ensures r[i].id < now + 1 {
        if i > 0 {
          assert r[i] == todos[i - 1];
        }
      }
    }
  }

  /** A single action keeps ids unique provided an addition uses an id above every id
      present; no action other than an addition introduces an id. */
  lemma ApplyKeepsIdsUnique(todos: seq<Todo>, a: Action, bound: int)
    requires UniqueIds(todos) && IdsBelow(todos, bound)
    requires a.Add? ==> bound <= a.now
    ensures UniqueIds(Apply(todos, a))
    ensures IdsBelow(Apply(todos, a), if a.Add? then a.now + 1 else bound)
  {
    match a
    case Add(input, now, createdAt) =>
      AddedKeepsIdsUnique(todos, input, now, createdAt, bound);
    case Toggle(id) =>
      SameIdsKeepIdsUnique(Toggled(todos, id), todos, bound);
    case Edit(id, newText) =>
      SameIdsKeepIdsUnique(Edited(todos, id, newText), todos, bound);
    case Delete(id) =>
      SubsequenceKeepsIdsUnique(Deleted(todos, id), todos);
      SubsequenceKeepsIdsBelow(Deleted(todos, id), todos, bound);
    case ClearDone =>
      SubsequenceKeepsIdsUnique(PendingTodos(todos), todos);
      SubsequenceKeepsIdsBelow(PendingTodos(todos), todos, bound);
    case ClearEverything(confirmed) =>
  }

  /** Ids stay unique through any run of user actions, as long as the clock that supplies
      the ids of added tasks moves strictly forward. */
  lemma {:induction false} RunKeepsIdsUnique(todos: seq<Todo>, actions: seq<Action>, lower: int)
    requires UniqueIds(todos) && IdsBelow(todos, lower) && ClockAdvances(actions, lower)
    ensures UniqueIds(Run(todos, actions))
    decreases |actions|
  {
    if actions != [] {
      var a := actions[0];
      ApplyKeepsIdsUnique(todos, a, lower);
      RunKeepsIdsUnique(Apply(todos, a), actions[1..], if a.Add? then a.now + 1 else lower);
    }
  }

  /** Two non-blank additions that read the same clock value produce two records
      with one id: ids are unique only while the clock moves forward. */
  lemma SameTickDuplicatesId(todos: seq<Todo>, first: string, second: string, now: int, c1: string, c2: string)
    requires Trim(first) != [] && Trim(second) != []
    ensures !UniqueIds(Added(Added(todos, first, now, c1), second, now, c2))
  {
    var once := Added(todos, first, now, c1);
    var twice := Added(once, second, now, c2);
    assert twice[1] == once[0];
  }

  /** Adding puts a non-empty trimmed text in front of texts that already were. */
  lemma AddedKeepsTextsTrimmed(todos: seq<Todo>, input: string, now: int, createdAt: string)
    requires TextsTrimmed(todos)
    ensures TextsTrimmed(Added(todos, input, now, createdAt))
  {
    var r := Added(todos, input, now, createdAt);
    if Trim(input) != [] {
      var t := Todo(now, Trim(input), false, createdAt);
      assert r == [t] + todos;
      TrimIdempotent(input);
      forall i | 0 <= i < |r| ensures r[i].text != [] && Trim(r[i].text) == r[i].text {
        if i > 0 {
          assert r[i] == todos[i - 1];
        }
      }
    }
  }

  /** Records that pass through an operation unchanged or with a trimmed, non-empty new
      text keep every text trimmed. */
  lemma EditedKeepsTextsTrimmed(todos: seq<Todo>, id: int, newText: string)
    requires TextsTrimmed(todos)
    ensures TextsTrimmed(Edited(todos, id, newText))
  {
    var r := Edited(todos, id, newText);
    TrimIdempotent(newText);
    forall i | 0 <= i < |r| ensures r[i].text != [] && Trim(r[i].text) == r[i].text {
      if todos[i].id != id {
        assert r[i] == todos[i];
      }
    }
  }

  lemma SubsequenceKeepsTextsTrimmed(r: seq<Todo>, todos: seq<Todo>)
    requires IsSubsequence(r, todos) && TextsTrimmed(todos)
    ensures TextsTrimmed(r)
  {
    var idx :| Embeds(r, todos, idx);
    forall i | 0 <= i < |r| ensures r[i].text != [] && Trim(r[i].text) == r[i].text {
      assert r[i] == todos[idx[i]];
    }
  }

  /** Every action keeps every text non-empty and trimmed. */
  lemma ApplyKeepsTextsTrimmed(todos: seq<Todo>, a: Action)
    requires TextsTrimmed(todos)
    ensures TextsTrimmed(Apply(todos, a))
  {
    match a
    case Add(input, now, createdAt) =>
      AddedKeepsTextsTrimmed(todos, input, now, createdAt);
    case Toggle(id) =>
    case Edit(id, newText) =>
      EditedKeepsTextsTrimmed(todos, id, newText);
    case Delete(id) =>
      SubsequenceKeepsTextsTrimmed(Deleted(todos, id), todos);
    case ClearDone =>
      SubsequenceKeepsTextsTrimmed(PendingTodos(todos), todos);
    case ClearEverything(confirmed) =>
  }

  /** Starting from texts that are non-empty and trimmed, no run of user actions ever
      produces an empty or untrimmed text. */
  lemma {:induction false} RunKeepsTextsTrimmed(todos: seq<Todo>, actions: seq<Action>)
    requires TextsTrimmed(todos)
    ensures TextsTrimmed(Run(todos, actions))
    decreases |actions|
  {
    if actions != [] {
      ApplyKeepsTextsTrimmed(todos, actions[0]);
      RunKeepsTextsTrimmed(Apply(todos, actions[0]), actions[1..]);
    }
  }
}
