/** The task records of the board and the pure rules that the store's
    operations apply to the task list: status validity, the load-time filter,
    the `find` used by move and edit, the `filter` used by delete, the new
    record built by add, the content rule of an edit commit, and the routing of
    tasks into the three columns. */
module Tasks {
  import opened Seqs
  import opened Text

  datatype Option<T> = None | Some(value: T)

  /** A task record `{id, content, currentStatus}`. The status is kept as the
      string the record carries; only three strings are valid. */
  datatype Task = Task(id: string, content: string, currentStatus: string)

  /** The three columns of the board, each a drop target for its status. */
  datatype Column = Todo | Doing | Done

  function StatusName(c: Column): string {
    match c
    case Todo => "todo"
    case Doing => "doing"
    case Done => "done"
  }

  /** Membership in the list of valid statuses `['todo', 'doing', 'done']`. */
  predicate IsValidStatus(s: string) {
    s == "todo" || s == "doing" || s == "done"
  }

  /** The store's invariant: every task in the list has a valid status. */
  predicate AllValid(l: seq<Task>) {
    forall k :: 0 <= k < |l| ==> IsValidStatus(l[k].currentStatus)
  }

  lemma StatusNamesAreValid(s: string)
    ensures IsValidStatus(s) <==> exists c: Column :: StatusName(c) == s
  {
    if s == "todo" { assert StatusName(Todo) == s; }
    if s == "doing" { assert StatusName(Doing) == s; }
    if s == "done" { assert StatusName(Done) == s; }
  }

  // ---------------------------------------------------------------------
  // Loading: the persisted blob and the shape check applied to it
  // ---------------------------------------------------------------------

  /** One element of a parsed array. `Nullish` is `null` (reading its status
      throws); `Untagged` is any other element whose `currentStatus` is not a
      string (a number, a string, an object without the field, ...), which the
      filter simply drops; `Entry` is an object carrying string fields. */
  datatype RawItem = Nullish | Untagged | Entry(task: Task)

  /** What `localStorage.getItem('list')` followed by `JSON.parse` yields:
      nothing stored (or the empty string), text that does not parse, a value
      that is not an array, or an array of elements. */
  datatype Blob = Absent | Unparseable | NotArray | Array(items: seq<RawItem>)

  /** The entries of `items` whose status is valid, in their original order. */
  function Kept(items: seq<RawItem>): (r: seq<Task>)
    ensures AllValid(r)
    ensures forall t :: t in r ==> Entry(t) in items && IsValidStatus(t.currentStatus)
  {
    if items == [] then []
    else
      var rest := Kept(items[1..]);
      match items[0]
      case Entry(t) => if IsValidStatus(t.currentStatus) then [t] + rest else rest
      case _ => rest
  }

  /** The list after `loadToStorage`, given the list before it. */
  function Loaded(b: Blob, current: seq<Task>): (r: seq<Task>)
    ensures b.Absent? ==> r == current
    ensures !b.Absent? ==> AllValid(r)
    ensures b.Unparseable? || b.NotArray? || (b.Array? && Nullish in b.items) ==> r == []
    ensures b.Array? && Nullish !in b.items ==> r == Kept(b.items)
  {
    match b
    case Absent => current
    case Unparseable => []
    case NotArray => []
    case Array(items) => if Nullish in items then [] else Kept(items)
  }

  /** A valid record is kept by the load filter, and so is nothing else. */
  lemma {:induction false} KeptMembership(items: seq<RawItem>, t: Task)
    ensures t in Kept(items) <==> Entry(t) in items && IsValidStatus(t.currentStatus)
  {
    if items != [] {
      KeptMembership(items[1..], t);
      assert items == [items[0]] + items[1..];
    }
  }

  /** The load filter keeps the relative order of the records. */
  lemma {:induction false} KeptAppend(a: seq<RawItem>, b: seq<RawItem>)
    ensures Kept(a + b) == Kept(a) + Kept(b)
  {
    if a == [] {
      assert a + b == b;
    } else {
      assert (a + b)[1..] == a[1..] + b;
      KeptAppend(a[1..], b);
    }
  }

  /** Load never leaves a task with an invalid status in a list that had none. */
  lemma LoadedValid(b: Blob, current: seq<Task>)
    requires AllValid(current)
    ensures AllValid(Loaded(b, current))
  {
  }

  // ---------------------------------------------------------------------
  // Saving: the blob that `JSON.stringify(list)` writes
  // ---------------------------------------------------------------------

  function Entries(l: seq<Task>): (r: seq<RawItem>)
    ensures |r| == |l|
    ensures forall k :: 0 <= k < |l| ==> r[k] == Entry(l[k])
  {
    if l == [] then [] else [Entry(l[0])] + Entries(l[1..])
  }

  /** The blob a successful save writes: an array without `null`, one entry
      per task, which the load filter gives back unchanged when every status
      is valid. */
  function Serialize(l: seq<Task>): (r: Blob)
    ensures r.Array? && Nullish !in r.items && |r.items| == |l|
    ensures AllValid(l) ==> Kept(r.items) == l
  {
    if AllValid(l) then KeptEntries(l); Array(Entries(l)) else Array(Entries(l))
  }

  /** Saving a valid list and loading it back yields the same list, in the
      same order, whatever the list held before the load. */
  lemma {:induction false} LoadAfterSave(l: seq<Task>, current: seq<Task>)
    requires AllValid(l)
    ensures Loaded(Serialize(l), current) == l
  {
    KeptEntries(l);
  }

  lemma {:induction false} KeptEntries(l: seq<Task>)
    requires AllValid(l)
    ensures Kept(Entries(l)) == l
  {
    if l != [] {
      var e := Entries(l);
      assert e == [Entry(l[0])] + Entries(l[1..]);
      assert e[0] == Entry(l[0]) && e[1..] == Entries(l[1..]);
      assert AllValid(l[1..]);
      KeptEntries(l[1..]);
      calc {
        Kept(e);
        [l[0]] + Kept(e[1..]);
        [l[0]] + l[1..];
        l;
      }
    }
  }

  // ---------------------------------------------------------------------
  // Move: `list.find(item => item.id === id)` and the guarded status change
  // ---------------------------------------------------------------------

  /** Index of the first task with identifier `id`, if any. */
  function FindFirst(l: seq<Task>, id: string): (r: Option<nat>)
    ensures r.Some? ==> r.value < |l| && l[r.value].id == id
    ensures r.Some? ==> forall k :: 0 <= k < r.value ==> l[k].id != id
    ensures r.None? ==> forall k :: 0 <= k < |l| ==> l[k].id != id
  {
    if l == [] then None
    else if l[0].id == id then Some(0)
    else match FindFirst(l[1..], id)
      case None => None
      case Some(k) => Some(k + 1)
  }

  /** The list after `move(id, newStatus)`. */
  function Moved(l: seq<Task>, id: string, newStatus: string): (r: seq<Task>)
    ensures |r| == |l|
    ensures forall k :: 0 <= k < |l| ==> r[k].id == l[k].id && r[k].content == l[k].content
  {
    if id == "" then l
    else match FindFirst(l, id)
      case None => l
      case Some(i) =>
        if l[i].currentStatus == newStatus then l
        else l[i := l[i].(currentStatus := newStatus)]
  }

  /** Move changes nothing exactly when the id is empty, no task has the id,
      or the first task with the id already has the target status. */
  lemma MoveNoOp(l: seq<Task>, id: string, newStatus: string)
    ensures Moved(l, id, newStatus) == l <==>
      id == "" || (forall k :: 0 <= k < |l| ==> l[k].id != id) ||
      l[FindFirst(l, id).value].currentStatus == newStatus
  {
    if id != "" && FindFirst(l, id).Some? {
      var i := FindFirst(l, id).value;
      if l[i].currentStatus != newStatus {
        assert Moved(l, id, newStatus)[i] != l[i];
      }
    }
  }

  /** Otherwise only the first task with the id changes, and only its status;
      later tasks with the same id keep theirs. */
  lemma MoveChangesFirstOnly(l: seq<Task>, id: string, newStatus: string, i: nat)
    requires id != "" && FindFirst(l, id) == Some(i)
    ensures Moved(l, id, newStatus)[i] == l[i].(currentStatus := newStatus)
    ensures forall k :: 0 <= k < |l| && k != i ==> Moved(l, id, newStatus)[k] == l[k]
  {
  }

  /** Moving to a valid status keeps every status valid. */
  lemma MovedValid(l: seq<Task>, id: string, newStatus: string)
    requires AllValid(l) && IsValidStatus(newStatus)
    ensures AllValid(Moved(l, id, newStatus))
  {
  }

  // ---------------------------------------------------------------------
  // Delete: `list.filter(t => t.id !== id)`
  // ---------------------------------------------------------------------

  function IdIsNot(id: string): Task -> bool {
    (t: Task) => t.id != id
  }

  /** The list after deleting `id`. */
  function Deleted(l: seq<Task>, id: string): (r: seq<Task>)
    ensures |r| <= |l|
    ensures forall t :: t in r ==> t in l && t.id != id
  {
    Filter(l, IdIsNot(id))
  }

  /** Number of tasks with identifier `id`. */
  function Occurrences(l: seq<Task>, id: string): (n: nat)
    ensures n <= |l|
  {
    if l == [] then 0 else (if l[0].id == id then 1 else 0) + Occurrences(l[1..], id)
  }

  /** Delete removes every task with the id, duplicates included, and keeps
      every other task. */
  lemma DeleteMembership(l: seq<Task>, id: string, t: Task)
    ensures t in Deleted(l, id) <==> t in l && t.id != id
  {
    FilterMembership(l, IdIsNot(id), t);
  }

  /** The length drops by the number of tasks with the id. */
  lemma {:induction false} DeleteLength(l: seq<Task>, id: string)
    ensures |Deleted(l, id)| == |l| - Occurrences(l, id)
  {
    if l != [] {
      DeleteLength(l[1..], id);
    }
  }

  /** The surviving tasks keep their relative order. */
  lemma DeleteOrder(a: seq<Task>, b: seq<Task>, id: string)
    ensures Deleted(a + b, id) == Deleted(a, id) + Deleted(b, id)
  {
    FilterAppend(a, b, IdIsNot(id));
  }

  /** Deleting an id no task carries changes nothing. */
  lemma DeleteAbsent(l: seq<Task>, id: string)
    requires forall k :: 0 <= k < |l| ==> l[k].id != id
    ensures Deleted(l, id) == l
  {
    FilterKeepsAll(l, IdIsNot(id));
  }

  lemma DeletedValid(l: seq<Task>, id: string)
    requires AllValid(l)
    ensures AllValid(Deleted(l, id))
  {
    forall k | 0 <= k < |Deleted(l, id)|
      ensures IsValidStatus(Deleted(l, id)[k].currentStatus)
    {
      assert Deleted(l, id)[k] in l;
    }
  }

  // ---------------------------------------------------------------------
  // Add: trim the input, reject it if empty, otherwise append a `todo` task
  // ---------------------------------------------------------------------

  /** The list after `addTask` with input text `text` and generated id `newId`. */
  function Added(l: seq<Task>, text: string, newId: string): (r: seq<Task>)
    ensures |r| == if AllSpace(text) then |l| else |l| + 1
    ensures r[..|l|] == l
    ensures AllValid(l) ==> AllValid(r)
  {
    var content := Trim(text);
    if content == [] then l else l + [Task(newId, content, "todo")]
  }

  /** With text left after trimming, exactly one `todo` task is appended whose
      content is the trimmed text; earlier tasks are untouched. */
  lemma AddAppends(l: seq<Task>, text: string, newId: string)
    requires !AllSpace(text)
    ensures |Added(l, text, newId)| == |l| + 1
    ensures Added(l, text, newId)[..|l|] == l
    ensures Added(l, text, newId)[|l|] == Task(newId, Trim(text), "todo")
  {
  }

  /** Empty or white-space-only input changes nothing. */
  lemma AddRejectsBlank(l: seq<Task>, text: string, newId: string)
    requires AllSpace(text)
    ensures Added(l, text, newId) == l
  {
  }

  /** A task created by add has non-empty, already-trimmed content. */
  lemma AddedContentTrimmed(l: seq<Task>, text: string, newId: string)
    requires !AllSpace(text)
    ensures var t := Added(l, text, newId)[|l|];
            t.content != [] && Trim(t.content) == t.content
  {
    TrimIdempotent(text);
  }

  lemma AddedValid(l: seq<Task>, text: string, newId: string)
    requires AllValid(l)
    ensures AllValid(Added(l, text, newId))
  {
  }

  // ---------------------------------------------------------------------
  // Edit commit: trim the field; replace the content only if non-empty
  // ---------------------------------------------------------------------

  /** The content a record has after `finishEditing` with field value `field`. */
  function CommittedContent(current: string, field: string): (r: string)
    ensures r == current || (r == Trim(field) && r != [])
    ensures current != [] ==> r != []
  {
    var v := Trim(field);
    if v != [] then v else current
  }

  /** The list after committing `field` into the task at index `k`. */
  function Edited(l: seq<Task>, k: nat, field: string): (r: seq<Task>)
    requires k < |l|
    ensures |r| == |l|
    ensures forall j :: 0 <= j < |l| ==> r[j].id == l[j].id && r[j].currentStatus == l[j].currentStatus
    ensures forall j :: 0 <= j < |l| && j != k ==> r[j] == l[j]
  {
    l[k := l[k].(content := CommittedContent(l[k].content, field))]
  }

  /** A non-blank field becomes the content, trimmed; a blank field leaves the
      content as it was. */
  lemma CommitContent(current: string, field: string)
    ensures !AllSpace(field) ==> CommittedContent(current, field) == Trim(field)
    ensures AllSpace(field) ==> CommittedContent(current, field) == current
  {
  }

  /** Committing twice with the same field value gives the result of
      committing once (Enter followed by blur). */
  lemma CommitIdempotent(l: seq<Task>, k: nat, field: string)
    requires k < |l|
    ensures Edited(Edited(l, k, field), k, field) == Edited(l, k, field)
  {
  }

  /** Committing the unchanged content leaves it unchanged exactly when it
      was already trimmed or is blank. */
  lemma CommitUnchanged(current: string)
    ensures CommittedContent(current, current) == current <==>
            Trim(current) == current || AllSpace(current)
  {
  }

  lemma EditedValid(l: seq<Task>, k: nat, field: string)
    requires k < |l| && AllValid(l)
    ensures AllValid(Edited(l, k, field))
  {
  }

  // ---------------------------------------------------------------------
  // Render: routing each task into a column by status
  // ---------------------------------------------------------------------

  function HasStatus(s: string): Task -> bool {
    (t: Task) => t.currentStatus == s
  }

  const HasInvalidStatus: Task -> bool := (t: Task) => !IsValidStatus(t.currentStatus)

  /** The tasks `render` appends to column `c`, in list order. */
  function ColumnTasks(l: seq<Task>, c: Column): (r: seq<Task>)
    ensures |r| <= |l|
    ensures forall t :: t in r ==> t in l && t.currentStatus == StatusName(c)
  {
    Filter(l, HasStatus(StatusName(c)))
  }

  /** The tasks for which `render` raises the alert. */
  function Misrouted(l: seq<Task>): (r: seq<Task>)
    ensures |r| <= |l|
    ensures forall t :: t in r ==> t in l && !IsValidStatus(t.currentStatus)
  {
    Filter(l, HasInvalidStatus)
  }

  /** Routing one more task of the list extends exactly one bucket by it. */
  lemma RoutingStep(l: seq<Task>, i: nat)
    requires i < |l|
    ensures ColumnTasks(l[..i + 1], Todo) == ColumnTasks(l[..i], Todo) + (if l[i].currentStatus == "todo" then [l[i]] else [])
    ensures ColumnTasks(l[..i + 1], Doing) == ColumnTasks(l[..i], Doing) + (if l[i].currentStatus == "doing" then [l[i]] else [])
    ensures ColumnTasks(l[..i + 1], Done) == ColumnTasks(l[..i], Done) + (if l[i].currentStatus == "done" then [l[i]] else [])
    ensures Misrouted(l[..i + 1]) == Misrouted(l[..i]) + (if IsValidStatus(l[i].currentStatus) then [] else [l[i]])
  {
    FilterSnoc(l, i, HasStatus("todo"));
    FilterSnoc(l, i, HasStatus("doing"));
    FilterSnoc(l, i, HasStatus("done"));
    FilterSnoc(l, i, HasInvalidStatus);
  }

  /** Every task lands in exactly one of the three columns or the alert branch. */
  lemma {:induction false} RoutingPartition(l: seq<Task>)
    ensures multiset(ColumnTasks(l, Todo)) + multiset(ColumnTasks(l, Doing))
            + multiset(ColumnTasks(l, Done)) + multiset(Misrouted(l)) == multiset(l)
  {
    if l != [] {
      var h, t := l[0], l[1..];
      RoutingPartition(t);
      assert l == [h] + t;
      var a, b, c, d := ColumnTasks(t, Todo), ColumnTasks(t, Doing), ColumnTasks(t, Done), Misrouted(t);
      if h.currentStatus == "todo" {
        assert ColumnTasks(l, Todo) == [h] + a;
        assert ColumnTasks(l, Doing) == b && ColumnTasks(l, Done) == c && Misrouted(l) == d;
      } else if h.currentStatus == "doing" {
        assert ColumnTasks(l, Doing) == [h] + b;
        assert ColumnTasks(l, Todo) == a && ColumnTasks(l, Done) == c && Misrouted(l) == d;
      } else if h.currentStatus == "done" {
        assert ColumnTasks(l, Done) == [h] + c;
        assert ColumnTasks(l, Todo) == a && ColumnTasks(l, Doing) == b && Misrouted(l) == d;
      } else {
        assert Misrouted(l) == [h] + d;
        assert ColumnTasks(l, Todo) == a && ColumnTasks(l, Doing) == b && ColumnTasks(l, Done) == c;
      }
    }
  }

  /** A task is in a column exactly when it is in the list with that column's status. */
  lemma RoutingMembership(l: seq<Task>, c: Column, t: Task)
    ensures t in ColumnTasks(l, c) <==> t in l && t.currentStatus == StatusName(c)
  {
    FilterMembership(l, HasStatus(StatusName(c)), t);
  }

  /** On a valid list the alert branch is never reached and the three columns
      together hold exactly the list's tasks. */
  lemma RoutingValid(l: seq<Task>)
    requires AllValid(l)
    ensures Misrouted(l) == []
    ensures multiset(ColumnTasks(l, Todo)) + multiset(ColumnTasks(l, Doing))
            + multiset(ColumnTasks(l, Done)) == multiset(l)
  {
    FilterDropsAll(l, HasInvalidStatus);
    RoutingPartition(l);
  }

  // ---------------------------------------------------------------------
  // Worked scenarios
  // ---------------------------------------------------------------------

  /** Add "buy milk", move it to doing, delete it. */
  lemma BuyMilkScenario()
    ensures Added([], "buy milk", "1") == [Task("1", "buy milk", "todo")]
    ensures Moved([Task("1", "buy milk", "todo")], "1", "doing") == [Task("1", "buy milk", "doing")]
    ensures Deleted([Task("1", "buy milk", "doing")], "1") == []
  {
    TrimOfTrimmed("buy milk");
  }

  /** Two tasks that share an id: move changes only the first, delete removes both. */
  lemma DuplicateIdScenario()
    ensures Moved([Task("7", "a", "todo"), Task("7", "b", "todo")], "7", "done")
            == [Task("7", "a", "done"), Task("7", "b", "todo")]
    ensures Deleted([Task("7", "a", "todo"), Task("7", "b", "todo")], "7") == []
  {
  }

  /** Two tasks that share an id: editing the second row opens the session on
      the first task, with the field showing the second row's text, so
      committing that text unchanged copies it into the first task. */
  lemma DuplicateIdEditScenario()
    ensures var l := [Task("7", "a", "todo"), Task("7", "b", "todo")];
            FindFirst(l, "7") == Some(0) &&
            Edited(l, FindFirst(l, "7").value, l[1].content)
              == [Task("7", "b", "todo"), Task("7", "b", "todo")]
  {
    TrimOfTrimmed("b");
  }

  /** One invalid record between two valid ones: load keeps the two valid ones. */
  lemma LoadDropsInvalidScenario()
    ensures Loaded(Array([Entry(Task("1", "a", "todo")), Entry(Task("2", "b", "lost")),
                          Entry(Task("3", "c", "done"))]), [])
            == [Task("1", "a", "todo"), Task("3", "c", "done")]
  {
    var x, y, z := Entry(Task("1", "a", "todo")), Entry(Task("2", "b", "lost")), Entry(Task("3", "c", "done"));
    var items := [x, y, z];
    assert !IsValidStatus("lost");
    assert Kept([z]) == [z.task];
    assert [x, y, z][1..] == [y, z] && [y, z][1..] == [z];
    assert Kept([y, z]) == [z.task];
    assert Kept(items) == [x.task, z.task];
    assert Nullish !in items;
  }

  /** A single `null` element wipes the whole list, valid records included. */
  lemma LoadNullScenario()
    ensures Loaded(Array([Entry(Task("1", "a", "todo")), Nullish]), [Task("0", "x", "done")]) == []
  {
  }
}
