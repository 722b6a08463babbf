/** The board's state and the handlers that change it: the module-global task
    list, the persisted blob standing in for `localStorage`, and the text of the
    add input. Each method is one function or event handler of the page. */
module Store {
  import opened Seqs
  import opened Text
  import opened Tasks

  class Board {
    /** The in-memory task list. */
    var list: seq<Task>
    /** What `localStorage.getItem('list')` would return, already parsed. */
    var stored: Blob
    /** The value of the add input field. */
    var input: string

    /** Every task in the list has a valid status. */
    ghost predicate Valid()
      reads this
    {
      AllValid(list)
    }

    /** Page start-up state before loading: an empty list over whatever is persisted. */
    constructor (persisted: Blob)
      ensures Valid()
      ensures list == [] && stored == persisted && input == ""
    {
      list := [];
      stored := persisted;
      input := "";
    }

    /** `loadToStorage`: nothing stored leaves the list alone; a blob that does
        not parse or is not an array empties it; otherwise the list becomes the
        stored records with a valid status (or empty, if an element is null). */
    method Load()
      modifies this`list
      ensures list == Loaded(stored, old(list))
      ensures stored.Absent? ==> list == old(list)
      ensures old(Valid()) ==> Valid()
    {
      match stored
      case Absent =>
      case Unparseable =>
        list := [];
      case NotArray =>
        list := [];
      case Array(items) =>
        if Nullish in items {
          list := [];
        } else if |items| > 0 {
          list := Kept(items);
        } else {
          list := [];
        }
    }

    /** `saveToStorage`: a successful write persists the list and leaves it
        alone; a failed write (`writeOk` false) leaves the store as it was and
        empties the in-memory list. */
    method Save(writeOk: bool)
      modifies this`list, this`stored
      ensures writeOk ==> list == old(list) && stored == Serialize(list)
      ensures !writeOk ==> list == [] && stored == old(stored)
      ensures old(Valid()) ==> Valid()
      ensures writeOk && old(Valid()) ==> Loaded(stored, []) == list
    {
      if writeOk {
        stored := Serialize(list);
        if Valid() {
          LoadAfterSave(list, []);
        }
      } else {
        list := [];
      }
    }

    /** `move(id, newStatus)`: change the status of the first task with the id,
        unless the id is empty, no task has it, or the status is already the same. */
    method Move(id: string, newStatus: string)
      modifies this`list
      ensures list == Moved(old(list), id, newStatus)
      ensures old(Valid()) && IsValidStatus(newStatus) ==> Valid()
    {
      if id == "" {
        return;
      }
      var found := FindFirst(list, id);
      if found.None? {
        return;
      }
      var i := found.value;
      if list[i].currentStatus == newStatus {
        return;
      }
      list := list[i := list[i].(currentStatus := newStatus)];
    }

    /** `addTask`: append a `todo` task holding the trimmed input and clear the
        input, or, if nothing is left after trimming, change nothing and report
        the rejection (`accepted` false; the page shows an alert). */
    method AddTask(newId: string) returns (accepted: bool)
      modifies this`list, this`input
      ensures accepted <==> !AllSpace(old(input))
      ensures list == Added(old(list), old(input), newId)
      ensures input == if accepted then "" else old(input)
      ensures old(Valid()) ==> Valid()
    {
      var text := Trim(input);
      if text != [] {
        list := list + [Task(newId, text, "todo")];
        input := "";
        accepted := true;
      } else {
        accepted := false;
      }
    }

    /** The double-click handler on a row whose id is `id` and whose label
        shows `rowText`: the edit session is opened on the first task with the
        id (`list.find`), while the field is pre-filled with the clicked label's
        text; no task with the id, no session. With duplicate ids the clicked
        row need not be the task the session edits. */
    method StartEditing(id: string, rowText: string) returns (session: Option<nat>, field: string)
      ensures session.Some? <==> exists k :: 0 <= k < |list| && list[k].id == id
      ensures session.Some? ==> session.value < |list| && list[session.value].id == id
      ensures session.Some? ==> forall k :: 0 <= k < session.value ==> list[k].id != id
      ensures session.Some? ==> field == rowText
    {
      session := FindFirst(list, id);
      field := if session.Some? then rowText else "";
    }

    /** `finishEditing` on the task at index `k` with the field value `field`:
        a non-blank value replaces the content and is saved; a blank one changes
        nothing and saves nothing. `shown` is the text displayed afterwards. */
    method FinishEditing(k: nat, field: string, writeOk: bool) returns (shown: string)
      requires k < |list|
      modifies this`list, this`stored
      ensures shown == CommittedContent(old(list[k].content), field)
      ensures AllSpace(field) ==> list == old(list) && stored == old(stored)
      ensures !AllSpace(field) && writeOk ==>
                list == Edited(old(list), k, field) && stored == Serialize(list)
      ensures !AllSpace(field) && !writeOk ==> list == [] && stored == old(stored)
      ensures old(Valid()) ==> Valid()
    {
      var newValue := Trim(field);
      shown := list[k].content;
      if newValue != [] {
        list := list[k := list[k].(content := newValue)];
        shown := newValue;
        Save(writeOk);
      }
    }

    /** The delete click handler of a column: drop every task with the id, then save. */
    method OnDeleteClick(id: string, writeOk: bool)
      modifies this`list, this`stored
      ensures writeOk ==> list == Deleted(old(list), id) && stored == Serialize(list)
      ensures !writeOk ==> list == [] && stored == old(stored)
      ensures old(Valid()) ==> Valid()
    {
      if Valid() {
        DeletedValid(list, id);
      }
      list := Filter(list, IdIsNot(id));
      Save(writeOk);
    }

    /** The drop handler of column `c`: move the dragged task there, then save. */
    method OnDrop(id: string, c: Column, writeOk: bool)
      modifies this`list, this`stored
      ensures writeOk ==> list == Moved(old(list), id, StatusName(c)) && stored == Serialize(list)
      ensures !writeOk ==> list == [] && stored == old(stored)
      ensures old(Valid()) ==> Valid()
    {
      Move(id, StatusName(c));
      Save(writeOk);
    }

    /** The Enter-key and add-button handlers: add a task, then save, even when
        the input was rejected. */
    method OnAdd(newId: string, writeOk: bool) returns (accepted: bool)
      modifies this`list, this`stored, this`input
      ensures accepted <==> !AllSpace(old(input))
      ensures writeOk ==> list == Added(old(list), old(input), newId) && stored == Serialize(list)
      ensures !writeOk ==> list == [] && stored == old(stored)
      ensures input == if accepted then "" else old(input)
      ensures old(Valid()) ==> Valid()
    {
      ghost var added := Added(list, input, newId);
      accepted := AddTask(newId);
      assert list == added;
      Save(writeOk);
    }

    /** `render`: walk the list in order and append each task to the column of
        its status; a task with any other status raises the alert instead. */
    method Render() returns (todo: seq<Task>, doing: seq<Task>, done: seq<Task>, alerts: seq<Task>)
      ensures todo == ColumnTasks(list, Todo)
      ensures doing == ColumnTasks(list, Doing)
      ensures done == ColumnTasks(list, Done)
      ensures alerts == Misrouted(list)
      ensures Valid() ==> alerts == [] && multiset(todo) + multiset(doing) + multiset(done) == multiset(list)
    {
      todo, doing, done, alerts := [], [], [], [];
      var i := 0;
      while i < |list|
        invariant 0 <= i <= |list|
        invariant todo == ColumnTasks(list[..i], Todo)
        invariant doing == ColumnTasks(list[..i], Doing)
        invariant done == ColumnTasks(list[..i], Done)
        invariant alerts == Misrouted(list[..i])
      {
        var item := list[i];
        RoutingStep(list, i);
        if item.currentStatus == "todo" {
          todo := todo + [item];
        } else if item.currentStatus == "doing" {
          doing := doing + [item];
        } else if item.currentStatus == "done" {
          done := done + [item];
        } else {
          alerts := alerts + [item];
        }
        i := i + 1;
      }
      assert list[..i] == list;
      if Valid() {
        RoutingValid(list);
      }
    }
  }
}
