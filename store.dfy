/** The page's todo store: the module-level state of the page (the current
    filter caption, the submit mode, the working list shown on screen and the
    id being edited) together with the persisted list, and the event
    handlers that update them. The persisted list is a field here. The load
    handler and the filter only read it; add, edit, remove and toggle read it
    and write it back whole; starting an edit and the exporters touch only
    the page's own variables. */
module TodoApp {
  import opened Text
  import opened Todos
  import Export

  class TodoStore {
    /** The persisted list (absent storage reads as the empty list). */
    var storage: seq<Todo>
    /** The working list the page shows and exports. */
    var todos: seq<Todo>
    /** The trimmed caption of the last filter button pressed. */
    var filter: string
    var mode: Mode
    /** The id the next edit-mode submit retitles. */
    var todoId: Option<string>

    /** Ids in storage are unique, no stored title is blank once trimmed,
        and the working list is always the persisted list with some items
        left out, in storage order. */
    ghost predicate Valid()
      reads this
    {
      && UniqueIds(storage)
      && (forall t :: t in storage ==> !AllWhitespace(t.title))
      && Subsequence(todos, storage)
    }

    /** The state before the page has loaded, over the list already persisted. */
    constructor (persisted: seq<Todo>)
      requires UniqueIds(persisted)
      requires forall t :: t in persisted ==> !AllWhitespace(t.title)
      ensures Valid()
      ensures storage == persisted && todos == [] && filter == "all"
      ensures mode == AddTodo && todoId == None
    {
      storage, todos, filter := persisted, [], "all";
      mode, todoId := AddTodo, None;
    }

    /** The page-load handler: the working list becomes the persisted list. */
    method Load()
      requires Valid()
      modifies this
      ensures Valid()
      ensures todos == storage
      ensures storage == old(storage) && filter == old(filter)
      ensures mode == old(mode) && todoId == old(todoId)
    {
      todos := storage;
      SubsequenceRefl(todos);
    }

    /** A click in the filter bar. Only a click on a button counts; its
        trimmed caption becomes the filter and the working list is re-derived
        from the persisted list, which is left alone. */
    method ApplyFilter(onButton: bool, caption: string)
      requires Valid()
      modifies this
      ensures Valid()
      ensures !onButton ==> todos == old(todos) && filter == old(filter)
      ensures onButton ==> filter == Trim(caption) && todos == View(filter, storage)
      ensures storage == old(storage) && mode == old(mode) && todoId == old(todoId)
    {
      if onButton {
        var stashed := storage;
        filter := Trim(caption);
        todos := View(filter, stashed);
      }
    }

    /** The shared add/edit submit handler. The candidate is validated
        against the working list; a rejected candidate changes nothing. In
        add mode the raw candidate is appended under the fresh id; in edit
        mode the targeted item gets the trimmed candidate as its title and
        the mode returns to add. Either way the working list becomes the
        whole persisted list. */
    method Submit(candidate: string, freshId: string) returns (v: Verdict)
      requires Valid()
      requires mode == AddTodo && Validate(todos, candidate) == Ok ==> !HasId(storage, freshId)
      modifies this
      ensures Valid()
      ensures v == Validate(old(todos), candidate)
      ensures v != Ok ==> storage == old(storage) && todos == old(todos)
                          && mode == old(mode) && todoId == old(todoId)
      ensures v == Ok && old(mode) == AddTodo ==>
                storage == old(storage) + [Todo(freshId, candidate, false)] && mode == AddTodo
      ensures v == Ok && old(mode) == EditTodo ==>
                storage == Retitle(old(storage), old(todoId), Trim(candidate)) && mode == AddTodo
      ensures v == Ok ==> todos == storage
      ensures filter == old(filter) && todoId == old(todoId)
    {
      var stashed := storage;
      v := Validate(todos, candidate);
      if v == Ok {
        if mode == AddTodo {
          AppendKeepsUnique(stashed, Todo(freshId, candidate, false));
          stashed := stashed + [Todo(freshId, candidate, false)];
          todos := stashed;
          storage := stashed;
        } else {
          stashed := Retitle(stashed, todoId, Trim(candidate));
          storage := stashed;
          todos := stashed;
          mode := AddTodo;
        }
        SubsequenceRefl(todos);
      }
    }

    /** The delete button: the persisted list loses every item with this id,
        and the working list becomes that list. An edit in progress is not
        cancelled. */
    method Remove(id: string)
      requires Valid()
      modifies this
      ensures Valid()
      ensures storage == Without(old(storage), id) && todos == storage
      ensures filter == old(filter) && mode == old(mode) && todoId == old(todoId)
    {
      var stashed := storage;
      stashed := Without(stashed, id);
      WithoutKeepsUnique(storage, id);
      storage := stashed;
      todos := stashed;
      SubsequenceRefl(todos);
    }

    /** A click on an item's title: its completion flag flips in the
        persisted list, and the working list becomes that list. */
    method ChangeStatus(id: string)
      requires Valid()
      modifies this
      ensures Valid()
      ensures storage == Toggle(old(storage), id) && todos == storage
      ensures filter == old(filter) && mode == old(mode) && todoId == old(todoId)
    {
      var stashed := storage;
      stashed := Toggle(stashed, id);
      storage := stashed;
      todos := stashed;
      SubsequenceRefl(todos);
    }

    /** The edit button: switches to edit mode aimed at `id`, which is not
        looked up. */
    method BeginEdit(id: string)
      requires Valid()
      modifies this
      ensures Valid()
      ensures mode == EditTodo && todoId == Some(id)
      ensures storage == old(storage) && todos == old(todos) && filter == old(filter)
    {
      mode := EditTodo;
      todoId := Some(id);
    }

    /** The PDF exporter's table body, built from the working list (not
        from storage): row k is numbered k + 1 and carries the k-th shown item. */
    function PdfExport(): (body: seq<seq<Export.Cell>>)
      reads this
      ensures |body| == |todos|
      ensures forall k :: 0 <= k < |todos| ==>
                body[k] == [Export.Num(k + 1), Export.Str(todos[k].id),
                            Export.Str(todos[k].title), Export.Str(Export.Status(todos[k]))]
    {
      Export.PdfBody(todos)
    }

    /** The spreadsheet exporter's records, built from the working list. */
    function ExcelExport(): (sheet: seq<seq<(string, Export.Cell)>>)
      reads this
      ensures |sheet| == |todos|
      ensures forall k :: 0 <= k < |todos| ==>
                sheet[k] == [("Row", Export.Num(k + 1)), ("ID", Export.Str(todos[k].id)),
                             ("Title", Export.Str(todos[k].title)),
                             ("Status", Export.Str(Export.Status(todos[k])))]
    {
      Export.ExcelSheet(todos)
    }

    /** The word processor exporter's table, built from the working list:
        the heading row, then one row per shown item. */
    function WordExport(): (table: seq<seq<string>>)
      reads this
      ensures |table| == |todos| + 1 && table[0] == Export.Header
      ensures forall k :: 0 <= k < |todos| ==>
                table[k + 1] == [Export.Decimal(k + 1), todos[k].id, todos[k].title,
                                 Export.Status(todos[k])]
    {
      Export.WordTable(todos)
    }
  }

  /** Pressing a button captioned "completed" and then exporting to PDF
      exports exactly the completed stored items, numbered from 1 in storage
      order; storage itself is untouched. */
  method ExportCompleted(store: TodoStore, caption: string) returns (body: seq<seq<Export.Cell>>)
    requires store.Valid() && Trim(caption) == "completed"
    modifies store
    ensures store.Valid() && store.storage == old(store.storage)
    ensures store.filter == "completed" && store.todos == WithStatus(old(store.storage), true)
    ensures store.mode == old(store.mode) && store.todoId == old(store.todoId)
    ensures var done := WithStatus(old(store.storage), true);
            |body| == |done| &&
            forall k :: 0 <= k < |done| ==>
              body[k] == [Export.Num(k + 1), Export.Str(done[k].id),
                          Export.Str(done[k].title), Export.Str("Completed")]
  {
    store.ApplyFilter(true, caption);
    body := store.PdfExport();
    ghost var done := WithStatus(store.storage, true);
    assert forall k :: 0 <= k < |done| ==> done[k] in done;
  }

  /** The first half of a session: a fresh page adds an item, rejects the
      same title a second time, and completes the item. */
  method AddAndComplete(id: string, title: string) returns (store: TodoStore)
    requires !AllWhitespace(title)
    ensures fresh(store) && store.Valid()
    ensures store.storage == [Todo(id, title, true)] && store.mode == AddTodo
    ensures store.todos == store.storage && store.filter == "all" && store.todoId == None
  {
    store := new TodoStore([]);
    store.Load();
    var v := store.Submit(title, id);
    ghost var added := Todo(id, title, false);
    assert v == Ok && store.storage == [added] && store.todos == [added];
    v := store.Submit(title, id);
    assert v == Duplicate by { assert added in store.todos; }
    store.ChangeStatus(id);
    assert store.storage == [Todo(id, title, true)] by { assert Toggle([added], id)[0] == Todo(id, title, true); }
  }

  /** A session with the page: add an item, try to add it again, complete
      it, export the completed view, start editing it, hide it behind the
      "inCompleted" filter, resubmit its own title (accepted, since the
      duplicate check sees only the empty view), and delete it. */
  method Scenario(id: string, title: string, doneCaption: string, pendingCaption: string)
    returns (exported: nat, resubmitted: Verdict, retitled: seq<Todo>)
    requires !AllWhitespace(title)
    requires Trim(doneCaption) == "completed" && Trim(pendingCaption) == "inCompleted"
    ensures exported == 1 && resubmitted == Ok
    ensures retitled == [Todo(id, Trim(title), true)]
  {
    var store := AddAndComplete(id, title);
    ghost var done := Todo(id, title, true);
    var body := ExportCompleted(store, doneCaption);
    assert WithStatus([done], true) == [done] by { assert [done][1..] == []; }
    exported := |body|;
    store.BeginEdit(id);
    store.ApplyFilter(true, pendingCaption);
    assert WithStatus([done], false) == [] by { assert [done][1..] == []; }
    assert store.todos == [];
    assert Validate([], title) == Ok;
    resubmitted := store.Submit(title, id);
    assert store.storage == [done.(title := Trim(title))] && store.mode == AddTodo;
    retitled := store.storage;
    store.Remove(id);
    assert store.todos == [] by { assert Without([done.(title := Trim(title))], id) == []; }
  }
}
