/** The todo records and the pure list transformations the store applies to
    the persisted list: the status filter, title validation, retitling,
    completion toggling and removal. */
module Todos {
  import opened Text

  datatype Option<T> = None | Some(value: T)

  /** One todo item as stored: an opaque id, the title and the completion flag. */
  datatype Todo = Todo(id: string, title: string, isCompleted: bool)

  /** The submit handler's two modes. */
  datatype Mode = AddTodo | EditTodo

  /** The outcome of validating a candidate title, in place of the two
      notifications the page shows. */
  datatype Verdict = Ok | EmptyTitle | Duplicate

  /** `r` is `s` with some items left out, the rest in their original order. */
  ghost predicate Subsequence<T>(r: seq<T>, s: seq<T>)
    decreases |s|
  {
    if r == [] then true
    else if s == [] then false
    else if r[0] == s[0] then Subsequence(r[1..], s[1..])
    else Subsequence(r, s[1..])
  }

  lemma {:induction false} SubsequenceRefl<T>(s: seq<T>)
    ensures Subsequence(s, s)
  {
    if s != [] { SubsequenceRefl(s[1..]); }
  }

  /** No two items share an id. */
  predicate UniqueIds(s: seq<Todo>)
  {
    forall i, j :: 0 <= i < j < |s| ==> s[i].id != s[j].id
  }

  predicate HasId(s: seq<Todo>, id: string)
  {
    exists k :: 0 <= k < |s| && s[k].id == id
  }

  // ---------------------------------------------------------------------
  // The status filter behind the "completed" and "inCompleted" views.

  /** The items whose completion flag equals `done`, in storage order. */
  function WithStatus(s: seq<Todo>, done: bool): (r: seq<Todo>)
    ensures |r| <= |s|
    ensures forall t :: t in r <==> t in s && t.isCompleted == done
    ensures Subsequence(r, s)
  {
    if s == [] then []
    else if s[0].isCompleted == done then [s[0]] + WithStatus(s[1..], done)
    else WithStatus(s[1..], done)
  }

  /** The two status filters split the list: every item lands in exactly one
      of them, as often as it occurs in the list. */
  lemma {:induction false} StatusPartition(s: seq<Todo>)
    ensures multiset(WithStatus(s, true)) + multiset(WithStatus(s, false)) == multiset(s)
    ensures |WithStatus(s, true)| + |WithStatus(s, false)| == |s|
  {
    if s != [] {
      StatusPartition(s[1..]);
      assert s == [s[0]] + s[1..];
    }
  }

  /** The list the view shows for a (trimmed) filter label: "completed",
      "inCompleted", or everything for any other label. */
  function View(filter: string, s: seq<Todo>): (r: seq<Todo>)
    ensures filter == "completed" ==> forall t :: t in r <==> t in s && t.isCompleted
    ensures filter == "inCompleted" ==> forall t :: t in r <==> t in s && !t.isCompleted
    ensures filter != "completed" && filter != "inCompleted" ==> r == s
    ensures Subsequence(r, s)
  {
    SubsequenceRefl(s);
    match filter
    case "completed" => WithStatus(s, true)
    case "inCompleted" => WithStatus(s, false)
    case _ => s
  }

  // ---------------------------------------------------------------------
  // Title validation (`validationInput`).

  /** Some item of `todos` has the same trimmed title as the candidate. */
  function IsDuplicate(todos: seq<Todo>, candidate: string): (b: bool)
    ensures b <==> exists k :: 0 <= k < |todos| && Trim(todos[k].title) == Trim(candidate)
  {
    if todos == [] then false
    else if Trim(todos[0].title) == Trim(candidate) then true
    else
      var b := IsDuplicate(todos[1..], candidate);
      assert forall k :: 1 <= k < |todos| ==> todos[k] == todos[1..][k - 1];
      b
  }

  /** Validates a candidate title against the working list: an empty trimmed
      title is reported first, then a trimmed title some listed item already
      has. */
  function Validate(todos: seq<Todo>, candidate: string): (v: Verdict)
    ensures v == EmptyTitle <==> AllWhitespace(candidate)
    ensures v == Duplicate <==>
              (!AllWhitespace(candidate) && exists t :: t in todos && Trim(t.title) == Trim(candidate))
    ensures v == Ok <==>
              (!AllWhitespace(candidate) && forall t :: t in todos ==> Trim(t.title) != Trim(candidate))
  {
    TrimEmptyIff(candidate);
    if |Trim(candidate)| < 1 then EmptyTitle
    else if IsDuplicate(todos, candidate) then Duplicate
    else Ok
  }

  /** With no exclusion for the edited item, resubmitting any listed item's
      own title, even with any extra whitespace on either side, is rejected. */
  lemma OwnTitleRejected(todos: seq<Todo>, k: nat, a: string, b: string)
    requires k < |todos| && AllWhitespace(a) && AllWhitespace(b)
    ensures Validate(todos, a + todos[k].title + b) != Ok
  {
    TrimPadded(a, todos[k].title, b);
    assert todos[k] in todos;
  }

  /** The duplicate check sees only the filtered view: a title whose only
      holders are completed items is accepted while only incomplete items
      are shown, and is a duplicate in the full view when some item has it. */
  lemma HiddenDuplicateAccepted(s: seq<Todo>, c: string)
    requires !AllWhitespace(c)
    requires forall t :: t in s && Trim(t.title) == Trim(c) ==> t.isCompleted
    ensures Validate(View("inCompleted", s), c) == Ok
    ensures (exists t :: t in s && Trim(t.title) == Trim(c)) ==> Validate(View("all", s), c) == Duplicate
  {
  }

  // ---------------------------------------------------------------------
  // The three item transformations.

  /** `t` is the item an edit aims at; a missing target (the page's initial
      `null`) matches no item. */
  predicate Targets(t: Todo, target: Option<string>)
  {
    target.Some? && t.id == target.value
  }

  /** The edit step: every item the target matches gets the new title and
      keeps its id and completion flag; all other items are kept as they are. */
  function Retitle(s: seq<Todo>, target: Option<string>, title: string): (r: seq<Todo>)
    ensures |r| == |s|
    ensures forall k :: 0 <= k < |s| ==>
              r[k].id == s[k].id && r[k].isCompleted == s[k].isCompleted
              && r[k].title == (if Targets(s[k], target) then title else s[k].title)
  {
    if s == [] then []
    else [if Targets(s[0], target) then s[0].(title := title) else s[0]] + Retitle(s[1..], target, title)
  }

  /** The completion toggle: every item with id `id` has its flag flipped;
      all other items, and every other field, are kept. */
  function Toggle(s: seq<Todo>, id: string): (r: seq<Todo>)
    ensures |r| == |s|
    ensures forall k :: 0 <= k < |s| ==>
              r[k].id == s[k].id && r[k].title == s[k].title
              && r[k].isCompleted == (if s[k].id == id then !s[k].isCompleted else s[k].isCompleted)
  {
    if s == [] then []
    else [if s[0].id == id then s[0].(isCompleted := !s[0].isCompleted) else s[0]] + Toggle(s[1..], id)
  }

  /** Removal: the items whose id differs from `id`, in their original order. */
  function Without(s: seq<Todo>, id: string): (r: seq<Todo>)
    ensures |r| <= |s|
    ensures forall t :: t in r <==> t in s && t.id != id
    ensures forall t :: multiset(r)[t] == (if t.id != id then multiset(s)[t] else 0)
    ensures Subsequence(r, s)
  {
    assert s != [] ==> s == [s[0]] + s[1..];
    if s == [] then []
    else if s[0].id != id then [s[0]] + Without(s[1..], id)
    else Without(s[1..], id)
  }

  // ---------------------------------------------------------------------
  // Properties of the transformations.

  /** Toggling the same id twice restores the list. */
  lemma ToggleTwice(s: seq<Todo>, id: string)
    ensures Toggle(Toggle(s, id), id) == s
  {
  }

  /** Removal keeps ids unique. */
  lemma {:induction false} WithoutKeepsUnique(s: seq<Todo>, id: string)
    requires UniqueIds(s)
    ensures UniqueIds(Without(s, id))
  {
    var r := Without(s, id);
    if s != [] {
      var tail := s[1..];
      assert UniqueIds(tail) by {
        forall i, j | 0 <= i < j < |tail| ensures tail[i].id != tail[j].id {
          assert tail[i] == s[i + 1] && tail[j] == s[j + 1];
        }
      }
      WithoutKeepsUnique(tail, id);
      if s[0].id != id {
        var rest := Without(tail, id);
        assert r == [s[0]] + rest;
        forall k | 0 < k < |r| ensures r[k].id != r[0].id {
          assert r[k] == rest[k - 1];
          assert rest[k - 1] in rest;
          var m :| 0 <= m < |tail| && tail[m] == rest[k - 1];
          assert tail[m] == s[m + 1];
        }
        forall i, j | 0 <= i < j < |r| ensures r[i].id != r[j].id {
          if 0 < i { assert r[i] == rest[i - 1] && r[j] == rest[j - 1]; }
        }
      }
    }
  }

  lemma WithoutLacksId(s: seq<Todo>, id: string)
    ensures !HasId(Without(s, id), id)
  {
  }

  /** Removing an id that occurs once shortens the list by exactly one. */
  lemma {:induction false} WithoutRemovesOne(s: seq<Todo>, k: nat)
    requires UniqueIds(s) && k < |s|
    ensures |Without(s, s[k].id)| == |s| - 1
  {
    if k == 0 {
      WithoutAbsent(s[1..], s[0].id);
    } else {
      WithoutRemovesOne(s[1..], k - 1);
    }
  }

  /** Removing an id nobody has is the identity. */
  lemma {:induction false} WithoutAbsent(s: seq<Todo>, id: string)
    requires !HasId(s, id)
    ensures Without(s, id) == s
  {
    if s != [] { WithoutAbsent(s[1..], id); }
  }

  /** Retitling with a target nobody has (an edit of a removed item) is the identity. */
  lemma RetitleAbsent(s: seq<Todo>, target: Option<string>, title: string)
    requires target.Some? ==> !HasId(s, target.value)
    ensures Retitle(s, target, title) == s
  {
  }

  /** With unique ids, an edit aimed at the item at position `k` retitles
      that item and leaves every other item identical. */
  lemma RetitleOne(s: seq<Todo>, k: nat, title: string)
    requires UniqueIds(s) && k < |s|
    ensures Retitle(s, Some(s[k].id), title)[k] == s[k].(title := title)
    ensures forall j :: 0 <= j < |s| && j != k ==> Retitle(s, Some(s[k].id), title)[j] == s[j]
  {
  }

  /** An edit whose target was deleted in the meantime leaves the list as it is. */
  lemma EditAfterRemove(s: seq<Todo>, id: string, title: string)
    ensures Retitle(Without(s, id), Some(id), title) == Without(s, id)
  {
  }

  /** Appending an item with a fresh id keeps ids unique. */
  lemma AppendKeepsUnique(s: seq<Todo>, t: Todo)
    requires UniqueIds(s) && !HasId(s, t.id)
    ensures UniqueIds(s + [t])
  {
  }
}
