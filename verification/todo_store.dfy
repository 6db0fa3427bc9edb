/** The todo store: a draft text and an ordered list of items, changed only
    by its three actions. Each action is a pure function from the state
    before to the state after. */
module TodoStore {
  import Decimal
  import Splice

  datatype Item = Item(id: string, value: string, checked: bool)

  /** `value` is the draft of the next item; `list` the items in order. */
  datatype State = State(value: string, list: seq<Item>)

  /** Ids are drawn from [0, IdRange) and rendered in decimal. */
  const IdRange: nat := 100000000

  /** The number of characters an id can have: IdRange is 10^IdDigits. */
  const IdDigits: nat := 8

  /** What an id produced by the store looks like. */
  predicate IsStoreId(id: string) {
    Decimal.Canonical(id) && |id| <= IdDigits
  }

  /** The invariant every reachable state keeps: each item was added from
      a non-empty draft and carries a store-made id. */
  predicate Valid(s: State) {
    forall i :: 0 <= i < |s.list| ==> s.list[i].value != "" && IsStoreId(s.list[i].id)
  }

  /** The state a fresh store starts in. */
  function Init(): (s: State)
    ensures s.value == "" && |s.list| == 0
    ensures Valid(s)
  {
    State("", [])
  }

  /** The id made from a drawn integer in [0, IdRange). */
  function FreshId(draw: nat): (id: string)
    requires draw < IdRange
    ensures IsStoreId(id)
    ensures Decimal.Value(id) == draw
  {
    assert Decimal.Pow10(IdDigits) == IdRange;
    Decimal.LengthBound(draw, IdDigits);
    Decimal.ValueFromNat(draw);
    Decimal.FromNat(draw)
  }

  /** The outcome of an add: the state afterwards, and whether the store
      refused and alerted the user instead. */
  datatype AddOutcome = AddOutcome(state: State, alerted: bool)

  /** Appends the draft as a new unchecked item with the id made from
      `draw`, then clears the draft; an empty draft is refused. */
  function AddTodoItem(s: State, draw: nat): (r: AddOutcome)
    requires draw < IdRange
    ensures r.alerted <==> s.value == ""
    ensures r.alerted ==> r.state == s
    ensures !r.alerted ==>
      && |r.state.list| == |s.list| + 1
      && r.state.list[..|s.list|] == s.list
      && r.state.list[|s.list|].value == s.value
      && !r.state.list[|s.list|].checked
      && IsStoreId(r.state.list[|s.list|].id)
      && Decimal.Value(r.state.list[|s.list|].id) == draw
      && r.state.value == ""
  {
    if s.value == "" then
      AddOutcome(s, true)
    else
      var item := Item(FreshId(draw), s.value, false);
      assert (s.list + [item])[..|s.list|] == s.list;
      AddOutcome(State("", s.list + [item]), false)
  }

  /** Deletes the item at `index` with the semantics of `splice(index, 1)`:
      an index past the end removes nothing; on a non-empty list a negative
      one counts back from the end, and one below minus the length removes
      the first item; an empty list is left as it is. */
  function DelTodoItem(s: State, index: int): (r: State)
    ensures r.value == s.value
    ensures 0 <= index < |s.list| ==> Splice.RemovedAt(s.list, r.list, index)
    ensures index >= |s.list| ==> r.list == s.list
    ensures index < 0 && 0 <= |s.list| + index ==> Splice.RemovedAt(s.list, r.list, |s.list| + index)
    ensures |s.list| + index < 0 && |s.list| > 0 ==> Splice.RemovedAt(s.list, r.list, 0)
    ensures |s.list| == 0 ==> r == s
  {
    State(s.value, Splice.SpliceOne(s.list, index))
  }

  /** Sets the flag on every item of `list` whose id is `id`. */
  function CheckList(list: seq<Item>, checked: bool, id: string): (r: seq<Item>)
    ensures |r| == |list|
    ensures forall i :: 0 <= i < |list| && list[i].id == id ==> r[i] == list[i].(checked := checked)
    ensures forall i :: 0 <= i < |list| && list[i].id != id ==> r[i] == list[i]
  {
    if list == [] then []
    else
      var head := if list[0].id == id then list[0].(checked := checked) else list[0];
      [head] + CheckList(list[1..], checked, id)
  }

  /** Sets the flag to `checked` on every item whose id is `id`. */
  function CheckTodo(s: State, checked: bool, id: string): (r: State)
    ensures r.value == s.value
    ensures |r.list| == |s.list|
    ensures forall i :: 0 <= i < |s.list| ==>
      && r.list[i].id == s.list[i].id
      && r.list[i].value == s.list[i].value
      && r.list[i].checked == (if s.list[i].id == id then checked else s.list[i].checked)
  {
    State(s.value, CheckList(s.list, checked, id))
  }

  /** Checking twice with the same arguments is the same as checking once. */
  lemma CheckTodoIdempotent(s: State, checked: bool, id: string)
    ensures CheckTodo(CheckTodo(s, checked, id), checked, id) == CheckTodo(s, checked, id)
  {
  }

  /** Of two checks on the same id, the later one decides the flag. */
  lemma CheckTodoLastWins(s: State, c1: bool, c2: bool, id: string)
    ensures CheckTodo(CheckTodo(s, c1, id), c2, id) == CheckTodo(s, c2, id)
  {
  }

  /** Checks on different ids touch different items, so they commute. */
  lemma CheckTodoCommutes(s: State, c1: bool, id1: string, c2: bool, id2: string)
    requires id1 != id2
    ensures CheckTodo(CheckTodo(s, c1, id1), c2, id2) == CheckTodo(CheckTodo(s, c2, id2), c1, id1)
  {
  }

  /** A check leaves the state as it was exactly when every item with that
      id already carries the flag; in particular an id that matches no item
      changes nothing. */
  lemma CheckTodoNoChange(s: State, checked: bool, id: string)
    ensures CheckTodo(s, checked, id) == s <==>
      forall i :: 0 <= i < |s.list| && s.list[i].id == id ==> s.list[i].checked == checked
    ensures (forall i :: 0 <= i < |s.list| ==> s.list[i].id != id) ==> CheckTodo(s, checked, id) == s
  {
  }

  /** Deleting the item an add just appended undoes the add, apart from the
      draft, which the add cleared. */
  lemma AddThenDeleteLast(s: State, draw: nat)
    requires draw < IdRange && s.value != ""
    ensures DelTodoItem(AddTodoItem(s, draw).state, -1) == State("", s.list)
    ensures DelTodoItem(AddTodoItem(s, draw).state, |s.list|) == State("", s.list)
  {
  }

  /** Deleting a valid position removes exactly that item: it can be put
      back in the same place to restore the list. */
  lemma DelTodoItemRestorable(s: State, index: nat)
    requires index < |s.list|
    ensures Splice.InsertAt(DelTodoItem(s, index).list, index, s.list[index]) == s.list
    ensures multiset(DelTodoItem(s, index).list) + multiset{s.list[index]} == multiset(s.list)
  {
  }

  /** Every action keeps the invariant. */
  lemma ActionsPreserveValid(s: State, draw: nat, index: int, checked: bool, id: string)
    requires Valid(s) && draw < IdRange
    ensures Valid(AddTodoItem(s, draw).state)
    ensures Valid(DelTodoItem(s, index))
    ensures Valid(CheckTodo(s, checked, id))
  {
  }

  /** Writes the draft, as the input field bound to the store does. */
  function SetDraft(s: State, text: string): State
  {
    s.(value := text)
  }

  /** A fresh store, a typed draft, an add, a check of the new item and a
      delete of position 0 leave the list empty again. */
  lemma Walkthrough(draw: nat)
    requires draw < IdRange
    ensures
      var s1 := SetDraft(Init(), "buy milk");
      var s2 := AddTodoItem(s1, draw).state;
      var s3 := CheckTodo(s2, true, s2.list[0].id);
      var s4 := DelTodoItem(s3, 0);
      && s2.value == ""
      && s2.list == [Item(FreshId(draw), "buy milk", false)]
      && s3.list == [Item(FreshId(draw), "buy milk", true)]
      && s4.list == []
  {
  }
}
