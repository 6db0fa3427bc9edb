# Todo store, modelled in Dafny

This project models the Pinia todo store of `vue3-todolist`. The store holds a
draft text (`value`) and an ordered list of items. Each item has an `id`, a
`value` and a `checked` flag. Three actions change the store:

- `addTodoItem` appends the draft as a new unchecked item with a random
  decimal id, then clears the draft. With an empty draft it alerts the user
  and changes nothing.
- `delTodoItem(index)` removes one item with `list.splice(index, 1)`.
- `checkTodo(checked, id)` sets the flag on every item whose id matches.

The model is functional. Each action is a function from the state before to
the state after.

- `decimal.dfy` (`Decimal`): the decimal rendering of an integer that the
  store uses for ids, with the parser that inverts it.
- `splice.dfy` (`Splice`): `Array.prototype.splice(start, 1)` as the
  ECMAScript language specification defines it for an integer `start`.
- `todo_store.dfy` (`TodoStore`): items, the state, the three actions, the
  invariant they keep, and lemmas relating the actions.

Two parts of the store are not pure functions of its state: the random id
and the alert. The model turns them into a parameter and a result:

- `Math.floor(Math.random() * 100000000)` is the parameter `draw`, with
  `draw < 100000000`. The id is `Decimal.FromNat(draw)`.
- `alert(...)` is the `alerted` flag of `AddOutcome`. When it is set, the
  returned state is the state passed in.

Deleting is a no-op only for an index at or past the end, or on an empty
list. On a non-empty list a negative index counts back from the end, so `-1`
removes the last item, and an index below minus the length removes the
first item. `TodoStore.DelTodoItem` states all of these cases.

## Model

| member | source | states |
|---|---|---|
| TodoStore.Init | src/stores/todoStore.ts:6-10 | a fresh store has an empty draft and an empty list, and satisfies the store invariant |
| TodoStore.FreshId | src/stores/todoStore.ts:20 | the id made from a draw in [0, 100000000) is a canonical digit string of 1 to 8 characters that reads back as the draw |
| TodoStore.AddTodoItem | src/stores/todoStore.ts:14-25 | the user is alerted exactly when the draft is empty, and then the state is unchanged; otherwise the list grows by one, earlier items stay in order, and the new last item has the old draft as text, is unchecked and has a store id; the draft becomes empty |
| TodoStore.DelTodoItem | src/stores/todoStore.ts:27-29 | the draft is untouched; an index in range removes exactly that item and shifts later ones down; an index at or past the end changes nothing; on a non-empty list, a negative index removes the item that many places from the end and an index below minus the length removes the first item; an empty list is unchanged |
| TodoStore.CheckList | src/stores/todoStore.ts:32-34 | the list keeps its length; each item whose id matches becomes that item with the flag set; every other item is unchanged |
| TodoStore.CheckTodo | src/stores/todoStore.ts:31-35 | draft, length, order, ids and texts are preserved; an item's flag becomes `checked` if its id matches and otherwise keeps its old value |
| TodoStore.CheckTodoIdempotent | src/stores/todoStore.ts:31-35 | checking twice with the same flag and id gives the same state as checking once |
| TodoStore.CheckTodoLastWins | src/stores/todoStore.ts:31-35 | of two checks on one id, the second alone decides the result |
| TodoStore.CheckTodoCommutes | src/stores/todoStore.ts:31-35 | checks on two different ids can be done in either order |
| TodoStore.CheckTodoNoChange | src/stores/todoStore.ts:31-35 | a check leaves the state unchanged exactly when every matching item already has the flag; a check on an id that matches nothing is a no-op |
| TodoStore.AddThenDeleteLast | src/stores/todoStore.ts:14-29 | deleting at -1, or at the old length, right after a successful add gives back the old list with an empty draft |
| TodoStore.DelTodoItemRestorable | src/stores/todoStore.ts:28 | after deleting a valid position, inserting the removed item there restores the list, and the multiset of items loses exactly that item |
| TodoStore.ActionsPreserveValid | src/stores/todoStore.ts:14-35 | add, delete and check keep every item's text non-empty and every id a canonical digit string of at most 8 characters |
| TodoStore.Walkthrough | src/stores/todoStore.ts:6-35 | from a fresh store, typing "buy milk", adding, checking the new item's id and deleting position 0 gives one unchecked item, then the same item checked, then an empty list |
| Splice.SpliceOne | src/stores/todoStore.ts:28 | `splice(start, 1)` removes the item at `start` when it is in range, at `length + start` for a negative start that reaches the list, and at 0 for one below minus the length of a non-empty sequence; otherwise, and always for an empty sequence, the sequence is unchanged |
| Splice.RemoveAt | src/stores/todoStore.ts:28 | removing a position keeps the elements before it, shifts the rest down one, and drops exactly that element from the multiset |
| Splice.RemoveInsertRoundTrip | src/stores/todoStore.ts:28 | putting a removed element back at its position restores the sequence |
| Splice.InsertRemoveRoundTrip | src/stores/todoStore.ts:28 | removing an element just inserted at a position restores the sequence |
| Decimal.FromNat | src/stores/todoStore.ts:20 | the rendering of any non-negative integer is a non-empty digit string with no leading zero, and is one character long exactly for integers below 10 |
| Decimal.ValueFromNat | src/stores/todoStore.ts:20 | reading back the rendering of `n` gives `n` |
| Decimal.FromNatValue | src/stores/todoStore.ts:20 | every canonical digit string is the rendering of the number it denotes |
| Decimal.FromNatInjective | src/stores/todoStore.ts:20 | two draws give the same id exactly when they are the same draw |
| Decimal.LengthBound | src/stores/todoStore.ts:20 | for k >= 1, a non-negative integer renders in at most k digits exactly when it is below 10^k |

## Left out

- The Pinia `defineStore` wiring and the reactive `this`: each action takes the state and returns the new one.
- `Math.random` itself: it is a floating-point pseudo-random source, so the drawn integer is a parameter limited to [0, 100000000).
- `alert(...)`: a blocking UI side effect, replaced by the `alerted` flag with the state left as it was.
- Non-integer, NaN and infinite arguments to `delTodoItem`: the index is a mathematical integer; JavaScript's truncation of fractions is not modelled.
- The falsy test `!this.value` is modelled as "the draft is the empty string"; the draft is typed as a string, so `null` and `undefined` are not modelled.
- Writes to the draft by the input field bound to the store happen outside the actions; `TodoStore.SetDraft` stands for them.
- Id uniqueness is not modelled as a property: the source does not check for collisions, and two equal draws give equal ids (`Decimal.FromNatInjective`).
- JavaScript strings are sequences of UTF-16 code units; the model's strings are sequences of Unicode scalar values, so a lone surrogate cannot be represented. The store only tests the draft for emptiness and compares ids with `===`, so no behaviour of the actions depends on this.
