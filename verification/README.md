# Kanban board state machine

A model of the kanban page script (`script.js`): three columns of task cards
(`todo`, `progress`, `done`), the count label of each column, the card being
dragged (`dragElement`), and the single storage slot the board is saved to
under the key `"kanbanBoard"`.

- `kanban_spec.dfy`, module `KanbanSpec`: the values. A task is a
  `(title, desc)` pair; a board is three sequences of cards in display
  order; the stored record (`Snapshot`) maps each column to its task list.
  The column operations the page performs on card elements are functions:
  `Remove`/`Detach` (what `remove()` does), `Append` (what `appendChild` does
  to a card that is not shown), and `MoveTo` (what `appendChild` does to a
  shown card: detach, then append at the end). The codec is `Encode` (the
  record `saveToLocalStorage` writes) and `Restore` (the board
  `loadFromLocalStorage` rebuilds). The lemmas prove what these operations
  promise.
- `kanban_board.dfy`, module `KanbanBoard`: the page. `Card` is a card element;
  its identity is what a drag or a delete click refers to, so two cards with
  the same title and description are still two cards. `Board` holds the
  columns, the count labels, `dragged` and `store`; each handler of the page
  is a method with a `modifies` clause whose `ensures` ties the new state to
  the functions of `KanbanSpec`. `Board.Valid()` is the invariant that no
  card is shown twice, so every shown card lives in exactly one column.
  `CountsAgree()` says every label shows its column's length, and
  `Synced()` says the store holds the record of the board as displayed.

Stored records are keyed by the column itself: column 0 (`Todo`), 1
(`Progress`) and 2 (`Done`) stand for the element ids `"todo"`, `"progress"`
and `"done"` that the page uses as the record's JSON keys.

## Model

| member | source | states |
|---|---|---|
| `KanbanBoard.Card.constructor` | script.js:88-96 | A new card shows exactly the title and description it was created with. |
| `KanbanBoard.Board.constructor` | script.js:1-7 | The page before the script runs: its markup's columns and labels, the stored value, and no card being dragged (`dragElement = null`). |
| `KanbanBoard.Records` | script.js:19-24 | A column is saved as one `{title, desc}` record per card, same length, record i being card i's title and description. |
| `KanbanBoard.ReadColumn` | script.js:19-24 | The loop over a column's cards yields exactly that column's records, in display order. |
| `KanbanBoard.BuildSnapshot` | script.js:11-25 | The nested loops build exactly the record `Encode` gives for the displayed board: all three keys, each with its column's tasks in order. Nothing is changed. |
| `KanbanBoard.Board.Save` | script.js:10-28 | The slot is overwritten with the record of the current board. The columns, labels and drag state are not touched. |
| `KanbanBoard.Board.Load` | script.js:30-45 | With nothing stored, the page is left exactly as it was. With a stored record, the board shows exactly `Restore(record)` and every card shown is newly created, so every earlier card is gone. Each column lists its key's tasks in order, a missing key leaves the column empty, and the labels agree. The store is not touched. |
| `KanbanBoard.Board.ClearColumns` | script.js:34-36 | Every card is taken off all three columns. |
| `KanbanBoard.Board.Rebuild` | script.js:38-42 | Starting from empty columns, the keys are processed in an arbitrary order. The result is `Restore(record)` whatever that order is, and every card on the board is newly created. |
| `KanbanBoard.RebuildStep` | script.js:39-41 | Once one key's tasks are appended to its empty column, that column shows what `Restore` gives for it and the columns whose keys are still to come stay empty. |
| `KanbanBoard.Board.AppendTasks` | script.js:39-41 | New cards for the given tasks are appended to one column, in order: every card after the old prefix is newly created and they show the tasks in order. Its earlier cards stay as a prefix and the other columns are unchanged. |
| `KanbanBoard.Board.UpdateCount` | script.js:48-55 | Afterwards each label equals its column's number of cards. Only the labels change. |
| `KanbanBoard.Board.DragStart` | script.js:61-63 | The dragged reference becomes the card. Nothing else changes. |
| `KanbanBoard.Board.DragEnd` | script.js:65-68 | Whether or not a drop happened, no card is dragged afterwards and the store holds the current board's record. |
| `KanbanBoard.Board.Drop` | script.js:75-82 | With no drag in progress nothing changes: columns, labels, store. Otherwise the board becomes `MoveTo(old board, dragged, target)`, the labels agree and the store holds the new record. No card is shown twice afterwards. |
| `KanbanBoard.Board.DropCard` | script.js:78-80 | Dropping a given card: the board becomes `MoveTo(old board, card, target)`, no card is shown twice, the labels agree and the store holds the new record. |
| `KanbanBoard.Board.CreateTask` | script.js:88-107 | A new card showing (title, desc) is appended as the last card of the given column. Nothing else changes. |
| `KanbanBoard.Board.Delete` | script.js:100-104 | The clicked card is detached (`Detach`) and appears nowhere afterwards. The labels agree and the store holds the new record. The same handler is attached to cards written in the markup (script.js:113-117). |
| `KanbanBoard.Board.Add` | script.js:135-143 | An empty title changes nothing, not even the labels or the store. Otherwise `todo` gets exactly one new card, at its end, showing (title, desc). Its earlier cards keep their order, `progress` and `done` are unchanged, the labels agree and the store holds the new record. |
| `KanbanBoard.Board.Init` | script.js:150-152 | At start-up the labels agree with the columns. The board is the stored one, built from new cards, if a record exists, and the markup's one otherwise. |
| `KanbanSpec.Encode` | script.js:11-25 | The saved record has all three keys, and each key holds its column's task list. |
| `KanbanSpec.Restore` | script.js:34-42 | The rebuilt board has three columns: a column whose key the record has shows that key's list, and a column whose key it lacks is empty. |
| `KanbanSpec.Detach` | script.js:101 | `remove()` of a card (also script.js:114) takes every occurrence of it off every column and leaves every other card of each column as often as before. |
| `KanbanSpec.Append` | script.js:106 | `appendChild` of a card that is not shown: the column grows by one, its old cards stay as a prefix, the new card is last, and the other columns are unchanged. |
| `KanbanSpec.MoveTo` | script.js:78 | `appendChild` of a shown card: it ends up last in the target column, exactly once there, and off every other column, whose other cards keep their counts. |
| `KanbanSpec.RestoreEncode` | script.js:10-45 | Loading the record that was just saved reproduces every column exactly, in order. |
| `KanbanSpec.EncodeRestore` | script.js:30-45 | Loading a record and saving again keeps every list the record had and stores an empty list under each key it lacked. |
| `KanbanSpec.EncodeOf` | script.js:11-25 | A record that has all three keys, each holding its column's tasks, is the record of that board. |
| `KanbanSpec.Remove` | script.js:101 | Removing a card leaves every other card with the same number of occurrences and the removed card with none. |
| `KanbanSpec.RemoveAbsent` | script.js:101 | Removing a card that is not in the column leaves the column unchanged. |
| `KanbanSpec.RemoveAt` | script.js:101 | Removing a card that sits once, at index k, deletes exactly position k and keeps the others in order. |
| `KanbanSpec.DetachExact` | script.js:100-104 | On a valid board, deleting the card at index k of column c removes exactly that position. The rest of c keeps its order and the other columns are unchanged. |
| `KanbanSpec.DetachAbsent` | script.js:101 | Deleting a card that is no longer on the board changes nothing: `remove()` on a detached card is a no-op (also script.js:114). |
| `KanbanSpec.DetachMultiset` | script.js:101 | Deleting takes the card off the board and leaves every other card as often as before. |
| `KanbanSpec.DetachKeepsDistinct` | script.js:101 | Deleting keeps every card shown at most once, and the deleted card is gone. |
| `KanbanSpec.AppendMultiset` | script.js:106 | Appending a new card adds exactly one occurrence of it and changes nothing else. |
| `KanbanSpec.AppendKeepsDistinct` | script.js:106 | Appending a card that is not shown yet keeps every card shown at most once. |
| `KanbanSpec.MoveMultiset` | script.js:78 | After a drop the card is on the board exactly once, and every other card is there as often as before. |
| `KanbanSpec.MoveKeepsDistinct` | script.js:78 | A drop keeps every card shown at most once, even if the dragged card was not shown before. |
| `KanbanSpec.MoveConserves` | script.js:75-82 | Dropping a card that is on the board changes no card's count, so the total number of tasks is unchanged. |
| `KanbanSpec.MoveLands` | script.js:78 | After a drop the card is the last element of the target column. It appears there exactly once and in no other column, even when the target is its own column. |
| `KanbanSpec.MoveExact` | script.js:75-82 | Dropping the card at index k of column c removes exactly that position and appends the card to the target. Every other card keeps its column and relative order, also when c is the target. |
| `KanbanSpec.OneColumn` | script.js:78 | On a valid board every shown card lives in exactly one column. |

## Left out

- DOM querying, `innerHTML` templating, `setAttribute` and the registration of event listeners (script.js:1-5, 58-59, 73, 85, 92-96, 110-111) are wiring. A card is modelled as an object with a fixed title and description, and each handler is a method.
- KanbanBoard.Board.Save: reads each card's text as given at creation. The script reads it back through `innerText` (script.js:21-22) after writing it through `innerHTML` (script.js:92-96), and that is lossy. Markup in the text is interpreted, leading and trailing whitespace is dropped, and runs of spaces or newlines collapse to one space. So `Add(" a  b ", "")` stores the title `"a b"`, where the model stores `" a  b "`. A whitespace-only title such as `"   "` passes the `if (!taskTitle)` test (script.js:139) and is added, but it is saved with the title `""`, so a reload shows a card with no title. The model keeps titles and descriptions as plain strings.
- The text encoding of the store (`localStorage`, `JSON.stringify`, `JSON.parse`) is outside the model. The store is one `Option<Snapshot>` slot standing for the key `"kanbanBoard"`. `setItem` (script.js:27) is assumed to succeed. It can throw, with `QuotaExceededError` when storage is full or `SecurityError` when storage is blocked. Then the drop, delete or add handler stops after the board and labels have changed (script.js:78-80, 101-103, 141-143), and the store keeps the previous record, so `Synced()` does not hold; `KanbanBoard.Board.Save`, `DragEnd`, `DropCard`, `Delete` and `Add` all promise `Synced()` on that assumption.
- Stored data that `JSON.parse` rejects makes the script throw (script.js:31). A stored key that names no column is looked up with `querySelector` only inside `data[colId].forEach` (script.js:39-40), so:
  - an unknown key with an empty list (`{"todo":[],"archive":[]}`) loads without error;
  - a key that is the id of another element (`"toggle-modal"`, `"add-new-task"`, script.js:121,124) gets task cards appended into that element, with no error;
  - a key that is not a valid CSS id (`"1"`) makes `querySelector` throw a `SyntaxError`;
  - a key with a non-empty list that matches no element makes `appendChild` on `null` throw.
  A throw leaves the columns cleared and partly rebuilt, and skips `updateCount` (script.js:44). Record keys are columns by type, so none of these keys can be expressed, and record values are lists of `{title, desc}`. A stored value that parses to another falsy value (`0`, `false`, `""`) is not modelled.
- The `if (count)` guard of `updateCount` (script.js:51): every column is assumed to have its count label.
- Modal toggling and clearing the input fields (script.js:121-132, 145-147) are display-only.
- `dragover`, `preventDefault` and the browser's ordering of drag events (script.js:73, 76). `DragStart`, `Drop` and `DragEnd` are separate calls made in one thread, in any order.
- With nothing stored, `loadFromLocalStorage` leaves the board as the markup made it (script.js:32). Stored data that fails to parse is not recovered from (script.js:31).
