/**
 * The kanban page as a state machine: three columns of task cards, the count
 * label of each column, the card being dragged, and the one storage slot the
 * board is saved to. Each method is one event handler of the page (or one of
 * the helpers they call) and runs to completion before the next one starts.
 */
module KanbanBoard {
  import opened KanbanSpec

  /** A task card element. Its title and description never change once it is created. */
  class Card {
    const title: string
    const desc: string

    constructor (title: string, desc: string)
      ensures this.title == title && this.desc == desc
    {
      this.title := title;
      this.desc := desc;
    }
  }

  /** The task a card shows: the text of its heading and of its paragraph. */
  function TaskOf(card: Card): (task: Task)
  {
    Task(card.title, card.desc)
  }

  /** The tasks a column shows, in display order: the cards read one by one. */
  function Records(cards: seq<Card>): (r: seq<Task>)
    ensures |r| == |cards|
    ensures forall i :: 0 <= i < |cards| ==> r[i] == TaskOf(cards[i])
  {
    if cards == [] then [] else Records(cards[..|cards| - 1]) + [TaskOf(cards[|cards| - 1])]
  }

  /** What the three columns show. */
  function Tasks(cols: seq<seq<Card>>): (view: seq<seq<Task>>)
    requires |cols| == 3
    ensures |view| == 3
  {
    seq(3, i requires 0 <= i < 3 => Records(cols[i]))
  }

  /** Reads each card of a column, in display order, as a task. */
  method ReadColumn(cards: seq<Card>) returns (tasks: seq<Task>)
    ensures tasks == Records(cards)
  {
    tasks := [];
    for k := 0 to |cards|
      invariant tasks == Records(cards[..k])
    {
      assert cards[..k + 1][..k] == cards[..k];
      tasks := tasks + [TaskOf(cards[k])];
    }
    assert cards[..|cards|] == cards;
  }

  /** Reads the board column by column into a new record; changes nothing. */
  method BuildSnapshot(cols: seq<seq<Card>>) returns (data: Snapshot)
    requires |cols| == 3
    ensures data == Encode(Tasks(cols))
  {
    data := map[Todo := [], Progress := [], Done := []];
    for c := 0 to 3
      invariant forall d: Column :: d in data
      invariant forall d: Column :: d < c ==> data[d] == Records(cols[d])
    {
      var tasks := ReadColumn(cols[c]);
      data := data[c := tasks];
    }
    EncodeOf(data, Tasks(cols));
  }

  /**
   * One step of rebuilding: after the tasks under `column` are appended to
   * its empty column, that column shows what `Restore` gives for it and the
   * columns still to be processed stay empty.
   */
  lemma RebuildStep(before: seq<seq<Card>>, after: seq<seq<Card>>, data: Snapshot, keys: set<Column>, column: Column)
    requires |before| == 3 && |after| == 3 && column in keys && column in data
    requires forall c: Column :: c in keys ==> before[c] == []
    requires forall c: Column :: c !in keys ==> Records(before[c]) == Restore(data)[c]
    requires Records(after[column]) == Records(before[column]) + data[column]
    requires forall c: Column :: c != column ==> after[c] == before[c]
    ensures forall c: Column :: c in keys - {column} ==> after[c] == []
    ensures forall c: Column :: c !in keys - {column} ==> Records(after[c]) == Restore(data)[c]
  {
  }

  class Board {
    /** The task cards of the todo, progress and done columns, in display order. */
    var cols: seq<seq<Card>>
    /** The number shown in each column's count label. */
    var counts: seq<nat>
    /** The card of the drag gesture in progress, if any. */
    var dragged: Card?
    /** The value stored under the board's storage key, if any. */
    var store: Option<Snapshot>

    /** Three columns and three labels; no card is shown twice. */
    ghost predicate Valid()
      reads this`cols, this`counts
    {
      |cols| == 3 && |counts| == 3 && Distinct(All(cols))
    }

    /** Every count label shows the number of cards in its column. */
    ghost predicate CountsAgree()
      reads this`cols, this`counts
      requires Valid()
    {
      forall c: Column :: counts[c] == |cols[c]|
    }

    function View(): (view: seq<seq<Task>>)
      reads this`cols, this`counts
      requires Valid()
    {
      Tasks(cols)
    }

    /** The record the current board is saved as. */
    function Current(): (data: Snapshot)
      reads this`cols, this`counts
      requires Valid()
    {
      Encode(View())
    }

    /** The stored value is the record of the board as displayed. */
    ghost predicate Synced()
      reads this
      requires Valid()
    {
      store == Some(Current())
    }

    /**
     * The page before the script runs: the cards written in its markup, the
     * label texts, and whatever an earlier visit left in storage.
     */
    constructor (markup: seq<seq<Card>>, labels: seq<nat>, stored: Option<Snapshot>)
      requires |markup| == 3 && |labels| == 3 && Distinct(All(markup))
      ensures Valid()
      ensures cols == markup && counts == labels && store == stored && dragged == null
    {
      cols := markup;
      counts := labels;
      store := stored;
      dragged := null;
    }

    /* ---------------- Local storage ---------------- */

    /** Overwrites the storage slot with the record of the current board. */
    method Save()
      requires Valid()
      modifies this`store
      ensures Synced()
    {
      var data := BuildSnapshot(cols);
      store := Some(data);
    }

    /**
     * With nothing stored, leaves the board as it is. Otherwise takes every
     * card off the board and builds new cards, column by column, from the
     * stored record; a column whose key the record lacks stays empty.
     */
    method Load()
      requires Valid()
      modifies this`cols, this`counts
      ensures Valid()
      ensures store.None? ==> unchanged(this)
      ensures store.Some? ==> View() == Restore(store.value) && CountsAgree()
      ensures store.Some? ==> forall c: Column, i | 0 <= i < |cols[c]| :: fresh(cols[c][i])
    {
      if store.None? {
        return;
      }
      var data := store.value;
      ClearColumns();
      Rebuild(data);
      UpdateCount();
    }

    /** Takes every card off the board. */
    method ClearColumns()
      requires Valid()
      modifies this`cols
      ensures Valid() && cols == [[], [], []]
    {
      for c := 0 to 3
        invariant |cols| == 3 && counts == old(counts)
        invariant forall d :: 0 <= d < c ==> cols[d] == []
      {
        cols := cols[c := []];
      }
      assert All(cols) == [];
    }

    /**
     * Fills the emptied board from a stored record, one key at a time, in
     * whatever order the keys come.
     */
    method Rebuild(data: Snapshot)
      requires Valid() && cols == [[], [], []]
      modifies this`cols
      ensures Valid() && View() == Restore(data)
      ensures forall c: Column, i | 0 <= i < |cols[c]| :: fresh(cols[c][i])
    {
      var keys := data.Keys;
      while keys != {}
        invariant keys <= data.Keys
        invariant Valid()
        invariant forall c: Column, i | 0 <= i < |cols[c]| :: fresh(cols[c][i])
        invariant forall c: Column :: c in keys ==> cols[c] == []
        invariant forall c: Column :: c !in keys ==> Records(cols[c]) == Restore(data)[c]
        decreases keys
      {
        var column :| column in keys;
        ghost var before := cols;
        AppendTasks(data[column], column);
        RebuildStep(before, cols, data, keys, column);
        forall c: Column, i | 0 <= i < |cols[c]| ensures fresh(cols[c][i]) {
          if c != column || i < |before[column]| {
            assert cols[c][i] == before[c][i];
          }
        }
        keys := keys - {column};
      }
    }

    /** Builds a new card for each task, in order, at the end of `column`. */
    method AppendTasks(tasks: seq<Task>, column: Column)
      requires Valid()
      modifies this`cols
      ensures Valid()
      ensures old(cols[column]) <= cols[column]
      ensures Records(cols[column]) == Records(old(cols[column])) + tasks
      ensures forall i :: |old(cols[column])| <= i < |cols[column]| ==> fresh(cols[column][i])
      ensures forall c: Column :: c != column ==> cols[c] == old(cols[c])
    {
      for k := 0 to |tasks|
        invariant Valid()
        invariant forall i :: |old(cols[column])| <= i < |cols[column]| ==> fresh(cols[column][i])
        invariant old(cols[column]) <= cols[column]
        invariant Records(cols[column]) == Records(old(cols[column])) + tasks[..k]
        invariant forall c: Column :: c != column ==> cols[c] == old(cols[c])
      {
        var card := CreateTask(tasks[k].title, tasks[k].desc, column);
        assert tasks[..k + 1] == tasks[..k] + [tasks[k]];
      }
      assert tasks[..|tasks|] == tasks;
    }

    /* ---------------- Task count ---------------- */

    /** Sets each column's count label to the number of cards in that column. */
    method UpdateCount()
      requires Valid()
      modifies this`counts
      ensures Valid() && CountsAgree()
    {
      for c := 0 to 3
        invariant |counts| == 3
        invariant forall d :: 0 <= d < c ==> counts[d] == |cols[d]|
      {
        counts := counts[c := |cols[c]|];
      }
    }

    /* ---------------- Drag and drop ---------------- */

    /** A drag gesture starts on `card`. */
    method DragStart(card: Card)
      modifies this`dragged
      ensures dragged == card
    {
      dragged := card;
    }

    /** A drag gesture ends, dropped or not: no card is dragged and the board is saved. */
    method DragEnd()
      requires Valid()
      modifies this`dragged, this`store
      ensures dragged == null && Synced()
    {
      dragged := null;
      Save();
    }

    /**
     * A drop on column `target`. With no drag in progress nothing happens.
     * Otherwise the dragged card is moved to the end of `target` (which may
     * be its own column), the labels are refreshed and the board is saved.
     */
    method Drop(target: Column)
      requires Valid()
      modifies this`cols, this`counts, this`store
      ensures Valid()
      ensures old(dragged) == null ==> unchanged(this)
      ensures dragged != null ==> var card: Card := dragged;
        && cols == MoveTo(old(cols), card, target)
        && CountsAgree() && Synced()
    {
      if dragged != null {
        DropCard(dragged, target);
      }
    }

    /** The drop of `card` on column `target`: move it, refresh the labels, save. */
    method DropCard(card: Card, target: Column)
      requires Valid()
      modifies this`cols, this`counts, this`store
      ensures Valid() && CountsAgree() && Synced()
      ensures cols == MoveTo(old(cols), card, target)
    {
      MoveKeepsDistinct(cols, card, target);
      cols := MoveTo(cols, card, target);
      UpdateCount();
      Save();
    }

    /* ---------------- Create and delete ---------------- */

    /** Builds a new card for (title, desc) and appends it to `column`. */
    method CreateTask(title: string, desc: string, column: Column) returns (card: Card)
      requires Valid()
      modifies this`cols
      ensures Valid() && fresh(card)
      ensures TaskOf(card) == Task(title, desc)
      ensures cols == Append(old(cols), card, column)
    {
      card := new Card(title, desc);
      AppendKeepsDistinct(cols, card, column);
      cols := Append(cols, card, column);
    }

    /** The delete button of `card`: the card leaves the board, labels and store follow. */
    method Delete(card: Card)
      requires Valid()
      modifies this`cols, this`counts, this`store
      ensures Valid() && CountsAgree() && Synced()
      ensures cols == Detach(old(cols), card)
      ensures card !in All(cols)
    {
      DetachKeepsDistinct(cols, card);
      cols := Detach(cols, card);
      UpdateCount();
      Save();
    }

    /**
     * The add button: an empty title is ignored; otherwise a card for
     * (title, desc) becomes the last card of the todo column, and the labels
     * and the store follow.
     */
    method Add(title: string, desc: string)
      requires Valid()
      modifies this`cols, this`counts, this`store
      ensures Valid()
      ensures title == "" ==> unchanged(this)
      ensures title != "" ==>
        && |cols[Todo]| == |old(cols[Todo])| + 1
        && cols[Todo][..|old(cols[Todo])|] == old(cols[Todo])
        && fresh(cols[Todo][|old(cols[Todo])|])
        && View() == old(View())[Todo := old(View())[Todo] + [Task(title, desc)]]
        && cols[Progress] == old(cols[Progress]) && cols[Done] == old(cols[Done])
        && CountsAgree() && Synced()
    {
      if title == "" {
        return;
      }
      var card := CreateTask(title, desc, Todo);
      UpdateCount();
      Save();
    }

    /* ---------------- Start-up ---------------- */

    /** Start-up: load the stored board if there is one, then refresh the labels. */
    method Init()
      requires Valid()
      modifies this`cols, this`counts
      ensures Valid() && CountsAgree()
      ensures store.None? ==> cols == old(cols)
      ensures store.Some? ==> View() == Restore(store.value)
      ensures store.Some? ==> forall c: Column, i | 0 <= i < |cols[c]| :: fresh(cols[c][i])
    {
      Load();
      UpdateCount();
    }
  }
}
