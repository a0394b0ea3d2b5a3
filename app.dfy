/**
 * The task-list application object: its two fields, the stored state it
 * starts from, and one method per operation the page invokes. Dialog
 * answers (`confirm`) and the parsed contents of an imported file are
 * inputs; rendering, notifications and timers are not modelled.
 */
module App {
  import opened Wrappers
  import opened Text
  import opened Tasks

  // ---------------------------------------------------------------------
  // Persistent storage

  /**
   * The values read from the `todoTasks` and `taskIdCounter` keys, already
   * parsed. `None` stands for a missing key; for the counter it also stands
   * for a value `parseInt` turns into NaN.
   */
  datatype Storage = Storage(todoTasks: Option<seq<Task>>, taskIdCounter: Option<int>)

  /** `JSON.parse(...) || []`: a missing list loads as the empty list. */
  function LoadTasks(st: Storage): (ts: seq<Task>)
    ensures st.todoTasks.None? ==> ts == []
    ensures st.todoTasks.Some? ==> ts == st.todoTasks.value
  {
    st.todoTasks.GetOr([])
  }

  /** `parseInt(...) || 1`: a missing, unparsable or zero counter loads as 1. */
  function LoadCounter(st: Storage): (c: int)
    ensures c != 0
    ensures st.taskIdCounter.Some? && st.taskIdCounter.value != 0 ==> c == st.taskIdCounter.value
    ensures st.taskIdCounter.None? || st.taskIdCounter.value == 0 ==> c == 1
  {
    match st.taskIdCounter
    case Some(n) => if n != 0 then n else 1
    case None => 1
  }

  /** What `saveToStorage` writes: the whole list and the counter. */
  function Save(ts: seq<Task>, counter: int): (st: Storage)
    ensures st.todoTasks == Some(ts)
    ensures st.taskIdCounter == Some(counter)
  {
    Storage(Some(ts), Some(counter))
  }

  /**
   * Reloading what was saved gives back the list and the counter, except
   * that a counter of 0 comes back as 1; the id invariant survives either way.
   */
  lemma SaveThenLoad(ts: seq<Task>, counter: int)
    ensures LoadTasks(Save(ts, counter)) == ts
    ensures LoadCounter(Save(ts, counter)) == if counter == 0 then 1 else counter
    ensures WellFormed(ts, counter) ==>
              WellFormed(LoadTasks(Save(ts, counter)), LoadCounter(Save(ts, counter)))
  {
  }

  // ---------------------------------------------------------------------
  // Outcomes the page reports

  datatype AddOutcome = Added(task: Task) | Rejected(reason: AddError)

  /** The result of a bulk clear: refused as empty, declined at the dialog, or done. */
  datatype ClearOutcome = NothingToClear | Declined | Cleared(count: nat)

  /** What `JSON.parse` made of an imported file. */
  datatype ParsedFile = ParsedArray(items: seq<Task>) | ParsedNonArray | Unparsable

  datatype ImportOutcome = NoFile | Imported | ImportFailed

  // ---------------------------------------------------------------------
  // The application object

  /**
   * `TodoApp` and its subclass `EnhancedTodoApp`, which, as far as the task
   * state goes, differ only in the length check of `addTask`; `variant`
   * says which one is running.
   */
  class TodoApp {
    const variant: Variant
    var tasks: seq<Task>
    var taskIdCounter: int

    /** Ids are distinct and below the counter. Import alone can break it. */
    ghost predicate Valid()
      reads this
    {
      WellFormed(tasks, taskIdCounter)
    }

    /** Loads the list and the counter from storage. */
    constructor (variant: Variant, stored: Storage)
      ensures this.variant == variant
      ensures tasks == LoadTasks(stored) && taskIdCounter == LoadCounter(stored)
      ensures stored.todoTasks.None? ==> Valid()
    {
      this.variant := variant;
      tasks := LoadTasks(stored);
      taskIdCounter := LoadCounter(stored);
    }

    /**
     * Adds the trimmed input as a new, uncompleted task at the front of the
     * list with the counter as its id, unless a check refuses it; a refused
     * input changes nothing.
     */
    method AddTask(input: string, now: Timestamp) returns (r: AddOutcome)
      modifies this
      ensures Validate(old(tasks), Trim(input), variant).Some? ==>
                && r == Rejected(Validate(old(tasks), Trim(input), variant).value)
                && tasks == old(tasks)
                && taskIdCounter == old(taskIdCounter)
      ensures Validate(old(tasks), Trim(input), variant).None? ==>
                && r == Added(Task(old(taskIdCounter), Trim(input), false, now))
                && tasks == [r.task] + old(tasks)
                && taskIdCounter == old(taskIdCounter) + 1
      ensures old(Valid()) ==> Valid()
    {
      var text := Trim(input);
      if text == [] {
        return Rejected(EmptyInput);
      }
      if variant == Enhanced && Utf16Length(text) > MaxTaskLength {
        return Rejected(TooLong);
      }
      if IsDuplicate(tasks, text) {
        return Rejected(DuplicateTask);
      }
      var task := Task(taskIdCounter, text, false, now);
      taskIdCounter := taskIdCounter + 1;
      tasks := [task] + tasks;
      if old(Valid()) {
        AddKeepsWellFormed(old(tasks), old(taskIdCounter), task);
      }
      r := Added(task);
    }

    /**
     * Flips the completion of the first task with `id` and returns it;
     * returns `None` and changes nothing when no task has `id`.
     */
    method ToggleTask(id: int) returns (r: Option<Task>)
      modifies this
      ensures tasks == Toggled(old(tasks), id)
      ensures taskIdCounter == old(taskIdCounter)
      ensures r.None? <==> forall j :: 0 <= j < |old(tasks)| ==> old(tasks)[j].id != id
      ensures r.Some? ==>
                var k := FindIndex(old(tasks), id).value;
                r.value == tasks[k] && r.value.id == id &&
                r.value.completed == !old(tasks)[k].completed
      ensures old(Valid()) ==> Valid()
    {
      var found := FindIndex(tasks, id);
      if found.Some? {
        var k := found.value;
        tasks := tasks[k := Flip(tasks[k])];
        r := Some(tasks[k]);
      } else {
        r := None;
      }
    }

    /** With the dialog confirmed, removes every task with `id`; otherwise changes nothing. */
    method DeleteTask(id: int, confirmed: bool)
      modifies this
      ensures tasks == if confirmed then WithoutId(old(tasks), id) else old(tasks)
      ensures taskIdCounter == old(taskIdCounter)
      ensures old(Valid()) ==> Valid()
    {
      if confirmed {
        if Valid() {
          FilterKeepsWellFormed(tasks, taskIdCounter, (t: Task) => t.id != id);
        }
        tasks := WithoutId(tasks, id);
      }
    }

    /**
     * Refuses when no task is completed; otherwise, with the dialog
     * confirmed, keeps only the pending tasks and reports how many went.
     */
    method ClearCompleted(confirmed: bool) returns (r: ClearOutcome)
      modifies this
      ensures taskIdCounter == old(taskIdCounter)
      ensures StatsOf(old(tasks)).completed == 0 ==> r == NothingToClear && tasks == old(tasks)
      ensures StatsOf(old(tasks)).completed != 0 && !confirmed ==> r == Declined && tasks == old(tasks)
      ensures StatsOf(old(tasks)).completed != 0 && confirmed ==>
                && r == Cleared(StatsOf(old(tasks)).completed)
                && tasks == PendingTasks(old(tasks))
                && |tasks| == |old(tasks)| - r.count
      ensures old(Valid()) ==> Valid()
    {
      var completedCount := |CompletedTasks(tasks)|;
      if completedCount == 0 {
        return NothingToClear;
      }
      if !confirmed {
        return Declined;
      }
      ClearCompletedRemovesCompleted(tasks);
      if Valid() {
        FilterKeepsWellFormed(tasks, taskIdCounter, IsPending);
      }
      tasks := PendingTasks(tasks);
      r := Cleared(completedCount);
    }

    /** Refuses on an empty list; otherwise, with the dialog confirmed, empties it. */
    method ClearAll(confirmed: bool) returns (r: ClearOutcome)
      modifies this
      ensures taskIdCounter == old(taskIdCounter)
      ensures old(tasks) == [] ==> r == NothingToClear && tasks == old(tasks)
      ensures old(tasks) != [] && !confirmed ==> r == Declined && tasks == old(tasks)
      ensures old(tasks) != [] && confirmed ==> r == Cleared(|old(tasks)|) && tasks == []
      ensures old(Valid()) ==> Valid()
    {
      if |tasks| == 0 {
        return NothingToClear;
      }
      if !confirmed {
        return Declined;
      }
      r := Cleared(|tasks|);
      tasks := [];
    }

    /**
     * Replaces the whole list with an imported array, as it is; no file, a
     * file that does not parse, or one that is not an array changes nothing.
     * The counter is never touched, even when imported ids reach it.
     */
    method ImportTasks(file: Option<ParsedFile>) returns (r: ImportOutcome)
      modifies this
      ensures taskIdCounter == old(taskIdCounter)
      ensures file.None? ==> r == NoFile && tasks == old(tasks)
      ensures file.Some? && file.value.ParsedArray? ==> r == Imported && tasks == file.value.items
      ensures file.Some? && !file.value.ParsedArray? ==> r == ImportFailed && tasks == old(tasks)
    {
      if file.None? {
        return NoFile;
      }
      match file.value
      case ParsedArray(items) =>
        tasks := items;
        r := Imported;
      case _ =>
        r := ImportFailed;
    }
  }

  // ---------------------------------------------------------------------
  // Two verified scenarios of the application

  /** "A" is accepted into an empty list. */
  lemma AcceptsFirst()
    ensures Trim("A") == "A"
    ensures Validate([], "A", Enhanced) == None
  {
    TrimOfTrimmed("A");
  }

  /** "B" is accepted next to "A". */
  lemma AcceptsSecond(a: Task)
    requires a.text == "A"
    ensures Trim("B") == "B"
    ensures Validate([a], "B", Enhanced) == None
  {
    TrimOfTrimmed("B");
    assert Lower("A")[0] != Lower("B")[0];
  }

  /** With B completed in front of a pending A, the stats are 2/1/1 and clearing keeps A. */
  lemma OneOfTwoCompleted(b: Task, a: Task)
    requires b.completed && !a.completed
    ensures StatsOf([b, a]) == TaskStats(2, 1, 1)
    ensures PendingTasks([b, a]) == [a]
  {
    FilterAppend([b], [a], IsCompleted);
    FilterAppend([b], [a], IsPending);
  }

  /**
   * Starting from empty storage: add "A" (id 1) and "B" (id 2, placed
   * first), toggle B, then clear the completed tasks, leaving only A.
   */
  method Walkthrough(now: Timestamp) returns (ids: seq<int>, afterToggle: TaskStats, cleared: ClearOutcome, remaining: seq<Task>)
    ensures ids == [2, 1]
    ensures afterToggle == TaskStats(2, 1, 1)
    ensures cleared == Cleared(1)
    ensures remaining == [Task(1, "A", false, now)]
  {
    var app := new TodoApp(Enhanced, Storage(None, None));
    var taskA, taskB := Task(1, "A", false, now), Task(2, "B", false, now);
    AcceptsFirst();
    var a := app.AddTask("A", now);
    assert app.tasks == [taskA];
    AcceptsSecond(taskA);
    var b := app.AddTask("B", now);
    assert app.tasks == [taskB, taskA];
    ids := [app.tasks[0].id, app.tasks[1].id];
    var toggled := app.ToggleTask(2);
    assert app.tasks == [Flip(taskB), taskA];
    OneOfTwoCompleted(Flip(taskB), taskA);
    afterToggle := StatsOf(app.tasks);
    cleared := app.ClearCompleted(true);
    remaining := app.tasks;
  }

  /**
   * Importing a task whose id equals the counter and then adding a task
   * gives two tasks with the same id: import does not advance the counter.
   */
  method ImportThenAdd(now: Timestamp) returns (ids: seq<int>)
    ensures ids == [1, 1]
  {
    var app := new TodoApp(Enhanced, Storage(None, None));
    var previous := Task(1, "A", false, now);
    var imported := app.ImportTasks(Some(ParsedArray([previous])));
    AcceptsSecond(previous);
    var added := app.AddTask("B", now);
    ids := [app.tasks[0].id, app.tasks[1].id];
  }
}
