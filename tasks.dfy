/**
 * The task records and the expression-level queries over the task list:
 * the filters behind delete and the two clears, the counts behind the
 * statistics, the duplicate check, the look-up behind toggle, and the
 * validation an added text goes through.
 */
module Tasks {
  import opened Wrappers
  import opened Text

  /** The ISO-8601 creation time; the model never inspects it. */
  type Timestamp = string

  datatype Task = Task(id: int, text: string, completed: bool, createdAt: Timestamp)

  /** Which class is running: the base app or the one with the length limit. */
  datatype Variant = Basic | Enhanced

  /** Why an add was refused, in the order the checks run. */
  datatype AddError = EmptyInput | TooLong | DuplicateTask

  datatype TaskStats = TaskStats(total: nat, completed: nat, pending: nat)

  /** The longest text the enhanced variant accepts, in UTF-16 code units. */
  const MaxTaskLength: nat := 100

  predicate IsCompleted(t: Task) { t.completed }

  predicate IsPending(t: Task) { !t.completed }

  // ---------------------------------------------------------------------
  // Array.prototype.filter

  /** The tasks of `ts` that `keep` accepts, in their order in `ts`. */
  function Filter(ts: seq<Task>, keep: Task -> bool): (r: seq<Task>)
    ensures |r| <= |ts|
  {
    if ts == [] then []
    else (if keep(ts[0]) then [ts[0]] else []) + Filter(ts[1..], keep)
  }

  /** A filter keeps exactly the tasks its test accepts. */
  lemma {:induction false} FilterMembers(ts: seq<Task>, keep: Task -> bool)
    ensures forall t :: t in Filter(ts, keep) <==> t in ts && keep(t)
  {
    if ts != [] {
      FilterMembers(ts[1..], keep);
      assert ts == [ts[0]] + ts[1..];
    }
  }

  /** Filtering is done piecewise: it keeps the relative order of what survives. */
  lemma {:induction false} FilterAppend(a: seq<Task>, b: seq<Task>, keep: Task -> bool)
    ensures Filter(a + b, keep) == Filter(a, keep) + Filter(b, keep)
  {
    if a == [] {
      assert a + b == b;
    } else {
      var head := if keep(a[0]) then [a[0]] else [];
      assert (a + b)[0] == a[0] && (a + b)[1..] == a[1..] + b;
      FilterAppend(a[1..], b, keep);
      assert Filter(a + b, keep) == head + Filter(a[1..] + b, keep);
      assert Filter(a, keep) == head + Filter(a[1..], keep);
    }
  }

  /** When `keep` accepts every task, filtering changes nothing. */
  lemma {:induction false} FilterKeepsAll(ts: seq<Task>, keep: Task -> bool)
    requires forall i :: 0 <= i < |ts| ==> keep(ts[i])
    ensures Filter(ts, keep) == ts
  {
    if ts != [] {
      FilterKeepsAll(ts[1..], keep);
    }
  }

  /** When `keep` rejects every task, nothing survives. */
  lemma {:induction false} FilterDropsAll(ts: seq<Task>, keep: Task -> bool)
    requires forall i :: 0 <= i < |ts| ==> !keep(ts[i])
    ensures Filter(ts, keep) == []
  {
    if ts != [] {
      FilterDropsAll(ts[1..], keep);
    }
  }

  /** When `keep` rejects position `k` only, filtering removes exactly that position. */
  lemma {:induction false} FilterDropsOne(ts: seq<Task>, k: nat, keep: Task -> bool)
    requires k < |ts| && !keep(ts[k])
    requires forall j :: 0 <= j < |ts| && j != k ==> keep(ts[j])
    ensures Filter(ts, keep) == ts[..k] + ts[k + 1..]
  {
    if k == 0 {
      FilterKeepsAll(ts[1..], keep);
    } else {
      FilterDropsOne(ts[1..], k - 1, keep);
      assert ts[..k] + ts[k + 1..] == [ts[0]] + (ts[1..][..k - 1] + ts[1..][k..]);
    }
  }

  /** Filtering twice by the same test is filtering once. */
  lemma FilterIdempotent(ts: seq<Task>, keep: Task -> bool)
    ensures Filter(Filter(ts, keep), keep) == Filter(ts, keep)
  {
    var r := Filter(ts, keep);
    FilterMembers(ts, keep);
    assert forall i :: 0 <= i < |r| ==> r[i] in r;
    FilterKeepsAll(r, keep);
  }

  /** Replacing one task changes the filtered length by the difference in acceptance. */
  lemma FilterUpdateLength(ts: seq<Task>, k: nat, t: Task, keep: Task -> bool)
    requires k < |ts|
    ensures |Filter(ts[k := t], keep)| ==
            |Filter(ts, keep)| - (if keep(ts[k]) then 1 else 0) + (if keep(t) then 1 else 0)
  {
    var pre, post := ts[..k], ts[k + 1..];
    assert ts == pre + [ts[k]] + post;
    assert ts[k := t] == pre + [t] + post;
    FilterAppend(pre + [ts[k]], post, keep);
    FilterAppend(pre, [ts[k]], keep);
    FilterAppend(pre + [t], post, keep);
    FilterAppend(pre, [t], keep);
  }

  // ---------------------------------------------------------------------
  // Statistics

  /** The tasks the completed filter keeps. */
  function CompletedTasks(ts: seq<Task>): (r: seq<Task>)
    ensures forall t :: t in r <==> t in ts && t.completed
  {
    FilterMembers(ts, IsCompleted);
    Filter(ts, IsCompleted)
  }

  /** The tasks `clearCompleted` keeps. */
  function PendingTasks(ts: seq<Task>): (r: seq<Task>)
    ensures forall t :: t in r <==> t in ts && !t.completed
  {
    FilterMembers(ts, IsPending);
    Filter(ts, IsPending)
  }

  /** Every task is either completed or pending, never both. */
  lemma {:induction false} CompletedPlusPending(ts: seq<Task>)
    ensures |CompletedTasks(ts)| + |PendingTasks(ts)| == |ts|
  {
    if ts != [] {
      CompletedPlusPending(ts[1..]);
    }
  }

  /**
   * The three numbers the summary shows. `pending` is computed as
   * `total - completed`; it is also the number of uncompleted tasks.
   */
  function StatsOf(ts: seq<Task>): (s: TaskStats)
    ensures s.total == |ts|
    ensures s.completed == |CompletedTasks(ts)|
    ensures s.pending == |PendingTasks(ts)|
    ensures s.completed + s.pending == s.total
  {
    CompletedPlusPending(ts);
    var completed := |CompletedTasks(ts)|;
    TaskStats(|ts|, completed, |ts| - completed)
  }

  // ---------------------------------------------------------------------
  // Duplicate detection

  /** Two texts are equal after lower-casing. */
  predicate SameIgnoringCase(a: string, b: string) {
    Lower(a) == Lower(b)
  }

  /** Some task's text equals `text` when both are lower-cased. */
  function IsDuplicate(ts: seq<Task>, text: string): (r: bool)
    ensures r <==> exists i :: 0 <= i < |ts| && SameIgnoringCase(ts[i].text, text)
  {
    ts != [] && (SameIgnoringCase(ts[0].text, text) || IsDuplicate(ts[1..], text))
  }

  // ---------------------------------------------------------------------
  // Validation of an added text

  /**
   * The checks `addTask` runs on the trimmed input, in order: empty, then
   * (enhanced variant only) too long, then duplicate. `None` means accepted.
   */
  function Validate(ts: seq<Task>, text: string, variant: Variant): (r: Option<AddError>)
    ensures text == [] ==> r == Some(EmptyInput)
    ensures r == Some(EmptyInput) ==> text == []
    ensures r == Some(TooLong) <==>
              text != [] && variant == Enhanced && Utf16Length(text) > MaxTaskLength
    ensures r == Some(DuplicateTask) ==>
              exists i :: 0 <= i < |ts| && SameIgnoringCase(ts[i].text, text)
    ensures r == None <==>
              && text != []
              && !(variant == Enhanced && Utf16Length(text) > MaxTaskLength)
              && forall i :: 0 <= i < |ts| ==> !SameIgnoringCase(ts[i].text, text)
  {
    if text == [] then Some(EmptyInput)
    else if variant == Enhanced && Utf16Length(text) > MaxTaskLength then Some(TooLong)
    else if IsDuplicate(ts, text) then Some(DuplicateTask)
    else None
  }

  /** The base variant never refuses a text for its length. */
  lemma BasicHasNoLengthLimit(ts: seq<Task>, text: string)
    ensures Validate(ts, text, Basic) != Some(TooLong)
  {
  }

  /** A text already present under another capitalisation is refused as a duplicate. */
  lemma DuplicateIgnoresCase(ts: seq<Task>, k: nat, input: string, variant: Variant)
    requires k < |ts|
    requires Trim(input) != []
    requires variant == Basic || Utf16Length(Trim(input)) <= MaxTaskLength
    requires SameIgnoringCase(ts[k].text, Trim(input))
    ensures Validate(ts, Trim(input), variant) == Some(DuplicateTask)
  {
  }

  /** "Buy milk" and "buy MILK" are the same text ignoring case. */
  lemma BuyMilkMatchesBuyMILK()
    ensures SameIgnoringCase("Buy milk", "buy MILK")
  {
    var stored, typed := Lower("Buy milk"), Lower("buy MILK");
    assert forall i :: 0 <= i < 8 ==> stored[i] == typed[i];
  }

  /** With "Buy milk" in the list, "buy MILK" is refused as a duplicate. */
  lemma BuyMilkBlocksBuyMILK(t: Task)
    requires t.text == "Buy milk"
    ensures Validate([t], "buy MILK", Enhanced) == Some(DuplicateTask)
  {
    BuyMilkMatchesBuyMILK();
    assert IsDuplicate([t], "buy MILK");
  }

  // ---------------------------------------------------------------------
  // Array.prototype.find and toggling

  /** The index of the first task with `id`, or `None` when there is none. */
  function FindIndex(ts: seq<Task>, id: int): (r: Option<nat>)
    ensures r.Some? ==> r.value < |ts| && ts[r.value].id == id
    ensures r.Some? ==> forall j :: 0 <= j < r.value ==> ts[j].id != id
    ensures r.None? <==> forall j :: 0 <= j < |ts| ==> ts[j].id != id
  {
    if ts == [] then None
    else if ts[0].id == id then Some(0)
    else match FindIndex(ts[1..], id)
      case None => None
      case Some(k) => Some(k + 1)
  }

  /** Two lists with the same ids in the same places agree on where an id first occurs. */
  lemma FindIndexOnlyReadsIds(a: seq<Task>, b: seq<Task>, id: int)
    requires |a| == |b|
    requires forall i :: 0 <= i < |a| ==> a[i].id == b[i].id
    ensures FindIndex(a, id) == FindIndex(b, id)
  {
  }

  /** `task.completed = !task.completed`: only the completion flag changes. */
  function Flip(t: Task): (r: Task)
    ensures r.completed == !t.completed
    ensures r.id == t.id && r.text == t.text && r.createdAt == t.createdAt
  {
    t.(completed := !t.completed)
  }

  /**
   * The list after `toggleTask(id)`: the first task with `id` has its
   * completion flipped and nothing else changes; without such a task the
   * list is unchanged.
   */
  function Toggled(ts: seq<Task>, id: int): (r: seq<Task>)
    ensures |r| == |ts|
    ensures forall i :: 0 <= i < |ts| ==>
              r[i].id == ts[i].id && r[i].text == ts[i].text && r[i].createdAt == ts[i].createdAt
    ensures FindIndex(ts, id).None? ==> r == ts
    ensures FindIndex(ts, id).Some? ==>
              var k := FindIndex(ts, id).value;
              r[k].completed == !ts[k].completed &&
              forall i :: 0 <= i < |ts| && i != k ==> r[i] == ts[i]
  {
    match FindIndex(ts, id)
    case None => ts
    case Some(k) => ts[k := Flip(ts[k])]
  }

  /** Toggling the same id twice restores the list. */
  lemma ToggleTwice(ts: seq<Task>, id: int)
    ensures Toggled(Toggled(ts, id), id) == ts
  {
  }

  /** A toggle moves exactly one task between the completed and the pending count. */
  lemma ToggleMovesOneTask(ts: seq<Task>, id: int)
    requires FindIndex(ts, id).Some?
    ensures var k := FindIndex(ts, id).value;
            var after := StatsOf(Toggled(ts, id));
            var before := StatsOf(ts);
            after.total == before.total &&
            if ts[k].completed
            then after.completed + 1 == before.completed && after.pending == before.pending + 1
            else after.completed == before.completed + 1 && after.pending + 1 == before.pending
  {
    var k := FindIndex(ts, id).value;
    FilterUpdateLength(ts, k, Flip(ts[k]), IsCompleted);
    FilterUpdateLength(ts, k, Flip(ts[k]), IsPending);
  }

  // ---------------------------------------------------------------------
  // Deleting

  /** The list after a confirmed `deleteTask(id)`: every task with `id` filtered out. */
  function WithoutId(ts: seq<Task>, id: int): (r: seq<Task>)
    ensures forall i :: 0 <= i < |r| ==> r[i].id != id
    ensures forall t :: t in r <==> t in ts && t.id != id
  {
    var keep := (t: Task) => t.id != id;
    var r := Filter(ts, keep);
    FilterMembers(ts, keep);
    assert forall i :: 0 <= i < |r| ==> r[i] in r;
    r
  }

  /** Deleting an id a second time changes nothing. */
  lemma DeleteTwice(ts: seq<Task>, id: int)
    ensures WithoutId(WithoutId(ts, id), id) == WithoutId(ts, id)
  {
    FilterIdempotent(ts, (t: Task) => t.id != id);
  }

  /** Deleting an id no task has changes nothing. */
  lemma DeleteAbsent(ts: seq<Task>, id: int)
    requires forall j :: 0 <= j < |ts| ==> ts[j].id != id
    ensures WithoutId(ts, id) == ts
  {
    FilterKeepsAll(ts, (t: Task) => t.id != id);
  }

  /** Deleting keeps the survivors in their original relative order. */
  lemma DeleteKeepsOrder(a: seq<Task>, b: seq<Task>, id: int)
    ensures WithoutId(a + b, id) == WithoutId(a, id) + WithoutId(b, id)
  {
    FilterAppend(a, b, (t: Task) => t.id != id);
  }

  /** When only position `k` holds `id`, deleting `id` removes exactly that position. */
  lemma DeleteAt(ts: seq<Task>, k: nat, id: int)
    requires k < |ts| && ts[k].id == id
    requires forall j :: 0 <= j < |ts| && j != k ==> ts[j].id != id
    ensures WithoutId(ts, id) == ts[..k] + ts[k + 1..]
  {
    FilterDropsOne(ts, k, (t: Task) => t.id != id);
  }

  /**
   * With distinct ids, deleting a present id removes exactly that one task:
   * the total goes down by one.
   */
  lemma DeleteRemovesOne(ts: seq<Task>, id: int)
    requires UniqueIds(ts)
    requires FindIndex(ts, id).Some?
    ensures var k := FindIndex(ts, id).value;
            WithoutId(ts, id) == ts[..k] + ts[k + 1..]
    ensures |WithoutId(ts, id)| == |ts| - 1
  {
    var k := FindIndex(ts, id).value;
    DeleteAt(ts, k, id);
  }

  // ---------------------------------------------------------------------
  // Clearing

  /** With no completed task, the clear-completed filter keeps the whole list. */
  lemma ClearCompletedNone(ts: seq<Task>)
    requires StatsOf(ts).completed == 0
    ensures PendingTasks(ts) == ts
  {
    forall i | 0 <= i < |ts|
      ensures IsPending(ts[i])
    {
      assert ts[i] in ts;
    }
    FilterKeepsAll(ts, IsPending);
  }

  /** Clearing completed tasks removes as many tasks as the completed count. */
  lemma ClearCompletedRemovesCompleted(ts: seq<Task>)
    ensures |ts| - |PendingTasks(ts)| == StatsOf(ts).completed
    ensures StatsOf(PendingTasks(ts)) == TaskStats(StatsOf(ts).pending, 0, StatsOf(ts).pending)
  {
    var p := PendingTasks(ts);
    assert forall i :: 0 <= i < |p| ==> p[i] in p;
    FilterDropsAll(p, IsCompleted);
  }

  // ---------------------------------------------------------------------
  // The id invariant

  /** No two tasks share an id. */
  predicate UniqueIds(ts: seq<Task>) {
    forall i, j :: 0 <= i < j < |ts| ==> ts[i].id != ts[j].id
  }

  /**
   * The invariant adding, toggling, deleting and clearing keep: ids are
   * distinct and all below the counter, so the next id is fresh.
   */
  predicate WellFormed(ts: seq<Task>, counter: int) {
    UniqueIds(ts) && forall i :: 0 <= i < |ts| ==> ts[i].id < counter
  }

  /** Prepending a task with the counter's id and advancing the counter keeps the invariant. */
  lemma AddKeepsWellFormed(ts: seq<Task>, counter: int, t: Task)
    requires WellFormed(ts, counter)
    requires t.id == counter
    ensures WellFormed([t] + ts, counter + 1)
  {
  }

  /** Filtering keeps the ids distinct. */
  lemma {:induction false} FilterKeepsUniqueIds(ts: seq<Task>, keep: Task -> bool)
    requires UniqueIds(ts)
    ensures UniqueIds(Filter(ts, keep))
  {
    if ts != [] {
      FilterKeepsUniqueIds(ts[1..], keep);
      FilterMembers(ts[1..], keep);
      var rest := Filter(ts[1..], keep);
      forall i | 0 <= i < |rest|
        ensures rest[i].id != ts[0].id
      {
        assert rest[i] in ts[1..];
      }
    }
  }

  /** Filtering keeps the invariant, whatever the test. */
  lemma FilterKeepsWellFormed(ts: seq<Task>, counter: int, keep: Task -> bool)
    requires WellFormed(ts, counter)
    ensures WellFormed(Filter(ts, keep), counter)
  {
    FilterKeepsUniqueIds(ts, keep);
    FilterMembers(ts, keep);
    var r := Filter(ts, keep);
    assert forall i :: 0 <= i < |r| ==> r[i] in ts;
  }

  /** Toggling keeps the invariant. */
  lemma ToggleKeepsWellFormed(ts: seq<Task>, counter: int, id: int)
    requires WellFormed(ts, counter)
    ensures WellFormed(Toggled(ts, id), counter)
  {
  }
}
