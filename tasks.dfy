/** The task-list routes of the Flask backend (app.py). Every route loads the
    whole list, edits it and writes the whole list back; here the list is
    passed in and the list left in the store is returned, together with the
    reply and the command written to the board's serial port. */
module TaskList {
  import opened Options
  import opened Decimal

  /** The capacity limit on the number of tasks. */
  const MaxTasks := 8

  datatype Task = Task(
    id: int,
    title: string,
    completed: bool,
    duration: int,
    isTiming: bool,
    timeRemaining: int)

  datatype Error =
    | NotFound(taskId: int)   // 404
    | TooManyTasks            // 400, the list already holds MaxTasks tasks
    | EmptyTitle              // 400, the body has no usable title
    | InternalError           // 500, a key the route reads is missing from the body

  datatype Result<T> = Ok(value: T) | Err(error: Error)

  /** The statistics every route computes from the list it saved. */
  datatype Stats = Stats(totalTasks: nat, completedTasks: nat, pendingTasks: int, completionRate: int)

  /** What a route leaves behind: its reply, the list in the store afterwards,
      and the command it writes to the board, if it sends one. */
  datatype RouteResult<T> = RouteResult(reply: Result<T>, stored: seq<Task>, boardCommand: Option<string>)

  // ---------------------------------------------------------------------------
  // Statistics

  /** `[task for task in tasks if task['completed']]` */
  function CompletedTasks(tasks: seq<Task>): (r: seq<Task>)
    ensures |r| <= |tasks|
    ensures forall t :: t in r ==> t in tasks && t.completed
    ensures forall t :: t in tasks && t.completed ==> t in r
  {
    if tasks == [] then []
    else (if tasks[0].completed then [tasks[0]] else []) + CompletedTasks(tasks[1..])
  }

  /** The filter keeps every completed task as often as the list holds it and
      drops every other, so its length is the number of completed entries. */
  lemma {:induction false} CompletedTasksMultiplicity(tasks: seq<Task>)
    ensures forall t :: multiset(CompletedTasks(tasks))[t] == if t.completed then multiset(tasks)[t] else 0
  {
    if tasks != [] {
      CompletedTasksMultiplicity(tasks[1..]);
      assert tasks == [tasks[0]] + tasks[1..];
      assert multiset(tasks) == multiset{tasks[0]} + multiset(tasks[1..]);
    }
  }

  /** Python's `round` on the exact quotient `num / den`: the nearest integer,
      and on a tie the even one. */
  function RoundHalfEven(num: nat, den: nat): (r: nat)
    requires den > 0
    ensures -(den as int) <= 2 * (r * den - num) <= den
    ensures 2 * (r * den - num) == den || 2 * (r * den - num) == -(den as int) ==> r % 2 == 0
  {
    var q, rem := num / den, num % den;
    assert num == q * den + rem;
    assert (q + 1) * den - num == den - rem;
    if 2 * rem < den then q
    else if 2 * rem > den then q + 1
    else if q % 2 == 0 then q
    else q + 1
  }

  /** `int(round((completed / total) * 100))`, or 0 for an empty list. */
  function CompletionRate(completed: nat, total: nat): (r: int)
    ensures total == 0 ==> r == 0
    ensures total > 0 ==> -(total as int) <= 2 * (r * total - 100 * completed) <= total
    ensures completed <= total ==> 0 <= r <= 100
    ensures total > 0 && (2 * (r * total - 100 * completed) == total || 2 * (r * total - 100 * completed) == -(total as int))
      ==> r % 2 == 0
  {
    if total == 0 then 0
    else
      var r := RoundHalfEven(100 * completed, total);
      assert r > 100 ==> r * total >= 101 * total by {
        if r > 100 { MulAtLeast(r, 101, total); }
      }
      r
  }

  lemma MulAtLeast(a: int, b: int, c: nat)
    requires a >= b
    ensures a * c >= b * c
  {
  }

  /** The statistics of a list. */
  function StatsOf(tasks: seq<Task>): (s: Stats)
    ensures s.totalTasks == |tasks|
    ensures s.completedTasks == |CompletedTasks(tasks)| <= s.totalTasks
    ensures s.pendingTasks == s.totalTasks - s.completedTasks >= 0
    ensures 0 <= s.completionRate <= 100
    ensures s.totalTasks == 0 ==> s.completionRate == 0
    ensures s.totalTasks > 0 ==>
      -(s.totalTasks as int) <= 2 * (s.completionRate * s.totalTasks - 100 * s.completedTasks) <= s.totalTasks
    ensures s.totalTasks > 0 && (2 * (s.completionRate * s.totalTasks - 100 * s.completedTasks) == s.totalTasks
                                 || 2 * (s.completionRate * s.totalTasks - 100 * s.completedTasks) == -(s.totalTasks as int))
      ==> s.completionRate % 2 == 0
  {
    var total := |tasks|;
    var completed := |CompletedTasks(tasks)|;
    Stats(total, completed, total - completed, CompletionRate(completed, total))
  }

  /** Flipping one task's `completed` moves the completed count by one, up or
      down as the flag moves. */
  lemma {:induction false} ToggleMovesCount(tasks: seq<Task>, k: nat)
    requires k < |tasks|
    ensures |CompletedTasks(tasks[k := tasks[k].(completed := !tasks[k].completed)])|
         == |CompletedTasks(tasks)| + (if tasks[k].completed then -1 else 1)
  {
    var flipped := tasks[k := tasks[k].(completed := !tasks[k].completed)];
    assert |CompletedTasks(flipped)|
        == (if flipped[0].completed then 1 else 0) + |CompletedTasks(flipped[1..])|;
    assert |CompletedTasks(tasks)|
        == (if tasks[0].completed then 1 else 0) + |CompletedTasks(tasks[1..])|;
    if k > 0 {
      assert flipped[1..] == tasks[1..][k - 1 := tasks[k].(completed := !tasks[k].completed)];
      ToggleMovesCount(tasks[1..], k - 1);
    } else {
      assert flipped[1..] == tasks[1..];
    }
  }

  // ---------------------------------------------------------------------------
  // The board command

  /** `max(0, min(100, completion_rate))` */
  function Clamp(rate: int): (r: nat)
    ensures r <= 100
    ensures 0 <= rate <= 100 ==> r == rate
    ensures rate < 0 ==> r == 0
    ensures rate > 100 ==> r == 100
  {
    if rate < 0 then 0 else if rate > 100 then 100 else rate
  }

  /** `f"P{completion_rate}\n"` after clamping: a 'P', the decimal digits of the
      clamped rate, a newline. */
  function BoardCommand(rate: int): (cmd: string)
    ensures 3 <= |cmd| <= 5
    ensures cmd[0] == 'P' && cmd[|cmd| - 1] == '\n'
    ensures AllDigits(cmd[1..|cmd| - 1]) && Value(cmd[1..|cmd| - 1]) == Clamp(rate)
    ensures cmd == "P" + NatToString(Clamp(rate)) + "\n"
  {
    var digits := NatToString(Clamp(rate));
    ValueOfNatToString(Clamp(rate));
    NatToStringLength(Clamp(rate));
    var cmd := "P" + digits + "\n";
    assert cmd[1..|cmd| - 1] == digits;
    cmd
  }

  // ---------------------------------------------------------------------------
  // Looking tasks up

  predicate UniqueIds(tasks: seq<Task>) {
    forall i, j :: 0 <= i < j < |tasks| ==> tasks[i].id != tasks[j].id
  }

  /** The index of the first task with id `taskId`, as the routes' `for ... break`
      loops and `next(...)` find it. */
  function FindTask(tasks: seq<Task>, taskId: int): (r: Option<nat>)
    ensures r.Some? ==> r.value < |tasks| && tasks[r.value].id == taskId
    ensures r.Some? ==> forall j :: 0 <= j < r.value ==> tasks[j].id != taskId
    ensures r.None? <==> forall j :: 0 <= j < |tasks| ==> tasks[j].id != taskId
  {
    if tasks == [] then None
    else if tasks[0].id == taskId then Some(0)
    else match FindTask(tasks[1..], taskId)
      case None => None
      case Some(k) => Some(k + 1)
  }

  /** `after` is `before` with the task at `k` replaced by `t`, and nothing else
      changed. */
  ghost predicate ChangedAt(before: seq<Task>, after: seq<Task>, k: nat, t: Task) {
    && k < |before| == |after|
    && after[k] == t
    && forall j :: 0 <= j < |before| && j != k ==> after[j] == before[j]
  }

  /** Replacing a task by one with the same id keeps the ids unique. */
  lemma SameIdKeepsUnique(before: seq<Task>, after: seq<Task>, k: nat, t: Task)
    requires ChangedAt(before, after, k, t) && t.id == before[k].id
    ensures UniqueIds(before) ==> UniqueIds(after)
  {
    if UniqueIds(before) {
      forall i, j | 0 <= i < j < |after| ensures after[i].id != after[j].id {
        assert after[i].id == before[i].id && after[j].id == before[j].id;
      }
    }
  }

  // ---------------------------------------------------------------------------
  // toggle_task

  /** Flips `completed` of the first task with the id and replies with the new
      statistics; an unknown id is a 404 and nothing is saved. */
  method ToggleTask(tasks: seq<Task>, taskId: int) returns (r: RouteResult<Stats>)
    ensures FindTask(tasks, taskId).None? ==> r == RouteResult(Err(NotFound(taskId)), tasks, None)
    ensures FindTask(tasks, taskId).Some? ==>
      var k := FindTask(tasks, taskId).value;
      && ChangedAt(tasks, r.stored, k, tasks[k].(completed := !tasks[k].completed))
      && r.reply == Ok(StatsOf(r.stored))
      && r.reply.value.completedTasks == StatsOf(tasks).completedTasks + (if tasks[k].completed then -1 else 1)
      && r.boardCommand == Some(BoardCommand(r.reply.value.completionRate))
    ensures UniqueIds(tasks) ==> UniqueIds(r.stored)
  {
    var ts := tasks;
    var found := false;
    var i := 0;
    while i < |ts|
      invariant 0 <= i <= |ts|
      invariant ts == tasks
      invariant forall j :: 0 <= j < i ==> tasks[j].id != taskId
    {
      if ts[i].id == taskId {
        ts := ts[i := ts[i].(completed := !ts[i].completed)];
        found := true;
        break;
      }
      i := i + 1;
    }
    if !found {
      return RouteResult(Err(NotFound(taskId)), tasks, None);
    }
    ToggleMovesCount(tasks, i);
    SameIdKeepsUnique(tasks, ts, i, ts[i]);
    var stats := StatsOf(ts);
    r := RouteResult(Ok(stats), ts, Some(BoardCommand(stats.completionRate)));
  }

  // ---------------------------------------------------------------------------
  // add_task

  /** The characters Python's `str.strip()` removes. */
  predicate IsPySpace(c: char) {
    c in {' ', '\t', '\n', '\r', '\U{000B}', '\U{000C}', '\U{001C}', '\U{001D}', '\U{001E}', '\U{001F}',
          '\U{0085}', '\U{00A0}', '\U{1680}', '\U{2000}', '\U{2001}', '\U{2002}', '\U{2003}', '\U{2004}',
          '\U{2005}', '\U{2006}', '\U{2007}', '\U{2008}', '\U{2009}', '\U{200A}', '\U{2028}', '\U{2029}',
          '\U{202F}', '\U{205F}', '\U{3000}'}
  }

  /** `s.lstrip()` */
  function StripStart(s: string): (r: string)
    ensures |r| <= |s| && r == s[|s| - |r|..]
    ensures r == [] || !IsPySpace(r[0])
    ensures forall i :: 0 <= i < |s| - |r| ==> IsPySpace(s[i])
  {
    if s != [] && IsPySpace(s[0]) then StripStart(s[1..]) else s
  }

  /** `s.rstrip()` */
  function StripEnd(s: string): (r: string)
    ensures |r| <= |s| && r == s[..|r|]
    ensures r == [] || !IsPySpace(r[|r| - 1])
    ensures forall i :: |r| <= i < |s| ==> IsPySpace(s[i])
  {
    if s != [] && IsPySpace(s[|s| - 1]) then StripEnd(s[..|s| - 1]) else s
  }

  /** `s.strip()` */
  function Strip(s: string): string {
    StripEnd(StripStart(s))
  }

  /** `not s.strip()`: nothing is left after stripping exactly when every
      character is white space. */
  function IsBlank(s: string): (b: bool)
    ensures b <==> forall i :: 0 <= i < |s| ==> IsPySpace(s[i])
  {
    var t := StripStart(s);
    assert (forall i :: 0 <= i < |s| ==> IsPySpace(s[i])) ==> t == [];
    assert StripEnd(t) == [] ==> forall i :: 0 <= i < |s| ==> IsPySpace(s[i]);
    Strip(s) == []
  }

  /** The decoded body of an add request: `title` and `duration` are absent when
      the JSON object lacks them (a null body behaves as one without a title). */
  datatype AddBody = AddBody(title: Option<string>, duration: Option<int>)

  /** The largest id in a non-empty list. */
  function MaxId(tasks: seq<Task>): (m: int)
    requires tasks != []
    ensures forall i :: 0 <= i < |tasks| ==> tasks[i].id <= m
    ensures exists i :: 0 <= i < |tasks| && tasks[i].id == m
  {
    if |tasks| == 1 then tasks[0].id
    else
      var rest := MaxId(tasks[1..]);
      assert exists i :: 1 <= i < |tasks| && tasks[i].id == rest by {
        var i :| 0 <= i < |tasks[1..]| && tasks[1..][i].id == rest;
        assert tasks[i + 1].id == rest;
      }
      if tasks[0].id >= rest then tasks[0].id else rest
  }

  /** `max(ids) + 1 if tasks else 1`: larger than every id in the list, and one
      more than the largest. */
  function NewId(tasks: seq<Task>): (id: int)
    ensures forall i :: 0 <= i < |tasks| ==> tasks[i].id < id
    ensures tasks == [] ==> id == 1
    ensures tasks != [] ==> exists i :: 0 <= i < |tasks| && tasks[i].id == id - 1
  {
    if tasks == [] then 1 else MaxId(tasks) + 1
  }

  /** Rejects a full list first, then a body without a usable title; otherwise
      appends a fresh task and replies with it. */
  function AddTask(tasks: seq<Task>, body: AddBody): (r: RouteResult<Task>)
    ensures |tasks| >= MaxTasks ==> r == RouteResult(Err(TooManyTasks), tasks, None)
    ensures |tasks| < MaxTasks && (body.title.None? || IsBlank(body.title.value)) ==>
      r == RouteResult(Err(EmptyTitle), tasks, None)
    ensures r.reply.Ok? <==> |tasks| < MaxTasks && body.title.Some? && !IsBlank(body.title.value)
    ensures r.reply.Ok? ==>
      var t := r.reply.value;
      && r.stored == tasks + [t]
      && |r.stored| == |tasks| + 1 <= MaxTasks
      && t.title == body.title.value
      && !t.completed && !t.isTiming
      && t.duration == t.timeRemaining == body.duration.GetOr(0)
      && (forall i :: 0 <= i < |tasks| ==> tasks[i].id < t.id)
      && (tasks == [] ==> t.id == 1)
      && (tasks != [] ==> exists i :: 0 <= i < |tasks| && tasks[i].id == t.id - 1)
      && r.boardCommand == Some(BoardCommand(StatsOf(r.stored).completionRate))
  {
    if |tasks| >= MaxTasks then RouteResult(Err(TooManyTasks), tasks, None)
    else if body.title.None? || IsBlank(body.title.value) then RouteResult(Err(EmptyTitle), tasks, None)
    else
      var d := body.duration.GetOr(0);
      var t := Task(NewId(tasks), body.title.value, false, d, false, d);
      var stored := tasks + [t];
      RouteResult(Ok(t), stored, Some(BoardCommand(StatsOf(stored).completionRate)))
  }

  /** The new id exceeds every stored one, so adding keeps the ids distinct. */
  lemma {:induction false} AddTaskKeepsUniqueIds(tasks: seq<Task>, body: AddBody)
    requires UniqueIds(tasks)
    ensures UniqueIds(AddTask(tasks, body).stored)
  {
    var r := AddTask(tasks, body);
    if r.reply.Ok? {
      var t := r.reply.value;
      assert r.stored == tasks + [t];
      forall i, j | 0 <= i < j < |r.stored|
        ensures r.stored[i].id != r.stored[j].id
      {
        if j == |tasks| {
          assert r.stored[i] == tasks[i] && r.stored[j] == t;
        } else {
          assert r.stored[i] == tasks[i] && r.stored[j] == tasks[j];
        }
      }
    }
  }

  /** add_task as the file stands: `request` is used but never imported, so
      reading the body raises NameError, which the route's own `except` turns
      into a 500 whenever the list is below capacity. */
  function AddTaskAsWritten(tasks: seq<Task>, body: AddBody): (r: RouteResult<Task>)
    ensures r.stored == tasks && r.boardCommand == None
    ensures r.reply == Err(if |tasks| >= MaxTasks then TooManyTasks else InternalError)
  {
    if |tasks| >= MaxTasks then RouteResult(Err(TooManyTasks), tasks, None)
    else RouteResult(Err(InternalError), tasks, None)
  }

  /** On an empty list with a good title the route as written fails where the
      intended route adds task 1. */
  lemma AddTaskAsWrittenRejectsGoodRequest()
    ensures AddTaskAsWritten([], AddBody(Some("a"), None)).reply == Err(InternalError)
    ensures AddTask([], AddBody(Some("a"), None)).reply == Ok(Task(1, "a", false, 0, false, 0))
  {
    assert !IsBlank("a") by {
      assert !IsPySpace("a"[0]);
    }
    var t := AddTask([], AddBody(Some("a"), None)).reply.value;
    assert t.id == 1 && t.title == "a" && t.duration == t.timeRemaining == 0;
  }

  // ---------------------------------------------------------------------------
  // delete_task

  /** `[task for task in tasks if task['id'] != task_id]` */
  function Without(tasks: seq<Task>, taskId: int): (r: seq<Task>)
    ensures |r| <= |tasks|
    ensures |r| == |tasks| ==> forall j :: 0 <= j < |tasks| ==> tasks[j].id != taskId
  {
    if tasks == [] then []
    else (if tasks[0].id == taskId then [] else [tasks[0]]) + Without(tasks[1..], taskId)
  }

  /** The kept tasks are exactly those whose id differs. */
  lemma {:induction false} WithoutMembers(tasks: seq<Task>, taskId: int)
    ensures forall t :: t in Without(tasks, taskId) <==> t in tasks && t.id != taskId
  {
    if tasks != [] {
      WithoutMembers(tasks[1..], taskId);
      assert tasks == [tasks[0]] + tasks[1..];
    }
  }

  /** Filtering commutes with concatenation, so the kept tasks stay in order. */
  lemma {:induction false} WithoutAppend(a: seq<Task>, b: seq<Task>, taskId: int)
    ensures Without(a + b, taskId) == Without(a, taskId) + Without(b, taskId)
  {
    if a != [] {
      assert (a + b)[1..] == a[1..] + b;
      WithoutAppend(a[1..], b, taskId);
    } else {
      assert a + b == b;
    }
  }

  /** Filtering out an id no task has changes nothing. */
  lemma {:induction false} WithoutAbsent(tasks: seq<Task>, taskId: int)
    requires forall j :: 0 <= j < |tasks| ==> tasks[j].id != taskId
    ensures Without(tasks, taskId) == tasks
  {
    if tasks != [] {
      WithoutAbsent(tasks[1..], taskId);
    }
  }

  /** With unique ids, deleting the id of the task at `k` removes exactly that
      task and keeps the others in their order. */
  lemma {:induction false} WithoutUnique(tasks: seq<Task>, k: nat)
    requires UniqueIds(tasks) && k < |tasks|
    ensures Without(tasks, tasks[k].id) == tasks[..k] + tasks[k + 1..]
  {
    var id := tasks[k].id;
    var before, after := tasks[..k], tasks[k + 1..];
    assert tasks == before + [tasks[k]] + after;
    forall j | 0 <= j < |before| ensures before[j].id != id {
      assert before[j] == tasks[j];
    }
    forall j | 0 <= j < |after| ensures after[j].id != id {
      assert after[j] == tasks[k + 1 + j];
    }
    WithoutOne(before, tasks[k], after);
  }

  /** Deleting an id held by one task only drops exactly that task. */
  lemma {:induction false} WithoutOne(before: seq<Task>, t: Task, after: seq<Task>)
    requires forall j :: 0 <= j < |before| ==> before[j].id != t.id
    requires forall j :: 0 <= j < |after| ==> after[j].id != t.id
    ensures Without(before + [t] + after, t.id) == before + after
    decreases |before|
  {
    var all := before + [t] + after;
    if before == [] {
      assert all[0] == t && all[1..] == after;
      WithoutAbsent(after, t.id);
    } else {
      assert all[0] == before[0] && all[1..] == before[1..] + [t] + after;
      WithoutOne(before[1..], t, after);
      assert before + after == [before[0]] + (before[1..] + after);
    }
  }

  /** Removing tasks keeps the ids unique. */
  lemma {:induction false} WithoutKeepsUnique(tasks: seq<Task>, taskId: int)
    requires UniqueIds(tasks)
    ensures UniqueIds(Without(tasks, taskId))
  {
    if tasks != [] {
      WithoutKeepsUnique(tasks[1..], taskId);
      var rest := Without(tasks[1..], taskId);
      WithoutMembers(tasks[1..], taskId);
      if tasks[0].id != taskId {
        forall j | 0 <= j < |rest| ensures rest[j].id != tasks[0].id {
          assert rest[j] in rest;
        }
      }
    }
  }

  /** An unknown id is a 404 with nothing saved; otherwise every task with the
      id is removed and the reply is the new statistics. */
  function DeleteTask(tasks: seq<Task>, taskId: int): (r: RouteResult<Stats>)
    ensures FindTask(tasks, taskId).None? ==> r == RouteResult(Err(NotFound(taskId)), tasks, None)
    ensures FindTask(tasks, taskId).Some? ==>
      && (forall t :: t in r.stored <==> t in tasks && t.id != taskId)
      && |r.stored| < |tasks|
      && r.reply == Ok(StatsOf(r.stored))
      && r.boardCommand == Some(BoardCommand(r.reply.value.completionRate))
    ensures FindTask(tasks, taskId).Some? && UniqueIds(tasks) ==>
      var k := FindTask(tasks, taskId).value;
      r.stored == tasks[..k] + tasks[k + 1..]
    ensures UniqueIds(tasks) ==> UniqueIds(r.stored)
  {
    match FindTask(tasks, taskId)
    case None => RouteResult(Err(NotFound(taskId)), tasks, None)
    case Some(k) =>
      var stored := Without(tasks, taskId);
      WithoutMembers(tasks, taskId);
      assert tasks[k] !in stored;
      assert UniqueIds(tasks) ==> stored == tasks[..k] + tasks[k + 1..] && UniqueIds(stored) by {
        if UniqueIds(tasks) {
          WithoutUnique(tasks, k);
          WithoutKeepsUnique(tasks, taskId);
        }
      }
      var stats := StatsOf(stored);
      RouteResult(Ok(stats), stored, Some(BoardCommand(stats.completionRate)))
  }

  // ---------------------------------------------------------------------------
  // rename_task, update_duration, update_timing
  //
  // These three routes read the body key only once they have found the task,
  // so an unknown id saves the list unchanged and still replies a success; a
  // missing key raises in the loop, which Flask answers with a 500, and
  // nothing is saved.

  /** Sets the title of the first task with the id. */
  method RenameTask(tasks: seq<Task>, taskId: int, title: Option<string>) returns (r: RouteResult<()>)
    ensures FindTask(tasks, taskId).None? ==> r == RouteResult(Ok(()), tasks, None)
    ensures FindTask(tasks, taskId).Some? && title.None? ==> r == RouteResult(Err(InternalError), tasks, None)
    ensures FindTask(tasks, taskId).Some? && title.Some? ==>
      var k := FindTask(tasks, taskId).value;
      && r.reply == Ok(()) && r.boardCommand == None
      && ChangedAt(tasks, r.stored, k, tasks[k].(title := title.value))
    ensures UniqueIds(tasks) ==> UniqueIds(r.stored)
  {
    var ts := tasks;
    var i := 0;
    while i < |ts|
      invariant 0 <= i <= |ts|
      invariant ts == tasks
      invariant forall j :: 0 <= j < i ==> tasks[j].id != taskId
    {
      if ts[i].id == taskId {
        if title.None? {
          return RouteResult(Err(InternalError), tasks, None);
        }
        ts := ts[i := ts[i].(title := title.value)];
        SameIdKeepsUnique(tasks, ts, i, ts[i]);
        break;
      }
      i := i + 1;
    }
    r := RouteResult(Ok(()), ts, None);
  }

  /** Sets the duration of the first task with the id, and resets its remaining
      time to the new duration unless the task is timing. */
  method UpdateDuration(tasks: seq<Task>, taskId: int, duration: Option<int>) returns (r: RouteResult<()>)
    ensures FindTask(tasks, taskId).None? ==> r == RouteResult(Ok(()), tasks, None)
    ensures FindTask(tasks, taskId).Some? && duration.None? ==> r == RouteResult(Err(InternalError), tasks, None)
    ensures FindTask(tasks, taskId).Some? && duration.Some? ==>
      var k := FindTask(tasks, taskId).value;
      && r.reply == Ok(()) && r.boardCommand == None
      && ChangedAt(tasks, r.stored, k, tasks[k].(
           duration := duration.value,
           timeRemaining := if tasks[k].isTiming then tasks[k].timeRemaining else duration.value))
    ensures UniqueIds(tasks) ==> UniqueIds(r.stored)
  {
    var ts := tasks;
    var i := 0;
    while i < |ts|
      invariant 0 <= i <= |ts|
      invariant ts == tasks
      invariant forall j :: 0 <= j < i ==> tasks[j].id != taskId
    {
      if ts[i].id == taskId {
        if duration.None? {
          return RouteResult(Err(InternalError), tasks, None);
        }
        ts := ts[i := ts[i].(duration := duration.value)];
        if !ts[i].isTiming {
          ts := ts[i := ts[i].(timeRemaining := duration.value)];
        }
        SameIdKeepsUnique(tasks, ts, i, ts[i]);
        break;
      }
      i := i + 1;
    }
    r := RouteResult(Ok(()), ts, None);
  }

  /** The decoded body of an update-timing request. */
  datatype TimingBody = TimingBody(isTiming: Option<bool>, timeRemaining: Option<int>)

  /** Sets `is_timing` of the first task with the id, and its remaining time
      only when the body carries one. */
  method UpdateTiming(tasks: seq<Task>, taskId: int, body: TimingBody) returns (r: RouteResult<()>)
    ensures FindTask(tasks, taskId).None? ==> r == RouteResult(Ok(()), tasks, None)
    ensures FindTask(tasks, taskId).Some? && body.isTiming.None? ==> r == RouteResult(Err(InternalError), tasks, None)
    ensures FindTask(tasks, taskId).Some? && body.isTiming.Some? ==>
      var k := FindTask(tasks, taskId).value;
      && r.reply == Ok(()) && r.boardCommand == None
      && ChangedAt(tasks, r.stored, k, tasks[k].(
           isTiming := body.isTiming.value,
           timeRemaining := body.timeRemaining.GetOr(tasks[k].timeRemaining)))
    ensures UniqueIds(tasks) ==> UniqueIds(r.stored)
  {
    var ts := tasks;
    var i := 0;
    while i < |ts|
      invariant 0 <= i <= |ts|
      invariant ts == tasks
      invariant forall j :: 0 <= j < i ==> tasks[j].id != taskId
    {
      if ts[i].id == taskId {
        if body.isTiming.None? {
          return RouteResult(Err(InternalError), tasks, None);
        }
        ts := ts[i := ts[i].(isTiming := body.isTiming.value)];
        if body.timeRemaining.Some? {
          ts := ts[i := ts[i].(timeRemaining := body.timeRemaining.value)];
        }
        SameIdKeepsUnique(tasks, ts, i, ts[i]);
        break;
      }
      i := i + 1;
    }
    r := RouteResult(Ok(()), ts, None);
  }

  // ---------------------------------------------------------------------------
  // init_tasks

  /** The five sample tasks written when the file does not exist. */
  const DefaultTasks: seq<Task> := [
    Task(1, "完成项目计划", true, 0, false, 0),
    Task(2, "编写代码", false, 0, false, 0),
    Task(3, "测试功能", false, 0, false, 0),
    Task(4, "部署应用", false, 0, false, 0),
    Task(5, "撰写文档", false, 0, false, 0)
  ]

  /** The sample list has ids 1 to 5, no durations, and only its first task
      completed. */
  lemma DefaultTasksFacts()
    ensures UniqueIds(DefaultTasks) && |DefaultTasks| == 5 <= MaxTasks
    ensures forall i :: 0 <= i < 5 ==> DefaultTasks[i].id == i + 1 && DefaultTasks[i].duration == 0
    ensures forall i :: 0 <= i < 5 ==> (DefaultTasks[i].completed <==> i == 0)
  {
    var t := DefaultTasks;
    assert forall i :: 0 <= i < 5 ==> t[i].id == i + 1;
  }

  /** The statistics of the sample list: 5 tasks, 1 completed, 4 pending, 20%. */
  lemma DefaultTasksStats()
    ensures StatsOf(DefaultTasks) == Stats(5, 1, 4, 20)
  {
    var t := DefaultTasks;
    DefaultTasksFacts();
    NoneCompleted(t[1..]);
    assert CompletedTasks(t) == [t[0]];
    assert RoundHalfEven(100, 5) == 20;
  }

  /** A list with no completed task has no completed tasks to count. */
  lemma {:induction false} NoneCompleted(tasks: seq<Task>)
    requires forall i :: 0 <= i < |tasks| ==> !tasks[i].completed
    ensures CompletedTasks(tasks) == []
  {
    if tasks != [] {
      NoneCompleted(tasks[1..]);
    }
  }

  /** The state of the tasks file as init_tasks finds it. */
  datatype TasksFile = Missing | Readable(tasks: seq<Task>) | Unreadable

  /** The list a route starts from: the file's content, the sample list when
      the file was missing and could be created, and `[]` on any failure. */
  function InitTasks(file: TasksFile, canCreate: bool): (r: seq<Task>)
    ensures file.Readable? ==> r == file.tasks
    ensures !file.Readable? ==> r == [] || r == DefaultTasks
    ensures file.Missing? && canCreate <==> !file.Readable? && r != []
  {
    match file
    case Readable(tasks) => tasks
    case Unreadable => []
    case Missing => if canCreate then DefaultTasks else []
  }
}
