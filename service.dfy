/** The task service: one mutable list of tasks and the five operations on
    it. The clock (`new Date()`) and the generated id (`Math.random()`) are
    parameters of `CreateTask`. */
module Service {
  import opened Dto
  import opened TaskList
  import opened DueOrder

  /** `findIndex(task => task.id === id)`: a left-to-right search. */
  method FindIndex(s: seq<Task>, id: string) returns (i: int)
    ensures i == FirstIndex(s, id)
  {
    i := 0;
    while i < |s|
      invariant 0 <= i <= |s|
      invariant forall j :: 0 <= j < i ==> s[j].id != id
    {
      if s[i].id == id {
        return;
      }
      i := i + 1;
    }
    i := -1;
  }

  /** `find(task => task.id === id)`: the first task with that id. */
  method Find(s: seq<Task>, id: string) returns (t: Option<Task>)
    ensures t == Lookup(s, id)
  {
    var i := 0;
    while i < |s|
      invariant 0 <= i <= |s|
      invariant forall j :: 0 <= j < i ==> s[j].id != id
    {
      if s[i].id == id {
        return Some(s[i]);
      }
      i := i + 1;
    }
    return None;
  }

  /** `dueDate < now` on two dates: a comparison with a NaN time is false. */
  predicate DateBefore(dueDate: Option<int>, now: int) {
    dueDate.Some? && dueDate.value < now
  }

  /** `isNaN(dueDate.getTime())`. */
  predicate IsInvalidDate(dueDate: Option<int>) {
    dueDate.None?
  }

  /** The creation check `dueDate < now || isNaN(dueDate.getTime())`: a due
      date passes exactly when it is a valid time no earlier than `now`. */
  function DueDateRejected(dueDate: Option<int>, now: int): (rejected: bool)
    ensures !rejected <==> dueDate.Some? && now <= dueDate.value
  {
    DateBefore(dueDate, now) || IsInvalidDate(dueDate)
  }

  /** One step of the sort in `GetTasks`: with the first `i` tasks sorted,
      moving task `i` to the index `j` the search found sorts the first
      `i + 1`. */
  lemma InsertionStep(orig: seq<Task>, cur: seq<Task>, i: nat, j: nat)
    requires i < |orig| == |cur| && j <= i
    requires cur[..i] == SortByDue(orig[..i]) && cur[i..] == orig[i..]
    requires j == 0 || cur[j - 1].dueDate <= cur[i].dueDate
    requires forall m :: j <= m < i ==> cur[m].dueDate > cur[i].dueDate
    ensures var next := cur[..j] + [cur[i]] + cur[j..i] + cur[i + 1..];
      |next| == |orig| && next[..i + 1] == SortByDue(orig[..i + 1]) && next[i + 1..] == orig[i + 1..]
  {
    var x := cur[i];
    var sorted := cur[..i];
    SortByDueSorted(orig[..i]);
    InsertAt(x, sorted, j);
    assert orig[..i + 1][..i] == orig[..i] && orig[i] == x;
    assert SortByDue(orig[..i + 1]) == Insert(x, sorted);
    var next := cur[..j] + [cur[i]] + cur[j..i] + cur[i + 1..];
    assert sorted[..j] == cur[..j] && sorted[j..] == cur[j..i];
    assert next[..i + 1] == cur[..j] + [cur[i]] + cur[j..i];
    assert next[i + 1..] == cur[i + 1..];
    assert cur[i + 1..] == orig[i + 1..] by { assert cur[i + 1..] == cur[i..][1..]; }
  }

  /** The index the sort moves task `i` to: the search walks left past every
      task of the sorted prefix due strictly later than it. */
  method SearchBack(s: seq<Task>, i: nat) returns (j: nat)
    requires i < |s|
    ensures j <= i
    ensures j == 0 || s[j - 1].dueDate <= s[i].dueDate
    ensures forall m :: j <= m < i ==> s[m].dueDate > s[i].dueDate
  {
    j := i;
    while j > 0 && s[j - 1].dueDate > s[i].dueDate
      invariant j <= i
      invariant forall m :: j <= m < i ==> s[m].dueDate > s[i].dueDate
    {
      j := j - 1;
    }
  }

  class TaskService {
    var tasks: seq<Task>

    /** The service starts with no tasks. */
    constructor ()
      ensures tasks == []
    {
      tasks := [];
    }

    /** Validates the due date, then appends a task with the caller's title,
        description and due date, the generated id and status OPEN. The
        ConflictException for a rejected date is thrown inside the `try`, so
        its own `catch` turns it into an internal error with the message. */
    method CreateTask(data: CreateTaskDto, now: int, newId: string) returns (r: Result<ResponseDto<Task>>)
      modifies this
      ensures DueDateRejected(data.dueDate, now) ==>
        r == Err(Internal(InternalPrefix + InvalidDueDateMessage)) && tasks == old(tasks)
      ensures !DueDateRejected(data.dueDate, now) ==>
        r.Ok? && r.value.statusCode == CREATED &&
        r.value.body == Task(newId, data.title, data.description, data.dueDate.value, OPEN) &&
        tasks == old(tasks) + [r.value.body]
      ensures UniqueIds(old(tasks)) && FirstIndex(old(tasks), newId) == -1 ==> UniqueIds(tasks)
    {
      var thrown: Option<string> := None;
      // try
      if DueDateRejected(data.dueDate, now) {
        thrown := Some(InvalidDueDateMessage);
      } else {
        var task := Task(newId, data.title, data.description, data.dueDate.value, OPEN);
        if UniqueIds(tasks) && FirstIndex(tasks, newId) == -1 {
          AppendKeepsUniqueIds(tasks, task);
        }
        tasks := tasks + [task];
        return Ok(ResponseDto(CREATED, task));
      }
      // catch
      r := Err(Internal(InternalPrefix + thrown.value));
    }

    /** Removes the first task with the given id and returns its value. */
    method DeleteTask(id: string) returns (r: Result<ResponseDto<Task>>)
      modifies this
      ensures var i := FirstIndex(old(tasks), id);
        if i == -1 then r == Err(NotFound) && tasks == old(tasks)
        else r == Ok(ResponseDto(OK, old(tasks)[i])) && tasks == RemoveAt(old(tasks), i)
      ensures UniqueIds(old(tasks)) ==> UniqueIds(tasks) && FirstIndex(tasks, id) == -1
    {
      var taskIndex := FindIndex(tasks, id);
      if taskIndex == -1 {
        return Err(NotFound);
      }
      var task := tasks[taskIndex];
      if UniqueIds(tasks) {
        RemoveFirstLeavesNoId(tasks, id);
      }
      tasks := RemoveAt(tasks, taskIndex);
      r := Ok(ResponseDto(OK, task));
    }

    /** Sorts the stored list in place by due date, stably, and returns it. */
    method GetTasks() returns (r: ResponseDto<seq<Task>>)
      modifies this
      ensures tasks == SortByDue(old(tasks))
      ensures SortedByDue(tasks)
      ensures multiset(tasks) == multiset(old(tasks))
      ensures StableReorder(old(tasks), tasks)
      ensures UniqueIds(old(tasks)) ==> UniqueIds(tasks)
      ensures r == ResponseDto(OK, tasks)
    {
      ghost var orig := tasks;
      var i := 0;
      while i < |tasks|
        invariant 0 <= i <= |tasks| == |orig|
        invariant tasks[..i] == SortByDue(orig[..i])
        invariant tasks[i..] == orig[i..]
      {
        var j := SearchBack(tasks, i);
        InsertionStep(orig, tasks, i, j);
        tasks := tasks[..j] + [tasks[i]] + tasks[j..i] + tasks[i + 1..];
        i := i + 1;
      }
      assert orig[..i] == orig && tasks[..i] == tasks;
      SortByDueSorted(orig);
      SortByDuePermutes(orig);
      SortByDueStable(orig);
      if UniqueIds(orig) {
        SortByDueKeepsUniqueIds(orig);
      }
      r := ResponseDto(OK, tasks);
    }

    /** The first task with the given id. */
    method GetTaskById(id: string) returns (r: Result<ResponseDto<Task>>)
      ensures r.Err? <==> forall t :: t in tasks ==> t.id != id
      ensures r.Err? ==> r.error == NotFound
      ensures r.Ok? ==> r.value.statusCode == OK && Lookup(tasks, id) == Some(r.value.body)
    {
      var task := Find(tasks, id);
      if task.None? {
        return Err(NotFound);
      }
      r := Ok(ResponseDto(OK, task.value));
    }

    /** Merges the payload into the first task with its id and writes the
        result back at that task's index. */
    method UpdateTask(data: UpdateTaskDto) returns (r: Result<ResponseDto<Task>>)
      modifies this
      ensures var i := FirstIndex(old(tasks), data.id);
        if i == -1 then r == Err(NotFound) && tasks == old(tasks)
        else
          var updated := Merge(old(tasks)[i], data);
          r == Ok(ResponseDto(OK, updated)) &&
          |tasks| == |old(tasks)| && tasks[i] == updated &&
          (forall j :: 0 <= j < |tasks| && j != i ==> tasks[j] == old(tasks)[j])
      ensures UniqueIds(old(tasks)) ==> UniqueIds(tasks)
    {
      var task := Find(tasks, data.id);
      if task.None? {
        return Err(NotFound);
      }
      var updatedTask := Merge(task.value, data);
      var taskIndex := FindIndex(tasks, data.id);
      ReplaceKeepsIds(tasks, data);
      tasks := tasks[taskIndex := updatedTask];
      r := Ok(ResponseDto(OK, updatedTask));
    }
  }
}
