/** The scenarios of the end-to-end tests, plus four further scenarios
    taken from the service code (a rejected due date, a status-only update,
    an unknown id, the order of equal due dates), written as client code on a fresh service and proved
    from the operations' contracts alone. The clock and the generated ids
    are parameters: the scenarios hold for every id the service could
    generate, and for every moment no later than the tests' due dates. The
    tests use fixed dates in 2024, so on the real clock the creations they
    expect to succeed are refused once those dates have passed; here that
    shows as the precondition on `now`. */
module E2e {
  import opened Dto
  import opened TaskList
  import opened DueOrder
  import opened Service

  /** 2024-12-30, 2024-10-31, 2024-11-30 and 2024-12-25 at midnight UTC, in
      milliseconds since the epoch. */
  const Dec30: int := 1735516800000
  const Oct31: int := 1730332800000
  const Nov30: int := 1732924800000
  const Dec25: int := 1735084800000

  /** Creating a task returns 201 with the caller's fields and status OPEN. */
  method CreateScenario(now: int, id: string) returns (r: Result<ResponseDto<Task>>)
    requires now <= Dec30
    ensures r == Ok(ResponseDto(CREATED, Task(id, "Test title", "Test description", Dec30, OPEN)))
  {
    var service := new TaskService();
    r := service.CreateTask(CreateTaskDto("Test title", "Test description", Some(Dec30)), now, id);
  }

  /** A due date before now, or one that does not parse, is refused with the
      internal error and nothing is stored. */
  method RejectScenario(now: int, id: string, due: Option<int>) returns (r: Result<ResponseDto<Task>>, listed: seq<Task>)
    requires due.None? || due.value < now
    ensures r == Err(Internal(InternalPrefix + InvalidDueDateMessage))
    ensures listed == []
  {
    var service := new TaskService();
    r := service.CreateTask(CreateTaskDto("Test title", "Test description", due), now, id);
    var all := service.GetTasks();
    listed := all.body;
  }

  /** Three tasks, the second due first, the first due last. */
  lemma SortThree(t1: Task, t2: Task, t3: Task)
    requires t2.dueDate < t3.dueDate < t1.dueDate
    ensures SortByDue([t1, t2, t3]) == [t2, t3, t1]
  {
    var expected := [t2, t3, t1];
    forall k ensures WithDue(expected, k) == WithDue([t1, t2, t3], k) {
      WithDueAppend([t1], [t2], k);
      WithDueAppend([t1, t2], [t3], k);
      WithDueAppend([t2], [t3], k);
      WithDueAppend([t2, t3], [t1], k);
      assert [t1] + [t2] + [t3] == [t1, t2, t3] && [t2] + [t3] + [t1] == expected;
      assert [t1][1..] == [] && [t2][1..] == [] && [t3][1..] == [];
    }
    SortByDueIsTheStableSort([t1, t2, t3], expected);
  }

  /** Two tasks, the second due first. */
  lemma SortTwo(t1: Task, t2: Task)
    requires t2.dueDate < t1.dueDate
    ensures SortByDue([t1, t2]) == [t2, t1]
  {
    var expected := [t2, t1];
    forall k ensures WithDue(expected, k) == WithDue([t1, t2], k) {
      WithDueAppend([t1], [t2], k);
      WithDueAppend([t2], [t1], k);
      assert [t1] + [t2] == [t1, t2] && [t2] + [t1] == expected;
      assert [t1][1..] == [] && [t2][1..] == [];
    }
    SortByDueIsTheStableSort([t1, t2], expected);
  }

  /** Three tasks due 2024-12-30, 2024-10-31 and 2024-11-30 are listed as
      the second, the third, the first. */
  method SortScenario(now: int, id1: string, id2: string, id3: string) returns (listed: seq<Task>, titles: seq<string>)
    requires now <= Oct31
    ensures listed == [Task(id2, "Test title 2", "Test description 2", Oct31, OPEN),
                       Task(id3, "Test title 3", "Test description 3", Nov30, OPEN),
                       Task(id1, "Test title", "Test description", Dec30, OPEN)]
    ensures |listed| == 3
    ensures titles == ["Test title 2", "Test title 3", "Test title"]
  {
    var service := new TaskService();
    var r1 := service.CreateTask(CreateTaskDto("Test title", "Test description", Some(Dec30)), now, id1);
    var r2 := service.CreateTask(CreateTaskDto("Test title 2", "Test description 2", Some(Oct31)), now, id2);
    var r3 := service.CreateTask(CreateTaskDto("Test title 3", "Test description 3", Some(Nov30)), now, id3);
    var t1, t2, t3 := r1.value.body, r2.value.body, r3.value.body;
    assert service.tasks == [t1, t2, t3];
    SortThree(t1, t2, t3);
    var all := service.GetTasks();
    listed := all.body;
    titles := [listed[0].title, listed[1].title, listed[2].title];
  }

  /** Equal due dates keep the order the list was last stored in, not the
      order of creation: B, created second but due earlier, is sorted before
      A; after B's due date is moved to A's, a second listing still puts B
      first, because the first listing sorted the stored list itself and the
      update wrote B back at its index. */
  method StoredOrderScenario(now: int, idA: string, idB: string) returns (first: seq<Task>, second: seq<Task>)
    requires now <= Oct31 && idA != idB
    ensures first == [Task(idB, "B", "B", Oct31, OPEN), Task(idA, "A", "A", Dec30, OPEN)]
    ensures second == [Task(idB, "B", "B", Dec30, OPEN), Task(idA, "A", "A", Dec30, OPEN)]
  {
    var service := new TaskService();
    var a := service.CreateTask(CreateTaskDto("A", "A", Some(Dec30)), now, idA);
    var b := service.CreateTask(CreateTaskDto("B", "B", Some(Oct31)), now, idB);
    var ta, tb := a.value.body, b.value.body;
    assert service.tasks == [ta, tb];
    SortTwo(ta, tb);
    var all := service.GetTasks();
    first := all.body;
    assert service.tasks == [tb, ta];
    assert FirstIndex([tb, ta], idB) == 0;
    var updated := service.UpdateTask(UpdateTaskDto(idB, None, None, Some(Dec30), None));
    var tb' := Task(idB, "B", "B", Dec30, OPEN);
    assert |service.tasks| == 2 && service.tasks[0] == tb' && service.tasks[1] == ta;
    assert service.tasks == [tb', ta];
    assert SortedByDue([tb', ta]);
    SortByDueOfSorted([tb', ta]);
    all := service.GetTasks();
    second := all.body;
  }

  /** Updating every field of a created task returns the new values under the
      same id; the new due date is earlier than the old one and is still
      accepted. */
  method UpdateScenario(now: int, id: string) returns (r: Result<ResponseDto<Task>>)
    requires now <= Dec30
    ensures r == Ok(ResponseDto(OK, Task(id, "Test title updated", "Test description updated", Dec25, DONE)))
  {
    var service := new TaskService();
    var created := service.CreateTask(CreateTaskDto("Test title", "Test description", Some(Dec30)), now, id);
    r := service.UpdateTask(UpdateTaskDto(id, Some("Test title updated"), Some("Test description updated"),
                                          Some(Dec25), Some(DONE)));
  }

  /** Updating only the status of a created task leaves its title,
      description and due date as they were. */
  method StatusOnlyScenario(now: int, id: string) returns (r: Result<ResponseDto<Task>>)
    requires now <= Dec30
    ensures r == Ok(ResponseDto(OK, Task(id, "Test title", "Test description", Dec30, DONE)))
  {
    var service := new TaskService();
    var created := service.CreateTask(CreateTaskDto("Test title", "Test description", Some(Dec30)), now, id);
    var updated := service.UpdateTask(UpdateTaskDto(id, None, None, None, Some(DONE)));
    r := service.GetTaskById(id);
  }

  /** Deleting a created task returns it as it was; afterwards the list is
      empty and the id is no longer found. */
  method DeleteScenario(now: int, id: string) returns (r: Result<ResponseDto<Task>>, listed: seq<Task>, after: Result<ResponseDto<Task>>)
    requires now <= Dec30
    ensures r == Ok(ResponseDto(OK, Task(id, "Test title", "Test description", Dec30, OPEN)))
    ensures listed == []
    ensures after == Err(NotFound)
  {
    var service := new TaskService();
    var created := service.CreateTask(CreateTaskDto("Test title", "Test description", Some(Dec30)), now, id);
    r := service.DeleteTask(id);
    var all := service.GetTasks();
    listed := all.body;
    after := service.GetTaskById(id);
  }

  /** Every operation on an id no task has fails with NotFound and leaves the
      list as it was. */
  method UnknownIdScenario(now: int, id: string, other: string) returns (got: Result<ResponseDto<Task>>, updated: Result<ResponseDto<Task>>, deleted: Result<ResponseDto<Task>>, listed: seq<Task>)
    requires now <= Dec30 && other != id
    ensures got == Err(NotFound) && updated == Err(NotFound) && deleted == Err(NotFound)
    ensures listed == [Task(id, "Test title", "Test description", Dec30, OPEN)]
  {
    var service := new TaskService();
    var created := service.CreateTask(CreateTaskDto("Test title", "Test description", Some(Dec30)), now, id);
    got := service.GetTaskById(other);
    updated := service.UpdateTask(UpdateTaskDto(other, None, None, None, Some(DONE)));
    deleted := service.DeleteTask(other);
    var all := service.GetTasks();
    listed := all.body;
  }
}
