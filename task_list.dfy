/** The array operations the task service performs on its list of tasks, as
    functions on sequences: the first index with a given id (`findIndex`),
    removing one element (`splice(i, 1)`), the field merge of an update, and
    the identity discipline the list may or may not keep. */
module TaskList {
  import opened Dto

  /** The index of the first task whose id is `id`, or -1 when there is none
      (what `findIndex` returns). */
  function FirstIndex(s: seq<Task>, id: string): (r: int)
    ensures -1 <= r < |s|
    ensures r == -1 <==> forall j :: 0 <= j < |s| ==> s[j].id != id
    ensures 0 <= r ==> s[r].id == id && forall j :: 0 <= j < r ==> s[j].id != id
  {
    if s == [] then -1
    else if s[0].id == id then 0
    else
      var r := FirstIndex(s[1..], id);
      if r == -1 then -1 else r + 1
  }

  /** The first task whose id is `id` (what `find` returns). */
  function Lookup(s: seq<Task>, id: string): (r: Option<Task>)
    ensures r.None? <==> forall t :: t in s ==> t.id != id
    ensures r.Some? ==> r.value in s && r.value.id == id
    ensures r.Some? ==> exists i :: 0 <= i < |s| && s[i] == r.value && forall j :: 0 <= j < i ==> s[j].id != id
  {
    var i := FirstIndex(s, id);
    if i == -1 then None else Some(s[i])
  }

  /** `s` with the element at index `i` taken out (`splice(i, 1)`): one
      element shorter, and the others in their old relative order. */
  function RemoveAt<T>(s: seq<T>, i: nat): (r: seq<T>)
    requires i < |s|
    ensures |r| == |s| - 1
    ensures forall k :: 0 <= k < i ==> r[k] == s[k]
    ensures forall k :: i <= k < |r| ==> r[k] == s[k + 1]
    ensures multiset(r) + multiset{s[i]} == multiset(s)
  {
    assert s == s[..i] + [s[i]] + s[i + 1..];
    s[..i] + s[i + 1..]
  }

  /** The task that `{...t, ...u, dueDate: u.dueDate ? u.dueDate : t.dueDate}`
      builds: every field present in the payload replaces the stored one, and
      every absent field keeps its stored value. The payload's id is the one
      the task was found by, so the spread of `u.id` leaves the id as it was. */
  function Merge(t: Task, u: UpdateTaskDto): (r: Task)
    requires u.id == t.id
    ensures r.id == t.id
    ensures u.title.Some? ==> r.title == u.title.value
    ensures u.title.None? ==> r.title == t.title
    ensures u.description.Some? ==> r.description == u.description.value
    ensures u.description.None? ==> r.description == t.description
    ensures u.dueDate.Some? ==> r.dueDate == u.dueDate.value
    ensures u.dueDate.None? ==> r.dueDate == t.dueDate
    ensures u.status.Some? ==> r.status == u.status.value
    ensures u.status.None? ==> r.status == t.status
  {
    Task(u.id,
         u.title.GetOr(t.title),
         u.description.GetOr(t.description),
         u.dueDate.GetOr(t.dueDate),
         u.status.GetOr(t.status))
  }

  /** The payload that changes nothing but names the task. */
  function EmptyUpdate(id: string): UpdateTaskDto {
    UpdateTaskDto(id, None, None, None, None)
  }

  /** One payload applied after another: a field of the later one wins where
      present. */
  function ThenUpdate(u1: UpdateTaskDto, u2: UpdateTaskDto): UpdateTaskDto {
    UpdateTaskDto(u1.id,
      if u2.title.Some? then u2.title else u1.title,
      if u2.description.Some? then u2.description else u1.description,
      if u2.dueDate.Some? then u2.dueDate else u1.dueDate,
      if u2.status.Some? then u2.status else u1.status)
  }

  /** An update with an empty payload leaves the task as it was. */
  lemma MergeEmpty(t: Task)
    ensures Merge(t, EmptyUpdate(t.id)) == t
  {
  }

  /** Applying the same update twice is the same as applying it once. */
  lemma MergeIdempotent(t: Task, u: UpdateTaskDto)
    requires u.id == t.id
    ensures Merge(Merge(t, u), u) == Merge(t, u)
  {
  }

  /** Two updates in a row are one update with the payloads combined, later
      fields first. */
  lemma MergeThenMerge(t: Task, u1: UpdateTaskDto, u2: UpdateTaskDto)
    requires u1.id == t.id && u2.id == t.id
    ensures Merge(Merge(t, u1), u2) == Merge(t, ThenUpdate(u1, u2))
  {
  }

  /** No two tasks of `s` share an id. The service does not enforce this: its
      ids are random strings with no collision check. */
  ghost predicate UniqueIds(s: seq<Task>) {
    forall i, j :: 0 <= i < j < |s| ==> s[i].id != s[j].id
  }

  /** Appending a task whose id is new keeps the ids unique. */
  lemma AppendKeepsUniqueIds(s: seq<Task>, t: Task)
    requires UniqueIds(s)
    requires FirstIndex(s, t.id) == -1
    ensures UniqueIds(s + [t])
  {
    forall i, j | 0 <= i < j < |s| + 1
      ensures (s + [t])[i].id != (s + [t])[j].id
    {
      if j == |s| {
        assert (s + [t])[i] == s[i];
      } else {
        assert (s + [t])[i] == s[i] && (s + [t])[j] == s[j];
      }
    }
  }

  /** Once the task found by `id` is removed from a list with unique ids, no
      task with that id is left. */
  lemma RemoveFirstLeavesNoId(s: seq<Task>, id: string)
    requires UniqueIds(s)
    requires FirstIndex(s, id) != -1
    ensures FirstIndex(RemoveAt(s, FirstIndex(s, id)), id) == -1
    ensures UniqueIds(RemoveAt(s, FirstIndex(s, id)))
  {
    var i := FirstIndex(s, id);
    var r := RemoveAt(s, i);
    forall k | 0 <= k < |r| ensures r[k].id != id {
      if k < i {
        assert r[k] == s[k];
      } else {
        assert r[k] == s[k + 1];
      }
    }
    forall a, b | 0 <= a < b < |r| ensures r[a].id != r[b].id {
      var a' := if a < i then a else a + 1;
      var b' := if b < i then b else b + 1;
      assert r[a] == s[a'] && r[b] == s[b'] && a' < b';
    }
  }

  /** Writing a merged task back at the index it was found at keeps the ids
      unique, and the task stays the first one with that id. */
  lemma ReplaceKeepsIds(s: seq<Task>, u: UpdateTaskDto)
    requires FirstIndex(s, u.id) != -1
    ensures var i := FirstIndex(s, u.id);
      FirstIndex(s[i := Merge(s[i], u)], u.id) == i &&
      (UniqueIds(s) ==> UniqueIds(s[i := Merge(s[i], u)]))
  {
    var i := FirstIndex(s, u.id);
    var r := s[i := Merge(s[i], u)];
    assert forall k :: 0 <= k < |s| ==> r[k].id == s[k].id;
    assert r[i].id == u.id;
  }
}
