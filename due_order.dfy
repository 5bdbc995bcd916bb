/** The order `getTasks` leaves the list in: ascending by due date, tasks with
    equal due dates in their previous relative order (`Array.prototype.sort`
    is stable since ECMAScript 2019). `SortByDue` is one such sort; the lemmas
    show that its result is sorted, a permutation, stable, and the only list
    that is both sorted and stable, so it is what any stable sort returns. */
module DueOrder {
  import opened Dto
  import opened TaskList

  /** Non-decreasing by due date. */
  ghost predicate SortedByDue(s: seq<Task>) {
    forall i, j :: 0 <= i < j < |s| ==> s[i].dueDate <= s[j].dueDate
  }

  /** The tasks of `s` due at `k`, in their order in `s`. A reordering keeps
      the relative order of equal due dates exactly when it keeps every
      `WithDue(s, k)`. */
  function WithDue(s: seq<Task>, k: int): seq<Task> {
    if s == [] then []
    else (if s[0].dueDate == k then [s[0]] else []) + WithDue(s[1..], k)
  }

  /** A sort that keeps the relative order of tasks with equal due dates. */
  ghost predicate StableReorder(s: seq<Task>, r: seq<Task>) {
    forall k :: WithDue(r, k) == WithDue(s, k)
  }

  /** `t` put into the sorted list `s` after every task due no later than it. */
  function Insert(t: Task, s: seq<Task>): (r: seq<Task>)
    ensures |r| == |s| + 1
  {
    if s == [] then [t]
    else if t.dueDate < s[0].dueDate then [t] + s
    else [s[0]] + Insert(t, s[1..])
  }

  /** Insertion sort by due date, taking the tasks in list order. */
  function SortByDue(s: seq<Task>): (r: seq<Task>)
    ensures |r| == |s|
  {
    if s == [] then []
    else Insert(s[|s| - 1], SortByDue(s[..|s| - 1]))
  }

  lemma {:induction false} WithDueAppend(a: seq<Task>, b: seq<Task>, k: int)
    ensures WithDue(a + b, k) == WithDue(a, k) + WithDue(b, k)
  {
    if a == [] {
      assert a + b == b;
    } else {
      var h := if a[0].dueDate == k then [a[0]] else [];
      assert (a + b)[0] == a[0] && (a + b)[1..] == a[1..] + b;
      assert WithDue(a + b, k) == h + WithDue(a[1..] + b, k);
      WithDueAppend(a[1..], b, k);
      assert WithDue(a, k) == h + WithDue(a[1..], k);
    }
  }

  lemma {:induction false} WithDueMember(s: seq<Task>, k: int, x: Task)
    requires x in WithDue(s, k)
    ensures x in s && x.dueDate == k
  {
    if s != [] && !(s[0].dueDate == k && x == s[0]) {
      WithDueMember(s[1..], k, x);
    }
  }

  lemma {:induction false} WithDueNone(s: seq<Task>, k: int)
    requires forall x :: x in s ==> x.dueDate != k
    ensures WithDue(s, k) == []
  {
    if s != [] {
      assert s[0] in s;
      WithDueNone(s[1..], k);
    }
  }

  /** A non-empty list's first task heads the tasks sharing its due date. */
  lemma WithDueHead(s: seq<Task>)
    ensures s != [] ==> WithDue(s, s[0].dueDate) == [s[0]] + WithDue(s[1..], s[0].dueDate)
  {
  }

  lemma WithDueSingle(t: Task, k: int)
    ensures WithDue([t], k) == if t.dueDate == k then [t] else []
  {
    assert [t][1..] == [];
  }

  lemma SortedTail(s: seq<Task>)
    requires SortedByDue(s) && s != []
    ensures SortedByDue(s[1..])
  {
  }

  lemma SortedFirstLeast(s: seq<Task>)
    requires SortedByDue(s) && s != []
    ensures forall x :: x in s ==> s[0].dueDate <= x.dueDate
  {
  }

  lemma SortedCons(x: Task, r: seq<Task>)
    requires SortedByDue(r)
    requires forall y :: y in r ==> x.dueDate <= y.dueDate
    ensures SortedByDue([x] + r)
  {
    forall i, j | 0 <= i < j < |r| + 1
      ensures ([x] + r)[i].dueDate <= ([x] + r)[j].dueDate
    {
      assert ([x] + r)[j] == r[j - 1];
      if i > 0 {
        assert ([x] + r)[i] == r[i - 1];
      } else {
        assert r[j - 1] in r;
      }
    }
  }

  /** The tasks of `Insert(t, s)` are `t` and the tasks of `s`. */
  lemma {:induction false} InsertMember(t: Task, s: seq<Task>, y: Task)
    ensures y in Insert(t, s) <==> y == t || y in s
  {
    if s != [] && t.dueDate >= s[0].dueDate {
      InsertMember(t, s[1..], y);
      assert s == [s[0]] + s[1..];
    }
  }

  /** Inserting adds exactly the one task to the multiset of the list. */
  lemma {:induction false} InsertPermutes(t: Task, s: seq<Task>)
    ensures multiset(Insert(t, s)) == multiset(s) + multiset{t}
  {
    if s != [] && t.dueDate >= s[0].dueDate {
      InsertPermutes(t, s[1..]);
      assert s == [s[0]] + s[1..];
    }
  }

  /** `getTasks` returns a permutation of the list. */
  lemma {:induction false} SortByDuePermutes(s: seq<Task>)
    ensures multiset(SortByDue(s)) == multiset(s)
  {
    if s != [] {
      var p, x := s[..|s| - 1], s[|s| - 1];
      assert s == p + [x];
      SortByDuePermutes(p);
      InsertPermutes(x, SortByDue(p));
    }
  }

  /** The tasks of `SortByDue(s)` are tasks of `s`. */
  lemma {:induction false} SortByDueMember(s: seq<Task>, y: Task)
    requires y in SortByDue(s)
    ensures y in s
  {
    var p, x := s[..|s| - 1], s[|s| - 1];
    InsertMember(x, SortByDue(p), y);
    if y != x {
      SortByDueMember(p, y);
    }
    assert s == p + [x];
  }

  lemma {:induction false} InsertSorted(t: Task, s: seq<Task>)
    requires SortedByDue(s)
    ensures SortedByDue(Insert(t, s))
  {
    if s != [] {
      SortedFirstLeast(s);
      if t.dueDate < s[0].dueDate {
        SortedCons(t, s);
      } else {
        SortedTail(s);
        InsertSorted(t, s[1..]);
        var r := Insert(t, s[1..]);
        forall y | y in r ensures s[0].dueDate <= y.dueDate {
          InsertMember(t, s[1..], y);
        }
        SortedCons(s[0], r);
      }
    }
  }

  lemma InsertFrontWithDue(t: Task, s: seq<Task>, k: int)
    requires SortedByDue(s) && s != [] && t.dueDate < s[0].dueDate
    ensures WithDue([t] + s, k) == WithDue(s, k) + WithDue([t], k)
  {
    WithDueSingle(t, k);
    WithDueAppend([t], s, k);
    if t.dueDate == k {
      SortedFirstLeast(s);
      WithDueNone(s, k);
    }
  }

  /** Inserting adds `t` after the tasks of `s` that share its due date. */
  lemma {:induction false} InsertWithDue(t: Task, s: seq<Task>, k: int)
    requires SortedByDue(s)
    ensures WithDue(Insert(t, s), k) == WithDue(s, k) + WithDue([t], k)
  {
    if s == [] {
      assert WithDue(s, k) == [];
    } else if t.dueDate < s[0].dueDate {
      InsertFrontWithDue(t, s, k);
    } else {
      SortedTail(s);
      InsertWithDue(t, s[1..], k);
      WithDueAppend([s[0]], Insert(t, s[1..]), k);
      WithDueAppend([s[0]], s[1..], k);
      assert [s[0]] + s[1..] == s;
    }
  }

  /** Inserting into a sorted list puts `t` at the index `j` before which
      every task is due no later than `t` and from which every task is due
      strictly later. */
  lemma {:induction false} InsertAt(t: Task, s: seq<Task>, j: nat)
    requires SortedByDue(s) && j <= |s|
    requires j == 0 || s[j - 1].dueDate <= t.dueDate
    requires forall m :: j <= m < |s| ==> s[m].dueDate > t.dueDate
    ensures Insert(t, s) == s[..j] + [t] + s[j..]
  {
    if j == 0 {
      assert s[j..] == s;
      if s != [] {
        assert s[0].dueDate > t.dueDate;
      }
    } else {
      assert s[0].dueDate <= s[j - 1].dueDate;
      SortedTail(s);
      InsertAt(t, s[1..], j - 1);
      assert s[1..][..j - 1] == s[1..j] && s[1..][j - 1..] == s[j..];
      assert s[..j] == [s[0]] + s[1..j];
    }
  }

  /** `getTasks` leaves the list non-decreasing by due date. */
  lemma {:induction false} SortByDueSorted(s: seq<Task>)
    ensures SortedByDue(SortByDue(s))
  {
    if s != [] {
      SortByDueSorted(s[..|s| - 1]);
      InsertSorted(s[|s| - 1], SortByDue(s[..|s| - 1]));
    }
  }

  /** `getTasks` keeps the relative order of tasks with equal due dates. */
  lemma {:induction false} SortByDueStable(s: seq<Task>)
    ensures StableReorder(s, SortByDue(s))
  {
    if s != [] {
      var p, x := s[..|s| - 1], s[|s| - 1];
      assert s == p + [x];
      SortByDueStable(p);
      SortByDueSorted(p);
      forall k ensures WithDue(SortByDue(s), k) == WithDue(s, k) {
        InsertWithDue(x, SortByDue(p), k);
        WithDueAppend(p, [x], k);
      }
    }
  }

  /** A list sorted by due date whose tasks of each due date come in a given
      order is determined: two such lists are equal. */
  lemma {:induction false} SortedStableUnique(a: seq<Task>, b: seq<Task>)
    requires SortedByDue(a) && SortedByDue(b)
    requires forall k :: WithDue(a, k) == WithDue(b, k)
    ensures a == b
    decreases |a|
  {
    WithDueHead(a);
    WithDueHead(b);
    if a != [] {
      SortedFirstLeast(a);
      SortedFirstLeast(b);
      var k0, k1 := a[0].dueDate, b[0].dueDate;
      assert b[0] in WithDue(a, k1) by { assert WithDue(b, k1)[0] == b[0]; }
      WithDueMember(a, k1, b[0]);
      assert a[0] in WithDue(b, k0) by { assert WithDue(a, k0)[0] == a[0]; }
      WithDueMember(b, k0, a[0]);
      assert k0 == k1;
      assert a[0] == b[0] by {
        assert WithDue(a, k0)[0] == a[0] && WithDue(b, k0)[0] == b[0];
      }
      forall k ensures WithDue(a[1..], k) == WithDue(b[1..], k) {
        var h := if a[0].dueDate == k then [a[0]] else [];
        assert WithDue(a, k) == h + WithDue(a[1..], k);
        assert WithDue(b, k) == h + WithDue(b[1..], k);
        assert WithDue(a[1..], k) == (h + WithDue(a[1..], k))[|h|..];
        assert WithDue(b[1..], k) == (h + WithDue(b[1..], k))[|h|..];
      }
      SortedTail(a);
      SortedTail(b);
      SortedStableUnique(a[1..], b[1..]);
      assert a == [a[0]] + a[1..] && b == [b[0]] + b[1..];
    }
  }

  /** Any stable sort by due date returns what `SortByDue` returns. */
  lemma SortByDueIsTheStableSort(s: seq<Task>, r: seq<Task>)
    requires SortedByDue(r) && StableReorder(s, r)
    ensures r == SortByDue(s)
  {
    SortByDueSorted(s);
    SortByDueStable(s);
    SortedStableUnique(r, SortByDue(s));
  }

  /** A list already in due-date order is left as it is, so calling
      `getTasks` twice returns the same order twice. */
  lemma SortByDueOfSorted(s: seq<Task>)
    requires SortedByDue(s)
    ensures SortByDue(s) == s
  {
    SortByDueIsTheStableSort(s, s);
  }

  /** Sorting twice gives the order sorting once gives, so a second
      `getTasks` with no change in between leaves the list as it was. */
  lemma SortByDueIdempotent(s: seq<Task>)
    ensures SortByDue(SortByDue(s)) == SortByDue(s)
  {
    SortByDueSorted(s);
    SortByDueOfSorted(SortByDue(s));
  }

  lemma UniqueCons(x: Task, r: seq<Task>)
    requires UniqueIds(r)
    requires forall y :: y in r ==> y.id != x.id
    ensures UniqueIds([x] + r)
  {
    forall i, j | 0 <= i < j < |r| + 1
      ensures ([x] + r)[i].id != ([x] + r)[j].id
    {
      assert ([x] + r)[j] == r[j - 1];
      if i > 0 {
        assert ([x] + r)[i] == r[i - 1];
      } else {
        assert r[j - 1] in r;
      }
    }
  }

  /** Inserting a task whose id is new into a list with unique ids keeps them
      unique. */
  lemma {:induction false} InsertKeepsUniqueIds(t: Task, s: seq<Task>)
    requires UniqueIds(s)
    requires forall x :: x in s ==> x.id != t.id
    ensures UniqueIds(Insert(t, s))
  {
    if s == [] {
    } else if t.dueDate < s[0].dueDate {
      UniqueCons(t, s);
    } else {
      assert s == [s[0]] + s[1..];
      assert UniqueIds(s[1..]);
      InsertKeepsUniqueIds(t, s[1..]);
      var r := Insert(t, s[1..]);
      forall y | y in r ensures y.id != s[0].id {
        InsertMember(t, s[1..], y);
        if y != t {
          var m :| 0 <= m < |s[1..]| && s[1..][m] == y;
          assert s[m + 1] == y;
        }
      }
      UniqueCons(s[0], r);
    }
  }

  /** Sorting does not make two tasks share an id. */
  lemma {:induction false} SortByDueKeepsUniqueIds(s: seq<Task>)
    requires UniqueIds(s)
    ensures UniqueIds(SortByDue(s))
  {
    if s != [] {
      var p, x := s[..|s| - 1], s[|s| - 1];
      assert UniqueIds(p);
      SortByDueKeepsUniqueIds(p);
      forall y | y in SortByDue(p) ensures y.id != x.id {
        SortByDueMember(p, y);
        var m :| 0 <= m < |p| && p[m] == y;
        assert s[m] == y;
      }
      InsertKeepsUniqueIds(x, SortByDue(p));
    }
  }
}
