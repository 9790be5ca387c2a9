/**
 * The read-only listing of `list_tasks` (main.py:107-135): an optional
 * `completed` filter, then an optional `priority` filter, then a stable sort
 * on `created_at`, newest first, then the page `[skip, skip + limit)`.
 * The input sequence is the store's records in insertion order.
 */
module TaskList {
  import opened Wrappers
  import opened Tasks

  /** The query parameters of `list_tasks`; the defaults are skip 0 and limit 100. */
  datatype Query = Query(completed: Option<bool>, priority: Option<string>, skip: nat, limit: nat)

  const DefaultQuery := Query(None, None, 0, 100)

  /** `task.priority == priority` in Python: a null priority equals no string. */
  predicate HasPriority(t: Task, name: string)
  {
    t.priority.Some? && PriorityName(t.priority.value) == name
  }

  /** What a record must satisfy to be listed under a query. */
  predicate Matches(t: Task, q: Query)
  {
    (q.completed.Some? ==> t.completed == q.completed.value) &&
    (q.priority.Some? ==> HasPriority(t, q.priority.value))
  }

  /** The comprehension of line 126: the records whose completion flag is `c`, in order. */
  function WithCompleted(s: seq<Task>, c: bool): (r: seq<Task>)
    ensures forall t :: t in r <==> t in s && t.completed == c
  {
    if s == [] then []
    else if s[0].completed == c then [s[0]] + WithCompleted(s[1..], c)
    else WithCompleted(s[1..], c)
  }

  /** The comprehension of line 129: the records whose priority is named `name`, in order. */
  function WithPriority(s: seq<Task>, name: string): (r: seq<Task>)
    ensures forall t :: t in r <==> t in s && HasPriority(t, name)
  {
    if s == [] then []
    else if HasPriority(s[0], name) then [s[0]] + WithPriority(s[1..], name)
    else WithPriority(s[1..], name)
  }

  /** The two filters of lines 125-129, each applied only when its parameter is given. */
  function Selected(s: seq<Task>, q: Query): (r: seq<Task>)
    ensures forall t :: t in r <==> t in s && Matches(t, q)
  {
    var byCompleted := if q.completed.Some? then WithCompleted(s, q.completed.value) else s;
    if q.priority.Some? then WithPriority(byCompleted, q.priority.value) else byCompleted
  }

  /** Reference definition: one pass keeping the records that match the whole query. */
  function Matching(s: seq<Task>, q: Query): seq<Task>
  {
    if s == [] then []
    else if Matches(s[0], q) then [s[0]] + Matching(s[1..], q)
    else Matching(s[1..], q)
  }

  /** Insert a record into a newest-first sequence, ahead of every record not newer than it. */
  function Insert(t: Task, s: seq<Task>): (r: seq<Task>)
    ensures multiset(r) == multiset(s) + multiset{t}
    ensures forall x :: x in r <==> x == t || x in s
  {
    if s == [] then [t]
    else if s[0].createdAt <= t.createdAt then [t] + s
    else
      assert s == [s[0]] + s[1..];
      [s[0]] + Insert(t, s[1..])
  }

  /** `tasks.sort(key=lambda x: x.created_at, reverse=True)`: a stable sort, newest first. */
  function NewestFirst(s: seq<Task>): (r: seq<Task>)
    ensures multiset(r) == multiset(s)
  {
    if s == [] then []
    else
      assert s == [s[0]] + s[1..];
      Insert(s[0], NewestFirst(s[1..]))
  }

  /** Ordered by creation time, newest first. */
  predicate Sorted(s: seq<Task>)
  {
    forall i, j :: 0 <= i < j < |s| ==> s[j].createdAt <= s[i].createdAt
  }

  /** The records created at instant `c`, in order: the tie class of `c`. */
  function AtTime(s: seq<Task>, c: int): seq<Task>
  {
    if s == [] then []
    else if s[0].createdAt == c then [s[0]] + AtTime(s[1..], c)
    else AtTime(s[1..], c)
  }

  /** `tasks[skip:skip + limit]` for a non-negative skip and limit. */
  function Page<T>(s: seq<T>, skip: nat, limit: nat): (r: seq<T>)
    ensures |r| == if skip >= |s| then 0 else if limit < |s| - skip then limit else |s| - skip
    ensures forall i :: 0 <= i < |r| ==> skip + i < |s| && r[i] == s[skip + i]
  {
    if skip >= |s| then []
    else if skip + limit <= |s| then s[skip..skip + limit]
    else s[skip..]
  }

  /** The ranking the page is cut from: the matching records, newest first. */
  function Ranked(s: seq<Task>, q: Query): seq<Task>
  {
    NewestFirst(Selected(s, q))
  }

  /** `list_tasks`: filter, sort, then cut the page. */
  function ListTasks(s: seq<Task>, q: Query): (r: seq<Task>)
    ensures |r| <= q.limit
    ensures forall t :: t in r ==> t in Ranked(s, q)
  {
    Page(Ranked(s, q), q.skip, q.limit)
  }

  // ---------------------------------------------------------------------------
  // Filters

  /** Keeping the matching records is the same as keeping them one filter at a time. */
  lemma {:induction false} MatchingOne(s: seq<Task>, q: Query)
    ensures q.completed.Some? && q.priority.None? ==> Matching(s, q) == WithCompleted(s, q.completed.value)
    ensures q.completed.None? && q.priority.Some? ==> Matching(s, q) == WithPriority(s, q.priority.value)
    ensures q.completed.None? && q.priority.None? ==> Matching(s, q) == s
  {
    if s != [] {
      MatchingOne(s[1..], q);
      assert s == [s[0]] + s[1..];
    }
  }

  /** The priority filter after the completion filter keeps exactly the records matching both. */
  lemma {:induction false} BothFilters(s: seq<Task>, q: Query)
    requires q.completed.Some? && q.priority.Some?
    ensures WithPriority(WithCompleted(s, q.completed.value), q.priority.value) == Matching(s, q)
  {
    if s != [] {
      BothFilters(s[1..], q);
      var c, p := q.completed.value, q.priority.value;
      var rest := WithCompleted(s[1..], c);
      if s[0].completed == c {
        var w := [s[0]] + rest;
        assert w[0] == s[0] && w[1..] == rest;
      }
    }
  }

  /** The pipeline's filters select exactly the records that satisfy every given filter. */
  lemma SelectedIsMatching(s: seq<Task>, q: Query)
    ensures Selected(s, q) == Matching(s, q)
  {
    if q.completed.Some? && q.priority.Some? {
      BothFilters(s, q);
    } else {
      MatchingOne(s, q);
    }
  }

  /** A record is kept by the one-pass filter if and only if it is in the input and matches. */
  lemma {:induction false} MatchingMembers(s: seq<Task>, q: Query, t: Task)
    ensures t in Matching(s, q) <==> t in s && Matches(t, q)
  {
    if s != [] {
      MatchingMembers(s[1..], q, t);
      assert s == [s[0]] + s[1..];
    }
  }

  /** Filtering never lengthens the sequence. */
  lemma {:induction false} MatchingLength(s: seq<Task>, q: Query)
    ensures |Matching(s, q)| <= |s|
  {
    if s != [] {
      MatchingLength(s[1..], q);
    }
  }

  // ---------------------------------------------------------------------------
  // Sorting

  /** An oldest-last sequence stays so when a record is inserted ahead of every record not newer than it. */
  lemma {:induction false} InsertSorted(t: Task, s: seq<Task>)
    requires Sorted(s)
    ensures Sorted(Insert(t, s))
  {
    if s != [] && t.createdAt < s[0].createdAt {
      var tail := s[1..];
      assert Sorted(tail) by {
        forall i, j | 0 <= i < j < |tail| ensures tail[j].createdAt <= tail[i].createdAt {
          assert tail[i] == s[i + 1] && tail[j] == s[j + 1];
        }
      }
      InsertSorted(t, tail);
      var rest := Insert(t, tail);
      forall k | 0 <= k < |tail| ensures tail[k].createdAt <= s[0].createdAt {
        assert tail[k] == s[k + 1];
      }
      forall j | 0 <= j < |rest| ensures rest[j].createdAt <= s[0].createdAt {
        assert rest[j] in rest;
      }
      var r := [s[0]] + rest;
      forall i, j | 0 <= i < j < |r|
        ensures r[j].createdAt <= r[i].createdAt
      {
        assert r[j] == rest[j - 1];
        if i > 0 { assert r[i] == rest[i - 1]; }
      }
    }
  }

  /** The result of line 132 is ordered by creation time, newest first. */
  lemma {:induction false} NewestFirstSorted(s: seq<Task>)
    ensures Sorted(NewestFirst(s))
  {
    if s != [] {
      NewestFirstSorted(s[1..]);
      InsertSorted(s[0], NewestFirst(s[1..]));
    }
  }

  /** Inserting a record puts it first in its tie class and leaves the others in order. */
  lemma {:induction false} InsertAtTime(t: Task, s: seq<Task>, c: int)
    ensures AtTime(Insert(t, s), c) == if t.createdAt == c then [t] + AtTime(s, c) else AtTime(s, c)
  {
    if s == [] {
    } else if s[0].createdAt <= t.createdAt {
      var r := [t] + s;
      assert r[0] == t && r[1..] == s;
    } else {
      InsertAtTime(t, s[1..], c);
      var r := [s[0]] + Insert(t, s[1..]);
      assert r[0] == s[0] && r[1..] == Insert(t, s[1..]);
    }
  }

  /**
   * The sort is stable: within each tie class (records created at the same
   * instant) the sorted sequence keeps the input order.
   */
  lemma {:induction false} NewestFirstStable(s: seq<Task>, c: int)
    ensures AtTime(NewestFirst(s), c) == AtTime(s, c)
  {
    if s != [] {
      NewestFirstStable(s[1..], c);
      InsertAtTime(s[0], NewestFirst(s[1..]), c);
    }
  }

  // ---------------------------------------------------------------------------
  // The whole listing

  /** A record can be ranked only if it matches, and every matching record is ranked. */
  lemma RankedMembers(s: seq<Task>, q: Query, t: Task)
    ensures t in Ranked(s, q) <==> t in s && Matches(t, q)
  {
    SelectedIsMatching(s, q);
    MatchingMembers(s, q, t);
    assert t in Ranked(s, q) <==> t in multiset(Ranked(s, q));
  }

  /** Every record of a page is a record of the sequence it was cut from. */
  lemma PageMembers<T>(s: seq<T>, skip: nat, limit: nat, x: T)
    requires x in Page(s, skip, limit)
    ensures x in s
  {
    var r := Page(s, skip, limit);
    var i :| 0 <= i < |r| && r[i] == x;
    assert s[skip + i] == x;
  }

  /** Every listed record is a record of the input that satisfies every given filter. */
  lemma ListSound(s: seq<Task>, q: Query)
    ensures forall t :: t in ListTasks(s, q) ==> t in s && Matches(t, q)
  {
    forall t | t in ListTasks(s, q)
      ensures t in s && Matches(t, q)
    {
      PageMembers(Ranked(s, q), q.skip, q.limit, t);
      RankedMembers(s, q, t);
    }
  }

  /**
   * The ranking is the matching records, each as often as it occurs, newest
   * first, with ties in input order.
   */
  lemma RankedProperties(s: seq<Task>, q: Query)
    ensures multiset(Ranked(s, q)) == multiset(Matching(s, q))
    ensures Sorted(Ranked(s, q))
    ensures forall c :: AtTime(Ranked(s, q), c) == AtTime(Matching(s, q), c)
  {
    SelectedIsMatching(s, q);
    NewestFirstSorted(Matching(s, q));
    forall c
      ensures AtTime(Ranked(s, q), c) == AtTime(Matching(s, q), c)
    {
      NewestFirstStable(Matching(s, q), c);
    }
  }

  /**
   * Pagination: the listing is exactly the ranked records `skip .. skip + limit - 1`;
   * its length is `min(limit, max(0, n - skip))`, empty when `skip >= n`.
   */
  lemma ListIsPage(s: seq<Task>, q: Query)
    ensures var n := |Ranked(s, q)|;
      |ListTasks(s, q)| == (if q.skip >= n then 0 else if q.limit < n - q.skip then q.limit else n - q.skip)
    ensures forall i :: 0 <= i < |ListTasks(s, q)| ==> ListTasks(s, q)[i] == Ranked(s, q)[q.skip + i]
  {
  }

  /** A page cut from a newest-first sequence is newest first. */
  lemma PageSorted(s: seq<Task>, skip: nat, limit: nat)
    requires Sorted(s)
    ensures Sorted(Page(s, skip, limit))
  {
    var r := Page(s, skip, limit);
    forall i, j | 0 <= i < j < |r|
      ensures r[j].createdAt <= r[i].createdAt
    {
      assert r[i] == s[skip + i] && r[j] == s[skip + j];
    }
  }

  /** The listing is ordered newest first. */
  lemma ListSorted(s: seq<Task>, q: Query)
    ensures Sorted(ListTasks(s, q))
  {
    RankedProperties(s, q);
    PageSorted(Ranked(s, q), q.skip, q.limit);
  }

  /** Without pagination limits, the listing holds every matching record, each once per occurrence. */
  lemma ListComplete(s: seq<Task>, q: Query)
    requires q.skip == 0 && |s| <= q.limit
    ensures multiset(ListTasks(s, q)) == multiset(Matching(s, q))
  {
    RankedProperties(s, q);
    MatchingLength(s, q);
    assert ListTasks(s, q) == Ranked(s, q);
  }

  /** The default query lists every record of a store of at most 100 records. */
  lemma DefaultListsAll(s: seq<Task>)
    requires |s| <= 100
    ensures multiset(ListTasks(s, DefaultQuery)) == multiset(s)
  {
    ListComplete(s, DefaultQuery);
    MatchingOne(s, DefaultQuery);
  }

  /** Ten ranked records, skip 5 and limit 3: exactly the sixth to eighth ranked records. */
  lemma PageOfTen(s: seq<Task>, q: Query)
    requires |Ranked(s, q)| == 10 && q.skip == 5 && q.limit == 3
    ensures ListTasks(s, q) == Ranked(s, q)[5..8]
  {
  }
}
