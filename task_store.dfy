/**
 * The in-memory table `tasks_db` (main.py:68) and the handlers that read and
 * change it. The dictionary is a map from id to record together with the
 * sequence of its keys in insertion order, which is the order in which
 * `tasks_db.values()` yields the records; re-assigning an existing key keeps
 * its place. The id generator and the clock are parameters.
 */
module TaskStore {
  import opened Wrappers
  import opened Tasks
  import TaskList
  import TaskStats

  /** The one domain error: no live task has this id. */
  datatype StoreError = NotFound(id: string)

  /** The user-visible message `Task with id '{id}' not found`. */
  function Detail(e: StoreError): (r: string)
    ensures |r| == |e.id| + 25 && r[14..14 + |e.id|] == e.id
  {
    "Task with id '" + e.id + "' not found"
  }

  /** The message names the id: two errors with the same message are about the same id. */
  lemma DetailIdentifiesId(a: StoreError, b: StoreError)
    ensures Detail(a) == Detail(b) <==> a == b
  {
    if Detail(a) == Detail(b) {
      assert |a.id| == |b.id|;
      assert a.id == Detail(a)[14..14 + |a.id|];
      assert b.id == Detail(b)[14..14 + |b.id|];
    }
  }

  /** The key sequence lists no key twice. */
  predicate NoDuplicates(ks: seq<string>)
  {
    forall i, j :: 0 <= i < j < |ks| ==> ks[i] != ks[j]
  }

  /** The records of `m` in the order of `ks`: `tasks_db.values()`. */
  function ValuesOf(m: map<string, Task>, ks: seq<string>): (r: seq<Task>)
    requires forall k :: k in ks ==> k in m
    ensures |r| == |ks|
  {
    if ks == [] then [] else [m[ks[0]]] + ValuesOf(m, ks[1..])
  }

  /** The keys with one key taken out, the others in their order: `del tasks_db[id]`. */
  function RemoveKey(ks: seq<string>, id: string): (r: seq<string>)
    ensures forall k :: k in r <==> k in ks && k != id
  {
    if ks == [] then []
    else if ks[0] == id then RemoveKey(ks[1..], id)
    else [ks[0]] + RemoveKey(ks[1..], id)
  }

  /** The records with a given id taken out, the others in their order. */
  function WithoutId(s: seq<Task>, id: string): (r: seq<Task>)
    ensures forall t :: t in r <==> t in s && t.id != id
  {
    if s == [] then []
    else if s[0].id == id then WithoutId(s[1..], id)
    else [s[0]] + WithoutId(s[1..], id)
  }

  /** Taking a key out of a duplicate-free sequence leaves it duplicate-free. */
  lemma {:induction false} RemoveKeyNoDuplicates(ks: seq<string>, id: string)
    requires NoDuplicates(ks)
    ensures NoDuplicates(RemoveKey(ks, id))
  {
    if ks != [] {
      assert NoDuplicates(ks[1..]) by {
        forall i, j | 0 <= i < j < |ks[1..]| ensures ks[1..][i] != ks[1..][j] {
          assert ks[1..][i] == ks[i + 1] && ks[1..][j] == ks[j + 1];
        }
      }
      RemoveKeyNoDuplicates(ks[1..], id);
      if ks[0] != id {
        var rest := RemoveKey(ks[1..], id);
        var r := [ks[0]] + rest;
        forall j | 0 <= j < |ks[1..]| ensures ks[1..][j] != ks[0] {
          assert ks[1..][j] == ks[j + 1];
        }
        forall i, j | 0 <= i < j < |r| ensures r[i] != r[j] {
          if i == 0 {
            assert r[j] == rest[j - 1] && rest[j - 1] in rest;
          } else {
            assert r[i] == rest[i - 1] && r[j] == rest[j - 1];
          }
        }
      }
    }
  }

  /** A duplicate-free key sequence lists as many keys as the set of its keys holds. */
  lemma {:induction false} KeyCount(ks: seq<string>)
    requires NoDuplicates(ks)
    ensures |set k | k in ks| == |ks|
  {
    if ks != [] {
      var tail := ks[1..];
      assert NoDuplicates(tail) by {
        forall i, j | 0 <= i < j < |tail| ensures tail[i] != tail[j] {
          assert tail[i] == ks[i + 1] && tail[j] == ks[j + 1];
        }
      }
      KeyCount(tail);
      forall j | 0 <= j < |tail| ensures tail[j] != ks[0] {
        assert tail[j] == ks[j + 1];
      }
      assert (set k | k in ks) == (set k | k in tail) + {ks[0]};
    }
  }

  /** Appending a record under a new key appends it to the values. */
  lemma {:induction false} ValuesOfAppend(m: map<string, Task>, ks: seq<string>, id: string, t: Task)
    requires forall k :: k in ks ==> k in m
    requires id !in m
    ensures ValuesOf(m[id := t], ks + [id]) == ValuesOf(m, ks) + [t]
  {
    if ks == [] {
      assert ks + [id] == [id];
    } else {
      ValuesOfAppend(m, ks[1..], id, t);
      assert (ks + [id])[1..] == ks[1..] + [id];
    }
  }

  /** Deleting a key from the table deletes its record from the values, keeping the rest in order. */
  lemma {:induction false} ValuesOfRemove(m: map<string, Task>, ks: seq<string>, id: string)
    requires forall k :: k in ks ==> k in m && m[k].id == k
    ensures ValuesOf(m - {id}, RemoveKey(ks, id)) == WithoutId(ValuesOf(m, ks), id)
  {
    if ks != [] {
      ValuesOfRemove(m, ks[1..], id);
      var v := ValuesOf(m, ks);
      assert v[0] == m[ks[0]] && v[1..] == ValuesOf(m, ks[1..]);
    }
  }

  /** A record among the values is the one stored under its own id. */
  lemma {:induction false} ValuesOfMembers(m: map<string, Task>, ks: seq<string>, t: Task)
    requires forall k :: k in ks ==> k in m && m[k].id == k
    ensures t in ValuesOf(m, ks) <==> t.id in ks && m[t.id] == t
  {
    if ks != [] {
      ValuesOfMembers(m, ks[1..], t);
    }
  }

  /** The table `tasks_db`. */
  class Store {
    /** The dictionary itself. */
    var tasks: map<string, Task>
    /** Its keys in insertion order: the iteration order of the dictionary. */
    var order: seq<string>
    /** Every id ever handed out; generated ids are never reused, even after deletion. */
    ghost var issued: set<string>

    /** The table invariant: the key order lists each key once, records sit under their ids and are well formed. */
    ghost predicate Valid()
      reads this
    {
      (forall k :: k in order <==> k in tasks) &&
      NoDuplicates(order) &&
      (forall k :: k in tasks ==> tasks[k].id == k && WellFormed(tasks[k])) &&
      tasks.Keys <= issued
    }

    /** `list(tasks_db.values())`: the records in insertion order. */
    function Values(): (r: seq<Task>)
      reads this
      requires Valid()
      ensures |r| == |tasks|
    {
      KeyCount(order);
      assert tasks.Keys == set k | k in order;
      ValuesOf(tasks, order)
    }

    /** The values are exactly the stored records, each well formed. */
    lemma ValuesAreTheStore()
      requires Valid()
      ensures forall t :: t in Values() <==> t.id in tasks && tasks[t.id] == t
      ensures forall t :: t in Values() ==> WellFormed(t)
    {
      forall t ensures t in Values() <==> t.id in tasks && tasks[t.id] == t {
        ValuesOfMembers(tasks, order, t);
      }
    }

    /** `total_tasks`, computed over the values, is `len(tasks_db)`. */
    lemma TotalIsSize()
      requires Valid()
      ensures TaskStats.Stats(Values()).totalTasks == |tasks|
    {
    }

    /** Every record `list_tasks` returns is stored under its id and matches the query. */
    lemma ListedAreStored(q: TaskList.Query)
      requires Valid()
      ensures forall t :: t in TaskList.ListTasks(Values(), q) ==>
        t.id in tasks && tasks[t.id] == t && TaskList.Matches(t, q)
    {
      TaskList.ListSound(Values(), q);
      ValuesAreTheStore();
    }

    /** The empty table of a freshly started process. */
    constructor ()
      ensures Valid()
      ensures tasks == map[] && order == [] && issued == {}
    {
      tasks := map[];
      order := [];
      issued := {};
    }

    /** `get_task`: the stored record, or NotFound carrying the id. */
    function Get(id: string): (r: Result<Task, StoreError>)
      reads this
      ensures r.Success? <==> id in tasks
      ensures r.Success? ==> r.value == tasks[id]
      ensures r.Failure? ==> r.error == NotFound(id)
    {
      if id !in tasks then Failure(NotFound(id)) else Success(tasks[id])
    }

    /** The record `Get` returns for a present id carries that id and is well formed. */
    lemma GetFound(id: string)
      requires Valid() && id in tasks
      ensures Get(id).Success? && Get(id).value.id == id && WellFormed(Get(id).value)
    {
    }

    /**
     * `create_task` with a freshly generated `id` and the current time `now`:
     * the new record is stored under `id` and appended to the iteration order.
     */
    method Create(id: string, req: NewTaskRequest, now: int) returns (t: Task)
      requires Valid()
      requires id != "" && id !in issued
      requires ValidRequest(req)
      modifies this
      ensures Valid()
      ensures t == NewTask(id, req, now)
      ensures t.id == id && t.title == req.title && t.description == req.description
      ensures t.completed == req.completed && t.priority == req.priority
      ensures t.createdAt == now && t.updatedAt == now
      ensures id !in old(tasks) && tasks == old(tasks)[id := t]
      ensures |tasks| == |old(tasks)| + 1
      ensures order == old(order) + [id] && issued == old(issued) + {id}
      ensures Values() == old(Values()) + [t]
      ensures Get(id) == Success(t)
    {
      t := NewTask(id, req, now);
      ValuesOfAppend(tasks, order, id, t);
      tasks := tasks[id := t];
      order := order + [id];
      issued := issued + {id};
    }

    /**
     * `update_task`: NotFound and no change for an absent id; otherwise each
     * dumped field is assigned in turn, `updated_at` is set to `now`, and the
     * record is stored back under the same key, keeping its place.
     */
    method Update(id: string, patch: Patch, now: int) returns (r: Result<Task, StoreError>)
      requires Valid()
      requires ValidPatch(patch)
      requires id in tasks ==> tasks[id].updatedAt <= now
      modifies this
      ensures Valid()
      ensures order == old(order) && issued == old(issued)
      ensures id !in old(tasks) ==> r == Failure(NotFound(id)) && tasks == old(tasks)
      ensures id in old(tasks) ==>
        r == Success(Updated(old(tasks)[id], patch, now)) && tasks == old(tasks)[id := r.value]
      ensures id in old(tasks) ==>
        r.value.id == id && r.value.createdAt == old(tasks)[id].createdAt && r.value.updatedAt == now
      ensures r.Success? ==> Get(id) == r
    {
      if id !in tasks {
        return Failure(NotFound(id));
      }
      var existing := ApplyPatch(tasks[id], patch);
      existing := existing.(updatedAt := now);
      tasks := tasks[id := existing];
      r := Success(existing);
    }

    /** `delete_task`: NotFound and no change for an absent id; otherwise exactly that key goes. */
    method Delete(id: string) returns (r: Result<(), StoreError>)
      requires Valid()
      modifies this
      ensures Valid()
      ensures issued == old(issued)
      ensures id !in old(tasks) ==> r == Failure(NotFound(id)) && tasks == old(tasks) && order == old(order)
      ensures id in old(tasks) ==> r == Success(()) && tasks == old(tasks) - {id}
      ensures id in old(tasks) ==> order == RemoveKey(old(order), id) && |tasks| == |old(tasks)| - 1
      ensures Values() == WithoutId(old(Values()), id)
      ensures Get(id) == Failure(NotFound(id))
    {
      if id !in tasks {
        ValuesAreTheStore();
        WithoutAbsent(Values(), id);
        return Failure(NotFound(id));
      }
      ValuesOfRemove(tasks, order, id);
      RemoveKeyNoDuplicates(order, id);
      tasks := tasks - {id};
      order := RemoveKey(order, id);
      r := Success(());
    }
  }

  /** Taking out an id that no record carries changes nothing. */
  lemma {:induction false} WithoutAbsent(s: seq<Task>, id: string)
    requires forall t :: t in s ==> t.id != id
    ensures WithoutId(s, id) == s
  {
    if s != [] {
      WithoutAbsent(s[1..], id);
      assert s == [s[0]] + s[1..];
    }
  }
}
