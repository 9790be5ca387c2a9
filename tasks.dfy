/**
 * The task record of the to-do service and the request shapes that create and
 * patch it (main.py, the Pydantic models `TaskBase`, `TaskCreate`,
 * `TaskUpdate` and `Task`), together with the merge that a partial update
 * performs.
 */
module Tasks {
  import opened Wrappers

  /** The three priority levels that the pattern `^(low|medium|high)$` admits. */
  datatype Priority = Low | Medium | High

  /** The string under which a priority is sent, stored and filtered. */
  function PriorityName(p: Priority): string
  {
    match p
    case Low => "low"
    case Medium => "medium"
    case High => "high"
  }

  /** The validation of a priority string: exactly the three names are accepted. */
  function ParsePriority(s: string): (r: Option<Priority>)
    ensures r.Some? ==> PriorityName(r.value) == s
  {
    if s == "low" then Some(Low)
    else if s == "medium" then Some(Medium)
    else if s == "high" then Some(High)
    else None
  }

  /** Every priority name is accepted and parses back to the same priority. */
  lemma ParsePriorityName(p: Priority)
    ensures ParsePriority(PriorityName(p)) == Some(p)
  {
  }

  /** Distinct priorities have distinct names, so filtering by name is filtering by priority. */
  lemma PriorityNameInjective(p: Priority, q: Priority)
    ensures PriorityName(p) == PriorityName(q) <==> p == q
  {
    ParsePriorityName(p);
    ParsePriorityName(q);
  }

  const MaxTitleLength := 200
  const MaxDescriptionLength := 1000

  /** `title`: between 1 and 200 characters. */
  predicate ValidTitle(title: string)
  {
    1 <= |title| <= MaxTitleLength
  }

  /** `description`: absent, or at most 1000 characters. */
  predicate ValidDescription(description: Option<string>)
  {
    description.Some? ==> |description.value| <= MaxDescriptionLength
  }

  /** A stored task (`Task`). Timestamps are whole ticks of the supplied clock. */
  datatype Task = Task(
    id: string,
    title: string,
    description: Option<string>,
    completed: bool,
    priority: Option<Priority>,
    createdAt: int,
    updatedAt: int)

  /** What every stored record satisfies: a non-empty id, valid text fields, created no later than updated. */
  predicate WellFormed(t: Task)
  {
    t.id != "" && ValidTitle(t.title) && ValidDescription(t.description) && t.createdAt <= t.updatedAt
  }

  /** The body of a create request (`TaskCreate`), with the model's defaults applied. */
  datatype NewTaskRequest = NewTaskRequest(
    title: string,
    description: Option<string>,
    completed: bool,
    priority: Option<Priority>)

  /** A request that sends only a title gets the declared defaults. */
  function RequestWithDefaults(title: string): (r: NewTaskRequest)
    ensures ValidTitle(title) ==> ValidRequest(r)
  {
    NewTaskRequest(title, None, false, Some(Medium))
  }

  /** A task created from the defaults has no description, is pending and has medium priority. */
  lemma DefaultTask(id: string, title: string, now: int)
    requires id != "" && ValidTitle(title)
    ensures var t := NewTask(id, RequestWithDefaults(title), now);
      WellFormed(t) && t.title == title && t.description == None && !t.completed && t.priority == Some(Medium)
  {
  }

  /** The constraints `TaskCreate` enforces before a request reaches the store. */
  predicate ValidRequest(r: NewTaskRequest)
  {
    ValidTitle(r.title) && ValidDescription(r.description)
  }

  /** The record `create_task` builds: both timestamps are the same instant. */
  function NewTask(id: string, r: NewTaskRequest, now: int): (t: Task)
    requires id != "" && ValidRequest(r)
    ensures WellFormed(t)
    ensures t.createdAt == t.updatedAt
  {
    Task(id, r.title, r.description, r.completed, r.priority, now, now)
  }

  /** A field of a partial update: not sent at all, or sent with a value. */
  datatype Field<+T> = Unset | Set(value: T)

  /**
   * The body of an update request (`TaskUpdate`) after validation. A client
   * may send `null` for `description` and `priority`, which the model keeps
   * apart from leaving the field out.
   */
  datatype Patch = Patch(
    title: Field<string>,
    description: Field<Option<string>>,
    completed: Field<bool>,
    priority: Field<Option<Priority>>)

  /** The update that sends no field at all. */
  const EmptyPatch := Patch(Unset, Unset, Unset, Unset)

  /** The constraints `TaskUpdate` enforces on the fields that are sent. */
  predicate ValidPatch(p: Patch)
  {
    (p.title.Set? ==> ValidTitle(p.title.value)) &&
    (p.description.Set? ==> ValidDescription(p.description.value))
  }

  /** The sent value if the field was sent, otherwise the current one. */
  function Pick<T>(f: Field<T>, current: T): T
  {
    if f.Set? then f.value else current
  }

  /**
   * The reference meaning of a partial update: overwrite exactly the fields
   * that were sent. Identity and timestamps are not touched here.
   */
  function Merge(t: Task, p: Patch): (r: Task)
    ensures r.id == t.id && r.createdAt == t.createdAt && r.updatedAt == t.updatedAt
    ensures WellFormed(t) && ValidPatch(p) ==> WellFormed(r)
  {
    t.(title := Pick(p.title, t.title),
       description := Pick(p.description, t.description),
       completed := Pick(p.completed, t.completed),
       priority := Pick(p.priority, t.priority))
  }

  /** The record after a successful update: merged, then stamped with the new time. */
  function Updated(t: Task, p: Patch, now: int): (r: Task)
    requires t.updatedAt <= now
    ensures WellFormed(t) && ValidPatch(p) ==> WellFormed(r)
    ensures r.id == t.id && r.createdAt == t.createdAt && r.updatedAt == now
    ensures t.updatedAt <= r.updatedAt
  {
    Merge(t, p).(updatedAt := now)
  }

  /** An update that sends nothing changes no field (only the timestamp moves). */
  lemma MergeEmpty(t: Task)
    ensures Merge(t, EmptyPatch) == t
  {
  }

  /** Sending the same update twice is the same as sending it once. */
  lemma MergeIdempotent(t: Task, p: Patch)
    ensures Merge(Merge(t, p), p) == Merge(t, p)
  {
  }

  /** The patch that sends every field either of two patches sends, the later one winning. */
  function Then(p: Patch, q: Patch): (r: Patch)
    ensures ValidPatch(p) && ValidPatch(q) ==> ValidPatch(r)
  {
    Patch(if q.title.Set? then q.title else p.title,
          if q.description.Set? then q.description else p.description,
          if q.completed.Set? then q.completed else p.completed,
          if q.priority.Set? then q.priority else p.priority)
  }

  /** Last write wins: two updates in a row amount to their combination. */
  lemma MergeThen(t: Task, p: Patch, q: Patch)
    ensures Merge(Merge(t, p), q) == Merge(t, Then(p, q))
  {
  }

  /** Only sent fields change: a field left out of the patch keeps its value. */
  lemma MergeKeepsUnsent(t: Task, p: Patch)
    ensures p.title.Unset? ==> Merge(t, p).title == t.title
    ensures p.description.Unset? ==> Merge(t, p).description == t.description
    ensures p.completed.Unset? ==> Merge(t, p).completed == t.completed
    ensures p.priority.Unset? ==> Merge(t, p).priority == t.priority
  {
  }

  /** A sent field takes the sent value. */
  lemma MergeTakesSent(t: Task, p: Patch)
    ensures p.title.Set? ==> Merge(t, p).title == p.title.value
    ensures p.description.Set? ==> Merge(t, p).description == p.description.value
    ensures p.completed.Set? ==> Merge(t, p).completed == p.completed.value
    ensures p.priority.Set? ==> Merge(t, p).priority == p.priority.value
  {
  }

  /** Last write wins, timestamps included: two updates in a row amount to one with their combination at the later time. */
  lemma UpdatedThen(t: Task, p: Patch, q: Patch, n1: int, n2: int)
    requires t.updatedAt <= n1 <= n2
    ensures Updated(Updated(t, p, n1), q, n2) == Updated(t, Then(p, q), n2)
  {
  }

  /** One `setattr(existing_task, field, value)` of the update loop. */
  datatype Assignment =
    | SetTitle(title: string)
    | SetDescription(description: Option<string>)
    | SetCompleted(completed: bool)
    | SetPriority(priority: Option<Priority>)

  /** Assigning one attribute of the record. */
  function Assign(t: Task, a: Assignment): (r: Task)
    ensures r.id == t.id && r.createdAt == t.createdAt && r.updatedAt == t.updatedAt
  {
    match a
    case SetTitle(v) => t.(title := v)
    case SetDescription(v) => t.(description := v)
    case SetCompleted(v) => t.(completed := v)
    case SetPriority(v) => t.(priority := v)
  }

  /** The assignments of a list carried out one after another, from the first. */
  function AssignAll(t: Task, s: seq<Assignment>): (r: Task)
    ensures r.id == t.id && r.createdAt == t.createdAt && r.updatedAt == t.updatedAt
    decreases |s|
  {
    if s == [] then t else Assign(AssignAll(t, s[..|s| - 1]), s[|s| - 1])
  }

  /** The dumped entry of `title`: present only if it was sent. */
  function TitleData(f: Field<string>): (r: seq<Assignment>)
    ensures |r| <= 1 && forall a :: a in r ==> a.SetTitle?
    ensures forall v :: SetTitle(v) in r <==> f == Set(v)
  {
    if f.Set? then [SetTitle(f.value)] else []
  }

  /** The dumped entry of `description`: present only if it was sent. */
  function DescriptionData(f: Field<Option<string>>): (r: seq<Assignment>)
    ensures |r| <= 1 && forall a :: a in r ==> a.SetDescription?
    ensures forall v :: SetDescription(v) in r <==> f == Set(v)
  {
    if f.Set? then [SetDescription(f.value)] else []
  }

  /** The dumped entry of `completed`: present only if it was sent. */
  function CompletedData(f: Field<bool>): (r: seq<Assignment>)
    ensures |r| <= 1 && forall a :: a in r ==> a.SetCompleted?
    ensures forall v :: SetCompleted(v) in r <==> f == Set(v)
  {
    if f.Set? then [SetCompleted(f.value)] else []
  }

  /** The dumped entry of `priority`: present only if it was sent. */
  function PriorityData(f: Field<Option<Priority>>): (r: seq<Assignment>)
    ensures |r| <= 1 && forall a :: a in r ==> a.SetPriority?
    ensures forall v :: SetPriority(v) in r <==> f == Set(v)
  {
    if f.Set? then [SetPriority(f.value)] else []
  }

  /** Two assignments of the same attribute. */
  predicate SameField(a: Assignment, b: Assignment)
  {
    (a.SetTitle? && b.SetTitle?) || (a.SetDescription? && b.SetDescription?) ||
    (a.SetCompleted? && b.SetCompleted?) || (a.SetPriority? && b.SetPriority?)
  }

  /**
   * `task_update.model_dump(exclude_unset=True)`: the sent fields, in the
   * order the model declares them.
   */
  function Dump(p: Patch): (r: seq<Assignment>)
    ensures |r| <= 4
  {
    TitleData(p.title) + DescriptionData(p.description) + CompletedData(p.completed) + PriorityData(p.priority)
  }

  /** No attribute is assigned twice in a list of assignments. */
  predicate FieldsDistinct(s: seq<Assignment>)
  {
    forall i, j :: 0 <= i < j < |s| ==> !SameField(s[i], s[j])
  }

  /** Joining two lists that assign no common attribute keeps the attributes distinct. */
  lemma JoinDistinct(x: seq<Assignment>, y: seq<Assignment>)
    requires FieldsDistinct(x) && FieldsDistinct(y)
    requires forall a, b :: a in x && b in y ==> !SameField(a, b)
    ensures FieldsDistinct(x + y)
  {
    var r := x + y;
    forall i, j | 0 <= i < j < |r| ensures !SameField(r[i], r[j]) {
      if j < |x| {
        assert r[i] == x[i] && r[j] == x[j];
      } else if i < |x| {
        assert r[i] == x[i] && r[j] == y[j - |x|];
        assert x[i] in x && y[j - |x|] in y;
      } else {
        assert r[i] == y[i - |x|] && r[j] == y[j - |x|];
      }
    }
  }

  /** The dump assigns an attribute a value exactly when the patch sends that value. */
  lemma DumpFields(p: Patch)
    ensures forall v :: SetTitle(v) in Dump(p) <==> p.title == Set(v)
    ensures forall v :: SetDescription(v) in Dump(p) <==> p.description == Set(v)
    ensures forall v :: SetCompleted(v) in Dump(p) <==> p.completed == Set(v)
    ensures forall v :: SetPriority(v) in Dump(p) <==> p.priority == Set(v)
  {
    var a, b, c, d := TitleData(p.title), DescriptionData(p.description), CompletedData(p.completed), PriorityData(p.priority);
    assert Dump(p) == a + b + c + d;
  }

  /** The dump assigns no attribute twice. */
  lemma DumpDistinct(p: Patch)
    ensures FieldsDistinct(Dump(p))
  {
    var a, b, c, d := TitleData(p.title), DescriptionData(p.description), CompletedData(p.completed), PriorityData(p.priority);
    JoinDistinct(a, b);
    JoinDistinct(a + b, c);
    JoinDistinct(a + b + c, d);
  }

  /** Carrying out two lists of assignments in turn is carrying out their concatenation. */
  lemma {:induction false} AssignAllAppend(t: Task, s: seq<Assignment>, u: seq<Assignment>)
    ensures AssignAll(t, s + u) == AssignAll(AssignAll(t, s), u)
    decreases |u|
  {
    if u == [] {
      assert s + u == s;
    } else {
      var v := u[..|u| - 1];
      assert (s + u)[..|s + u| - 1] == s + v;
      assert (s + u)[|s + u| - 1] == u[|u| - 1];
      AssignAllAppend(t, s, v);
    }
  }

  /** Assigning the dumped `title` entry sets the title exactly when it was sent. */
  lemma AssignTitleData(t: Task, f: Field<string>)
    ensures AssignAll(t, TitleData(f)) == t.(title := Pick(f, t.title))
  {
    if f.Set? { assert TitleData(f)[..0] == []; }
  }

  /** Assigning the dumped `description` entry sets the description exactly when it was sent. */
  lemma AssignDescriptionData(t: Task, f: Field<Option<string>>)
    ensures AssignAll(t, DescriptionData(f)) == t.(description := Pick(f, t.description))
  {
    if f.Set? { assert DescriptionData(f)[..0] == []; }
  }

  /** Assigning the dumped `completed` entry sets the flag exactly when it was sent. */
  lemma AssignCompletedData(t: Task, f: Field<bool>)
    ensures AssignAll(t, CompletedData(f)) == t.(completed := Pick(f, t.completed))
  {
    if f.Set? { assert CompletedData(f)[..0] == []; }
  }

  /** Assigning the dumped `priority` entry sets the priority exactly when it was sent. */
  lemma AssignPriorityData(t: Task, f: Field<Option<Priority>>)
    ensures AssignAll(t, PriorityData(f)) == t.(priority := Pick(f, t.priority))
  {
    if f.Set? { assert PriorityData(f)[..0] == []; }
  }

  /** The update loop over the dumped fields computes exactly the reference merge. */
  lemma DumpThenAssignIsMerge(t: Task, p: Patch)
    ensures AssignAll(t, Dump(p)) == Merge(t, p)
  {
    var a, b, c, d := TitleData(p.title), DescriptionData(p.description), CompletedData(p.completed), PriorityData(p.priority);
    AssignAllAppend(t, a + b + c, d);
    AssignAllAppend(t, a + b, c);
    AssignAllAppend(t, a, b);
    AssignTitleData(t, p.title);
    var ta := AssignAll(t, a);
    AssignDescriptionData(ta, p.description);
    var tb := AssignAll(ta, b);
    AssignCompletedData(tb, p.completed);
    var tc := AssignAll(tb, c);
    AssignPriorityData(tc, p.priority);
  }

  /**
   * Lines 170-174 of `update_task`: dump the sent fields and assign them to
   * the record one by one. The result is the reference merge.
   */
  method ApplyPatch(t: Task, p: Patch) returns (r: Task)
    ensures r == Merge(t, p)
  {
    var updateData := Dump(p);
    r := t;
    var i := 0;
    while i < |updateData|
      invariant 0 <= i <= |updateData|
      invariant r == AssignAll(t, updateData[..i])
    {
      assert updateData[..i + 1][..i] == updateData[..i];
      r := Assign(r, updateData[i]);
      i := i + 1;
    }
    assert updateData[..i] == updateData;
    DumpThenAssignIsMerge(t, p);
  }
}
