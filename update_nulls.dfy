/**
 * What an update request can carry before validation, and what the update
 * handler does with an explicit `null`.
 *
 * Every field of `TaskUpdate` (main.py:43-47) is declared `Optional`, so a
 * client may send `"title": null` or `"completed": null`. The length bounds
 * apply only to strings, so the null passes validation; `model_dump(
 * exclude_unset=True)` reports the field as sent, and the `setattr` loop
 * stores `None` into a record whose `title` is a `str` and whose `completed`
 * is a `bool`. The rest of the model instead works on the admitted `Patch`,
 * in which `title` and `completed` can only be set to real values.
 */
module UpdateNulls {
  import opened Wrappers
  import opened Tasks

  /** An update body as the client sends it: each field absent, null, or a value. */
  datatype WirePatch = WirePatch(
    title: Field<Option<string>>,
    description: Field<Option<string>>,
    completed: Field<Option<bool>>,
    priority: Field<Option<Priority>>)

  /** The validation `TaskUpdate` performs as written: bounds on the strings that are sent. */
  predicate AdmittedAsWritten(w: WirePatch)
  {
    (w.title.Set? && w.title.value.Some? ==> ValidTitle(w.title.value.value)) &&
    (w.description.Set? ==> ValidDescription(w.description.value))
  }

  /** The record's `title` after the update loop as written: `None` if a null was sent. */
  function TitleAfterAsWritten(t: Task, w: WirePatch): Option<string>
  {
    if w.title.Set? then w.title.value else Some(t.title)
  }

  /** The record's `completed` after the update loop as written: `None` if a null was sent. */
  function CompletedAfterAsWritten(t: Task, w: WirePatch): Option<bool>
  {
    if w.completed.Set? then w.completed.value else Some(t.completed)
  }

  /** As written, `{"title": null}` is admitted and leaves the stored record without a title. */
  lemma NullTitleIsStored(t: Task)
    ensures var w := WirePatch(Set(None), Unset, Unset, Unset);
      AdmittedAsWritten(w) && TitleAfterAsWritten(t, w) == None
  {
  }

  /** As written, `{"completed": null}` is admitted and leaves the stored record without a flag. */
  lemma NullCompletedIsStored(t: Task)
    ensures var w := WirePatch(Unset, Unset, Set(None), Unset);
      AdmittedAsWritten(w) && CompletedAfterAsWritten(t, w) == None
  {
  }

  /** The title a patch sends, null excluded. */
  function TitleField(f: Field<Option<string>>): Field<string>
    requires f.Set? ==> f.value.Some?
  {
    if f.Set? then Set(f.value.value) else Unset
  }

  /** The completion flag a patch sends, null excluded. */
  function CompletedField(f: Field<Option<bool>>): Field<bool>
    requires f.Set? ==> f.value.Some?
  {
    if f.Set? then Set(f.value.value) else Unset
  }

  /**
   * The intended validation: besides the bounds, a null is refused for the
   * two fields the record cannot hold as null. What it admits is a valid
   * `Patch` that agrees with the request on every non-null field.
   */
  function Admit(w: WirePatch): (r: Option<Patch>)
    ensures r.Some? <==>
      AdmittedAsWritten(w) && w.title != Set(None) && w.completed != Set(None)
    ensures r.Some? ==> ValidPatch(r.value)
    ensures r.Some? ==> forall t :: Some(Merge(t, r.value).title) == TitleAfterAsWritten(t, w)
    ensures r.Some? ==> forall t :: Some(Merge(t, r.value).completed) == CompletedAfterAsWritten(t, w)
    ensures r.Some? ==> r.value.description == w.description && r.value.priority == w.priority
  {
    if AdmittedAsWritten(w) && w.title != Set(None) && w.completed != Set(None) then
      Some(Patch(TitleField(w.title), w.description, CompletedField(w.completed), w.priority))
    else
      None
  }

  /** Under the intended validation, every admitted update keeps a well-formed record well formed. */
  lemma AdmittedUpdateKeepsRecord(t: Task, w: WirePatch, now: int)
    requires WellFormed(t) && t.updatedAt <= now
    requires Admit(w).Some?
    ensures WellFormed(Updated(t, Admit(w).value, now))
  {
  }
}
