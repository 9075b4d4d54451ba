/**
 * The `/tasks` handlers: a task collection in which every query is scoped
 * to the caller, the user id taken from a verified token.
 *
 * The collection is a map from task id to task. What each handler answers
 * and leaves behind is given by a function of the collection before the
 * request (`CreateSpec`, `UpdateSpec`, `DeleteSpec`). The `TaskStore`
 * methods `Create`, `Update` and `Delete` update the collection in place
 * and are proved equal to those functions; `List` only reads it, and the
 * listing its loop builds is proved to satisfy `IsListing`. The ownership, validation and not-found properties are
 * lemmas about the functions.
 */
module TaskRoutes {
  import opened Text
  import opened Wire
  import opened UserModel

  type TaskId = nat

  /** A task document: owner, trimmed text, completion flag, creation time. */
  datatype Task = Task(owner: UserId, text: string, completed: bool, createdAt: int)

  /** A task as the API returns it, with its `_id`. */
  datatype Entry = Entry(id: TaskId, task: Task)

  /** The JSON body of a response. */
  datatype Body =
    | Listing(entries: seq<Entry>)
    | Saved(entry: Entry)
    | Message(text: string)
    | Error(text: string)

  datatype Reply = Reply(status: int, body: Body)

  const MsgTextRequired := "El texto de la tarea es requerido"
  const MsgNotFound := "Tarea no encontrada"
  const MsgUpdateFailed := "Error al actualizar tarea"
  const MsgDeleted := "Tarea eliminada"

  /** The query filter `{ _id: id, userId: caller }` selects task `id`. */
  predicate Owns(tasks: map<TaskId, Task>, caller: UserId, id: TaskId) {
    id in tasks && tasks[id].owner == caller
  }

  /** A reply together with the collection after the request. */
  datatype Outcome = Outcome(reply: Reply, tasks: map<TaskId, Task>)

  // ---------------------------------------------------------------------
  // GET /tasks
  // ---------------------------------------------------------------------

  /** Newest first: creation times never increase along `r`. */
  predicate NewestFirst(r: seq<Entry>) {
    forall i, j | 0 <= i < j < |r| :: r[i].task.createdAt >= r[j].task.createdAt
  }

  /** No task id occurs twice in `r`. */
  predicate DistinctIds(r: seq<Entry>) {
    forall i, j | 0 <= i < j < |r| :: r[i].id != r[j].id
  }

  /** `r` is an answer to `find({ userId: caller }).sort({ createdAt: -1 })`:
      exactly the caller's tasks, each once and as stored, newest first
      (tasks created at the same instant may come in any order). */
  ghost predicate IsListing(tasks: map<TaskId, Task>, caller: UserId, r: seq<Entry>) {
    && (forall i | 0 <= i < |r| :: Owns(tasks, caller, r[i].id) && tasks[r[i].id] == r[i].task)
    && (forall id | Owns(tasks, caller, id) :: Entry(id, tasks[id]) in r)
    && DistinctIds(r)
    && NewestFirst(r)
  }

  /** How many entries at the front of `r` are strictly newer than `e`. */
  function NewerCount(r: seq<Entry>, e: Entry): (k: nat)
    ensures k <= |r|
    ensures forall i | 0 <= i < k :: r[i].task.createdAt > e.task.createdAt
    ensures k < |r| ==> r[k].task.createdAt <= e.task.createdAt
  {
    if r == [] || r[0].task.createdAt <= e.task.createdAt then 0 else 1 + NewerCount(r[1..], e)
  }

  /** The entries of `r[..k] + [e] + r[k..]`, position by position. */
  lemma InsertPositions(r: seq<Entry>, e: Entry, k: nat)
    requires k <= |r|
    ensures var r' := r[..k] + [e] + r[k..];
      && |r'| == |r| + 1 && r'[k] == e
      && (forall i | 0 <= i < k :: r'[i] == r[i])
      && (forall i | k < i < |r'| :: r'[i] == r[i - 1])
  {
  }

  lemma InsertKeepsNewestFirst(r: seq<Entry>, e: Entry)
    requires NewestFirst(r)
    ensures var k := NewerCount(r, e); NewestFirst(r[..k] + [e] + r[k..])
  {
    var k := NewerCount(r, e);
    var r' := r[..k] + [e] + r[k..];
    InsertPositions(r, e, k);
    forall i, j | 0 <= i < j < |r'| ensures r'[i].task.createdAt >= r'[j].task.createdAt {
      if j == k {
      } else if i == k {
        assert r'[j] == r[j - 1];
        assert k < |r| && r[k].task.createdAt >= r[j - 1].task.createdAt;
      } else if i < k && k < j {
        assert r'[j] == r[j - 1];
        assert r[k].task.createdAt >= r[j - 1].task.createdAt;
      }
    }
  }

  lemma InsertKeepsDistinctIds(r: seq<Entry>, e: Entry, k: nat)
    requires k <= |r| && DistinctIds(r)
    requires forall i | 0 <= i < |r| :: r[i].id != e.id
    ensures DistinctIds(r[..k] + [e] + r[k..])
  {
    var r' := r[..k] + [e] + r[k..];
    InsertPositions(r, e, k);
    forall i, j | 0 <= i < j < |r'| ensures r'[i].id != r'[j].id {
      if i < k && j > k {
        assert r'[i] == r[i] && r'[j] == r[j - 1];
      } else if i > k {
        assert r'[i] == r[i - 1] && r'[j] == r[j - 1];
      }
    }
  }

  /** `e` placed into `r` behind the entries that are newer than it: the
      result holds the entries of `r` and `e`, stays newest first when `r`
      was, and keeps ids distinct when `e`'s id is new. */
  function InsertNewestFirst(r: seq<Entry>, e: Entry): (r': seq<Entry>)
    ensures |r'| == |r| + 1
    ensures forall x :: x in r' <==> x in r || x == e
    ensures NewestFirst(r) ==> NewestFirst(r')
    ensures DistinctIds(r) && (forall i | 0 <= i < |r| :: r[i].id != e.id) ==> DistinctIds(r')
  {
    var k := NewerCount(r, e);
    assert r == r[..k] + r[k..];
    var r' := r[..k] + [e] + r[k..];
    assert NewestFirst(r) ==> NewestFirst(r') by {
      if NewestFirst(r) { InsertKeepsNewestFirst(r, e); }
    }
    assert DistinctIds(r) && (forall i | 0 <= i < |r| :: r[i].id != e.id) ==> DistinctIds(r') by {
      if DistinctIds(r) && (forall i | 0 <= i < |r| :: r[i].id != e.id) { InsertKeepsDistinctIds(r, e, k); }
    }
    r'
  }

  // ---------------------------------------------------------------------
  // POST /tasks
  // ---------------------------------------------------------------------

  /** `POST /tasks` with body member `text`, the new task getting id `id`
      and creation time `now`. A new task starts incomplete. */
  function CreateSpec(tasks: map<TaskId, Task>, caller: UserId, text: Field, id: TaskId, now: int): Outcome
  {
    if !Truthy(text) || Trim(text.s) == "" then
      Outcome(Reply(StatusBadRequest, Error(MsgTextRequired)), tasks)
    else
      var t := Task(caller, Trim(text.s), false, now);
      Outcome(Reply(StatusCreated, Saved(Entry(id, t))), tasks[id := t])
  }

  /** A missing, `null`, empty or white-space-only text is refused with 400
      before anything is stored. */
  lemma CreateRejectsBlank(tasks: map<TaskId, Task>, caller: UserId, text: Field, id: TaskId, now: int)
    requires !text.Str? || AllSpace(text.s)
    ensures CreateSpec(tasks, caller, text, id, now) == Outcome(Reply(StatusBadRequest, Error(MsgTextRequired)), tasks)
  {
  }

  /** Any other text creates exactly one task, under the fresh id, owned by
      the caller, with the trimmed (and non-empty) text, not completed, and
      answers 201 with it; no other task changes. */
  lemma CreateAddsOne(tasks: map<TaskId, Task>, caller: UserId, text: Field, id: TaskId, now: int)
    requires id !in tasks
    requires text.Str? && !AllSpace(text.s)
    ensures var o := CreateSpec(tasks, caller, text, id, now);
      && o.reply.status == StatusCreated
      && o.tasks.Keys == tasks.Keys + {id}
      && (forall k | k in tasks :: o.tasks[k] == tasks[k])
      && o.tasks[id] == Task(caller, Trim(text.s), false, now)
      && o.tasks[id].text != "" && Trimmed(o.tasks[id].text)
      && o.reply.body == Saved(Entry(id, o.tasks[id]))
  {
  }

  // ---------------------------------------------------------------------
  // PUT /tasks/:id
  // ---------------------------------------------------------------------

  /** `PUT /tasks/:id` with optional body members `completed` and `text`.
      A JSON `null` text makes `text.trim()` throw, which answers 500. */
  function UpdateSpec(tasks: map<TaskId, Task>, caller: UserId, id: TaskId,
                      completed: Option<bool>, text: Field): Outcome
  {
    if !Owns(tasks, caller, id) then
      Outcome(Reply(StatusNotFound, Error(MsgNotFound)), tasks)
    else if text.Null? then
      Outcome(Reply(StatusServerError, Error(MsgUpdateFailed)), tasks)
    else
      var t0 := tasks[id];
      var t1 := if completed.Some? then t0.(completed := completed.value) else t0;
      var t2 := if text.Str? then t1.(text := Trim(text.s)) else t1;
      Outcome(Reply(StatusOk, Saved(Entry(id, t2))), tasks[id := t2])
  }

  /** An update of an own task changes only what the body supplies:
      `completed` when given, the text (trimmed, and not re-checked for
      emptiness) when given; owner, creation time, and every other task stay
      as they were. */
  lemma UpdateChangesOnlyGivenFields(tasks: map<TaskId, Task>, caller: UserId, id: TaskId,
                                     completed: Option<bool>, text: Field)
    requires Owns(tasks, caller, id) && !text.Null?
    ensures var o := UpdateSpec(tasks, caller, id, completed, text);
      && o.reply.status == StatusOk
      && o.tasks.Keys == tasks.Keys
      && (forall k | k in tasks && k != id :: o.tasks[k] == tasks[k])
      && o.tasks[id].owner == caller && o.tasks[id].createdAt == tasks[id].createdAt
      && o.tasks[id].completed == (if completed.Some? then completed.value else tasks[id].completed)
      && o.tasks[id].text == (if text.Str? then Trim(text.s) else tasks[id].text)
      && o.reply.body == Saved(Entry(id, o.tasks[id]))
  {
  }

  /** An update of an id that does not exist or belongs to someone else
      answers 404 "Tarea no encontrada" and leaves the collection as it
      was, whatever fields were sent. */
  lemma UpdateNotOwnedIsNotFound(tasks: map<TaskId, Task>, caller: UserId, id: TaskId,
                                 completed: Option<bool>, text: Field)
    requires !Owns(tasks, caller, id)
    ensures UpdateSpec(tasks, caller, id, completed, text) == Outcome(Reply(StatusNotFound, Error(MsgNotFound)), tasks)
  {
  }

  /** Unlike creation, an update with a white-space-only text is accepted
      and leaves the task with an empty text. */
  lemma UpdateAcceptsBlankText(tasks: map<TaskId, Task>, caller: UserId, id: TaskId, blank: string)
    requires Owns(tasks, caller, id) && AllSpace(blank)
    ensures var o := UpdateSpec(tasks, caller, id, None, Str(blank));
      o.reply.status == StatusOk && o.tasks[id].text == ""
  {
  }

  // ---------------------------------------------------------------------
  // DELETE /tasks/:id
  // ---------------------------------------------------------------------

  /** `DELETE /tasks/:id`: `findOneAndDelete` on the scoped filter. */
  function DeleteSpec(tasks: map<TaskId, Task>, caller: UserId, id: TaskId): Outcome
  {
    if !Owns(tasks, caller, id) then
      Outcome(Reply(StatusNotFound, Error(MsgNotFound)), tasks)
    else
      Outcome(Reply(StatusOk, Message(MsgDeleted)), tasks - {id})
  }

  /** Delete removes exactly the one task matching both id and owner and
      answers 200; when none matches it answers 404 and removes nothing. */
  lemma DeleteRemovesExactlyOne(tasks: map<TaskId, Task>, caller: UserId, id: TaskId)
    ensures var o := DeleteSpec(tasks, caller, id);
      && (Owns(tasks, caller, id) ==>
            && o.reply == Reply(StatusOk, Message(MsgDeleted))
            && o.tasks.Keys == tasks.Keys - {id} && |o.tasks| == |tasks| - 1
            && (forall k | k in o.tasks :: o.tasks[k] == tasks[k]))
      && (!Owns(tasks, caller, id) ==> o == Outcome(Reply(StatusNotFound, Error(MsgNotFound)), tasks))
  {
    if Owns(tasks, caller, id) {
      assert (tasks - {id}).Keys == tasks.Keys - {id};
    }
  }

  /** Deleting the same id twice: the second request answers 404 and leaves
      the collection as the first one left it. */
  lemma DeleteTwiceIsNotFound(tasks: map<TaskId, Task>, caller: UserId, id: TaskId)
    ensures var first := DeleteSpec(tasks, caller, id);
      DeleteSpec(first.tasks, caller, id) == Outcome(Reply(StatusNotFound, Error(MsgNotFound)), first.tasks)
  {
  }

  // ---------------------------------------------------------------------
  // Ownership
  // ---------------------------------------------------------------------

  /** From `before` to `after`, the only tasks added, changed or removed
      are the caller's, and the caller's tasks stay the caller's. */
  predicate OnlyOwnTasksTouched(before: map<TaskId, Task>, after: map<TaskId, Task>, caller: UserId) {
    && (forall k | k in before && before[k].owner != caller :: k in after && after[k] == before[k])
    && (forall k | k in after && !(k in before && after[k] == before[k]) :: after[k].owner == caller)
  }

  lemma CreateTouchesOnlyOwn(tasks: map<TaskId, Task>, caller: UserId, id: TaskId, text: Field, now: int)
    requires id !in tasks
    ensures OnlyOwnTasksTouched(tasks, CreateSpec(tasks, caller, text, id, now).tasks, caller)
  {
  }

  lemma UpdateTouchesOnlyOwn(tasks: map<TaskId, Task>, caller: UserId, id: TaskId,
                             completed: Option<bool>, text: Field)
    ensures OnlyOwnTasksTouched(tasks, UpdateSpec(tasks, caller, id, completed, text).tasks, caller)
  {
  }

  lemma DeleteTouchesOnlyOwn(tasks: map<TaskId, Task>, caller: UserId, id: TaskId)
    ensures OnlyOwnTasksTouched(tasks, DeleteSpec(tasks, caller, id).tasks, caller)
  {
  }

  /** No request by `caller` adds, changes or removes a task of another
      user (a create gets a fresh id `newId`), and a listing for `caller`
      shows no other user's task. */
  lemma OwnershipIsolation(tasks: map<TaskId, Task>, caller: UserId, id: TaskId, newId: TaskId, text: Field,
                           now: int, completed: Option<bool>, newText: Field, listing: seq<Entry>)
    requires newId !in tasks
    ensures OnlyOwnTasksTouched(tasks, CreateSpec(tasks, caller, text, newId, now).tasks, caller)
    ensures OnlyOwnTasksTouched(tasks, UpdateSpec(tasks, caller, id, completed, newText).tasks, caller)
    ensures OnlyOwnTasksTouched(tasks, DeleteSpec(tasks, caller, id).tasks, caller)
    ensures IsListing(tasks, caller, listing) ==> forall i | 0 <= i < |listing| :: listing[i].task.owner == caller
  {
    CreateTouchesOnlyOwn(tasks, caller, newId, text, now);
    UpdateTouchesOnlyOwn(tasks, caller, id, completed, newText);
    DeleteTouchesOnlyOwn(tasks, caller, id);
  }

  /** A task that does not exist and a task that belongs to someone else
      get the same answer from update and from delete, so a caller cannot
      learn whether another user's task id exists. */
  lemma NotFoundHidesOwnership(missing: map<TaskId, Task>, foreign: map<TaskId, Task>, caller: UserId,
                               id: TaskId, completed: Option<bool>, text: Field)
    requires id !in missing
    requires id in foreign && foreign[id].owner != caller
    ensures UpdateSpec(missing, caller, id, completed, text).reply == UpdateSpec(foreign, caller, id, completed, text).reply
    ensures DeleteSpec(missing, caller, id).reply == DeleteSpec(foreign, caller, id).reply
    ensures UpdateSpec(foreign, caller, id, completed, text).tasks == foreign
    ensures DeleteSpec(foreign, caller, id).tasks == foreign
  {
  }

  // ---------------------------------------------------------------------
  // Round trips through the listing
  // ---------------------------------------------------------------------

  /** A created task shows up in the caller's next listing, incomplete and
      with the trimmed text. */
  lemma {:induction false} CreateShowsInListing(tasks: map<TaskId, Task>, caller: UserId, id: TaskId,
                                                text: Field, now: int, r: seq<Entry>)
    requires CreateSpec(tasks, caller, text, id, now).reply.status == StatusCreated
    requires IsListing(CreateSpec(tasks, caller, text, id, now).tasks, caller, r)
    ensures Entry(id, Task(caller, Trim(text.s), false, now)) in r
  {
    assert Owns(CreateSpec(tasks, caller, text, id, now).tasks, caller, id);
  }

  /** After a successful toggle the caller's next listing shows the new
      flag. */
  lemma {:induction false} ToggleShowsInListing(tasks: map<TaskId, Task>, caller: UserId, id: TaskId,
                                                flag: bool, r: seq<Entry>)
    requires UpdateSpec(tasks, caller, id, Some(flag), Missing).reply.status == StatusOk
    requires IsListing(UpdateSpec(tasks, caller, id, Some(flag), Missing).tasks, caller, r)
    ensures exists i | 0 <= i < |r| :: r[i].id == id && r[i].task.completed == flag
  {
    var o := UpdateSpec(tasks, caller, id, Some(flag), Missing);
    assert Owns(o.tasks, caller, id);
    var e := Entry(id, o.tasks[id]);
    assert e in r;
    var i :| 0 <= i < |r| && r[i] == e;
    assert r[i].id == id && r[i].task.completed == flag;
  }

  /** A created task shows up in the caller's next listing, incomplete and
      with the trimmed text; after a toggle the listing shows the new flag;
      after a delete the id is gone from the listing. */
  lemma {:induction false} ListingReflectsChanges(tasks: map<TaskId, Task>, caller: UserId, id: TaskId,
                                                  text: Field, now: int, flag: bool, r: seq<Entry>)
    ensures var o := CreateSpec(tasks, caller, text, id, now);
      o.reply.status == StatusCreated && IsListing(o.tasks, caller, r) ==>
        Entry(id, Task(caller, Trim(text.s), false, now)) in r
    ensures var o := UpdateSpec(tasks, caller, id, Some(flag), Missing);
      o.reply.status == StatusOk && IsListing(o.tasks, caller, r) ==>
        exists i | 0 <= i < |r| :: r[i].id == id && r[i].task.completed == flag
    ensures var o := DeleteSpec(tasks, caller, id);
      IsListing(o.tasks, caller, r) ==> forall i | 0 <= i < |r| :: r[i].id != id
  {
    var c := CreateSpec(tasks, caller, text, id, now);
    if c.reply.status == StatusCreated && IsListing(c.tasks, caller, r) {
      CreateShowsInListing(tasks, caller, id, text, now, r);
    }
    var o := UpdateSpec(tasks, caller, id, Some(flag), Missing);
    if o.reply.status == StatusOk && IsListing(o.tasks, caller, r) {
      ToggleShowsInListing(tasks, caller, id, flag, r);
    }
  }

  // ---------------------------------------------------------------------
  // The collection, updated in place
  // ---------------------------------------------------------------------

  /** The task collection. Ids are handed out from a counter, so a new id
      is never in use. */
  class TaskStore {
    var tasks: map<TaskId, Task>
    var nextId: TaskId

    ghost predicate Valid()
      reads this
    {
      forall id | id in tasks :: id < nextId
    }

    constructor ()
      ensures Valid() && tasks == map[] && nextId == 0
    {
      tasks := map[];
      nextId := 0;
    }

    /** `GET /tasks`: the caller's tasks, newest first. */
    method List(caller: UserId) returns (reply: Reply)
      ensures reply.status == StatusOk && reply.body.Listing?
      ensures IsListing(tasks, caller, reply.body.entries)
    {
      var rest := tasks.Keys;
      var r: seq<Entry> := [];
      while rest != {}
        invariant rest <= tasks.Keys
        invariant forall i | 0 <= i < |r| ::
          Owns(tasks, caller, r[i].id) && tasks[r[i].id] == r[i].task && r[i].id !in rest
        invariant forall id | Owns(tasks, caller, id) && id !in rest :: Entry(id, tasks[id]) in r
        invariant DistinctIds(r)
        invariant NewestFirst(r)
        decreases rest
      {
        var id :| id in rest;
        if tasks[id].owner == caller {
          r := InsertNewestFirst(r, Entry(id, tasks[id]));
        }
        rest := rest - {id};
      }
      reply := Reply(StatusOk, Listing(r));
    }

    /** `POST /tasks`. */
    method Create(caller: UserId, text: Field, now: int) returns (reply: Reply)
      requires Valid()
      modifies this
      ensures Valid()
      ensures old(nextId) !in old(tasks)
      ensures Outcome(reply, tasks) == CreateSpec(old(tasks), caller, text, old(nextId), now)
    {
      if !text.Str? || Trim(text.s) == "" {
        return Reply(StatusBadRequest, Error(MsgTextRequired));
      }
      var t := Task(caller, Trim(text.s), false, now);
      tasks := tasks[nextId := t];
      reply := Reply(StatusCreated, Saved(Entry(nextId, t)));
      nextId := nextId + 1;
    }

    /** `PUT /tasks/:id`: the found document is changed field by field and
        saved. */
    method Update(caller: UserId, id: TaskId, completed: Option<bool>, text: Field) returns (reply: Reply)
      requires Valid()
      modifies this
      ensures Valid() && nextId == old(nextId)
      ensures Outcome(reply, tasks) == UpdateSpec(old(tasks), caller, id, completed, text)
    {
      if !(id in tasks && tasks[id].owner == caller) {
        return Reply(StatusNotFound, Error(MsgNotFound));
      }
      var task := tasks[id];
      if completed.Some? {
        task := task.(completed := completed.value);
      }
      if text.Null? {
        return Reply(StatusServerError, Error(MsgUpdateFailed));
      }
      if text.Str? {
        task := task.(text := Trim(text.s));
      }
      tasks := tasks[id := task];
      reply := Reply(StatusOk, Saved(Entry(id, task)));
    }

    /** `DELETE /tasks/:id`. */
    method Delete(caller: UserId, id: TaskId) returns (reply: Reply)
      requires Valid()
      modifies this
      ensures Valid() && nextId == old(nextId)
      ensures Outcome(reply, tasks) == DeleteSpec(old(tasks), caller, id)
    {
      if !(id in tasks && tasks[id].owner == caller) {
        return Reply(StatusNotFound, Error(MsgNotFound));
      }
      tasks := tasks - {id};
      reply := Reply(StatusOk, Message(MsgDeleted));
    }
  }
}
