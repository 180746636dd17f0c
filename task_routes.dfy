/**
 * The in-memory task store of the Express router and its five route handlers.
 * Each handler returns the status code and JSON body the router sends.
 */
module TaskRoutes {
  import opened Decimal
  import opened Tasks

  /** The JSON bodies the handlers send. */
  datatype Body =
    | TaskList(tasks: seq<Task>)
    | OneTask(task: Task)
    | Message(message: string)
    | Error(error: string)

  datatype Response = Response(code: nat, body: Body)

  const NotFoundResponse := Response(404, Message("Task not found"))
  const MissingTitleResponse := Response(400, Error("Title is required"))
  const DeletedResponse := Response(200, Message("Task deleted"))

  /** The one task the store starts with. */
  const SeedTask := Task("1", Some("Sample Task"), Some("This is a sample task"), Some("pending"))

  /** `id` is the decimal form of a counter value the store has already handed out. */
  ghost predicate Issued(id: string, bound: nat)
  {
    exists n: nat :: 0 < n < bound && NatToDecimal(n) == id
  }

  ghost predicate AllIssued(ts: seq<Task>, bound: nat)
  {
    forall i :: 0 <= i < |ts| ==> Issued(ts[i].id, bound)
  }

  /** The id the counter produces next has never been produced before. */
  lemma CounterIdFresh(bound: nat)
    ensures !Issued(NatToDecimal(bound), bound)
  {
    forall n: nat | 0 < n < bound
      ensures NatToDecimal(n) != NatToDecimal(bound)
    {
      NatToDecimalInjective(n, bound);
    }
  }

  /** Appending a task with the counter's id keeps ids distinct and issued below the advanced counter. */
  lemma AppendKeepsIds(ts: seq<Task>, bound: nat, t: Task)
    requires UniqueIds(ts) && AllIssued(ts, bound)
    requires 0 < bound && t.id == NatToDecimal(bound)
    ensures UniqueIds(ts + [t]) && AllIssued(ts + [t], bound + 1)
    ensures !HasId(ts, t.id)
  {
    CounterIdFresh(bound);
    forall i | 0 <= i < |ts|
      ensures ts[i].id != t.id
    {
      assert Issued(ts[i].id, bound);
    }
    var ts' := ts + [t];
    forall i, j | 0 <= i < |ts'| && 0 <= j < |ts'| && i != j
      ensures ts'[i].id != ts'[j].id
    {
      if i < |ts| && j < |ts| {
        assert ts'[i] == ts[i] && ts'[j] == ts[j];
      }
    }
    forall i | 0 <= i < |ts'|
      ensures Issued(ts'[i].id, bound + 1)
    {
      if i < |ts| {
        assert Issued(ts[i].id, bound);
        var n: nat :| 0 < n < bound && NatToDecimal(n) == ts[i].id;
        assert ts'[i] == ts[i];
        assert 0 < n < bound + 1 && NatToDecimal(n) == ts'[i].id;
      } else {
        assert 0 < bound < bound + 1 && NatToDecimal(bound) == ts'[i].id;
      }
    }
  }

  class TaskStore {
    var tasks: seq<Task>
    var nextId: nat

    /** Ids are the decimal forms of counter values below `nextId`, pairwise distinct. */
    ghost predicate Valid()
      reads this
    {
      2 <= nextId && UniqueIds(tasks) && AllIssued(tasks, nextId)
    }

    constructor ()
      ensures Valid()
      ensures tasks == [SeedTask] && nextId == 2
    {
      tasks := [SeedTask];
      nextId := 2;
      assert NatToDecimal(1) == "1";
    }

    /** GET `/`: every task, in insertion order. */
    method List() returns (r: Response)
      ensures r == Response(200, TaskList(tasks))
    {
      r := Response(200, TaskList(tasks));
    }

    /** GET `/:id`: the task with that id, or 404. */
    method Get(id: string) returns (r: Response)
      ensures !HasId(tasks, id) ==> r == NotFoundResponse
      ensures HasId(tasks, id) ==> r == Response(200, OneTask(tasks[IndexOf(tasks, id)]))
    {
      var i := FindIndex(tasks, id);
      if i == -1 {
        return NotFoundResponse;
      }
      r := Response(200, OneTask(tasks[i]));
    }

    /**
     * POST `/`: a falsy title is refused with 400 and nothing changes; otherwise the
     * task gets the counter's decimal form as id, the status defaults to "pending",
     * the task is appended and the counter advances by one.
     */
    method Create(body: TaskBody) returns (r: Response)
      requires Valid()
      modifies this
      ensures Valid()
      ensures Falsy(body.title) ==>
        r == MissingTitleResponse && tasks == old(tasks) && nextId == old(nextId)
      ensures !Falsy(body.title) ==>
        var t := Task(NatToDecimal(old(nextId)), body.title, body.description,
                      if Falsy(body.status) then Some("pending") else body.status);
        && r == Response(201, OneTask(t))
        && tasks == old(tasks) + [t]
        && nextId == old(nextId) + 1
        && !Issued(t.id, old(nextId))
        && !HasId(old(tasks), t.id)
    {
      if Falsy(body.title) {
        return MissingTitleResponse;
      }
      var t := Task(NatToDecimal(nextId), body.title, body.description,
                    if Falsy(body.status) then Some("pending") else body.status);
      CounterIdFresh(nextId);
      AppendKeepsIds(tasks, nextId, t);
      nextId := nextId + 1;
      tasks := tasks + [t];
      r := Response(201, OneTask(t));
    }

    /**
     * PUT `/:id`: 404 when absent; otherwise the task at the found position keeps its id
     * and takes title, description and status from the body as they are (no title check,
     * no status default).
     */
    method Update(id: string, body: TaskBody) returns (r: Response)
      requires Valid()
      modifies this
      ensures Valid() && nextId == old(nextId)
      ensures !HasId(old(tasks), id) ==> r == NotFoundResponse && tasks == old(tasks)
      ensures HasId(old(tasks), id) ==>
        var i := IndexOf(old(tasks), id);
        var t := Task(old(tasks)[i].id, body.title, body.description, body.status);
        && t.id == id
        && r == Response(200, OneTask(t))
        && tasks == old(tasks)[i := t]
    {
      var i := FindIndex(tasks, id);
      if i == -1 {
        return NotFoundResponse;
      }
      var t := Task(tasks[i].id, body.title, body.description, body.status);
      tasks := tasks[i := t];
      r := Response(200, OneTask(t));
      assert forall k :: 0 <= k < |tasks| ==> tasks[k].id == old(tasks)[k].id;
    }

    /** DELETE `/:id`: 404 when absent; otherwise exactly that position is spliced out. */
    method Delete(id: string) returns (r: Response)
      requires Valid()
      modifies this
      ensures Valid() && nextId == old(nextId)
      ensures !HasId(old(tasks), id) ==> r == NotFoundResponse && tasks == old(tasks)
      ensures HasId(old(tasks), id) ==>
        var i := IndexOf(old(tasks), id);
        && r == DeletedResponse
        && tasks == old(tasks)[..i] + old(tasks)[i + 1..]
        && |tasks| == |old(tasks)| - 1
        && !HasId(tasks, id)
    {
      var i := FindIndex(tasks, id);
      if i == -1 {
        return NotFoundResponse;
      }
      RemoveAtKeepsUnique(tasks, i);
      RemoveAtDropsId(tasks, i);
      ghost var before := tasks;
      tasks := tasks[..i] + tasks[i + 1..];
      r := DeletedResponse;
      forall k | 0 <= k < |tasks|
        ensures Issued(tasks[k].id, nextId)
      {
        assert tasks[k] == before[if k < i then k else k + 1];
      }
    }
  }

  /**
   * The seed store driven through create, list, update, delete and the two lookups
   * that follow a delete.
   */
  method SeedScenario()
  {
    var store := new TaskStore();
    var created := store.Create(TaskBody(Some("Buy milk"), None, None));
    assert NatToDecimal(2) == "2";
    assert created == Response(201, OneTask(Task("2", Some("Buy milk"), None, Some("pending"))));
    var listed := store.List();
    assert listed.body.tasks == [SeedTask, Task("2", Some("Buy milk"), None, Some("pending"))];
    var updated := store.Update("2", TaskBody(Some("Buy oat milk"), None, Some("in-progress")));
    assert store.tasks[1].id == "2";
    assert updated == Response(200, OneTask(Task("2", Some("Buy oat milk"), None, Some("in-progress"))));
    assert store.tasks[0] == SeedTask;
    var deleted := store.Delete("1");
    assert deleted == DeletedResponse;
    var missing := store.Get("1");
    assert missing == NotFoundResponse;
    var again := store.Delete("1");
    assert again == NotFoundResponse;
    var remaining := store.List();
    assert remaining.body.tasks == [Task("2", Some("Buy oat milk"), None, Some("in-progress"))];
  }
}
