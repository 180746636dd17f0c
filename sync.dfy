/**
 * One client round trip against the store: the client sends what its form check lets
 * through, the store answers, and the client edits its cache from the reply. Starting
 * from a cache equal to the store's list, the cache equals the store's list afterwards.
 */
module Sync {
  import opened Tasks
  import opened TaskRoutes
  import opened ClientScript

  /** The reply the client sees: the task in the body when the response is ok. */
  function ReplyTask(r: Response): (t: Option<Task>)
    ensures t.Some? <==> 200 <= r.code < 300 && r.body.OneTask?
  {
    if 200 <= r.code < 300 && r.body.OneTask? then Some(r.body.task) else None
  }

  /** A title the add form accepts is one the store accepts. */
  lemma AddAcceptedTitleIsTruthy(titleInput: string, descriptionInput: string)
    ensures CheckAddForm(titleInput, descriptionInput).AddAccepted? ==>
      !Falsy(Some(CheckAddForm(titleInput, descriptionInput).title))
  {
  }

  method SyncedLoad(store: TaskStore, client: ClientState)
    modifies client
    ensures client.tasks == store.tasks
  {
    var r := store.List();
    client.LoadTasks(r.body.tasks);
  }

  method SyncedAdd(store: TaskStore, client: ClientState,
                   titleInput: string, descriptionInput: string, statusInput: string)
    requires store.Valid() && client.tasks == store.tasks
    modifies store, client
    ensures store.Valid() && client.tasks == store.tasks
  {
    var check := CheckAddForm(titleInput, descriptionInput);
    var reply: Option<Task> := None;
    if check.AddAccepted? {
      ghost var before := store.tasks;
      var body := TaskBody(Some(check.title), Some(check.description), Some(statusInput));
      assert !Falsy(body.title);
      var r := store.Create(body);
      reply := ReplyTask(r);
      assert reply.Some? && store.tasks == before + [reply.value];
    }
    var request := client.AddTask(titleInput, descriptionInput, statusInput, reply);
  }

  method SyncedDelete(store: TaskStore, client: ClientState, id: string)
    requires store.Valid() && client.tasks == store.tasks
    modifies store, client
    ensures store.Valid() && client.tasks == store.tasks
    ensures !HasId(store.tasks, id)
  {
    WithoutIdIsSplice(store.tasks, id);
    var r := store.Delete(id);
    var requested := client.DeleteTask(id, true, r.code == 200);
  }

  method SyncedUpdate(store: TaskStore, client: ClientState, id: string,
                      titleInput: string, descriptionInput: string, statusInput: string)
    requires store.Valid() && client.tasks == store.tasks
    modifies store, client
    ensures store.Valid() && client.tasks == store.tasks
  {
    var reply: Option<Task> := None;
    if !AllSpace(titleInput) {
      var r := store.Update(id, TaskBody(Some(Trim(titleInput)), Some(Trim(descriptionInput)), Some(statusInput)));
      reply := ReplyTask(r);
    }
    var request := client.UpdateTask(id, titleInput, descriptionInput, statusInput, reply);
  }
}
