/** The task record shared by the server store and the browser client, and lookups by id. */
module Tasks {

  datatype Option<T> = None | Some(value: T)

  /**
   * A task as the store keeps it and as it travels as JSON. `None` is a field that is
   * `undefined` (absent from the request body, or dropped when serialised).
   */
  datatype Task = Task(id: string, title: Option<string>, description: Option<string>, status: Option<string>)

  /** The `{title, description, status}` fields destructured from a request body. */
  datatype TaskBody = TaskBody(title: Option<string>, description: Option<string>, status: Option<string>)

  /** JavaScript falsiness of a string-valued field: absent, null or the empty string. */
  predicate Falsy(v: Option<string>)
  {
    v == None || v == Some("")
  }

  predicate HasId(ts: seq<Task>, id: string)
  {
    exists k :: 0 <= k < |ts| && ts[k].id == id
  }

  /** No two positions of the sequence hold the same id. */
  predicate UniqueIds(ts: seq<Task>)
  {
    forall i, j :: 0 <= i < |ts| && 0 <= j < |ts| && i != j ==> ts[i].id != ts[j].id
  }

  /** What `Array.prototype.findIndex(t => t._id === id)` answers: the first match, or -1. */
  function IndexOf(ts: seq<Task>, id: string): (r: int)
    ensures -1 <= r < |ts|
    ensures r == -1 <==> !HasId(ts, id)
    ensures 0 <= r ==> ts[r].id == id && forall k :: 0 <= k < r ==> ts[k].id != id
  {
    if |ts| == 0 then -1
    else if ts[0].id == id then 0
    else
      var j := IndexOf(ts[1..], id);
      if j == -1 then -1 else j + 1
  }

  /** The linear scan behind `findIndex` and `find`. */
  method FindIndex(ts: seq<Task>, id: string) returns (i: int)
    ensures i == IndexOf(ts, id)
  {
    i := 0;
    while i < |ts|
      invariant 0 <= i <= |ts|
      invariant forall k :: 0 <= k < i ==> ts[k].id != id
    {
      if ts[i].id == id {
        return;
      }
      i := i + 1;
    }
    i := -1;
  }

  /** Removing one position keeps the remaining ids distinct. */
  lemma RemoveAtKeepsUnique(ts: seq<Task>, i: nat)
    requires i < |ts| && UniqueIds(ts)
    ensures UniqueIds(ts[..i] + ts[i + 1..])
  {
    var rest := ts[..i] + ts[i + 1..];
    forall a, b | 0 <= a < |rest| && 0 <= b < |rest| && a != b
      ensures rest[a].id != rest[b].id
    {
      var a', b' := if a < i then a else a + 1, if b < i then b else b + 1;
      assert rest[a] == ts[a'] && rest[b] == ts[b'];
    }
  }

  /** With distinct ids, removing the position that holds `ts[i].id` removes that id entirely. */
  lemma RemoveAtDropsId(ts: seq<Task>, i: nat)
    requires i < |ts| && UniqueIds(ts)
    ensures !HasId(ts[..i] + ts[i + 1..], ts[i].id)
  {
    var rest := ts[..i] + ts[i + 1..];
    forall k | 0 <= k < |rest|
      ensures rest[k].id != ts[i].id
    {
      var k' := if k < i then k else k + 1;
      assert rest[k] == ts[k'];
    }
  }
}
