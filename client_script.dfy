/**
 * The list logic of the browser client: form validation, the status filter, the
 * statistics, the status badge, and the local cache of tasks that mirrors the server.
 */
module ClientScript {
  import opened Tasks

  const MaxTitleLength := 100
  const MaxDescriptionLength := 500

  // ---------------------------------------------------------------- trimming

  /** The white-space characters `String.prototype.trim` strips (an approximation). */
  predicate IsSpace(c: char)
  {
    c == ' ' || c == '\t' || c == '\n' || c == '\r' || c == '\U{B}' || c == '\U{C}'
    || c == '\U{A0}' || c == '\U{FEFF}' || c == '\U{2028}' || c == '\U{2029}'
  }

  predicate AllSpace(s: string)
  {
    forall i :: 0 <= i < |s| ==> IsSpace(s[i])
  }

  function TrimStart(s: string): (r: string)
    ensures |r| <= |s| && r == s[|s| - |r|..]
    ensures forall i :: 0 <= i < |s| - |r| ==> IsSpace(s[i])
    ensures r != [] ==> !IsSpace(r[0])
    ensures r == [] <==> AllSpace(s)
  {
    if s != [] && IsSpace(s[0]) then TrimStart(s[1..]) else s
  }

  function TrimEnd(s: string): (r: string)
    ensures |r| <= |s| && r == s[..|r|]
    ensures forall i :: |r| <= i < |s| ==> IsSpace(s[i])
    ensures r != [] ==> !IsSpace(r[|r| - 1])
    ensures r == [] <==> AllSpace(s)
  {
    if s != [] && IsSpace(s[|s| - 1]) then TrimEnd(s[..|s| - 1]) else s
  }

  /** `s.trim()`: the longest slice of `s` that neither starts nor ends with white space. */
  function Trim(s: string): (r: string)
    ensures |r| <= |s|
    ensures r != [] ==> !IsSpace(r[0]) && !IsSpace(r[|r| - 1])
    ensures r == [] <==> AllSpace(s)
    ensures exists a, b :: 0 <= a <= b <= |s| && r == s[a..b] && AllSpace(s[..a]) && AllSpace(s[b..])
  {
    var u := TrimStart(s);
    var r := TrimEnd(u);
    var a := |s| - |u|;
    var b := a + |r|;
    assert u == s[a..] && r == s[a..b];
    assert forall j :: b <= j < |s| ==> s[j] == u[j - a];
    assert AllSpace(s[..a]) && AllSpace(s[b..]);
    if r == [] then r
    else
      assert r[0] == u[0];
      r
  }

  /** Trimming what has no white space at either end changes nothing. */
  lemma TrimUnchanged(s: string)
    requires s != [] && !IsSpace(s[0]) && !IsSpace(s[|s| - 1])
    ensures Trim(s) == s
  {
  }

  lemma TrimIdempotent(s: string)
    ensures Trim(Trim(s)) == Trim(s)
  {
    if Trim(s) != [] {
      TrimUnchanged(Trim(s));
    }
  }

  // ---------------------------------------------------------------- form validation

  /** How `addTask` disposes of the form, in the order it checks. */
  datatype AddCheck =
    | TitleRequired
    | TitleTooLong
    | DescriptionTooLong
    | AddAccepted(title: string, description: string)
  {
    /** The message shown for a refused form. */
    function Rejection(): string
      requires !AddAccepted?
    {
      match this
      case TitleRequired => "Task title is required"
      case TitleTooLong => "Title must be less than 100 characters"
      case DescriptionTooLong => "Description must be less than 500 characters"
    }
  }

  function CheckAddForm(titleInput: string, descriptionInput: string): (r: AddCheck)
    ensures r == TitleRequired <==> AllSpace(titleInput)
    ensures r == TitleTooLong <==> !AllSpace(titleInput) && |Trim(titleInput)| > MaxTitleLength
    ensures r == DescriptionTooLong <==>
      !AllSpace(titleInput) && |Trim(titleInput)| <= MaxTitleLength
      && |Trim(descriptionInput)| > MaxDescriptionLength
    ensures r.AddAccepted? ==>
      && r.title == Trim(titleInput) && r.description == Trim(descriptionInput)
      && 0 < |r.title| <= MaxTitleLength && |r.description| <= MaxDescriptionLength
  {
    var title := Trim(titleInput);
    var description := Trim(descriptionInput);
    if title == "" then TitleRequired
    else if |title| > MaxTitleLength then TitleTooLong
    else if |description| > MaxDescriptionLength then DescriptionTooLong
    else AddAccepted(title, description)
  }

  /** How `updateTask` disposes of the form: only a blank title is refused. */
  datatype UpdateCheck =
    | UpdateTitleRequired
    | UpdateAccepted(title: string, description: string)

  function CheckUpdateForm(titleInput: string, descriptionInput: string): (r: UpdateCheck)
    ensures r == UpdateTitleRequired <==> AllSpace(titleInput)
    ensures r.UpdateAccepted? ==>
      r.title == Trim(titleInput) && r.title != "" && r.description == Trim(descriptionInput)
  {
    var title := Trim(titleInput);
    var description := Trim(descriptionInput);
    if title == "" then UpdateTitleRequired else UpdateAccepted(title, description)
  }

  /** Every form `addTask` accepts, `updateTask` accepts with the same trimmed values. */
  lemma AddAcceptedIsUpdateAccepted(titleInput: string, descriptionInput: string)
    ensures CheckAddForm(titleInput, descriptionInput).AddAccepted? ==>
      CheckUpdateForm(titleInput, descriptionInput)
        == UpdateAccepted(CheckAddForm(titleInput, descriptionInput).title,
                          CheckAddForm(titleInput, descriptionInput).description)
  {
  }

  /** Update applies no length limit: a long title `addTask` refuses passes `updateTask`. */
  lemma UpdateHasNoLengthLimit(titleInput: string, descriptionInput: string)
    requires |titleInput| > MaxTitleLength
    requires !IsSpace(titleInput[0]) && !IsSpace(titleInput[|titleInput| - 1])
    ensures CheckAddForm(titleInput, descriptionInput) == TitleTooLong
    ensures CheckUpdateForm(titleInput, descriptionInput) == UpdateAccepted(titleInput, Trim(descriptionInput))
  {
    TrimUnchanged(titleInput);
  }

  // ---------------------------------------------------------------- filtering

  /** `a` is `b` with some elements left out, the rest in their order. */
  predicate IsSubsequence<T(==)>(a: seq<T>, b: seq<T>)
    decreases |b|
  {
    a == [] || (b != [] && ((a[0] == b[0] && IsSubsequence(a[1..], b[1..])) || IsSubsequence(a, b[1..])))
  }

  /** `Array.prototype.filter` over tasks. */
  function Filter(ts: seq<Task>, keep: Task -> bool): (r: seq<Task>)
    ensures |r| <= |ts|
    ensures forall k :: 0 <= k < |r| ==> keep(r[k])
  {
    if ts == [] then []
    else if keep(ts[0]) then [ts[0]] + Filter(ts[1..], keep)
    else Filter(ts[1..], keep)
  }

  /** A task is kept exactly when it is in the input and passes the test. */
  lemma {:induction false} FilterMembers(ts: seq<Task>, keep: Task -> bool, t: Task)
    ensures t in Filter(ts, keep) <==> t in ts && keep(t)
  {
    if ts != [] {
      FilterMembers(ts[1..], keep, t);
      assert ts == [ts[0]] + ts[1..];
    }
  }

  /** The kept tasks stay in their relative order. */
  lemma {:induction false} FilterIsSubsequence(ts: seq<Task>, keep: Task -> bool)
    ensures IsSubsequence(Filter(ts, keep), ts)
  {
    if ts != [] {
      FilterIsSubsequence(ts[1..], keep);
      var r := Filter(ts[1..], keep);
      if keep(ts[0]) {
        assert ([ts[0]] + r)[1..] == r;
      }
    }
  }

  lemma {:induction false} FilterKeepsAll(ts: seq<Task>, keep: Task -> bool)
    requires forall k :: 0 <= k < |ts| ==> keep(ts[k])
    ensures Filter(ts, keep) == ts
  {
    if ts != [] {
      FilterKeepsAll(ts[1..], keep);
    }
  }

  lemma {:induction false} FilterSamePredicate(ts: seq<Task>, p: Task -> bool, q: Task -> bool)
    requires forall t :: p(t) == q(t)
    ensures Filter(ts, p) == Filter(ts, q)
  {
    if ts != [] {
      FilterSamePredicate(ts[1..], p, q);
    }
  }

  lemma {:induction false} FilterConcat(a: seq<Task>, b: seq<Task>, keep: Task -> bool)
    ensures Filter(a + b, keep) == Filter(a, keep) + Filter(b, keep)
  {
    if a == [] {
      assert a + b == b;
    } else {
      var ab := a + b;
      assert ab[0] == a[0] && ab[1..] == a[1..] + b;
      FilterConcat(a[1..], b, keep);
      var rest := Filter(a[1..], keep) + Filter(b, keep);
      if keep(a[0]) {
        calc {
          Filter(ab, keep);
          [a[0]] + Filter(a[1..] + b, keep);
          [a[0]] + rest;
          ([a[0]] + Filter(a[1..], keep)) + Filter(b, keep);
        }
      } else {
        assert Filter(ab, keep) == Filter(a[1..] + b, keep);
      }
    }
  }

  /** Filtering out exactly one position is splicing that position out. */
  lemma {:induction false} FilterDropsOne(ts: seq<Task>, keep: Task -> bool, i: nat)
    requires i < |ts| && !keep(ts[i])
    requires forall k :: 0 <= k < |ts| && k != i ==> keep(ts[k])
    ensures Filter(ts, keep) == ts[..i] + ts[i + 1..]
  {
    var tail := ts[1..];
    assert forall k :: 0 <= k < |tail| ==> tail[k] == ts[k + 1];
    if i == 0 {
      FilterKeepsAll(tail, keep);
      assert Filter(ts, keep) == Filter(tail, keep);
      assert ts[..0] + ts[1..] == tail;
    } else {
      FilterDropsOne(tail, keep, i - 1);
      assert Filter(ts, keep) == [ts[0]] + Filter(tail, keep);
      assert tail[..i - 1] + tail[i..] == ts[1..i] + ts[i + 1..];
      assert ts[..i] + ts[i + 1..] == [ts[0]] + (ts[1..i] + ts[i + 1..]);
    }
  }

  /** The per-task test in `displayTasks`. */
  predicate Shown(filter: string, t: Task)
  {
    filter == "all" || t.status == Some(filter)
  }

  /** The tasks `displayTasks` renders under `filter`. */
  function Visible(ts: seq<Task>, filter: string): (r: seq<Task>)
    ensures IsSubsequence(r, ts)
    ensures filter != "all" ==> forall t :: t in r <==> t in ts && t.status == Some(filter)
  {
    var keep := t => Shown(filter, t);
    FilterIsSubsequence(ts, keep);
    forall t ensures t in Filter(ts, keep) <==> t in ts && keep(t) {
      FilterMembers(ts, keep, t);
    }
    Filter(ts, keep)
  }

  /** The "all" filter shows every task in order. */
  lemma VisibleAll(ts: seq<Task>)
    ensures Visible(ts, "all") == ts
  {
    FilterKeepsAll(ts, t => Shown("all", t));
  }

  /** The local cache after a successful delete: every task with that id dropped. */
  function WithoutId(ts: seq<Task>, id: string): (r: seq<Task>)
    ensures !HasId(r, id)
    ensures forall t :: t in r <==> t in ts && t.id != id
    ensures IsSubsequence(r, ts)
  {
    var keep := (t: Task) => t.id != id;
    FilterIsSubsequence(ts, keep);
    forall t ensures t in Filter(ts, keep) <==> t in ts && keep(t) {
      FilterMembers(ts, keep, t);
    }
    Filter(ts, keep)
  }

  /** With distinct ids, dropping by id is the server's splice at the found position. */
  lemma WithoutIdIsSplice(ts: seq<Task>, id: string)
    requires UniqueIds(ts)
    ensures !HasId(ts, id) ==> WithoutId(ts, id) == ts
    ensures HasId(ts, id) ==>
      var i := IndexOf(ts, id);
      WithoutId(ts, id) == ts[..i] + ts[i + 1..]
  {
    if HasId(ts, id) {
      FilterDropsOne(ts, (t: Task) => t.id != id, IndexOf(ts, id));
    } else {
      FilterKeepsAll(ts, (t: Task) => t.id != id);
    }
  }

  /** The local cache after a successful update: the first task with that id replaced. */
  function ReplaceFirst(ts: seq<Task>, id: string, t: Task): (r: seq<Task>)
    ensures |r| == |ts|
    ensures !HasId(ts, id) ==> r == ts
    ensures HasId(ts, id) ==>
      r[IndexOf(ts, id)] == t
      && forall k :: 0 <= k < |ts| && k != IndexOf(ts, id) ==> r[k] == ts[k]
  {
    var i := IndexOf(ts, id);
    if i < 0 then ts else ts[i := t]
  }

  // ---------------------------------------------------------------- statistics

  datatype Stats = Stats(total: nat, completed: nat)

  /** The two counters `updateStats` writes. */
  function StatsOf(ts: seq<Task>): (r: Stats)
    ensures r.total == |ts|
    ensures r.completed <= r.total
    ensures r.completed == 0 <==> forall t :: t in ts ==> t.status != Some("completed")
  {
    var keep := (t: Task) => t.status == Some("completed");
    var done := Filter(ts, keep);
    if done == [] then
      forall t | t in ts ensures !keep(t) {
        FilterMembers(ts, keep, t);
      }
      Stats(|ts|, |done|)
    else
      FilterMembers(ts, keep, done[0]);
      Stats(|ts|, |done|)
  }

  /** The completed counter counts tasks one by one: no tasks, none completed; each completed task adds one. */
  lemma StatsAppend(ts: seq<Task>, t: Task)
    ensures StatsOf([]) == Stats(0, 0)
    ensures StatsOf(ts + [t]).completed == StatsOf(ts).completed + (if t.status == Some("completed") then 1 else 0)
  {
    FilterConcat(ts, [t], (t: Task) => t.status == Some("completed"));
  }

  /** The completed counter agrees with what the "completed" filter shows. */
  lemma CompletedCountIsCompletedView(ts: seq<Task>)
    ensures StatsOf(ts).completed == |Visible(ts, "completed")|
  {
    FilterSamePredicate(ts, (t: Task) => t.status == Some("completed"), t => Shown("completed", t));
  }

  // ---------------------------------------------------------------- status badge

  const PendingBadge := "<span class=\"status-badge pending\">\U{1F535} Pending</span>"
  const InProgressBadge := "<span class=\"status-badge in-progress\">\U{1F7E1} In Progress</span>"
  const CompletedBadge := "<span class=\"status-badge completed\">\U{1F7E2} Completed</span>"

  /** `getStatusBadge` as evidently intended: the three known statuses, else the pending badge. */
  function StatusBadge(status: Option<string>): (r: string)
    ensures status == Some("in-progress") ==> r == InProgressBadge
    ensures status == Some("completed") ==> r == CompletedBadge
    ensures status != Some("in-progress") && status != Some("completed") ==> r == PendingBadge
  {
    match status
    case Some("in-progress") => InProgressBadge
    case Some("completed") => CompletedBadge
    case _ => PendingBadge
  }

  /** Property names an object literal inherits from `Object.prototype`. */
  const ObjectPrototypeMembers: set<string> := {
    "constructor", "hasOwnProperty", "isPrototypeOf", "propertyIsEnumerable",
    "toLocaleString", "toString", "valueOf", "__proto__",
    "__defineGetter__", "__defineSetter__", "__lookupGetter__", "__lookupSetter__"
  }

  /** What `badges[status]` can yield: one of the literal's strings or an inherited member. */
  datatype BadgeValue = Markup(html: string) | Inherited(member: string)

  /** The property key a status turns into; `undefined` and `null` become their names. */
  function PropertyKey(status: Option<string>): string
  {
    match status
    case None => "undefined"
    case Some(s) => s
  }

  /** Property lookup on the `badges` literal: own properties, then the prototype. */
  function BadgeLookup(key: string): Option<BadgeValue>
  {
    if key == "pending" then Some(Markup(PendingBadge))
    else if key == "in-progress" then Some(Markup(InProgressBadge))
    else if key == "completed" then Some(Markup(CompletedBadge))
    else if key in ObjectPrototypeMembers then Some(Inherited(key))
    else None
  }

  /** `badges[status] || badges['pending']` as written: every value found is truthy. */
  function StatusBadgeAsWritten(status: Option<string>): (r: BadgeValue)
    ensures r.Inherited? <==> PropertyKey(status) in ObjectPrototypeMembers
  {
    match BadgeLookup(PropertyKey(status))
    case Some(v) => v
    case None => Markup(PendingBadge)
  }

  /** Away from the inherited names the code does what was intended. */
  lemma StatusBadgeAsWrittenAgrees(status: Option<string>)
    requires PropertyKey(status) !in ObjectPrototypeMembers
    ensures StatusBadgeAsWritten(status) == Markup(StatusBadge(status))
  {
  }

  /** A task whose status is "toString" gets a function, not the pending badge. */
  lemma StatusBadgeInheritedMember()
    ensures StatusBadgeAsWritten(Some("toString")) == Inherited("toString")
    ensures StatusBadge(Some("toString")) == PendingBadge
  {
  }

  // ---------------------------------------------------------------- client state

  /**
   * The client's module-level `tasks` cache and `currentFilter`. A server reply is a
   * parameter: `Some(task)` when the response was ok, `None` when it was not or the
   * request failed.
   */
  class ClientState {
    var tasks: seq<Task>
    var currentFilter: string

    constructor ()
      ensures tasks == [] && currentFilter == "all"
    {
      tasks := [];
      currentFilter := "all";
    }

    /** `loadTasks`: the cache becomes the list the server sent. */
    method LoadTasks(data: seq<Task>)
      modifies this
      ensures tasks == data && currentFilter == old(currentFilter)
    {
      tasks := data;
    }

    /** `setActiveFilter`. */
    method SetActiveFilter(filter: string)
      modifies this
      ensures currentFilter == filter && tasks == old(tasks)
    {
      currentFilter := filter;
    }

    /** The tasks on screen. */
    function Displayed(): (r: seq<Task>)
      reads this
      ensures currentFilter == "all" ==> r == tasks
      ensures currentFilter != "all" ==> forall t :: t in r <==> t in tasks && t.status == Some(currentFilter)
      ensures IsSubsequence(r, tasks)
    {
      if currentFilter == "all" then VisibleAll(tasks); Visible(tasks, currentFilter)
      else Visible(tasks, currentFilter)
    }

    /**
     * `addTask`: a refused form sends nothing and changes nothing; an accepted one sends
     * the trimmed fields and appends the server's task when the reply is ok.
     */
    method AddTask(titleInput: string, descriptionInput: string, statusInput: string, reply: Option<Task>)
      returns (request: Option<TaskBody>)
      modifies this
      ensures currentFilter == old(currentFilter)
      ensures !CheckAddForm(titleInput, descriptionInput).AddAccepted? ==>
        request == None && tasks == old(tasks)
      ensures CheckAddForm(titleInput, descriptionInput).AddAccepted? ==>
        var check := CheckAddForm(titleInput, descriptionInput);
        && request == Some(TaskBody(Some(check.title), Some(check.description), Some(statusInput)))
        && tasks == if reply.Some? then old(tasks) + [reply.value] else old(tasks)
    {
      var check := CheckAddForm(titleInput, descriptionInput);
      if !check.AddAccepted? {
        return None;
      }
      request := Some(TaskBody(Some(check.title), Some(check.description), Some(statusInput)));
      if reply.Some? {
        tasks := tasks + [reply.value];
      }
    }

    /**
     * `deleteTask`: nothing is sent unless confirmed; after an ok reply every cached
     * task with that id is dropped.
     */
    method DeleteTask(id: string, confirmed: bool, replyOk: bool) returns (requested: bool)
      modifies this
      ensures requested == confirmed && currentFilter == old(currentFilter)
      ensures tasks == if confirmed && replyOk then WithoutId(old(tasks), id) else old(tasks)
    {
      if !confirmed {
        return false;
      }
      requested := true;
      if replyOk {
        tasks := WithoutId(tasks, id);
      }
    }

    /** `editTask`: the first cached task with that id, which fills the form. */
    method EditTask(id: string) returns (found: Option<Task>)
      ensures !HasId(tasks, id) ==> found == None
      ensures HasId(tasks, id) ==> found == Some(tasks[IndexOf(tasks, id)])
    {
      var i := FindIndex(tasks, id);
      if i == -1 {
        return None;
      }
      found := Some(tasks[i]);
    }

    /**
     * `updateTask`: a blank title sends nothing; otherwise the trimmed fields are sent
     * and an ok reply replaces the first cached task with that id.
     */
    method UpdateTask(id: string, titleInput: string, descriptionInput: string, statusInput: string,
                      reply: Option<Task>)
      returns (request: Option<TaskBody>)
      modifies this
      ensures currentFilter == old(currentFilter)
      ensures CheckUpdateForm(titleInput, descriptionInput).UpdateTitleRequired? ==>
        request == None && tasks == old(tasks)
      ensures CheckUpdateForm(titleInput, descriptionInput).UpdateAccepted? ==>
        var check := CheckUpdateForm(titleInput, descriptionInput);
        && request == Some(TaskBody(Some(check.title), Some(check.description), Some(statusInput)))
        && tasks == if reply.Some? then ReplaceFirst(old(tasks), id, reply.value) else old(tasks)
    {
      var check := CheckUpdateForm(titleInput, descriptionInput);
      if check.UpdateTitleRequired? {
        return None;
      }
      request := Some(TaskBody(Some(check.title), Some(check.description), Some(statusInput)));
      if reply.Some? {
        ReplaceCached(id, reply.value);
      }
    }

    /**
     * The cache edit after an ok update: `findIndex`, then assignment at that index. When
     * nothing matches, `tasks[-1] = ...` writes a non-index property and the list is unchanged.
     */
    method ReplaceCached(id: string, updated: Task)
      modifies this
      ensures currentFilter == old(currentFilter)
      ensures tasks == ReplaceFirst(old(tasks), id, updated)
    {
      var i := FindIndex(tasks, id);
      if i != -1 {
        tasks := tasks[i := updated];
      }
    }
  }
}
