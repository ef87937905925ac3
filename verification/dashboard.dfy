/** The dashboard page's pure decisions: the session guard and logout, the
    add-task guard, the status toggle, the search-then-status filter, the
    summary counts and the empty-state choice. */
module Dashboard {
  import opened Wrappers
  import opened TaskApi
  import Text
  import Seqs
  import Storage

  // ---------------------------------------------------------------------
  // Session guard and logout

  datatype Route = Landing | Login

  function Path(r: Route): string
  {
    match r
    case Landing => "/"
    case Login => "/login"
  }

  /** The mount-time guard: `Some(Login)` is a redirect to "/login", `None`
      lets the page stay. */
  function Guard(st: Storage.Store): (r: Option<Route>)
    ensures r.Some? ==> r.value == Login && Path(r.value) == "/login"
    ensures r.Some? <==> Storage.TokenKey !in st || st[Storage.TokenKey] == ""
  {
    if Storage.Truthy(Storage.GetItem(st, Storage.TokenKey)) then None else Some(Login)
  }

  datatype LogoutEffect = LogoutEffect(store: Storage.Store, goTo: Route)

  /** `handleLogout`: drops the token, keeps every other stored item, and
      navigates to the landing page. */
  function Logout(st: Storage.Store): (r: LogoutEffect)
    ensures Storage.TokenKey !in r.store
    ensures forall k :: k != Storage.TokenKey ==> Storage.GetItem(r.store, k) == Storage.GetItem(st, k)
    ensures r.goTo == Landing && Path(r.goTo) == "/"
  {
    LogoutEffect(Storage.RemoveItem(st, Storage.TokenKey), Landing)
  }

  /** After logout the guard redirects, and no request carries a token. */
  lemma LogoutThenGuardRedirects(st: Storage.Store, headers: Headers)
    requires Authorization !in headers
    ensures Guard(Logout(st).store) == Some(Login)
    ensures Authorization !in PrepareHeaders(headers, true, Logout(st).store)
  {
  }

  /** The guard lets the page stay exactly when the task client would attach
      an `Authorization` header: both check the same truthiness of the token. */
  lemma GuardAgreesWithHeaders(st: Storage.Store)
    ensures Guard(st).None? <==> Authorization in PrepareHeaders(map[], true, st)
  {
  }

  /** Storing a non-empty token at login lets the guard pass, and the next
      list request carries `Authorization: Bearer <token>`. */
  lemma LoginThenListIsAuthorized(st: Storage.Store, token: string)
    requires token != ""
    ensures var st' := Storage.SetItem(st, Storage.TokenKey, token);
      Guard(st') == None
      && PrepareHeaders(map[], true, st')[Authorization] == "Bearer " + token
  {
  }

  // ---------------------------------------------------------------------
  // Status toggle

  /** The status a toggle asks for. */
  function Toggle(s: Status): (r: Status)
    ensures r != s
  {
    if s == Pending then Completed else Pending
  }

  /** Toggling twice gives back the original status. */
  lemma ToggleTwice(s: Status)
    ensures Toggle(Toggle(s)) == s
  {
  }

  /** `handleToggleTaskStatus`: an update of this task's id whose patch sets
      only the flipped status. */
  function ToggleRequest(t: Task): (m: Mutation)
    ensures m.UpdateTask? && m.id == t.id
    ensures m.data.status.Some? && m.data.status.value != t.status
    ensures m.data == StatusPatch(m.data.status.value)
  {
    UpdateTask(t.id, StatusPatch(Toggle(t.status)))
  }

  // ---------------------------------------------------------------------
  // Adding a task

  /** The add form: the name draft and the chosen status. */
  datatype AddForm = AddForm(draft: string, status: Status)

  const InitialForm: AddForm := AddForm("", Pending)

  /** `handleAddTask`: nothing is sent for an empty or whitespace-only draft;
      otherwise the trimmed draft is sent with the chosen status. */
  function SubmitAdd(form: AddForm): (r: Option<Mutation>)
    ensures r.None? <==> Text.AllWhitespace(form.draft)
    ensures r.Some? ==> (
      && r.value.AddTask?
      && r.value.body == NewTask(Text.Trim(form.draft), form.status)
      && r.value.body.name != []
      && !Text.IsWhitespace(r.value.body.name[0])
      && !Text.IsWhitespace(r.value.body.name[|r.value.body.name| - 1]))
  {
    Text.TrimEmptyIffBlank(form.draft);
    Text.TrimIsSlice(form.draft);
    var name := Text.Trim(form.draft);
    if name == [] then None else Some(AddTask(NewTask(name, form.status)))
  }

  /** The form once the add request settles: reset on success, kept on failure. */
  function FormAfterAdd(form: AddForm, succeeded: bool): AddForm
  {
    if succeeded then InitialForm else form
  }

  /** A failed add keeps the form, so a retry sends the same request. */
  lemma FailedAddRetries(form: AddForm)
    ensures SubmitAdd(FormAfterAdd(form, false)) == SubmitAdd(form)
  {
  }

  /** After a successful add the form is blank, so submitting again sends nothing. */
  lemma NoResubmitAfterSuccess(form: AddForm)
    ensures SubmitAdd(FormAfterAdd(form, true)) == None
  {
  }

  // ---------------------------------------------------------------------
  // Search and status filter

  /** The status filter: "all", "pending" or "completed". */
  datatype StatusFilter = All | Only(status: Status)

  /** The lower-cased name includes the lower-cased search term. */
  predicate MatchesSearch(t: Task, term: string)
  {
    Text.Includes(Text.ToLower(t.name), Text.ToLower(term))
  }

  predicate MatchesFilter(t: Task, f: StatusFilter)
  {
    f == All || t.status == f.status
  }

  /** `filteredTasks`: the search filter first, then the status filter. */
  function FilteredTasks(tasks: seq<Task>, term: string, f: StatusFilter): (r: seq<Task>)
    ensures |r| <= |tasks|
    ensures forall i :: 0 <= i < |r| ==> MatchesSearch(r[i], term) && MatchesFilter(r[i], f)
  {
    var found := Seqs.Filter(tasks, (t: Task) => MatchesSearch(t, term));
    var r := Seqs.Filter(found, (t: Task) => MatchesFilter(t, f));
    assert forall i :: 0 <= i < |r| ==> r[i] in found;
    r
  }

  /** The single-pass reading of the filter: keep a task when it meets both conditions. */
  function KeepBoth(tasks: seq<Task>, term: string, f: StatusFilter): seq<Task>
  {
    Seqs.Filter(tasks, (t: Task) => MatchesSearch(t, term) && MatchesFilter(t, f))
  }

  /** The two-stage filter is the one-pass intersection filter. */
  lemma FilteredIsIntersection(tasks: seq<Task>, term: string, f: StatusFilter)
    ensures FilteredTasks(tasks, term, f) == KeepBoth(tasks, term, f)
  {
    var p := (t: Task) => MatchesSearch(t, term);
    var q := (t: Task) => MatchesFilter(t, f);
    Seqs.FilterFusion(tasks, p, q, (t: Task) => MatchesSearch(t, term) && MatchesFilter(t, f));
  }

  /** The result is an order-preserving subsequence of the task list, and each
      task occurs in it as often as in the list when it meets both conditions and
      not at all otherwise: nothing is invented, duplicated or wrongly dropped. */
  lemma FilteredIsExactSubsequence(tasks: seq<Task>, term: string, f: StatusFilter, x: Task)
    ensures Seqs.IsSubsequence(FilteredTasks(tasks, term, f), tasks)
    ensures multiset(FilteredTasks(tasks, term, f))[x]
         == if MatchesSearch(x, term) && MatchesFilter(x, f) then multiset(tasks)[x] else 0
  {
    FilteredIsIntersection(tasks, term, f);
    var both := (t: Task) => MatchesSearch(t, term) && MatchesFilter(t, f);
    Seqs.FilterIsSubsequence(tasks, both);
    Seqs.FilterCounts(tasks, both, x);
  }

  /** An empty search term matches every task. */
  lemma EmptyTermMatches(t: Task)
    ensures MatchesSearch(t, "")
  {
    Text.IncludesEmpty(Text.ToLower(t.name));
  }

  /** With an empty search term the result is just the status filter, and with
      the "all" filter as well it is the whole list. */
  lemma EmptyTermKeepsAll(tasks: seq<Task>, f: StatusFilter)
    ensures FilteredTasks(tasks, "", f) == Seqs.Filter(tasks, (t: Task) => MatchesFilter(t, f))
    ensures FilteredTasks(tasks, "", All) == tasks
  {
    forall t: Task { EmptyTermMatches(t); }
    var p := (t: Task) => MatchesSearch(t, "");
    Seqs.FilterAll(tasks, p);
    var q := (t: Task) => MatchesFilter(t, All);
    Seqs.FilterAll(tasks, q);
  }

  // ---------------------------------------------------------------------
  // Summary counts

  datatype Stats = Stats(total: nat, pending: nat, completed: nat)

  function HasStatus(s: Status): Task -> bool
  {
    (t: Task) => t.status == s
  }

  /** `stats`: the number of tasks, of pending tasks and of completed tasks. */
  function ComputeStats(tasks: seq<Task>): (st: Stats)
    ensures st.total == |tasks|
    ensures st.pending <= st.total && st.completed <= st.total
  {
    Stats(|tasks|, |Seqs.Filter(tasks, HasStatus(Pending))|, |Seqs.Filter(tasks, HasStatus(Completed))|)
  }

  /** Status is two-valued, so the pending and completed counts add up to the total. */
  lemma StatsAddUp(tasks: seq<Task>)
    ensures ComputeStats(tasks).pending + ComputeStats(tasks).completed == ComputeStats(tasks).total
  {
    Seqs.FilterSplit(tasks, HasStatus(Pending), HasStatus(Completed));
  }

  /** Each count is what the list shows when only that status is selected and
      the search box is empty. */
  lemma StatsMatchFilter(tasks: seq<Task>)
    ensures ComputeStats(tasks).pending == |FilteredTasks(tasks, "", Only(Pending))|
    ensures ComputeStats(tasks).completed == |FilteredTasks(tasks, "", Only(Completed))|
  {
    EmptyTermKeepsAll(tasks, Only(Pending));
    EmptyTermKeepsAll(tasks, Only(Completed));
    Seqs.FilterCongruent(tasks, (t: Task) => MatchesFilter(t, Only(Pending)), HasStatus(Pending));
    Seqs.FilterCongruent(tasks, (t: Task) => MatchesFilter(t, Only(Completed)), HasStatus(Completed));
  }

  // ---------------------------------------------------------------------
  // The task list area

  datatype ListView =
    | Loading
    | LoadFailed
    | NoMatchingTasks
    | NoTasksYet
    | Listing(shown: seq<Task>)

  /** What the task list area shows: loading first, then the load error, then
      one of the two empty states, otherwise the filtered tasks. "No matching
      tasks" needs an active search term or status filter; "No tasks yet"
      appears only when the list itself is empty. */
  function View(isLoading: bool, isError: bool, tasks: seq<Task>, term: string, f: StatusFilter): (v: ListView)
    ensures v == Loading <==> isLoading
    ensures v == LoadFailed <==> !isLoading && isError
    ensures v == NoMatchingTasks <==> (!isLoading && !isError
      && FilteredTasks(tasks, term, f) == [] && (term != "" || f != All))
    ensures v == NoTasksYet ==> tasks == []
    ensures v.Listing? ==> v.shown == FilteredTasks(tasks, term, f) && v.shown != []
  {
    var shown := FilteredTasks(tasks, term, f);
    if isLoading then Loading
    else if isError then LoadFailed
    else if shown == [] then
      if term != "" || f != All then NoMatchingTasks
      else EmptyTermKeepsAll(tasks, f); NoTasksYet
    else Listing(shown)
  }

  const NoMatchingHeading: string := "No matching tasks"
  const NoMatchingHint: string := "Try adjusting your search or filter."
  const NoTasksHeading: string := "No tasks yet — let's get productive!"
  const NoTasksHint: string := "Add your first task above to start organizing your day."

  /** The heading and hint of the two empty states. */
  function EmptyStateText(v: ListView): (r: Option<(string, string)>)
    ensures r.Some? <==> v == NoMatchingTasks || v == NoTasksYet
  {
    match v
    case NoMatchingTasks => Some((NoMatchingHeading, NoMatchingHint))
    case NoTasksYet => Some((NoTasksHeading, NoTasksHint))
    case _ => None
  }

  /** The empty-state heading shown for a given page state: "No matching
      tasks" exactly when nothing passes the filters and a search term or a
      status filter is active; "No tasks yet" exactly when, with neither
      active, the task list itself is empty. */
  lemma EmptyStateHeading(isLoading: bool, isError: bool, tasks: seq<Task>, term: string, f: StatusFilter)
    ensures var txt := EmptyStateText(View(isLoading, isError, tasks, term, f));
      (txt.Some? && txt.value.0 == NoMatchingHeading)
        <==> (!isLoading && !isError && FilteredTasks(tasks, term, f) == [] && (term != "" || f != All))
    ensures var txt := EmptyStateText(View(isLoading, isError, tasks, term, f));
      (txt.Some? && txt.value.0 == NoTasksHeading)
        <==> (!isLoading && !isError && tasks == [] && term == "" && f == All)
    ensures var txt := EmptyStateText(View(isLoading, isError, tasks, term, f));
      txt.Some? ==> ((txt.value.1 == NoMatchingHint <==> txt.value.0 == NoMatchingHeading)
        && (txt.value.1 == NoTasksHint <==> txt.value.0 == NoTasksHeading))
  {
    assert NoMatchingHint != NoTasksHint by {
      assert |NoMatchingHint| != |NoTasksHint|;
    }
    assert NoMatchingHeading != NoTasksHeading by {
      assert NoMatchingHeading[3] != NoTasksHeading[3];
    }
    EmptyTermKeepsAll(tasks, All);
  }

  // ---------------------------------------------------------------------
  // Deleting a task

  /** `i` is the position of the first task with this id. */
  predicate IsFirstWithId(tasks: seq<Task>, id: string, i: int)
  {
    0 <= i < |tasks| && tasks[i].id == id && forall j :: 0 <= j < i ==> tasks[j].id != id
  }

  /** The position of the first task with this id. */
  function FirstIndexOf(tasks: seq<Task>, id: string): (r: Option<nat>)
    ensures r.None? <==> forall i :: 0 <= i < |tasks| ==> tasks[i].id != id
    ensures r.Some? ==> IsFirstWithId(tasks, id, r.value)
  {
    if tasks == [] then None
    else if tasks[0].id == id then Some(0)
    else
      match FirstIndexOf(tasks[1..], id)
      case None => None
      case Some(k) => Some(k + 1)
  }

  /** `tasks.find(task => task._id === id)`: the first task with this id. */
  function FindById(tasks: seq<Task>, id: string): (r: Option<Task>)
    ensures r.None? <==> forall i :: 0 <= i < |tasks| ==> tasks[i].id != id
    ensures r.Some? ==> exists i :: IsFirstWithId(tasks, id, i) && tasks[i] == r.value
  {
    match FirstIndexOf(tasks, id)
    case None => None
    case Some(i) => Some(tasks[i])
  }

  /** `handleDeleteTask`: the name for the confirmation is captured from the
      list before the delete is sent, and the delete addresses this id. */
  function DeleteAction(tasks: seq<Task>, id: string): (r: (Mutation, Option<string>))
    ensures r.0 == DeleteTask(id)
    ensures r.1.Some? <==> exists i :: 0 <= i < |tasks| && tasks[i].id == id
    ensures r.1.Some? ==> exists i :: IsFirstWithId(tasks, id, i) && r.1.value == tasks[i].name
  {
    var found := FindById(tasks, id);
    (DeleteTask(id), if found.Some? then Some(found.value.name) else None)
  }
}
