# Task tracker client: dashboard derivations and task-client cache tags

This project models the two pieces of statable logic in a small Next.js task
tracker that sits on top of a remote task API.

1. **The dashboard page** (`task-manager/app/dashboard/page.tsx`).
   - The session guard that redirects to `/login` when no token is stored.
   - Logout, which removes the token.
   - The add-task guard: trim the draft, and refuse an empty name.
   - The pending/completed toggle.
   - The two-stage filter: a case-insensitive substring search, then the status filter.
   - The summary counts.
   - The choice of what the task list area shows, including its two empty states.
   - The lookup of a task by id before a delete.
2. **The task client** (`task-manager/services/taskApi.ts`).
   - The `Task` record.
   - The request each of the five endpoints sends.
   - `prepareHeaders`, which attaches `Authorization: Bearer <token>` only for a truthy token.
   - The cache tags each endpoint provides or invalidates. Tags are a closed datatype
     (`TasksTag | TaskTag(id)`). The cache is a map from tag to `Fresh`/`Stale`. Each
     resolved query and each settled mutation is an explicit transition of that map.

Modules, one concept each:

| file | module | what it holds |
|---|---|---|
| wrappers.dfy | `Wrappers` | `Option`, used for `null` and for absent fields |
| text.dfy | `Text` | `trim` (ECMAScript whitespace and line terminators), ASCII `toLowerCase`, `includes` |
| seqs.dfy | `Seqs` | `Array.prototype.filter`, and subsequence, counting, fusion and split facts about it |
| storage.dfy | `Storage` | `localStorage` as a map, and JavaScript truthiness of `string \| null` |
| task_api.dfy | `TaskApi` | `Task`, requests, `getToken`/`prepareHeaders`, and the provided and invalidated tags |
| tag_cache.dfy | `TagCache` | the tag-to-freshness cache and its transitions |
| dashboard.dfy | `Dashboard` | the page's decisions and derived values |

Some effects are not modelled as effects:
- Reading `localStorage` and the `typeof window` check are parameters (`Storage.Store`, `inBrowser`).
- Navigation is a returned `Route` value.
- The outcome of an awaited request is a `bool` parameter.
- Toasts and rendering are not modelled.

## Model

| member | source | states |
|---|---|---|
| `Text.TrimIsSlice` | task-manager/app/dashboard/page.tsx:82-86 | `trim` returns a contiguous slice of its input. Only whitespace is cut, from each end, and the result neither starts nor ends with whitespace |
| `Text.TrimEmptyIffBlank` | task-manager/app/dashboard/page.tsx:82 | the trimmed draft is empty exactly when the draft is empty or whitespace only |
| `Text.TrimIdempotent` | task-manager/app/dashboard/page.tsx:86 | trimming an already trimmed name changes nothing |
| `Text.ToLower` | task-manager/app/dashboard/page.tsx:122 | lower-casing keeps the length, maps each character on its own, and leaves no upper-case ASCII letter |
| `Text.IncludesIffOccurs` | task-manager/app/dashboard/page.tsx:122 | `includes` holds exactly when the term occurs as a contiguous slice at some position |
| `Text.IncludesEmpty` | task-manager/app/dashboard/page.tsx:122 | every string includes the empty string |
| `Seqs.Filter` | task-manager/app/dashboard/page.tsx:120-130 | `filter` never lengthens the list, keeps only elements that pass, and invents nothing |
| `Seqs.FilterIsSubsequence` | task-manager/app/dashboard/page.tsx:120-124 | the filtered list is an order-preserving subsequence of the input |
| `Seqs.FilterCounts` | task-manager/app/dashboard/page.tsx:120-124 | each value occurs in the result as often as in the input when it passes, and never when it fails |
| `Seqs.FilterKeeps` | task-manager/app/dashboard/page.tsx:120-124 | an element that passes is never dropped |
| `Seqs.FilterFusion` | task-manager/app/dashboard/page.tsx:120-124 | two filters in a row equal one filter on the conjunction |
| `Seqs.FilterCongruent` | task-manager/app/dashboard/page.tsx:128-129 | filters on predicates that agree everywhere give the same list |
| `Seqs.FilterAll` | task-manager/app/dashboard/page.tsx:120-124 | a predicate every element passes drops nothing |
| `Seqs.FilterSplit` | task-manager/app/dashboard/page.tsx:128-129 | filtering on a predicate and on its negation splits the list: the two lengths add up to the whole |
| `Storage.SetItem` | task-manager/app/login/page.tsx:33 | after `setItem` the key reads back the new value, and every other key reads as before |
| `Storage.RemoveItem` | task-manager/app/dashboard/page.tsx:68 | after `removeItem` the key reads as null, and every other key reads as before |
| `TaskApi.PrepareHeaders` | task-manager/services/taskApi.ts:9-15 | a truthy token sets `Authorization` to "Bearer " + token. A null or empty token leaves the headers unchanged. Other headers are never touched |
| `TaskApi.AuthorizationCarriesToken` | task-manager/services/taskApi.ts:12 | the header value starts with "Bearer ", and removing that prefix gives back exactly the stored token |
| `TaskApi.QueryRequest` | task-manager/services/taskApi.ts:31-38 | both queries are GETs without a body; `getTasks` targets "/" and `getTaskById(id)` targets "/" + id |
| `TaskApi.MutationRequest` | task-manager/services/taskApi.ts:39-61 | add is a POST to "/" whose body is exactly the `{name, status}` pair; update and delete target "/" + id; update is a PUT carrying exactly its patch; only delete uses DELETE |
| `TaskApi.Provides` | task-manager/services/taskApi.ts:31-38 | `getTasks` provides exactly the collection tag; `getTaskById(id)` provides exactly `Task(id)` |
| `TaskApi.Invalidates` | task-manager/services/taskApi.ts:45-60 | every mutation invalidates the collection tag. A task tag is invalidated exactly for the id an update or delete addresses. Add invalidates one tag; update and delete invalidate two |
| `TaskApi.QueryPathAndTagAgree` | task-manager/services/taskApi.ts:35-37 | a query that provides `Task(id)` sends its request to "/" + id |
| `TaskApi.PathAndTagAgree` | task-manager/services/taskApi.ts:47-61 | a mutation that invalidates `Task(id)` sends its request to "/" + id |
| `TagCache.Invalidate` | task-manager/services/taskApi.ts:45-60 | invalidation keeps the set of cached tags. Listed tags become stale. Every other entry keeps its freshness |
| `TagCache.Provide` | task-manager/services/taskApi.ts:33-37 | a resolved query's tags become cached and fresh; other entries keep their freshness |
| `TagCache.FirstReadFetches` | task-manager/services/taskApi.ts:31-38 | at application start nothing is cached, so the first read of either query goes to the network |
| `TagCache.AfterQuery` | task-manager/services/taskApi.ts:31-38 | once a query resolves, reading it again is served from memory |
| `TagCache.AfterMutation` | task-manager/services/taskApi.ts:39-61 | a settled mutation adds or removes no entry, and afterwards the list read always goes to the network |
| `TagCache.AddKeepsTaskEntries` | task-manager/services/taskApi.ts:45 | an add leaves every cached `Task(id)` entry with its freshness |
| `TagCache.ByIdMutationScope` | task-manager/services/taskApi.ts:53-60 | an update or delete stales its own task's entry and leaves the entry of every other id unchanged |
| `TagCache.MutationStalesCollection` | task-manager/services/taskApi.ts:45-60 | after any mutation the cached collection entry is stale |
| `TagCache.MutationNeverFreshens` | task-manager/services/taskApi.ts:45-60 | no mutation turns a stale entry fresh |
| `TagCache.MutationIdempotent` | task-manager/services/taskApi.ts:45-60 | settling the same mutation twice gives the same cache as once |
| `TagCache.AddThenListRefetches` | task-manager/services/taskApi.ts:31-45 | a fetched list is served from memory until an add settles, then it is refetched. A fetched task entry survives the add and is still served from memory |
| `Dashboard.Guard` | task-manager/app/dashboard/page.tsx:49-54 | the guard redirects, always to "/login", exactly when the token is absent or empty |
| `Dashboard.Logout` | task-manager/app/dashboard/page.tsx:67-70 | logout removes the token, keeps every other stored item and goes to "/" |
| `Dashboard.LogoutThenGuardRedirects` | task-manager/app/dashboard/page.tsx:49-70 | after logout the guard redirects, and `prepareHeaders` adds no `Authorization` header |
| `Dashboard.GuardAgreesWithHeaders` | task-manager/app/dashboard/page.tsx:50-53 | the guard lets the page stay exactly when the task client would attach an `Authorization` header |
| `Dashboard.LoginThenListIsAuthorized` | task-manager/app/login/page.tsx:33-35 | storing a non-empty token lets the guard pass, and the next request carries "Bearer " + token |
| `Dashboard.Toggle` | task-manager/app/dashboard/page.tsx:112 | a toggle always requests the other status |
| `Dashboard.ToggleTwice` | task-manager/app/dashboard/page.tsx:112 | toggling twice gives back the original status |
| `Dashboard.ToggleRequest` | task-manager/app/dashboard/page.tsx:107-114 | the toggle sends an update of this task's id whose patch carries only a status different from the task's current one |
| `Dashboard.SubmitAdd` | task-manager/app/dashboard/page.tsx:81-88 | no request when the draft is empty or whitespace only. Otherwise an add whose name is the trimmed draft, non-empty and without surrounding whitespace, with the chosen status |
| `Dashboard.FailedAddRetries` | task-manager/app/dashboard/page.tsx:84-94 | a failed add keeps the form, so submitting again sends the same request |
| `Dashboard.NoResubmitAfterSuccess` | task-manager/app/dashboard/page.tsx:82-90 | after a successful add, submitting the reset form sends nothing |
| `Dashboard.FilteredTasks` | task-manager/app/dashboard/page.tsx:120-124 | every shown task's lower-cased name includes the lower-cased term and passes the status filter; the list is never longer than the input |
| `Dashboard.FilteredIsIntersection` | task-manager/app/dashboard/page.tsx:120-124 | search-then-status equals one pass keeping the tasks that pass both conditions |
| `Dashboard.FilteredIsExactSubsequence` | task-manager/app/dashboard/page.tsx:120-124 | the shown list is an order-preserving subsequence of the tasks. Each task appears as often as in the list when it passes both conditions, and never otherwise |
| `Dashboard.EmptyTermMatches` | task-manager/app/dashboard/page.tsx:121-123 | an empty search term matches every task |
| `Dashboard.EmptyTermKeepsAll` | task-manager/app/dashboard/page.tsx:121-124 | with an empty term only the status filter acts; with "all" as well, every task is shown |
| `Dashboard.ComputeStats` | task-manager/app/dashboard/page.tsx:126-130 | the total is the number of tasks, and neither status count exceeds it |
| `Dashboard.StatsAddUp` | task-manager/app/dashboard/page.tsx:126-130 | pending + completed == total, because status is two-valued |
| `Dashboard.StatsMatchFilter` | task-manager/app/dashboard/page.tsx:124-129 | each status count equals the length of the list shown for that status filter with an empty search |
| `Dashboard.View` | task-manager/app/dashboard/page.tsx:310-341 | loading comes first, then the load error. "No matching tasks" is shown exactly when the filtered list is empty and a term or a status filter is active. "No tasks yet" is shown only when there are no tasks at all. Otherwise the non-empty filtered list is shown |
| `Dashboard.EmptyStateText` | task-manager/app/dashboard/page.tsx:328-337 | only the two empty states have a heading and hint |
| `Dashboard.EmptyStateHeading` | task-manager/app/dashboard/page.tsx:322-331 | the heading is "No matching tasks" exactly when nothing passes the filters and a term or a status filter is active; it is "No tasks yet — let's get productive!" exactly when neither is active and there are no tasks at all. Each heading comes with its own hint, under the same condition |
| `Dashboard.FirstIndexOf` | task-manager/app/dashboard/page.tsx:99 | yields no position exactly when no task has the id; otherwise the first position holding that id |
| `Dashboard.FindById` | task-manager/app/dashboard/page.tsx:99 | `find` yields nothing exactly when no task has the id; otherwise the task at the first position with that id |
| `Dashboard.DeleteAction` | task-manager/app/dashboard/page.tsx:97-101 | the delete addresses the given id. The name for the confirmation is found exactly when a listed task has that id, and it is the name of the first task with that id |

Two facts about the code shape the model:
- Invalidation ignores the outcome. The `invalidatesTags` callbacks receive
  `result` and `error` and never read them. The tag functions therefore take
  only the endpoint argument, and `TagCache.AfterMutation` applies when a
  mutation settles.
- A token counts as missing when it is null or empty (JavaScript
  truthiness). The guard redirects for either, and `prepareHeaders` attaches
  no header for either. `Storage.Truthy` is that condition.

## Left out

- Rendering, styling, icons, toasts and the `router.push` side effect. Navigation targets are returned as `Dashboard.Route` values.
- The login submit handler: it calls the remote login, stores the returned token with `localStorage.setItem` and navigates to "/dashboard"; on error it only logs. Only the resulting `setItem` appears, in `Dashboard.LoginThenListIsAuthorized`.
- The signup submit handler: it calls the remote signup, shows a toast and navigates to "/login" after two seconds; on error it shows the server's `error` field or a fallback message. It stores no token. It is remote I/O and presentation only.
- `task-manager/services/userApi.ts`: its `prepareHeaders` is identical to the task client's, which is modelled. Its endpoints declare no tags.
- `task-manager/store/store.ts`: store wiring only.
- The query library's cache machinery: subscriptions, refetch timing, garbage collection, request deduplication, and the cached response bodies. Only the declared tags and a freshness flag per tag are modelled. Whether the library skips invalidation for some failures is library behaviour and is not modelled.
- The network and the server: persisting tasks, assigning ids, applying patches, and not-found errors for unknown ids.
- Text.ToLower: lower-cases ASCII letters only. JavaScript's `toLowerCase` applies full Unicode case mapping, which is not modelled.
- TaskApi.PrepareHeaders: headers are a map with the exact key "Authorization". The case-insensitive matching of HTTP header names is not modelled. Neither is the Fetch `Headers.set` treatment of values: it strips leading and trailing HTTP whitespace and throws a TypeError for a value containing NUL, CR, LF or a code unit above U+00FF.
- TaskApi.AuthorizationCarriesToken: holds for the value before `Headers.set` normalises it. A token with trailing HTTP whitespace is sent with it stripped. Leading spaces and tabs are kept because they follow "Bearer ". A token containing NUL, a CR or LF that is not part of its trailing whitespace, or a code unit above U+00FF makes `set` throw. The model covers neither case.
- Dashboard.NoResubmitAfterSuccess: assumes each submit follows the previous request's outcome. The form is reset only after the add request returns, and neither the Enter key nor the button is disabled meanwhile. So a second add submitted before the first settles sends the same name again. Submits that overlap an in-flight request are not modelled.
- Dashboard.ToggleRequest: reads the status from the list as last rendered. A second toggle before the list is refetched requests the same status again instead of toggling back. Toggles that overlap an in-flight update are not modelled.
- Dashboard.Guard: only decides whether to navigate. Without a token, the page still sends its task-list and user-info requests on mount, with no `Authorization` header, because neither query is skipped. The guard's navigation does not cancel them. `Dashboard.GuardAgreesWithHeaders` shows such a request carries no token.
- `createdAt` and `updatedAt` are opaque strings.
- The base URL taken from the environment. Request paths are relative to it.
