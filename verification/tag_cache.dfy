/** The query cache reduced to what the tag declarations decide: one
    freshness flag per tag. A resolved query files its result under the tags
    it provides (fresh); a settled mutation marks the tags it invalidates
    stale; a read whose tag is missing or stale goes to the network. */
module TagCache {
  import opened TaskApi

  datatype Freshness = Fresh | Stale

  type Cache = map<Tag, Freshness>

  /** The cache at application start. */
  const Empty: Cache := map[]

  /** Marks every cached entry whose tag is in `tags` stale. Entries that are
      not cached stay absent; entries outside `tags` keep their freshness. */
  function Invalidate(c: Cache, tags: set<Tag>): (r: Cache)
    ensures r.Keys == c.Keys
    ensures forall t :: t in c && t in tags ==> r[t] == Stale
    ensures forall t :: t in c && t !in tags ==> r[t] == c[t]
  {
    map t | t in c :: if t in tags then Stale else c[t]
  }

  /** Files a fresh result under every tag in `tags`; other entries keep
      their freshness. */
  function Provide(c: Cache, tags: set<Tag>): (r: Cache)
    ensures r.Keys == c.Keys + tags
    ensures forall t :: t in tags ==> r[t] == Fresh
    ensures forall t :: t in c && t !in tags ==> r[t] == c[t]
  {
    map t | t in c.Keys + tags :: if t in tags then Fresh else c[t]
  }

  /** A read must go to the network when one of its tags is missing or stale. */
  predicate MustFetch(c: Cache, q: Query)
  {
    exists t :: t in Provides(q) && (t !in c || c[t] == Stale)
  }

  /** At application start nothing is cached, so the first read of anything
      goes to the network. */
  lemma FirstReadFetches(q: Query)
    ensures MustFetch(Empty, q)
  {
    var t :| t in Provides(q);
  }

  /** The cache once query `q` has resolved. */
  function AfterQuery(c: Cache, q: Query): (r: Cache)
    ensures !MustFetch(r, q)
  {
    Provide(c, Provides(q))
  }

  /** The cache once mutation `m` has settled. */
  function AfterMutation(c: Cache, m: Mutation): (r: Cache)
    ensures r.Keys == c.Keys
    ensures MustFetch(r, GetTasks)
  {
    Invalidate(c, Invalidates(m))
  }

  /** An add never touches a per-task entry. */
  lemma AddKeepsTaskEntries(c: Cache, body: NewTask, id: string)
    requires TaskTag(id) in c
    ensures AfterMutation(c, AddTask(body))[TaskTag(id)] == c[TaskTag(id)]
  {
  }

  /** An update or delete of task `id` stales that task's entry and the
      collection, and leaves the entry of every other task as it was. */
  lemma ByIdMutationScope(c: Cache, m: Mutation, other: string)
    requires !m.AddTask?
    requires TaskTag(other) in c
    ensures var r := AfterMutation(c, m);
      r[TaskTag(other)] == if other == Target(m).value then Stale else c[TaskTag(other)]
  {
  }

  /** Every mutation stales the collection entry, whichever endpoint it is. */
  lemma MutationStalesCollection(c: Cache, m: Mutation)
    requires TasksTag in c
    ensures AfterMutation(c, m)[TasksTag] == Stale
  {
  }

  /** A mutation never makes an entry fresh. */
  lemma MutationNeverFreshens(c: Cache, m: Mutation, t: Tag)
    requires t in c && c[t] == Stale
    ensures AfterMutation(c, m)[t] == Stale
  {
  }

  /** Repeating the same mutation changes nothing more. */
  lemma MutationIdempotent(c: Cache, m: Mutation)
    ensures AfterMutation(AfterMutation(c, m), m) == AfterMutation(c, m)
  {
    var r1 := AfterMutation(c, m);
    var r2 := AfterMutation(r1, m);
    assert forall t :: t in r2 ==> r2[t] == r1[t];
  }

  /** A fetched list is served from memory until a mutation settles, then the
      next list read goes to the network; a fetched task entry survives an
      add and is still served from memory. */
  lemma AddThenListRefetches(c: Cache, body: NewTask, id: string)
    ensures var fetched := AfterQuery(AfterQuery(c, GetTasks), GetTaskById(id));
      !MustFetch(fetched, GetTasks)
      && MustFetch(AfterMutation(fetched, AddTask(body)), GetTasks)
      && !MustFetch(AfterMutation(fetched, AddTask(body)), GetTaskById(id))
  {
    var fetched := AfterQuery(AfterQuery(c, GetTasks), GetTaskById(id));
    var after := AfterMutation(fetched, AddTask(body));
    assert fetched[TasksTag] == Fresh;
    assert after[TaskTag(id)] == Fresh;
  }
}
