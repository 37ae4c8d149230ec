/**
 * The task store: the derived finder queries of the task repository read as
 * exact-match conjunctive filters, pagination, comment numbering on save, and
 * the repository object itself.
 */
module Tasks {
  import opened Results
  import opened Model

  /** The repository's query methods, one constructor per derived finder, plus findAll. */
  datatype Query =
    | FindAll
    | FindByStatus(status: TaskStatus)
    | FindByPriority(priority: TaskPriority)
    | FindByAuthorId(authorId: UserId)
    | FindByAssigneeId(assigneeId: UserId)
    | FindByStatusAndPriority(status: TaskStatus, priority: TaskPriority)
    | FindByStatusAndAuthorId(status: TaskStatus, authorId: UserId)
    | FindByStatusAndAssigneeId(status: TaskStatus, assigneeId: UserId)
    | FindByPriorityAndAuthorId(priority: TaskPriority, authorId: UserId)
    | FindByPriorityAndAssigneeId(priority: TaskPriority, assigneeId: UserId)
    | FindByAuthorIdAndAssigneeId(authorId: UserId, assigneeId: UserId)
    | FindByStatusAndPriorityAndAuthorId(status: TaskStatus, priority: TaskPriority, authorId: UserId)
    | FindByStatusAndPriorityAndAssigneeId(status: TaskStatus, priority: TaskPriority, assigneeId: UserId)
    | FindByStatusAndAuthorIdAndAssigneeId(status: TaskStatus, authorId: UserId, assigneeId: UserId)
    | FindByPriorityAndAuthorIdAndAssigneeId(priority: TaskPriority, authorId: UserId, assigneeId: UserId)
    | FindByStatusAndPriorityAndAuthorIdAndAssigneeId(
        status: TaskStatus, priority: TaskPriority, authorId: UserId, assigneeId: UserId)

  /**
   * The row predicate each finder derives from its name: exact equality on every
   * named property, joined by AND. `AuthorId` and `AssigneeId` navigate the
   * association, so a task without an assignee never matches an assignee id.
   */
  predicate Holds(q: Query, t: Task) {
    match q
    case FindAll => true
    case FindByStatus(s) => t.status == s
    case FindByPriority(p) => t.priority == p
    case FindByAuthorId(a) => t.author == Some(a)
    case FindByAssigneeId(u) => t.assignee == Some(u)
    case FindByStatusAndPriority(s, p) => t.status == s && t.priority == p
    case FindByStatusAndAuthorId(s, a) => t.status == s && t.author == Some(a)
    case FindByStatusAndAssigneeId(s, u) => t.status == s && t.assignee == Some(u)
    case FindByPriorityAndAuthorId(p, a) => t.priority == p && t.author == Some(a)
    case FindByPriorityAndAssigneeId(p, u) => t.priority == p && t.assignee == Some(u)
    case FindByAuthorIdAndAssigneeId(a, u) => t.author == Some(a) && t.assignee == Some(u)
    case FindByStatusAndPriorityAndAuthorId(s, p, a) =>
      t.status == s && t.priority == p && t.author == Some(a)
    case FindByStatusAndPriorityAndAssigneeId(s, p, u) =>
      t.status == s && t.priority == p && t.assignee == Some(u)
    case FindByStatusAndAuthorIdAndAssigneeId(s, a, u) =>
      t.status == s && t.author == Some(a) && t.assignee == Some(u)
    case FindByPriorityAndAuthorIdAndAssigneeId(p, a, u) =>
      t.priority == p && t.author == Some(a) && t.assignee == Some(u)
    case FindByStatusAndPriorityAndAuthorIdAndAssigneeId(s, p, a, u) =>
      t.status == s && t.priority == p && t.author == Some(a) && t.assignee == Some(u)
  }

  /** The four optional filters of a task listing; `None` is an absent (null) filter. */
  datatype Filters = Filters(
    status: Option<TaskStatus>,
    priority: Option<TaskPriority>,
    authorId: Option<UserId>,
    assigneeId: Option<UserId>)

  /** Which filters a finder takes, and with which values. */
  function Fields(q: Query): Filters {
    match q
    case FindAll => Filters(None, None, None, None)
    case FindByStatus(s) => Filters(Some(s), None, None, None)
    case FindByPriority(p) => Filters(None, Some(p), None, None)
    case FindByAuthorId(a) => Filters(None, None, Some(a), None)
    case FindByAssigneeId(u) => Filters(None, None, None, Some(u))
    case FindByStatusAndPriority(s, p) => Filters(Some(s), Some(p), None, None)
    case FindByStatusAndAuthorId(s, a) => Filters(Some(s), None, Some(a), None)
    case FindByStatusAndAssigneeId(s, u) => Filters(Some(s), None, None, Some(u))
    case FindByPriorityAndAuthorId(p, a) => Filters(None, Some(p), Some(a), None)
    case FindByPriorityAndAssigneeId(p, u) => Filters(None, Some(p), None, Some(u))
    case FindByAuthorIdAndAssigneeId(a, u) => Filters(None, None, Some(a), Some(u))
    case FindByStatusAndPriorityAndAuthorId(s, p, a) => Filters(Some(s), Some(p), Some(a), None)
    case FindByStatusAndPriorityAndAssigneeId(s, p, u) => Filters(Some(s), Some(p), None, Some(u))
    case FindByStatusAndAuthorIdAndAssigneeId(s, a, u) => Filters(Some(s), None, Some(a), Some(u))
    case FindByPriorityAndAuthorIdAndAssigneeId(p, a, u) => Filters(None, Some(p), Some(a), Some(u))
    case FindByStatusAndPriorityAndAuthorIdAndAssigneeId(s, p, a, u) => Filters(Some(s), Some(p), Some(a), Some(u))
  }

  /** One equality test on one task property. */
  datatype Clause =
    | StatusIs(status: TaskStatus)
    | PriorityIs(priority: TaskPriority)
    | AuthorIs(authorId: UserId)
    | AssigneeIs(assigneeId: UserId)

  predicate Sat(t: Task, c: Clause) {
    match c
    case StatusIs(s) => t.status == s
    case PriorityIs(p) => t.priority == p
    case AuthorIs(a) => t.author == Some(a)
    case AssigneeIs(u) => t.assignee == Some(u)
  }

  /** The reference filter: one clause for each present filter, and no other clause. */
  function Clauses(f: Filters): (cs: seq<Clause>)
    ensures f.status.Some? ==> StatusIs(f.status.value) in cs
    ensures f.priority.Some? ==> PriorityIs(f.priority.value) in cs
    ensures f.authorId.Some? ==> AuthorIs(f.authorId.value) in cs
    ensures f.assigneeId.Some? ==> AssigneeIs(f.assigneeId.value) in cs
    ensures forall c | c in cs ::
      match c
      case StatusIs(s) => f.status == Some(s)
      case PriorityIs(p) => f.priority == Some(p)
      case AuthorIs(a) => f.authorId == Some(a)
      case AssigneeIs(u) => f.assigneeId == Some(u)
  {
    (if f.status.Some? then [StatusIs(f.status.value)] else [])
    + (if f.priority.Some? then [PriorityIs(f.priority.value)] else [])
    + (if f.authorId.Some? then [AuthorIs(f.authorId.value)] else [])
    + (if f.assigneeId.Some? then [AssigneeIs(f.assigneeId.value)] else [])
  }

  /** The dynamic conjunction: a task passes when it satisfies every present clause. */
  predicate Admits(f: Filters, t: Task) {
    forall c | c in Clauses(f) :: Sat(t, c)
  }

  /** The elements of `ts` that `keep` accepts, in their original order. */
  function Select(ts: seq<Task>, keep: Task -> bool): (r: seq<Task>)
    ensures |r| <= |ts|
    ensures forall t :: t in r <==> t in ts && keep(t)
  {
    if ts == [] then []
    else (if keep(ts[0]) then [ts[0]] else []) + Select(ts[1..], keep)
  }

  /** The rows a finder returns, before pagination. */
  function Where(ts: seq<Task>, q: Query): seq<Task> {
    Select(ts, t => Holds(q, t))
  }

  /** The rows the reference conjunction of the present filters returns. */
  function Conjoin(ts: seq<Task>, f: Filters): seq<Task> {
    Select(ts, t => Admits(f, t))
  }

  lemma {:induction false} SelectCongruent(ts: seq<Task>, keep: Task -> bool, keep': Task -> bool)
    requires forall t | t in ts :: keep(t) == keep'(t)
    ensures Select(ts, keep) == Select(ts, keep')
  {
    if ts != [] {
      SelectCongruent(ts[1..], keep, keep');
    }
  }

  lemma {:induction false} SelectEverything(ts: seq<Task>, keep: Task -> bool)
    requires forall t | t in ts :: keep(t)
    ensures Select(ts, keep) == ts
  {
    if ts != [] {
      SelectEverything(ts[1..], keep);
    }
  }

  /** The dynamic conjunction, field by field: an absent filter admits every task. */
  lemma AdmitsFieldwise(f: Filters, t: Task)
    ensures Admits(f, t) <==>
      && (f.status.Some? ==> t.status == f.status.value)
      && (f.priority.Some? ==> t.priority == f.priority.value)
      && (f.authorId.Some? ==> t.author == f.authorId)
      && (f.assigneeId.Some? ==> t.assignee == f.assigneeId)
  {
    var cs := Clauses(f);
    if f.status.Some? { assert StatusIs(f.status.value) in cs; }
    if f.priority.Some? { assert PriorityIs(f.priority.value) in cs; }
    if f.authorId.Some? { assert AuthorIs(f.authorId.value) in cs; }
    if f.assigneeId.Some? { assert AssigneeIs(f.assigneeId.value) in cs; }
  }

  /** Each derived finder is exactly the conjunction of its single-property predicates. */
  lemma FinderIsConjunction(q: Query, t: Task)
    ensures Holds(q, t) <==> Admits(Fields(q), t)
  {
    AdmitsFieldwise(Fields(q), t);
  }

  /** findAll is the unfiltered listing. */
  lemma FindAllIsEverything(ts: seq<Task>)
    ensures Where(ts, FindAll) == ts
  {
    SelectEverything(ts, t => Holds(FindAll, t));
  }

  /**
   * A finder that constrains a superset of another finder's properties, with the
   * same values, returns a subset of its rows.
   */
  lemma FinerFinderReturnsFewer(ts: seq<Task>, q: Query, q': Query)
    requires forall c | c in Clauses(Fields(q')) :: c in Clauses(Fields(q))
    ensures forall t | t in Where(ts, q) :: t in Where(ts, q')
  {
    forall t | t in Where(ts, q)
      ensures t in Where(ts, q')
    {
      FinderIsConjunction(q, t);
      FinderIsConjunction(q', t);
    }
  }

  /** A Pageable: zero-based page index and page size. */
  datatype Pageable = Pageable(page: nat, size: nat)

  /** A Page: the rows of the requested page and the total number of matching rows. */
  datatype Page = Page(content: seq<Task>, totalElements: nat)

  /** The requested slice of an ordered result. */
  function PageOf(ts: seq<Task>, p: Pageable): (r: Page)
    ensures r.totalElements == |ts|
    ensures |r.content| == if p.page * p.size >= |ts| then 0
                           else if |ts| - p.page * p.size < p.size then |ts| - p.page * p.size
                           else p.size
    ensures forall i | 0 <= i < |r.content| :: r.content[i] == ts[p.page * p.size + i]
    ensures forall t | t in r.content :: t in ts
  {
    var start := if p.page * p.size < |ts| then p.page * p.size else |ts|;
    var end := if start + p.size < |ts| then start + p.size else |ts|;
    Page(ts[start..end], |ts|)
  }

  /** Filtering keeps the rows in their order: a list with ascending ids stays ascending. */
  lemma {:induction false} SelectAscending(ts: seq<Task>, keep: Task -> bool)
    requires forall i, j | 0 <= i < j < |ts| :: ts[i].id < ts[j].id
    ensures forall i, j | 0 <= i < j < |Select(ts, keep)| :: Select(ts, keep)[i].id < Select(ts, keep)[j].id
  {
    if ts != [] {
      var rest := Select(ts[1..], keep);
      SelectAscending(ts[1..], keep);
      forall k | 0 <= k < |rest| ensures ts[0].id < rest[k].id {
        assert rest[k] in ts[1..];
      }
    }
  }

  /** A page of a list with ascending ids is ascending too. */
  lemma PageAscending(ts: seq<Task>, p: Pageable)
    requires forall i, j | 0 <= i < j < |ts| :: ts[i].id < ts[j].id
    ensures forall i, j | 0 <= i < j < |PageOf(ts, p).content| :: PageOf(ts, p).content[i].id < PageOf(ts, p).content[j].id
  {
    var r := PageOf(ts, p);
    forall i, j | 0 <= i < j < |r.content| ensures r.content[i].id < r.content[j].id {
      assert r.content[i] == ts[p.page * p.size + i] && r.content[j] == ts[p.page * p.size + j];
    }
  }

  /** Filtering distributes over concatenation, keeping the order of both parts. */
  lemma {:induction false} SelectAppend(a: seq<Task>, b: seq<Task>, keep: Task -> bool)
    ensures Select(a + b, keep) == Select(a, keep) + Select(b, keep)
  {
    if a == [] {
      assert a + b == b;
    } else {
      assert (a + b)[1..] == a[1..] + b;
      SelectAppend(a[1..], b, keep);
    }
  }

  /**
   * The stored tasks with id below `n`, in ascending id order: each task stored
   * under a key below `n` appears exactly once.
   */
  function Listing(m: map<TaskId, Task>, n: nat): (r: seq<Task>)
    requires forall k | k in m :: m[k].id == k
    ensures forall k | k in m && k < n :: m[k] in r
    ensures forall t | t in r :: t.id in m && t.id < n && m[t.id] == t
  {
    if n == 0 then []
    else Listing(m, n - 1) + (if n - 1 in m then [m[n - 1]] else [])
  }

  /** The listing is strictly ascending by id, so no task appears twice. */
  lemma {:induction false} ListingAscending(m: map<TaskId, Task>, n: nat)
    requires forall k | k in m :: m[k].id == k
    ensures forall i, j | 0 <= i < j < |Listing(m, n)| :: Listing(m, n)[i].id < Listing(m, n)[j].id
  {
    if n > 0 {
      ListingAscending(m, n - 1);
    }
  }

  /** The keys below `n` whose stored task passes `keep`. */
  ghost function KeysWhere(m: map<TaskId, Task>, n: nat, keep: Task -> bool): set<TaskId> {
    set k | k in m && k < n && keep(m[k])
  }

  /** Raising the bound by one adds the key just below the new bound, if its task passes. */
  lemma KeysWhereStep(m: map<TaskId, Task>, n: nat, keep: Task -> bool)
    requires n > 0
    ensures |KeysWhere(m, n, keep)| == |KeysWhere(m, n - 1, keep)| + if n - 1 in m && keep(m[n - 1]) then 1 else 0
  {
    if n - 1 in m && keep(m[n - 1]) {
      assert KeysWhere(m, n, keep) == KeysWhere(m, n - 1, keep) + {n - 1};
    } else {
      assert KeysWhere(m, n, keep) == KeysWhere(m, n - 1, keep);
    }
  }

  /** Filtering at most one row keeps it exactly when it passes. */
  lemma SelectSingle(ts: seq<Task>, keep: Task -> bool)
    requires |ts| <= 1
    ensures |Select(ts, keep)| == if ts != [] && keep(ts[0]) then 1 else 0
  {
    if ts != [] { assert ts[1..] == []; }
  }

  /** Raising the bound by one adds one filtered row, if the task just below the bound passes. */
  lemma SelectListingStep(m: map<TaskId, Task>, n: nat, keep: Task -> bool)
    requires forall k | k in m :: m[k].id == k
    requires n > 0
    ensures |Select(Listing(m, n), keep)| == |Select(Listing(m, n - 1), keep)| + if n - 1 in m && keep(m[n - 1]) then 1 else 0
  {
    var last := if n - 1 in m then [m[n - 1]] else [];
    SelectAppend(Listing(m, n - 1), last, keep);
    SelectSingle(last, keep);
  }

  /**
   * Filtering the listing keeps one row for every key below `n` whose task
   * passes the filter, and nothing else.
   */
  lemma {:induction false} SelectListingCount(m: map<TaskId, Task>, n: nat, keep: Task -> bool)
    requires forall k | k in m :: m[k].id == k
    ensures |Select(Listing(m, n), keep)| == |KeysWhere(m, n, keep)|
  {
    if n == 0 {
      assert KeysWhere(m, n, keep) == {};
    } else {
      SelectListingStep(m, n, keep);
      SelectListingCount(m, n - 1, keep);
      KeysWhereStep(m, n, keep);
    }
  }

  /** A comment as the store saves it: one without an id receives `next`. */
  function Number(c: Comment, next: CommentId): Comment {
    if c.id.None? then c.(id := Some(next)) else c
  }

  /** How many comments still lack an id. */
  function Unnumbered(cs: seq<Comment>): (n: nat)
    ensures n <= |cs|
  {
    if cs == [] then 0
    else Unnumbered(cs[..|cs| - 1]) + (if cs[|cs| - 1].id.None? then 1 else 0)
  }

  /** The comments before a new one hold fewer new comments than the whole list. */
  lemma {:induction false} UnnumberedGrows(cs: seq<Comment>, i: nat)
    requires i < |cs| && cs[i].id.None?
    ensures Unnumbered(cs[..i]) < Unnumbered(cs)
  {
    var init := cs[..|cs| - 1];
    if i == |cs| - 1 {
      assert cs[..i] == init;
    } else {
      UnnumberedGrows(init, i);
      assert init[..i] == cs[..i];
    }
  }

  /**
   * The comment list as a cascaded save stores it: new comments receive the
   * ids next, next + 1, ... in list order; everything else is kept.
   */
  function Numbered(cs: seq<Comment>, next: CommentId): (r: seq<Comment>)
    ensures |r| == |cs|
    ensures forall i {:trigger r[i]} | 0 <= i < |cs| ::
      && r[i].id.Some?
      && r[i].content == cs[i].content && r[i].task == cs[i].task && r[i].user == cs[i].user
      && (cs[i].id.Some? ==> r[i].id == cs[i].id)
      && (cs[i].id.None? ==> r[i].id == Some(next + Unnumbered(cs[..i])))
      && (cs[i].id.None? ==> next <= r[i].id.value < next + Unnumbered(cs))
  {
    if cs == [] then []
    else
      var init := cs[..|cs| - 1];
      assert forall i | 0 <= i < |init| :: init[..i] == cs[..i];
      Numbered(init, next) + [Number(cs[|cs| - 1], next + Unnumbered(init))]
  }

  /** Inserting a comment that is new and meets its row constraints succeeds. */
  predicate Insertable(c: Comment, owner: TaskId) {
    c.id.None? && CommentConstraints(c, owner)
  }

  /**
   * Why the cascaded insert of a new task's comments fails, if it does: the
   * comments are visited in list order, and the first one that cannot be
   * inserted decides the error. One that already carries an id is a detached
   * entity, which persist refuses; a new one that breaks a row constraint is a
   * constraint violation.
   */
  function CascadeFailure(cs: seq<Comment>, owner: TaskId): (r: Option<Error>)
    ensures r.None? <==> forall c | c in cs :: Insertable(c, owner)
    ensures r.Some? ==> exists i | 0 <= i < |cs| ::
      && !Insertable(cs[i], owner)
      && (forall j | 0 <= j < i :: Insertable(cs[j], owner))
      && r.value == if cs[i].id.Some? then DetachedEntity else ConstraintViolation
  {
    if cs == [] then None
    else if !Insertable(cs[0], owner) then
      Some(if cs[0].id.Some? then DetachedEntity else ConstraintViolation)
    else
      var r := CascadeFailure(cs[1..], owner);
      if r.Some? then
        var i :| 0 <= i < |cs[1..]| && !Insertable(cs[1..][i], owner)
          && (forall j | 0 <= j < i :: Insertable(cs[1..][j], owner))
          && r.value == if cs[1..][i].id.Some? then DetachedEntity else ConstraintViolation;
        assert cs[i + 1] == cs[1..][i];
        assert forall j | 0 <= j < i + 1 :: Insertable(cs[j], owner) by {
          forall j | 0 <= j < i + 1 ensures Insertable(cs[j], owner) {
            if j > 0 { assert cs[j] == cs[1..][j - 1]; }
          }
        }
        r
      else r
  }

  /**
   * Why inserting a new task fails, if it does: the task row's own constraints
   * are checked at its insert, before the cascade reaches the comments.
   */
  function InsertFailure(t: Task): (r: Option<Error>)
    ensures r.None? <==> Persistable(t) && forall c | c in t.comments :: c.id.None?
    ensures !TaskConstraints(t) ==> r == Some(ConstraintViolation)
    ensures TaskConstraints(t) ==> r == CascadeFailure(t.comments, t.id)
  {
    if !TaskConstraints(t) then Some(ConstraintViolation) else CascadeFailure(t.comments, t.id)
  }

  /** A list of new comments consumes one id per comment. */
  lemma {:induction false} UnnumberedAllNew(cs: seq<Comment>)
    requires forall c | c in cs :: c.id.None?
    ensures Unnumbered(cs) == |cs|
  {
    if cs != [] {
      assert cs[|cs| - 1] in cs;
      assert forall c | c in cs[..|cs| - 1] :: c in cs;
      UnnumberedAllNew(cs[..|cs| - 1]);
    }
  }

  /** New comments saved together receive pairwise different ids. */
  lemma NumberedDistinct(cs: seq<Comment>, next: CommentId)
    ensures forall i, j | 0 <= i < j < |cs| && cs[i].id.None? && cs[j].id.None? ::
      Numbered(cs, next)[i].id != Numbered(cs, next)[j].id
  {
    forall i, j | 0 <= i < j < |cs| && cs[i].id.None? && cs[j].id.None?
      ensures Numbered(cs, next)[i].id != Numbered(cs, next)[j].id
    {
      UnnumberedGrows(cs[..j], i);
      assert cs[..j][..i] == cs[..i];
    }
  }

  /** A list whose comments all have ids is saved unchanged. */
  lemma {:induction false} NumberedKeepsNumbered(cs: seq<Comment>, next: CommentId)
    requires AllNumbered(cs)
    ensures Numbered(cs, next) == cs && Unnumbered(cs) == 0
  {
    if cs != [] {
      var init := cs[..|cs| - 1];
      NumberedKeepsNumbered(init, next);
      assert init + [cs[|cs| - 1]] == cs;
    }
  }

  /** Appending one comment to a saved list: only that comment receives an id. */
  lemma {:induction false} NumberedAppend(cs: seq<Comment>, c: Comment, next: CommentId)
    requires AllNumbered(cs)
    ensures Numbered(cs + [c], next) == cs + [Number(c, next)]
  {
    var s := cs + [c];
    assert s[..|s| - 1] == cs && s[|s| - 1] == c;
    assert Numbered(s, next) == Numbered(s[..|s| - 1], next) + [Number(s[|s| - 1], next + Unnumbered(s[..|s| - 1]))];
    NumberedKeepsNumbered(cs, next);
  }

  /** Numbering keeps every column constraint of the task and its comments. */
  lemma NumberedPersistable(t: Task, next: CommentId)
    requires Persistable(t)
    ensures Persistable(t.(comments := Numbered(t.comments, next)))
    ensures AllNumbered(Numbered(t.comments, next))
  {
    var r := Numbered(t.comments, next);
    forall c | c in r
      ensures CommentConstraints(c, t.id) && c.id.Some?
    {
      var i :| 0 <= i < |r| && r[i] == c;
      assert CommentConstraints(t.comments[i], t.id);
    }
  }

  /** The rows of the task table, keyed by id, and the identity generators. */
  class TaskRepository {
    var tasks: map<TaskId, Task>
    var nextId: TaskId
    var nextCommentId: CommentId

    /** Every stored task sits under its own id, meets its constraints and has numbered comments. */
    ghost predicate Valid()
      reads this
    {
      forall id | id in tasks ::
        id < nextId && tasks[id].id == id && Persistable(tasks[id]) && AllNumbered(tasks[id].comments)
    }

    constructor ()
      ensures Valid() && tasks == map[] && nextId == 0 && nextCommentId == 0
    {
      tasks, nextId, nextCommentId := map[], 0, 0;
    }

    /** A stored task has a non-blank title and an author; status and priority are never null. */
    lemma StoredTaskConstraints(id: TaskId)
      requires Valid() && id in tasks
      ensures !IsBlank(tasks[id].title) && tasks[id].author.Some?
    {
    }

    /**
     * A stored comment has a store-assigned id, non-blank content, a user, and
     * links to the one task that owns it.
     */
    lemma StoredCommentConstraints(id: TaskId, c: Comment)
      requires Valid() && id in tasks && c in tasks[id].comments
      ensures c.id.Some? && !IsBlank(c.content) && c.task == Some(id) && c.user.Some?
    {
    }

    /** findById: the task stored under `id`, or empty. */
    function FindById(id: TaskId): (r: Option<Task>)
      reads this
      ensures r.Some? <==> id in tasks
      ensures r.Some? ==> r.value == tasks[id]
    {
      if id in tasks then Some(tasks[id]) else None
    }

    /** All stored tasks, in ascending id order. */
    function FindAllTasks(): (r: seq<Task>)
      reads this
      requires Valid()
      ensures forall t :: t in r <==> t in tasks.Values
      ensures forall i, j | 0 <= i < j < |r| :: r[i].id < r[j].id
      ensures |r| == |tasks|
    {
      ListingAscending(tasks, nextId);
      SelectListingCount(tasks, nextId, t => true);
      SelectEverything(Listing(tasks, nextId), t => true);
      assert KeysWhere(tasks, nextId, t => true) == tasks.Keys;
      Listing(tasks, nextId)
    }

    /** A finder's total counts the stored tasks it matches, each once. */
    lemma MatchCount(q: Query)
      requires Valid()
      ensures |Where(FindAllTasks(), q)| == |set id | id in tasks && Holds(q, tasks[id])|
    {
      SelectListingCount(tasks, nextId, t => Holds(q, t));
      assert KeysWhere(tasks, nextId, t => Holds(q, t)) == set id | id in tasks && Holds(q, tasks[id]);
    }

    /** A finder applied to the store, with pagination applied last. */
    function Find(q: Query, p: Pageable): (r: Page)
      reads this
      requires Valid()
      ensures r == PageOf(Where(FindAllTasks(), q), p)
      ensures forall t | t in r.content :: t in tasks.Values && Holds(q, t)
      ensures r.totalElements == |set id | id in tasks && Holds(q, tasks[id])|
    {
      MatchCount(q);
      PageOf(Where(FindAllTasks(), q), p)
    }

    /** A finder's page lists its tasks in ascending id order. */
    lemma FindAscending(q: Query, p: Pageable)
      requires Valid()
      ensures forall i, j | 0 <= i < j < |Find(q, p).content| :: Find(q, p).content[i].id < Find(q, p).content[j].id
    {
      SelectAscending(FindAllTasks(), t => Holds(q, t));
      PageAscending(Where(FindAllTasks(), q), p);
    }

    /** Assigns ids to the comments that have none, as the cascaded insert does. */
    method NumberComments(cs: seq<Comment>) returns (r: seq<Comment>)
      modifies this`nextCommentId
      ensures r == Numbered(cs, old(nextCommentId))
      ensures nextCommentId == old(nextCommentId) + Unnumbered(cs)
    {
      r := [];
      var i := 0;
      while i < |cs|
        invariant 0 <= i <= |cs|
        invariant r == Numbered(cs[..i], old(nextCommentId))
        invariant nextCommentId == old(nextCommentId) + Unnumbered(cs[..i])
      {
        assert cs[..i + 1][..i] == cs[..i];
        r := r + [Number(cs[i], nextCommentId)];
        if cs[i].id.None? {
          nextCommentId := nextCommentId + 1;
        }
        i := i + 1;
      }
      assert cs[..i] == cs;
    }

    /**
     * save of a task loaded from this repository: the row is overwritten and
     * new comments are inserted by cascade; a constraint violation aborts the
     * whole save.
     */
    method Save(t: Task) returns (r: Result<Task>)
      requires Valid()
      requires t.id in tasks
      modifies this
      ensures Valid()
      ensures Persistable(t) ==>
        var saved := t.(comments := Numbered(t.comments, old(nextCommentId)));
        && r == Ok(saved)
        && tasks == old(tasks)[t.id := saved]
        && nextId == old(nextId)
        && nextCommentId == old(nextCommentId) + Unnumbered(t.comments)
      ensures !Persistable(t) ==> r == Err(ConstraintViolation) && unchanged(this)
    {
      if !Persistable(t) {
        return Err(ConstraintViolation);
      }
      NumberedPersistable(t, nextCommentId);
      var cs := NumberComments(t.comments);
      var saved := t.(comments := cs);
      tasks := tasks[t.id := saved];
      r := Ok(saved);
    }

    /**
     * save of a new task: the store assigns a fresh id, inserts the row, then
     * cascades the insert to the comments, which all receive fresh ids; any
     * failure rolls the whole save back.
     */
    method SaveNew(t: Task) returns (r: Result<Task>)
      requires Valid()
      modifies this
      ensures Valid()
      ensures old(nextId) !in old(tasks)
      ensures InsertFailure(t.(id := old(nextId))).None? ==>
        var saved := t.(id := old(nextId), comments := Numbered(t.comments, old(nextCommentId)));
        && r == Ok(saved)
        && tasks == old(tasks)[saved.id := saved]
        && nextId == old(nextId) + 1
        && nextCommentId == old(nextCommentId) + |t.comments|
      ensures InsertFailure(t.(id := old(nextId))).Some? ==>
        r == Err(InsertFailure(t.(id := old(nextId))).value) && unchanged(this)
    {
      var created := t.(id := nextId);
      var failure := InsertFailure(created);
      if failure.Some? {
        return Err(failure.value);
      }
      NumberedPersistable(created, nextCommentId);
      UnnumberedAllNew(t.comments);
      var cs := NumberComments(t.comments);
      var saved := created.(comments := cs);
      tasks := tasks[nextId := saved];
      nextId := nextId + 1;
      r := Ok(saved);
    }

    /** delete: removes the row; its comments go with it (cascade and orphan removal). */
    method Delete(id: TaskId)
      requires Valid()
      modifies this`tasks
      ensures Valid()
      ensures tasks == old(tasks) - {id}
    {
      tasks := tasks - {id};
    }
  }
}
