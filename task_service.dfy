/**
 * The task service: every task operation, the assignee authorization check and
 * the dispatch of the four optional listing filters to a derived finder.
 */
module TaskServices {
  import opened Results
  import opened Model
  import opened Tasks
  import opened Users

  /**
   * getAllTasks' if/else chain: picks the derived finder for the present
   * filters, trying the four-filter finder first and findAll last. The finder it
   * picks takes exactly the present filters, with their values.
   */
  function Dispatch(
    status: Option<TaskStatus>, priority: Option<TaskPriority>,
    authorId: Option<UserId>, assigneeId: Option<UserId>): (q: Query)
    ensures Fields(q) == Filters(status, priority, authorId, assigneeId)
  {
    if status.Some? && priority.Some? && authorId.Some? && assigneeId.Some? then
      FindByStatusAndPriorityAndAuthorIdAndAssigneeId(status.value, priority.value, authorId.value, assigneeId.value)
    else if status.Some? && priority.Some? && authorId.Some? then
      FindByStatusAndPriorityAndAuthorId(status.value, priority.value, authorId.value)
    else if status.Some? && priority.Some? && assigneeId.Some? then
      FindByStatusAndPriorityAndAssigneeId(status.value, priority.value, assigneeId.value)
    else if status.Some? && authorId.Some? && assigneeId.Some? then
      FindByStatusAndAuthorIdAndAssigneeId(status.value, authorId.value, assigneeId.value)
    else if priority.Some? && authorId.Some? && assigneeId.Some? then
      FindByPriorityAndAuthorIdAndAssigneeId(priority.value, authorId.value, assigneeId.value)
    else if status.Some? && priority.Some? then
      FindByStatusAndPriority(status.value, priority.value)
    else if status.Some? && authorId.Some? then
      FindByStatusAndAuthorId(status.value, authorId.value)
    else if status.Some? && assigneeId.Some? then
      FindByStatusAndAssigneeId(status.value, assigneeId.value)
    else if priority.Some? && authorId.Some? then
      FindByPriorityAndAuthorId(priority.value, authorId.value)
    else if priority.Some? && assigneeId.Some? then
      FindByPriorityAndAssigneeId(priority.value, assigneeId.value)
    else if authorId.Some? && assigneeId.Some? then
      FindByAuthorIdAndAssigneeId(authorId.value, assigneeId.value)
    else if status.Some? then
      FindByStatus(status.value)
    else if priority.Some? then
      FindByPriority(priority.value)
    else if authorId.Some? then
      FindByAuthorId(authorId.value)
    else if assigneeId.Some? then
      FindByAssigneeId(assigneeId.value)
    else
      FindAll
  }

  /**
   * For every combination of present and absent filters, the finder the chain
   * picks returns the same rows, in the same order, as the conjunction of the
   * present filters.
   */
  lemma DispatchIsConjunction(ts: seq<Task>, f: Filters)
    ensures Where(ts, Dispatch(f.status, f.priority, f.authorId, f.assigneeId)) == Conjoin(ts, f)
  {
    var q := Dispatch(f.status, f.priority, f.authorId, f.assigneeId);
    forall t | t in ts
      ensures Holds(q, t) == Admits(f, t)
    {
      FinderIsConjunction(q, t);
    }
    SelectCongruent(ts, t => Holds(q, t), t => Admits(f, t));
  }

  /** With no filter present the conjunction is empty and keeps every row. */
  lemma NoFiltersKeepEverything(ts: seq<Task>)
    ensures Conjoin(ts, Filters(None, None, None, None)) == ts
  {
    assert Clauses(Filters(None, None, None, None)) == [];
    SelectEverything(ts, t => Admits(Filters(None, None, None, None), t));
  }

  /**
   * The assignee check as written: it dereferences the task's assignee, so an
   * unassigned task fails with a null reference; a different assignee is an
   * authorization failure.
   */
  function CheckAssignee(task: Task, caller: Caller): (r: Outcome)
    ensures r == Pass <==> task.assignee == Some(caller.id)
    ensures task.assignee.None? ==> r == Fail(NullReference)
    ensures task.assignee.Some? && task.assignee != Some(caller.id) ==> r == Fail(Unauthorized)
  {
    match task.assignee
    case None => Fail(NullReference)
    case Some(a) => if a == caller.id then Pass else Fail(Unauthorized)
  }

  class TaskService {
    const taskRepository: TaskRepository
    const userRepository: UserRepository

    constructor (taskRepository: TaskRepository, userRepository: UserRepository)
      ensures this.taskRepository == taskRepository && this.userRepository == userRepository
    {
      this.taskRepository := taskRepository;
      this.userRepository := userRepository;
    }

    ghost predicate Valid()
      reads taskRepository, userRepository
    {
      taskRepository.Valid() && userRepository.Valid()
    }

    /** createTask: saves the task, with its comments, under a fresh id. */
    method CreateTask(caller: Caller, task: Task) returns (r: Result<Task>)
      requires Valid() && caller.role == RoleAdmin
      modifies taskRepository
      ensures Valid()
      ensures
        var id := old(taskRepository.nextId);
        && id !in old(taskRepository.tasks)
        && (InsertFailure(task.(id := id)).None? ==>
              var created := task.(id := id, comments := Numbered(task.comments, old(taskRepository.nextCommentId)));
              && r == Ok(created)
              && taskRepository.tasks == old(taskRepository.tasks)[id := created]
              && taskRepository.nextCommentId == old(taskRepository.nextCommentId) + |task.comments|)
        && (InsertFailure(task.(id := id)).Some? ==>
              r == Err(InsertFailure(task.(id := id)).value) && unchanged(taskRepository))
    {
      r := taskRepository.SaveNew(task);
    }

    /**
     * updateTask: overwrites title, description, status, priority, author and
     * assignee with the payload's values, null ones included; the id and the
     * comment list stay.
     */
    method UpdateTask(caller: Caller, id: TaskId, task: Task) returns (r: Result<Task>)
      requires Valid() && caller.role == RoleAdmin
      modifies taskRepository
      ensures Valid()
      ensures id !in old(taskRepository.tasks) ==>
        r == Err(NotFound(TaskResource, id)) && unchanged(taskRepository)
      ensures id in old(taskRepository.tasks) ==>
        var existing := old(taskRepository.tasks)[id];
        var updated := existing.(
          title := task.title, description := task.description,
          status := task.status, priority := task.priority,
          author := task.author, assignee := task.assignee);
        && (Persistable(updated) ==>
              && r == Ok(updated)
              && taskRepository.tasks == old(taskRepository.tasks)[id := updated]
              && taskRepository.nextId == old(taskRepository.nextId)
              && taskRepository.nextCommentId == old(taskRepository.nextCommentId))
        && (!Persistable(updated) ==>
              r == Err(ConstraintViolation) && unchanged(taskRepository))
    {
      var found := taskRepository.FindById(id);
      if found.None? {
        return Err(NotFound(TaskResource, id));
      }
      var existing := found.value;
      existing := existing.(title := task.title);
      existing := existing.(description := task.description);
      existing := existing.(status := task.status);
      existing := existing.(priority := task.priority);
      existing := existing.(author := task.author);
      existing := existing.(assignee := task.assignee);
      NumberedKeepsNumbered(existing.comments, taskRepository.nextCommentId);
      r := taskRepository.Save(existing);
    }

    /**
     * deleteTask: removes the task and, with it, its comments; afterwards both
     * getTaskById and getCommentsByTaskId report it as not found.
     */
    method DeleteTask(caller: Caller, id: TaskId) returns (r: Outcome)
      requires Valid() && caller.role == RoleAdmin
      modifies taskRepository
      ensures Valid()
      ensures id !in old(taskRepository.tasks) ==>
        r == Fail(NotFound(TaskResource, id)) && unchanged(taskRepository)
      ensures id in old(taskRepository.tasks) ==>
        && r == Pass
        && taskRepository.tasks == old(taskRepository.tasks) - {id}
        && taskRepository.nextId == old(taskRepository.nextId)
        && taskRepository.nextCommentId == old(taskRepository.nextCommentId)
        && GetTaskById(id) == Err(NotFound(TaskResource, id))
        && GetCommentsByTaskId(id) == Err(NotFound(TaskResource, id))
        && forall k, c | k in taskRepository.tasks && c in taskRepository.tasks[k].comments :: c.task != Some(id)
    {
      var found := taskRepository.FindById(id);
      if found.None? {
        return Fail(NotFound(TaskResource, id));
      }
      taskRepository.Delete(id);
      r := Pass;
    }

    /** updateTaskStatus: sets the status of that one task and changes nothing else. */
    method UpdateTaskStatus(caller: Caller, id: TaskId, status: TaskStatus) returns (r: Result<Task>)
      requires Valid() && caller.role == RoleAdmin
      modifies taskRepository
      ensures Valid()
      ensures id !in old(taskRepository.tasks) ==>
        r == Err(NotFound(TaskResource, id)) && unchanged(taskRepository)
      ensures id in old(taskRepository.tasks) ==>
        var updated := old(taskRepository.tasks)[id].(status := status);
        && r == Ok(updated)
        && taskRepository.tasks == old(taskRepository.tasks)[id := updated]
        && taskRepository.nextId == old(taskRepository.nextId)
        && taskRepository.nextCommentId == old(taskRepository.nextCommentId)
    {
      var found := taskRepository.FindById(id);
      if found.None? {
        return Err(NotFound(TaskResource, id));
      }
      var task := found.value.(status := status);
      NumberedKeepsNumbered(task.comments, taskRepository.nextCommentId);
      r := taskRepository.Save(task);
    }

    /** updateTaskPriority: sets the priority of that one task and changes nothing else. */
    method UpdateTaskPriority(caller: Caller, id: TaskId, priority: TaskPriority) returns (r: Result<Task>)
      requires Valid() && caller.role == RoleAdmin
      modifies taskRepository
      ensures Valid()
      ensures id !in old(taskRepository.tasks) ==>
        r == Err(NotFound(TaskResource, id)) && unchanged(taskRepository)
      ensures id in old(taskRepository.tasks) ==>
        var updated := old(taskRepository.tasks)[id].(priority := priority);
        && r == Ok(updated)
        && taskRepository.tasks == old(taskRepository.tasks)[id := updated]
        && taskRepository.nextId == old(taskRepository.nextId)
        && taskRepository.nextCommentId == old(taskRepository.nextCommentId)
    {
      var found := taskRepository.FindById(id);
      if found.None? {
        return Err(NotFound(TaskResource, id));
      }
      var task := found.value.(priority := priority);
      NumberedKeepsNumbered(task.comments, taskRepository.nextCommentId);
      r := taskRepository.Save(task);
    }

    /**
     * assignTaskToUser: looks up the task, then the user; either missing is
     * NotFound for that entity. On success the assignee is that user.
     */
    method AssignTaskToUser(caller: Caller, id: TaskId, assigneeId: UserId) returns (r: Result<Task>)
      requires Valid() && caller.role == RoleAdmin
      modifies taskRepository
      ensures Valid()
      ensures id !in old(taskRepository.tasks) ==>
        r == Err(NotFound(TaskResource, id)) && unchanged(taskRepository)
      ensures id in old(taskRepository.tasks) && assigneeId !in userRepository.users ==>
        r == Err(NotFound(UserResource, assigneeId)) && unchanged(taskRepository)
      ensures id in old(taskRepository.tasks) && assigneeId in userRepository.users ==>
        var updated := old(taskRepository.tasks)[id].(assignee := Some(assigneeId));
        && r == Ok(updated)
        && taskRepository.tasks == old(taskRepository.tasks)[id := updated]
        && taskRepository.nextId == old(taskRepository.nextId)
        && taskRepository.nextCommentId == old(taskRepository.nextCommentId)
    {
      var found := taskRepository.FindById(id);
      if found.None? {
        return Err(NotFound(TaskResource, id));
      }
      var assignee := userRepository.FindById(assigneeId);
      if assignee.None? {
        return Err(NotFound(UserResource, assigneeId));
      }
      var task := found.value.(assignee := Some(assignee.value.id));
      NumberedKeepsNumbered(task.comments, taskRepository.nextCommentId);
      r := taskRepository.Save(task);
    }

    /**
     * Links the comment to the loaded task, appends it to the comment list and
     * saves the task; the new comment receives its id from the store.
     */
    method AttachComment(task: Task, comment: Comment) returns (r: Result<Comment>)
      requires Valid()
      requires task.id in taskRepository.tasks && taskRepository.tasks[task.id] == task
      modifies taskRepository
      ensures Valid()
      ensures
        var linked := comment.(task := Some(task.id));
        var extended := task.(comments := task.comments + [linked]);
        && (Persistable(extended) ==>
              && r == Ok(linked)
              && taskRepository.tasks == old(taskRepository.tasks)[task.id :=
                   task.(comments := task.comments + [Number(linked, old(taskRepository.nextCommentId))])]
              && taskRepository.nextId == old(taskRepository.nextId)
              && taskRepository.nextCommentId == old(taskRepository.nextCommentId) + if comment.id.None? then 1 else 0)
        && (!Persistable(extended) ==> r == Err(ConstraintViolation) && unchanged(taskRepository))
    {
      var linked := comment.(task := Some(task.id));
      var extended := task.(comments := task.comments + [linked]);
      NumberedAppend(task.comments, linked, taskRepository.nextCommentId);
      NumberedKeepsNumbered(task.comments, taskRepository.nextCommentId);
      assert extended.comments[..|extended.comments| - 1] == task.comments;
      var saved := taskRepository.Save(extended);
      if saved.Err? {
        return Err(saved.error);
      }
      r := Ok(linked);
    }

    /**
     * addCommentToTask: a null comment is rejected before the task is looked
     * up; otherwise the comment, linked to the task, goes at the end of its
     * list and is returned. The service does not set the commenting user.
     */
    method AddCommentToTask(caller: Caller, id: TaskId, comment: Option<Comment>) returns (r: Result<Comment>)
      requires Valid() && caller.role == RoleAdmin
      modifies taskRepository
      ensures Valid()
      ensures comment.None? ==> r == Err(InvalidArgument) && unchanged(taskRepository)
      ensures comment.Some? && id !in old(taskRepository.tasks) ==>
        r == Err(NotFound(TaskResource, id)) && unchanged(taskRepository)
      ensures comment.Some? && id in old(taskRepository.tasks) ==>
        var task := old(taskRepository.tasks)[id];
        var linked := comment.value.(task := Some(id));
        && (Persistable(task.(comments := task.comments + [linked])) ==>
              && r == Ok(linked)
              && taskRepository.tasks == old(taskRepository.tasks)[id :=
                   task.(comments := task.comments + [Number(linked, old(taskRepository.nextCommentId))])]
              && taskRepository.nextId == old(taskRepository.nextId)
              && taskRepository.nextCommentId == old(taskRepository.nextCommentId) + if comment.value.id.None? then 1 else 0)
        && (!Persistable(task.(comments := task.comments + [linked])) ==>
              r == Err(ConstraintViolation) && unchanged(taskRepository))
    {
      if comment.None? {
        return Err(InvalidArgument);
      }
      var found := taskRepository.FindById(id);
      if found.None? {
        return Err(NotFound(TaskResource, id));
      }
      r := AttachComment(found.value, comment.value);
    }

    /**
     * updateTaskStatusAsAssignee: the task lookup comes first, then the check
     * that the caller is its assignee; only then is the status set.
     */
    method UpdateTaskStatusAsAssignee(caller: Caller, id: TaskId, status: TaskStatus) returns (r: Result<Task>)
      requires Valid() && caller.role == RoleUser
      modifies taskRepository
      ensures Valid()
      ensures id !in old(taskRepository.tasks) ==>
        r == Err(NotFound(TaskResource, id)) && unchanged(taskRepository)
      ensures id in old(taskRepository.tasks) && CheckAssignee(old(taskRepository.tasks)[id], caller).Fail? ==>
        r == Err(CheckAssignee(old(taskRepository.tasks)[id], caller).error) && unchanged(taskRepository)
      ensures id in old(taskRepository.tasks) && old(taskRepository.tasks)[id].assignee == Some(caller.id) ==>
        var updated := old(taskRepository.tasks)[id].(status := status);
        && r == Ok(updated)
        && taskRepository.tasks == old(taskRepository.tasks)[id := updated]
        && taskRepository.nextId == old(taskRepository.nextId)
        && taskRepository.nextCommentId == old(taskRepository.nextCommentId)
    {
      var found := taskRepository.FindById(id);
      if found.None? {
        return Err(NotFound(TaskResource, id));
      }
      var check := CheckAssignee(found.value, caller);
      if check.Fail? {
        return Err(check.error);
      }
      var task := found.value.(status := status);
      NumberedKeepsNumbered(task.comments, taskRepository.nextCommentId);
      r := taskRepository.Save(task);
    }

    /**
     * addCommentToTaskAsAssignee: null comment first, then the task lookup,
     * then the assignee check; only then is the comment appended.
     */
    method AddCommentToTaskAsAssignee(caller: Caller, id: TaskId, comment: Option<Comment>) returns (r: Result<Comment>)
      requires Valid() && caller.role == RoleUser
      modifies taskRepository
      ensures Valid()
      ensures comment.None? ==> r == Err(InvalidArgument) && unchanged(taskRepository)
      ensures comment.Some? && id !in old(taskRepository.tasks) ==>
        r == Err(NotFound(TaskResource, id)) && unchanged(taskRepository)
      ensures comment.Some? && id in old(taskRepository.tasks) && CheckAssignee(old(taskRepository.tasks)[id], caller).Fail? ==>
        r == Err(CheckAssignee(old(taskRepository.tasks)[id], caller).error) && unchanged(taskRepository)
      ensures comment.Some? && id in old(taskRepository.tasks) && old(taskRepository.tasks)[id].assignee == Some(caller.id) ==>
        var task := old(taskRepository.tasks)[id];
        var linked := comment.value.(task := Some(id));
        && (Persistable(task.(comments := task.comments + [linked])) ==>
              && r == Ok(linked)
              && taskRepository.tasks == old(taskRepository.tasks)[id :=
                   task.(comments := task.comments + [Number(linked, old(taskRepository.nextCommentId))])]
              && taskRepository.nextId == old(taskRepository.nextId)
              && taskRepository.nextCommentId == old(taskRepository.nextCommentId) + if comment.value.id.None? then 1 else 0)
        && (!Persistable(task.(comments := task.comments + [linked])) ==>
              r == Err(ConstraintViolation) && unchanged(taskRepository))
    {
      if comment.None? {
        return Err(InvalidArgument);
      }
      var found := taskRepository.FindById(id);
      if found.None? {
        return Err(NotFound(TaskResource, id));
      }
      var check := CheckAssignee(found.value, caller);
      if check.Fail? {
        return Err(check.error);
      }
      r := AttachComment(found.value, comment.value);
    }

    /** getTaskById: the stored task, or NotFound. */
    function GetTaskById(id: TaskId): (r: Result<Task>)
      reads taskRepository
      requires taskRepository.Valid()
      ensures r.Ok? <==> id in taskRepository.tasks
      ensures r.Ok? ==> r.value == taskRepository.tasks[id] && r.value.id == id
      ensures r.Err? ==> r.error == NotFound(TaskResource, id)
    {
      match taskRepository.FindById(id)
      case Some(t) => Ok(t)
      case None => Err(NotFound(TaskResource, id))
    }

    /** getCommentsByTaskId: the task's comments, each linked to it, or NotFound. */
    function GetCommentsByTaskId(id: TaskId): (r: Result<seq<Comment>>)
      reads taskRepository
      requires taskRepository.Valid()
      ensures r.Ok? <==> id in taskRepository.tasks
      ensures r.Ok? ==> r.value == taskRepository.tasks[id].comments
      ensures r.Ok? ==> forall c | c in r.value :: c.task == Some(id) && c.id.Some?
      ensures r.Err? ==> r.error == NotFound(TaskResource, id)
    {
      match taskRepository.FindById(id)
      case Some(t) => Ok(t.comments)
      case None => Err(NotFound(TaskResource, id))
    }

    /**
     * getAllTasks: the page of stored tasks that satisfy every present filter
     * and nothing else; with no filter present, the page of all tasks.
     */
    function GetAllTasks(
      status: Option<TaskStatus>, priority: Option<TaskPriority>,
      authorId: Option<UserId>, assigneeId: Option<UserId>, pageable: Pageable): (r: Page)
      reads taskRepository
      requires taskRepository.Valid()
      ensures r == PageOf(Conjoin(taskRepository.FindAllTasks(), Filters(status, priority, authorId, assigneeId)), pageable)
      ensures status.None? && priority.None? && authorId.None? && assigneeId.None? ==>
        r == PageOf(taskRepository.FindAllTasks(), pageable)
    {
      DispatchIsConjunction(taskRepository.FindAllTasks(), Filters(status, priority, authorId, assigneeId));
      NoFiltersKeepEverything(taskRepository.FindAllTasks());
      taskRepository.Find(Dispatch(status, priority, authorId, assigneeId), pageable)
    }

    /** getTasksByAuthor: the author-only case of getAllTasks. */
    function GetTasksByAuthor(authorId: UserId, pageable: Pageable): (r: Page)
      reads taskRepository
      requires taskRepository.Valid()
      ensures r == GetAllTasks(None, None, Some(authorId), None, pageable)
      ensures forall t | t in r.content :: t.author == Some(authorId)
    {
      var f := Filters(None, None, Some(authorId), None);
      assert Dispatch(f.status, f.priority, f.authorId, f.assigneeId) == FindByAuthorId(authorId);
      DispatchIsConjunction(taskRepository.FindAllTasks(), f);
      taskRepository.Find(FindByAuthorId(authorId), pageable)
    }

    /** getTasksByAssignee: the assignee-only case of getAllTasks; unassigned tasks never appear. */
    function GetTasksByAssignee(assigneeId: UserId, pageable: Pageable): (r: Page)
      reads taskRepository
      requires taskRepository.Valid()
      ensures r == GetAllTasks(None, None, None, Some(assigneeId), pageable)
      ensures forall t | t in r.content :: t.assignee == Some(assigneeId)
    {
      var f := Filters(None, None, None, Some(assigneeId));
      assert Dispatch(f.status, f.priority, f.authorId, f.assigneeId) == FindByAssigneeId(assigneeId);
      DispatchIsConjunction(taskRepository.FindAllTasks(), f);
      taskRepository.Find(FindByAssigneeId(assigneeId), pageable)
    }
  }
}
