/** Client code that exercises the service contracts on concrete values. */
module Scenarios {
  import opened Results
  import opened Model
  import opened Tasks
  import opened Users
  import opened TaskServices

  /**
   * A task assigned to user 2 with status Todo: user 1 is refused and the
   * status stays; user 2 moves it to Done.
   */
  method AssigneeStatusScenario() {
    var tasks := new TaskRepository();
    var users := new UserRepository();
    var service := new TaskService(tasks, users);
    var admin := Caller(9, RoleAdmin);
    var draft := Task(0, "Write report", None, Todo, High, Some(9), Some(2), []);
    assert draft.title[0] == 'W';  // so the title is not blank
    var created := service.CreateTask(admin, draft);
    assert created.Ok? && created.value.id == 0;

    var denied := service.UpdateTaskStatusAsAssignee(Caller(1, RoleUser), 0, Done);
    assert denied == Err(Unauthorized);
    assert tasks.tasks[0].status == Todo;

    var allowed := service.UpdateTaskStatusAsAssignee(Caller(2, RoleUser), 0, Done);
    assert allowed.Ok? && tasks.tasks[0].status == Done;

    var missing := service.UpdateTaskStatusAsAssignee(Caller(2, RoleUser), 7, Done);
    assert missing == Err(NotFound(TaskResource, 7));
  }

  /**
   * Creating a task whose payload carries a comment that already has an id is
   * refused, and nothing is stored; the same task with a new comment is stored,
   * and the comment takes the counter's next id.
   */
  method DetachedCommentScenario() {
    var tasks := new TaskRepository();
    var users := new UserRepository();
    var service := new TaskService(tasks, users);
    var admin := Caller(9, RoleAdmin);
    var note := Comment(Some(5), "Seen", Some(0), Some(9));
    assert note.content[0] == 'S';  // so the content is not blank
    var draft := Task(0, "Write report", None, Todo, High, Some(9), None, [note]);
    assert draft.title[0] == 'W';
    var refused := service.CreateTask(admin, draft);
    assert CascadeFailure(draft.comments, 0) == Some(DetachedEntity);
    assert refused == Err(DetachedEntity) && tasks.tasks == map[];

    var created := service.CreateTask(admin, draft.(comments := [note.(id := None)]));
    assert created.Ok? && created.value.comments[0].id == Some(0);
    assert tasks.nextCommentId == 1;
  }

  /**
   * Two comments added in turn to one task receive consecutive, hence
   * different, ids; a status change in between consumes no comment id.
   */
  method CommentIdsScenario() {
    var tasks := new TaskRepository();
    var users := new UserRepository();
    var service := new TaskService(tasks, users);
    var admin := Caller(9, RoleAdmin);
    var draft := Task(0, "Write report", None, Todo, High, Some(9), None, []);
    assert draft.title[0] == 'W';
    var created := service.CreateTask(admin, draft);

    var note := Comment(None, "Seen", None, Some(9));
    assert note.content[0] == 'S';
    assert tasks.tasks == map[0 := draft] && tasks.nextCommentId == 0;

    var linked := note.(task := Some(0));
    assert Persistable(draft.(comments := [linked]));
    var first := service.AddCommentToTask(admin, 0, Some(note));
    assert tasks.tasks[0].comments == [linked.(id := Some(0))] && tasks.nextCommentId == 1;

    var moved := service.UpdateTaskStatus(admin, 0, InProgress);
    assert tasks.tasks[0].comments == [linked.(id := Some(0))] && tasks.nextCommentId == 1;

    var task := tasks.tasks[0];
    assert Persistable(task.(comments := task.comments + [linked]));
    var second := service.AddCommentToTask(admin, 0, Some(note));
    var cs := tasks.tasks[0].comments;
    assert |cs| == 2 && cs[0].id == Some(0) && cs[1].id == Some(1);
  }
}
