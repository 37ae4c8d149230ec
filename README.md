# Task management service, modelled in Dafny

This project models the core of a task-tracking backend: the task service, the
task and user repositories, the Task and Comment records, and user
registration. Admins create, update, delete, re-prioritise and assign tasks and
comment on them; a task's assignee can change its status and comment on it.
Task listings take four optional filters (status, priority, author id,
assignee id) and a page request.

The model is an in-memory store, in the same shape as the Spring beans:

- `Tasks.TaskRepository` is the task table: a map from task id to `Task`, the
  next task id and the next comment id. Its finders are functions; `Save`,
  `SaveNew` and `Delete` are methods. The 15 derived finders and `findAll` are
  the constructors of `Tasks.Query`. `Tasks.Holds` spells out each one as
  exact equality on its named properties, joined by AND.
- `Users.UserRepository` is the user table: a map from user id to `User` and
  the next user id.
- `TaskServices.TaskService` holds both repositories, as the service's
  constructor injection does. Its mutating operations are methods that load a
  task, update it as a record and save it. Its read operations are functions.
- `Registration.RegisterService` builds and saves a user.
  `Registration.RegisterEndpoint` is the controller's duplicate-username check
  placed in front of it.

Exceptions become `Results.Error` values: `NotFound` (naming the task or the
user), `Unauthorized`, `InvalidArgument`, `NullReference`,
`ConstraintViolation`, `Conflict` and `DetachedEntity` (an insert cascaded to a
comment that already has an id). Every failing operation leaves the store
unchanged.

The caller that the source reads from the security context is an explicit
`Caller` parameter. The controllers' role gates become preconditions:
`caller.role == RoleAdmin` for the admin operations and `caller.role ==
RoleUser` for the two assignee operations.

The filter dispatch of `getAllTasks` is `TaskServices.Dispatch`. Its
postcondition says that the finder it picks takes exactly the present filters,
with their values, for all 16 combinations. `TaskServices.DispatchIsConjunction`
proves that the picked finder returns the same rows, in the same order, as a
reference filter. The reference builds one equality clause per present filter
(`Tasks.Clauses`) and keeps a task when it satisfies all of them
(`Tasks.Admits`, `Tasks.Conjoin`). Pagination is applied last (`Tasks.PageOf`).

The save of a task checks the column and validation constraints of Task.java
and Comment.java, together with one rule of the model's own, and rejects the
whole save when one fails:

- the title is not blank;
- the author is present;
- every comment has non-blank content and a user;
- every comment links to the task whose list holds it. Comment.java only asks
  for a non-null link; the model keeps each comment in its task's list, so it
  requires the link to name that task.

A comment without an id receives the next comment id from the store
(`Tasks.Numbered`). Blank means every character is at most U+0020, which is
what Hibernate Validator's trim-based `@NotBlank` check does.

Three behaviours of the code are easy to miss, and the model keeps them as written:

- An unassigned task makes both assignee operations dereference null. They fail
  with `NullReference`, not with an authorization failure.
- `updateTask` overwrites the author as well, so the author can be reassigned.
- Neither comment operation sets the comment's user. A comment saves only if
  its payload already names a user; otherwise the save fails with
  `ConstraintViolation`.

## Model

| member | source | states |
|---|---|---|
| `Tasks.FinderIsConjunction` | src/main/java/uz/taskmanagementsystem/repository/TaskRepository.java:12-55 | each derived finder accepts a task exactly when the task satisfies the equality clause of every property in the finder's name (the conjunction of its single-field predicates) |
| `Tasks.FinerFinderReturnsFewer` | src/main/java/uz/taskmanagementsystem/repository/TaskRepository.java:24-55 | a finder whose properties include another finder's properties, with the same values, returns a subset of that finder's rows |
| `Tasks.FindAllIsEverything` | src/main/java/uz/taskmanagementsystem/repository/TaskRepository.java:10 | findAll filters nothing: it returns the whole listing unchanged |
| `Tasks.TaskRepository.FindAllTasks` | src/main/java/uz/taskmanagementsystem/repository/TaskRepository.java:10 | the listing holds exactly the stored tasks, each once, in strictly ascending id order, so its length is the number of stored tasks |
| `Tasks.Listing` | src/main/java/uz/taskmanagementsystem/repository/TaskRepository.java:10 | the listing below a bound holds every task stored under a key below the bound and nothing else |
| `Tasks.ListingAscending` | src/main/java/uz/taskmanagementsystem/repository/TaskRepository.java:10 | the listing's ids strictly ascend, so no task appears twice |
| `Tasks.SelectListingCount` | src/main/java/uz/taskmanagementsystem/repository/TaskRepository.java:12-55 | a finder over the listing returns one row per stored key whose task matches, and no other row |
| `Tasks.TaskRepository.MatchCount` | src/main/java/uz/taskmanagementsystem/repository/TaskRepository.java:12-55 | a finder's result, before pagination, has as many rows as there are stored tasks it matches |
| `Tasks.TaskRepository.Find` | src/main/java/uz/taskmanagementsystem/repository/TaskRepository.java:13 | a finder's page is the requested slice of the matching tasks taken from the id-ordered listing; every task on it is stored and satisfies the finder's predicate; the page's total is the number of stored tasks the finder matches |
| `Tasks.TaskRepository.FindAscending` | src/main/java/uz/taskmanagementsystem/repository/TaskRepository.java:13 | a finder's page lists its tasks in strictly ascending id order |
| `Tasks.SelectAscending` | src/main/java/uz/taskmanagementsystem/repository/TaskRepository.java:12-55 | a finder keeps the rows in listing order, so an ascending listing gives an ascending result |
| `Tasks.PageAscending` | src/main/java/uz/taskmanagementsystem/repository/TaskRepository.java:12-13 | a page of an ascending result is ascending |
| `Tasks.PageOf` | src/main/java/uz/taskmanagementsystem/repository/TaskRepository.java:12-13 | a page holds at most `size` rows, the rows from index `page * size` on, all taken from the result; its total is the number of rows before slicing |
| `Tasks.Numbered` | src/main/java/uz/taskmanagementsystem/model/Comment.java:15-17 | on save every comment ends up with an id: existing ids are kept; the new comment at position `i` gets the counter plus the number of new comments before it, so new ids fall in the counter's next `Unnumbered` values; content, task link and user are untouched |
| `Tasks.UnnumberedGrows` | src/main/java/uz/taskmanagementsystem/model/Comment.java:15-17 | the comments before a new comment hold fewer new comments than the whole list |
| `Tasks.NumberedDistinct` | src/main/java/uz/taskmanagementsystem/model/Comment.java:15-17 | new comments saved together receive pairwise different ids |
| `Tasks.NumberedAppend` | src/main/java/uz/taskmanagementsystem/service/impl/TaskServiceImpl.java:98 | after one comment is appended to a saved list, the save numbers only that comment and keeps the earlier ones |
| `Tasks.NumberedPersistable` | src/main/java/uz/taskmanagementsystem/model/Comment.java:19-29 | assigning comment ids keeps every Task and Comment constraint |
| `Tasks.TaskRepository.StoredTaskConstraints` | src/main/java/uz/taskmanagementsystem/model/Task.java:26-48 | a stored task has a non-blank title and an author (status and priority are never null by type) |
| `Tasks.TaskRepository.StoredCommentConstraints` | src/main/java/uz/taskmanagementsystem/model/Comment.java:15-29 | a stored comment has an id, non-blank content, a user and a link to the one task that owns it |
| `Tasks.TaskRepository.FindById` | src/main/java/uz/taskmanagementsystem/repository/TaskRepository.java:10 | findById returns the task stored under the id, or empty exactly when none is |
| `Tasks.TaskRepository.NumberComments` | src/main/java/uz/taskmanagementsystem/model/Task.java:50 | the cascaded insert numbers the comment list as `Numbered` does and advances the counter by the number of new comments |
| `Tasks.TaskRepository.Save` | src/main/java/uz/taskmanagementsystem/model/Task.java:26-50 | a task violating a Task or Comment constraint is rejected with no change; otherwise exactly that row is overwritten, with its new comments numbered |
| `Tasks.TaskRepository.SaveNew` | src/main/java/uz/taskmanagementsystem/model/Task.java:22-51 | a new task is stored under a fresh id that no stored task has, with its comments numbered from the comment counter, which advances by one per comment, when the row and its cascaded comments can be inserted; otherwise the first failure is returned and nothing changes |
| `Tasks.CascadeFailure` | src/main/java/uz/taskmanagementsystem/model/Task.java:50-51 | the cascaded insert of a new task's comments succeeds exactly when every comment is new and meets its row constraints; otherwise the first comment in list order that is not decides the error: a comment that already has an id is a detached entity, any other a constraint violation |
| `Tasks.InsertFailure` | src/main/java/uz/taskmanagementsystem/model/Task.java:22-51 | inserting a new task succeeds exactly when it meets every Task and Comment constraint and none of its comments has an id; a task row violating its own constraints fails before the cascade runs |
| `Tasks.UnnumberedAllNew` | src/main/java/uz/taskmanagementsystem/model/Comment.java:15-17 | a list of new comments takes one generated id per comment |
| `Tasks.TaskRepository.Delete` | src/main/java/uz/taskmanagementsystem/model/Task.java:50-51 | deleting removes exactly that row, and with it its comments |
| `Users.UserRepository.FindById` | src/main/java/uz/taskmanagementsystem/repository/UserRepository.java:13 | findById returns the user stored under the id, whose own id is that id, or empty exactly when none is |
| `Users.UserRepository.FindByUsername` | src/main/java/uz/taskmanagementsystem/repository/UserRepository.java:14 | findByUsername returns a stored user with that username, and is empty exactly when no stored user has it |
| `Users.UserRepository.UsernameDeterminesUser` | src/main/java/uz/taskmanagementsystem/repository/UserRepository.java:14 | usernames are unique, so findByUsername finds the one user that has the username |
| `Users.UserRepository.ExistsByUsername` | src/main/java/uz/taskmanagementsystem/repository/UserRepository.java:16 | existsByUsername is true exactly when findByUsername finds a user |
| `Users.UserRepository.GetUserIdByUsername` | src/main/java/uz/taskmanagementsystem/repository/UserRepository.java:18-19 | getUserIdByUsername returns the id of a stored user with that username, and null exactly when no such user exists |
| `Users.UserRepository.SaveNew` | src/main/java/uz/taskmanagementsystem/service/RegisterService.java:29 | saving a new user stores it under a fresh id and changes no other user |
| `Registration.RegisterService.Register` | src/main/java/uz/taskmanagementsystem/service/RegisterService.java:21-30 | a null or empty password fails with InvalidArgument and saves nothing; otherwise exactly one user is added, with the request's username and full name and the encoded password |
| `Registration.RegisterEndpoint` | src/main/java/uz/taskmanagementsystem/controller/RegisterController.java:32-38 | an existing username fails with Conflict before register runs, leaving the users unchanged; otherwise a null or empty password fails with InvalidArgument and leaves the users unchanged, and any other password adds exactly one user under a fresh id, with the encoded password, changes no other user, and is then found by its username |
| `TaskServices.Dispatch` | src/main/java/uz/taskmanagementsystem/service/impl/TaskServiceImpl.java:166-198 | for each of the 16 present/absent combinations, the finder the if/else chain picks takes exactly the present filters with their values |
| `TaskServices.DispatchIsConjunction` | src/main/java/uz/taskmanagementsystem/service/impl/TaskServiceImpl.java:164-199 | the picked finder returns the same rows, in the same order, as the conjunction of the present filters |
| `TaskServices.NoFiltersKeepEverything` | src/main/java/uz/taskmanagementsystem/service/impl/TaskServiceImpl.java:196-197 | with every filter absent the conjunction keeps every row |
| `TaskServices.CheckAssignee` | src/main/java/uz/taskmanagementsystem/service/impl/TaskServiceImpl.java:109-113 | the check passes exactly when the task's assignee is the caller; an unassigned task fails with a null reference, another assignee with Unauthorized |
| `TaskServices.TaskService.CreateTask` | src/main/java/uz/taskmanagementsystem/service/impl/TaskServiceImpl.java:33-36 | the task is stored under a fresh id, its comments numbered and the comment counter advanced past them, when it and its comments can be inserted; otherwise the insert's first failure is returned (a constraint violation, or a detached comment that already has an id) and nothing changes |
| `TaskServices.TaskService.UpdateTask` | src/main/java/uz/taskmanagementsystem/service/impl/TaskServiceImpl.java:38-51 | a missing id is NotFound with no change; otherwise the six fields title, description, status, priority, author and assignee take the payload's values (absent ones included) while the id and comments stay, and no other task changes; the task and comment id counters are unchanged |
| `TaskServices.TaskService.DeleteTask` | src/main/java/uz/taskmanagementsystem/service/impl/TaskServiceImpl.java:53-58 | a missing id is NotFound; otherwise the task is removed, no stored comment links to it, and getTaskById and getCommentsByTaskId on it both fail NotFound; the id counters are unchanged |
| `TaskServices.TaskService.UpdateTaskStatus` | src/main/java/uz/taskmanagementsystem/service/impl/TaskServiceImpl.java:60-66 | a missing id is NotFound with no change; otherwise only that task's status changes; the id counters are unchanged |
| `TaskServices.TaskService.UpdateTaskPriority` | src/main/java/uz/taskmanagementsystem/service/impl/TaskServiceImpl.java:68-74 | a missing id is NotFound with no change; otherwise only that task's priority changes; the id counters are unchanged |
| `TaskServices.TaskService.AssignTaskToUser` | src/main/java/uz/taskmanagementsystem/service/impl/TaskServiceImpl.java:76-86 | the task is looked up before the user; either one missing is NotFound for that entity with no change; otherwise only that task's assignee changes, to the user with that id; the id counters are unchanged |
| `TaskServices.TaskService.AttachComment` | src/main/java/uz/taskmanagementsystem/service/impl/TaskServiceImpl.java:97-101 | the comment, linked to the task, is appended after the earlier comments and returned; a constraint violation leaves the store unchanged; on success the comment counter advances by one exactly when the comment had no id |
| `TaskServices.TaskService.AddCommentToTask` | src/main/java/uz/taskmanagementsystem/service/impl/TaskServiceImpl.java:88-102 | a null comment is InvalidArgument even for a missing task; then a missing task is NotFound; otherwise the linked comment is appended at the end and returned, or the save's constraint violation leaves everything unchanged; on success the comment counter advances by one exactly when the comment had no id, so comments added in turn get different ids |
| `TaskServices.TaskService.UpdateTaskStatusAsAssignee` | src/main/java/uz/taskmanagementsystem/service/impl/TaskServiceImpl.java:104-117 | NotFound comes before the assignee check; a caller who is not the assignee fails (Unauthorized, or NullReference for an unassigned task) with no change; the assignee changes only the status; the id counters are unchanged |
| `TaskServices.TaskService.AddCommentToTaskAsAssignee` | src/main/java/uz/taskmanagementsystem/service/impl/TaskServiceImpl.java:119-139 | checks run in the order null comment, task lookup, assignee; any failure leaves the comment list unchanged; success appends exactly one comment linked to the task; on success the comment counter advances by one exactly when the comment had no id |
| `TaskServices.TaskService.GetTaskById` | src/main/java/uz/taskmanagementsystem/service/impl/TaskServiceImpl.java:141-145 | the stored task with that id, or NotFound exactly when there is none |
| `TaskServices.TaskService.GetTasksByAuthor` | src/main/java/uz/taskmanagementsystem/service/impl/TaskServiceImpl.java:147-150 | equals getAllTasks with only the author filter; every returned task has that author |
| `TaskServices.TaskService.GetTasksByAssignee` | src/main/java/uz/taskmanagementsystem/service/impl/TaskServiceImpl.java:152-155 | equals getAllTasks with only the assignee filter; every returned task has that assignee, so unassigned tasks never appear |
| `TaskServices.TaskService.GetCommentsByTaskId` | src/main/java/uz/taskmanagementsystem/service/impl/TaskServiceImpl.java:157-162 | the task's comment list, each comment numbered and linked to the task, or NotFound exactly when the task is missing |
| `TaskServices.TaskService.GetAllTasks` | src/main/java/uz/taskmanagementsystem/service/impl/TaskServiceImpl.java:164-199 | the page of stored tasks that satisfy exactly the present filters, joined by AND; with no filter, the page of all tasks |

## Left out

- Controllers: HTTP routing and response building are not modelled. Only the
  role gates survive, as preconditions, and so does the registration
  controller's duplicate-username check.
- Authentication: login, JWT issuing, the authentication manager and the user
  details service are not part of this model. The caller arrives already
  resolved.
- Password encoding: the encoder is an uninterpreted `string -> string`
  parameter. The model cannot show that the stored password differs from the
  raw one.
- Payload validation: the controllers' `@Valid` checks come before the
  service. Status and priority are never null by type, a title that is null or
  blank is one blank string, and a missing description, author or assignee is
  `None`. The username and full name of a registration request are never null.
- User records: User.java and the role enum are not part of this model. A
  `User` carries id, username, encoded password and full name. Roles live only
  on the `Caller`. Registration stores no role.
- Enum values: TaskStatus.java and TaskPriority.java are not part of this
  model. The values used are placeholders.
- Registration.RegisterService.Register: requires that the username is not
  taken. Its only caller, `RegisterEndpoint`, checks this first. The user
  table's own unique constraint, if it has one, is not modelled.
- Users.UserRepository.SaveNew: requires that the username is not taken, for
  the same reason.
- Sort order: listings and pages use ascending id order. A page request's sort
  order and the database's own row order are not modelled.
- JPA merge details: `createTask` always inserts under a fresh id, even when
  the payload carries an id. On the update path (`save` of a stored task, used
  by both comment operations), the source merges a comment payload that
  already carries an id into the comment row with that id. The model instead
  appends it as it is, keeping its id, so the model can hold two comments with
  the same id, which the comment table's primary key forbids; for the same
  reason the stored state does not bound comment ids by the counter. On the
  insert path (`createTask`) such a comment is refused as a detached entity,
  and the model does the same. No operation removes a single comment, so
  orphan removal never acts on its own.
- Foreign keys: no user reference is checked against the user table, though
  the source's join columns need a user row with that id. This covers the
  author and assignee ids written by `createTask` and `updateTask`, and the
  user of every comment saved by `createTask`, `addCommentToTask` and
  `addCommentToTaskAsAssignee`. The model accepts a comment whose user id no
  stored user has, where the source's insert fails. Only `assignTaskToUser`
  looks the user up.
- New tasks' comments: a created task keeps its payload's comment list, which
  the no-argument constructor initialises to empty. That constructor is not
  modelled separately.
- Concurrency and transactions: each operation runs alone, and a failed save
  changes nothing.
- UserService: `existsByUsername` is a pass-through to the repository and is
  modelled there.
- Status transitions: status and priority may be set to any value, as in the
  source.
- Id width: ids are unbounded naturals, not 64-bit `Long` values.
- TaskServices.TaskService.CreateTask: refuses with `ConstraintViolation` a
  payload comment whose link names a task other than the new one. Comment.java
  asks only for a non-null link, and the link is the owning side of the
  relation, so the source stores such a comment under the task it names. The
  model keeps every comment in the list of the task that holds it and does not
  move comments between tasks.
- TaskServices.TaskService.UpdateTaskStatusAsAssignee: assumes the
  authenticated principal is a `User` carrying the caller's id, as the cast at
  TaskServiceImpl.java line 109 requires. The user details service builds a
  `UserPrincipal`, which UserPrincipal.java defines; that file and the
  authentication filter are not part of this model. If the principal is not a
  `User`, the source throws a ClassCastException after the task lookup, and the
  model does not show that failure.
- TaskServices.TaskService.AddCommentToTaskAsAssignee: makes the same
  assumption about the principal, for the cast at line 128.
