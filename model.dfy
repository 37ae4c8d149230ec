/** The persistent records: Task, Comment and User, and the column constraints on them. */
module Model {
  import opened Results

  type TaskId = nat
  type CommentId = nat
  type UserId = nat

  // The enum sources are not part of this model; no property depends on these particular values.
  datatype TaskStatus = Todo | InProgress | Done
  datatype TaskPriority = Low | Medium | High

  datatype Role = RoleAdmin | RoleUser

  /** A stored user. The password field holds the encoded password. */
  datatype User = User(id: UserId, username: string, password: string, fullName: string)

  /** The authenticated principal, which the source reads from the security context. */
  datatype Caller = Caller(id: UserId, role: Role)

  /** A comment; `task` and `user` stand for the referenced entities by their ids. */
  datatype Comment = Comment(id: Option<CommentId>, content: string, task: Option<TaskId>, user: Option<UserId>)

  /** A task with its owned, ordered comment list. Status and priority can never be null. */
  datatype Task = Task(
    id: TaskId,
    title: string,
    description: Option<string>,
    status: TaskStatus,
    priority: TaskPriority,
    author: Option<UserId>,
    assignee: Option<UserId>,
    comments: seq<Comment>)

  /** `@NotBlank`: the string has no character above U+0020 (what trimming leaves empty). */
  predicate IsBlank(s: string) {
    forall i | 0 <= i < |s| :: s[i] <= ' '
  }

  /** The constraints Task.java puts on a task row: non-blank title and a non-null author. */
  predicate TaskConstraints(t: Task) {
    !IsBlank(t.title) && t.author.Some?
  }

  /** The constraints Comment.java puts on a comment row of task `owner`. */
  predicate CommentConstraints(c: Comment, owner: TaskId) {
    !IsBlank(c.content) && c.task == Some(owner) && c.user.Some?
  }

  /** A task that the store accepts, together with every comment cascaded with it. */
  predicate Persistable(t: Task) {
    TaskConstraints(t) && forall c | c in t.comments :: CommentConstraints(c, t.id)
  }

  /** Every comment already carries a store-assigned id. */
  predicate AllNumbered(cs: seq<Comment>) {
    forall c | c in cs :: c.id.Some?
  }
}
