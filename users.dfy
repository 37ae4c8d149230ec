/** The user table and its lookups by id and by username. */
module Users {
  import opened Results
  import opened Model

  /**
   * The lowest id below `n` whose user has `username`, scanning the ids in
   * ascending order.
   */
  function ScanUsername(users: map<UserId, User>, username: string, n: nat): (r: Option<UserId>)
    ensures r.Some? ==> r.value < n && r.value in users && users[r.value].username == username
    ensures r.Some? ==> forall k | k in users && k < r.value :: users[k].username != username
    ensures r.None? ==> forall k | k in users && k < n :: users[k].username != username
  {
    if n == 0 then None
    else
      var earlier := ScanUsername(users, username, n - 1);
      if earlier.Some? then earlier
      else if n - 1 in users && users[n - 1].username == username then Some(n - 1)
      else None
  }

  class UserRepository {
    var users: map<UserId, User>
    var nextId: UserId

    /** Every user sits under its own id, below the next fresh id; usernames are unique. */
    ghost predicate Valid()
      reads this
    {
      && (forall id | id in users :: id < nextId && users[id].id == id)
      && (forall i, j | i in users && j in users && users[i].username == users[j].username :: i == j)
    }

    constructor ()
      ensures Valid() && users == map[] && nextId == 0
    {
      users, nextId := map[], 0;
    }

    /** findById: the user stored under `id`, or empty. */
    function FindById(id: UserId): (r: Option<User>)
      reads this
      requires Valid()
      ensures r.Some? <==> id in users
      ensures r.Some? ==> r.value == users[id] && r.value.id == id
    {
      if id in users then Some(users[id]) else None
    }

    /** findByUsername: the user whose username equals the argument, or empty. */
    function FindByUsername(username: string): (r: Option<User>)
      reads this
      requires Valid()
      ensures r.Some? ==> r.value.id in users && users[r.value.id] == r.value && r.value.username == username
      ensures r.None? <==> forall k | k in users :: users[k].username != username
    {
      match ScanUsername(users, username, nextId)
      case Some(k) => Some(users[k])
      case None => None
    }

    /** existsByUsername: answered by its own query, it agrees with findByUsername. */
    function ExistsByUsername(username: string): (b: bool)
      reads this
      requires Valid()
      ensures b <==> FindByUsername(username).Some?
    {
      exists k | k in users :: users[k].username == username
    }

    /** getUserIdByUsername: the id of the user with that username, or null. */
    function GetUserIdByUsername(username: string): (r: Option<UserId>)
      reads this
      requires Valid()
      ensures r.Some? ==> r.value in users && users[r.value].username == username
      ensures r.None? <==> !ExistsByUsername(username)
    {
      match FindByUsername(username)
      case Some(u) => Some(u.id)
      case None => None
    }

    /** A stored username determines its user: findByUsername finds exactly that one. */
    lemma UsernameDeterminesUser(username: string, id: UserId)
      requires Valid()
      requires id in users && users[id].username == username
      ensures FindByUsername(username) == Some(users[id])
    {
    }

    /** save of a new user: the store assigns the next id and inserts the row. */
    method SaveNew(user: User) returns (saved: User)
      requires Valid()
      requires !ExistsByUsername(user.username)
      modifies this
      ensures Valid()
      ensures saved == user.(id := old(nextId))
      ensures saved.id !in old(users)
      ensures users == old(users)[saved.id := saved]
      ensures nextId == old(nextId) + 1
    {
      saved := user.(id := nextId);
      users := users[nextId := saved];
      nextId := nextId + 1;
    }
  }
}
