/** User registration: the password check, building the user, and saving it. */
module Registration {
  import opened Results
  import opened Model
  import opened Users

  /** The registration payload; a missing password is `None`. */
  datatype RegisterRequest = RegisterRequest(username: string, password: Option<string>, fullName: string)

  class RegisterService {
    const userRepository: UserRepository
    /** The password encoder, a one-way hash this model leaves uninterpreted. */
    const passwordEncoder: string -> string

    constructor (userRepository: UserRepository, passwordEncoder: string -> string)
      ensures this.userRepository == userRepository && this.passwordEncoder == passwordEncoder
    {
      this.userRepository := userRepository;
      this.passwordEncoder := passwordEncoder;
    }

    /**
     * register: rejects a null or empty password; otherwise saves one new user
     * with the request's username and full name and the encoded password.
     */
    method Register(request: RegisterRequest) returns (r: Outcome)
      requires userRepository.Valid()
      requires !userRepository.ExistsByUsername(request.username)
      modifies userRepository
      ensures userRepository.Valid()
      ensures (request.password.None? || request.password == Some("")) ==>
        r == Fail(InvalidArgument) && unchanged(userRepository)
      ensures request.password.Some? && request.password != Some("") ==>
        var id := old(userRepository.nextId);
        && r == Pass
        && id !in old(userRepository.users)
        && userRepository.users == old(userRepository.users)[id :=
             User(id, request.username, passwordEncoder(request.password.value), request.fullName)]
        && |userRepository.users| == |old(userRepository.users)| + 1
    {
      if request.password.None? || request.password.value == "" {
        return Fail(InvalidArgument);
      }
      var user := User(0, request.username, passwordEncoder(request.password.value), request.fullName);
      var saved := userRepository.SaveNew(user);
      r := Pass;
    }
  }

  /**
   * The registration endpoint: an existing username is rejected with Conflict
   * before register runs, so nothing is encoded and nothing is saved.
   */
  method RegisterEndpoint(service: RegisterService, request: RegisterRequest) returns (r: Outcome)
    requires service.userRepository.Valid()
    modifies service.userRepository
    ensures service.userRepository.Valid()
    ensures old(service.userRepository.ExistsByUsername(request.username)) ==>
      r == Fail(Conflict) && unchanged(service.userRepository)
    ensures !old(service.userRepository.ExistsByUsername(request.username)) ==>
      (r == Pass <==> request.password.Some? && request.password != Some(""))
    ensures !old(service.userRepository.ExistsByUsername(request.username)) ==>
      (request.password.None? || request.password == Some("")) ==>
      r == Fail(InvalidArgument) && unchanged(service.userRepository)
    ensures !old(service.userRepository.ExistsByUsername(request.username)) && r == Pass ==>
      var id := old(service.userRepository.nextId);
      && id !in old(service.userRepository.users)
      && service.userRepository.users == old(service.userRepository.users)[id :=
           User(id, request.username, service.passwordEncoder(request.password.value), request.fullName)]
      && service.userRepository.FindByUsername(request.username) == Some(service.userRepository.users[id])
  {
    if service.userRepository.ExistsByUsername(request.username) {
      return Fail(Conflict);
    }
    r := service.Register(request);
    if r == Pass {
      var id := old(service.userRepository.nextId);
      service.userRepository.UsernameDeterminesUser(request.username, id);
    }
  }
}
