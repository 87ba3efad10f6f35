/**
 * AuthController.login: find the person by email, check the password
 * against the stored hash, and issue a token for that person. An unknown
 * email and a wrong password fail alike, so a caller cannot tell which
 * one happened.
 */
module AuthController {
  import opened Wrappers
  import opened Model
  import opened Repository

  const BadCredentials := "Bad credentials"

  /** LoginRequestDto. */
  datatype LoginRequest = LoginRequest(email: string, password: string)

  /** PersonRepository.findByEmail over a store whose emails are unique. */
  function FindByEmail(persons: map<Uuid, Person>, email: string): (r: Option<Person>)
    requires UniqueEmails(persons)
    ensures r.Some? <==> EmailTaken(persons, email)
    ensures r.Some? ==> r.value.email == email
    ensures r.Some? ==> exists id | id in persons :: persons[id] == r.value
    ensures forall id | id in persons && persons[id].email == email :: r == Some(persons[id])
  {
    if EmailTaken(persons, email) then
      var id :| id in persons && persons[id].email == email;
      Some(persons[id])
    else
      None
  }

  /**
   * login. `matches` is PasswordHasher.matches, `generateToken` is
   * JwtService.generateToken; the store is only read.
   */
  function Login(persons: map<Uuid, Person>, req: LoginRequest,
                 matches: (string, string) -> bool,
                 generateToken: (Uuid, string) -> string): (r: Outcome<string>)
    requires UniqueEmails(persons)
    // both failures are the same value
    ensures !r.Ok? ==> r == Forbidden(BadCredentials)
    ensures !EmailTaken(persons, req.email) ==> r == Forbidden(BadCredentials)
    // a token is issued exactly when the stored hash matches, for that person's id and email
    ensures forall id | id in persons && persons[id].email == req.email ::
      r == if matches(req.password, persons[id].passwordHash)
           then Ok(generateToken(persons[id].id, persons[id].email))
           else Forbidden(BadCredentials)
  {
    match FindByEmail(persons, req.email)
    case None => Forbidden(BadCredentials)
    case Some(p) =>
      if !matches(req.password, p.passwordHash) then Forbidden(BadCredentials)
      else Ok(generateToken(p.id, p.email))
  }

  /** For an unknown email the password matcher plays no part in the outcome. */
  lemma UnknownEmailIgnoresMatcher(persons: map<Uuid, Person>, req: LoginRequest,
                                   matches1: (string, string) -> bool,
                                   matches2: (string, string) -> bool,
                                   generateToken: (Uuid, string) -> string)
    requires UniqueEmails(persons)
    requires !EmailTaken(persons, req.email)
    ensures Login(persons, req, matches1, generateToken) == Login(persons, req, matches2, generateToken)
  {
  }

  /** A token is issued only when some stored person's hash matches the password. */
  lemma TokenOnlyOnMatch(persons: map<Uuid, Person>, req: LoginRequest,
                         matches: (string, string) -> bool,
                         generateToken: (Uuid, string) -> string)
    requires UniqueEmails(persons)
    requires Login(persons, req, matches, generateToken).Ok?
    ensures exists id | id in persons ::
      && persons[id].email == req.email
      && matches(req.password, persons[id].passwordHash)
      && Login(persons, req, matches, generateToken).value == generateToken(persons[id].id, req.email)
  {
    var id :| id in persons && persons[id].email == req.email;
  }
}
