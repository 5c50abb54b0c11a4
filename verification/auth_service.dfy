/** `AuthService`: password login, registration and social-account linking over the user store.
    bcrypt comparison and JWT signing are functions passed in; the hash of a new password is a
    parameter. */
module AuthService {
  import opened Wrappers
  import opened Entities
  import opened UsersService

  /** A user record as `findByEmail` loads it (no relations), without its password hash. */
  datatype SafeUser = SafeUser(id: Id, email: string, name: string, role: Role,
                               facebookId: Option<string>, googleId: Option<string>)

  /** `const { password, ...result } = user` */
  function WithoutPassword(u: User): SafeUser
  {
    SafeUser(u.id, u.email, u.name, u.role, u.facebookId, u.googleId)
  }

  /** `validateUser`: the user with that email, without its password, when the password matches
      its hash; none when no user has the email or the password does not match. A user whose
      password column is null makes the bcrypt comparison reject, which surfaces as Internal. */
  method ValidateUser(db: Store, email: string, password: string, matches: (string, string) -> bool)
    returns (r: Result<Option<SafeUser>>)
    requires db.Valid()
    ensures r.Err? <==> exists id :: id in db.users && db.users[id].email == email && db.users[id].password.None?
    ensures r.Err? ==> r.error == Internal
    ensures r.Ok? && r.value.Some? <==>
      exists id :: id in db.users && db.users[id].email == email && db.users[id].password.Some? &&
                   matches(password, db.users[id].password.value)
    ensures r.Ok? && r.value.Some? ==>
      var u := r.value.value;
      u.id in db.users && u == WithoutPassword(db.users[u.id]) && u.email == email
  {
    var user := FindByEmail(db, email);
    if user.None? {
      return Ok(None);
    }
    if user.value.password.None? {
      return Err(Internal);
    }
    if matches(password, user.value.password.value) {
      r := Ok(Some(WithoutPassword(user.value)));
    } else {
      r := Ok(None);
    }
  }

  /** The JWT payload: the user's email, `sub` = the user's id, and the role. */
  datatype Payload = Payload(email: string, sub: Id, role: Role)

  /** The user record a login returns. */
  datatype UserSummary = UserSummary(id: Id, email: string, name: string, role: Role)

  datatype LoginResult = LoginResult(accessToken: string, user: UserSummary)

  /** `login`: a token signed over the user's email, id and role, and the user's id, email, name
      and role. */
  function Login(u: SafeUser, sign: Payload -> string): (r: LoginResult)
    ensures r.accessToken == sign(Payload(u.email, u.id, u.role))
    ensures r.user.id == u.id && r.user.email == u.email && r.user.name == u.name && r.user.role == u.role
  {
    LoginResult(sign(Payload(u.email, u.id, u.role)), UserSummary(u.id, u.email, u.name, u.role))
  }

  /** The login result depends only on the id, email, name and role: never on the password hash,
      the social ids or the enrolments. */
  lemma LoginIgnoresSecrets(u: User, v: User, sign: Payload -> string)
    requires u.id == v.id && u.email == v.email && u.name == v.name && u.role == v.role
    ensures Login(WithoutPassword(u), sign) == Login(WithoutPassword(v), sign)
  {
  }

  /** `register`: creates the user, then logs in as it; a taken email fails with Conflict, an
      explicit null role with Internal, and nothing is stored then. */
  method Register(db: Store, dto: CreateUser, hashedPassword: string, newId: Id, sign: Payload -> string)
    returns (r: Result<LoginResult>)
    requires db.Valid() && newId !in db.users
    modifies db
    ensures db.Valid()
    ensures db.courses == old(db.courses) && db.groups == old(db.groups) && db.grades == old(db.grades)
    ensures r.Err? ==> db.users == old(db.users)
    ensures EmailTaken(old(db.users), dto.email) ==> r == Err(Conflict)
    ensures !EmailTaken(old(db.users), dto.email) && dto.role.Null? ==> r == Err(Internal)
    ensures !EmailTaken(old(db.users), dto.email) && !dto.role.Null? ==>
      var u := NewUser(newId, dto, hashedPassword).value;
      && r == Ok(Login(WithoutPassword(u), sign))
      && db.users == old(db.users)[newId := u]
      && r.value.user == UserSummary(newId, dto.email, dto.name, u.role)
  {
    var created := Create(db, dto, hashedPassword, newId);
    if created.Err? {
      return Err(created.error);
    }
    r := Ok(Login(WithoutPassword(created.value), sign));
  }

  /** The fields of an OAuth profile the service reads. */
  datatype SocialProfile = SocialProfile(id: string, emails: seq<string>, displayName: string)

  /** The update that links a user to a provider id: only the provider's own column is set. */
  function LinkPatch(p: Provider, socialId: string): UserPatch
  {
    match p
    case Facebook => EmptyPatch.(facebookId := Set(socialId))
    case Google => EmptyPatch.(googleId := Set(socialId))
  }

  /** Linking sets the provider's column and leaves every other field as it was. */
  lemma LinkPatchLinks(u: User, p: Provider, socialId: string)
    ensures var v := ApplyPatch(u, LinkPatch(p, socialId));
      && v.Ok? && SocialId(v.value, p) == Some(socialId)
      && v.value == (match p
                     case Facebook => u.(facebookId := Some(socialId))
                     case Google => u.(googleId := Some(socialId)))
  {
  }

  /** The creation request for a new social user: the profile's first email and display name, a
      generated password and the provider id in the provider's column only. */
  function SocialCreateUser(p: Provider, profile: SocialProfile, randomPassword: string): CreateUser
    requires |profile.emails| > 0
  {
    CreateUser(profile.emails[0], randomPassword, profile.displayName, Unset,
               if p == Facebook then Some(profile.id) else None,
               if p == Google then Some(profile.id) else None)
  }

  /** `validateSocialLogin`: the user already holding the provider id is returned as it is; else
      the user with the profile's email is linked to the provider id; else a new user is
      created. In every case the returned user is stored and holds the provider id. */
  method ValidateSocialLogin(db: Store, p: Provider, profile: SocialProfile, randomPassword: string,
                             hashedPassword: string, newId: Id) returns (r: Result<User>)
    requires db.Valid() && newId !in db.users && |profile.emails| > 0
    modifies db
    ensures db.Valid()
    ensures db.courses == old(db.courses) && db.groups == old(db.groups) && db.grades == old(db.grades)
    ensures r.Ok? && r.value.id in db.users && db.users[r.value.id] == r.value && SocialId(r.value, p) == Some(profile.id)
    ensures SocialIdTaken(old(db.users), p, profile.id) ==>
      db.users == old(db.users) && r.value.id in old(db.users) && old(db.users)[r.value.id] == r.value
    ensures !SocialIdTaken(old(db.users), p, profile.id) && EmailTaken(old(db.users), profile.emails[0]) ==>
      && r.value.id in old(db.users) && old(db.users)[r.value.id].email == profile.emails[0]
      && r == ApplyPatch(old(db.users)[r.value.id], LinkPatch(p, profile.id))
      && db.users == old(db.users)[r.value.id := r.value]
    ensures !SocialIdTaken(old(db.users), p, profile.id) && !EmailTaken(old(db.users), profile.emails[0]) ==>
      && r == NewUser(newId, SocialCreateUser(p, profile, randomPassword), hashedPassword)
      && db.users == old(db.users)[newId := r.value]
  {
    var user := FindBySocialId(db, p, profile.id);
    if user.Some? {
      return Ok(user.value);
    }
    var email := profile.emails[0];
    user := FindByEmail(db, email);
    if user.Some? {
      r := Update(db, user.value.id, LinkPatch(p, profile.id), hashedPassword);
      LinkPatchLinks(user.value, p, profile.id);
      return;
    }
    r := Create(db, SocialCreateUser(p, profile, randomPassword), hashedPassword, newId);
  }
}
