/** `UsersService`: user rows, email uniqueness on creation, partial updates and course
    enrolment. The bcrypt hash of a password is computed outside the model and passed in. */
module UsersService {
  import opened Wrappers
  import opened Entities
  import opened SeqOps

  /** `MinLength(6)` on the password of a user creation request. */
  const MinPasswordLength: nat := 6

  /** The fields of a user creation request. The role may be left out or be an explicit null
      (`IsOptional` lets both through validation); a null social id and one left out are both
      stored as NULL. */
  datatype CreateUser = CreateUser(email: string, password: string, name: string, role: Field<Role>,
                                   facebookId: Option<string>, googleId: Option<string>)

  /** The fields of an update request: the creation fields, each of which may be left out or
      be an explicit null (`IsOptional` lets both through validation). */
  datatype UserPatch = UserPatch(email: Field<string>, password: Field<string>, name: Field<string>,
                                 role: Field<Role>, facebookId: Field<string>, googleId: Field<string>)

  const EmptyPatch := UserPatch(Unset, Unset, Unset, Unset, Unset, Unset)

  /** The patch sets one of the NOT NULL columns (email, name, role) to null. */
  predicate NullsRequiredColumn(p: UserPatch)
  {
    p.email.Null? || p.name.Null? || p.role.Null?
  }

  ghost predicate EmailTaken(users: map<Id, User>, email: string)
  {
    exists id :: id in users && users[id].email == email
  }

  /** The insert `create` makes: the request's fields, the hashed password, and the column
      default Student for a role left out. An explicit null role is inserted as NULL, which the
      NOT NULL role column rejects. */
  function NewUser(id: Id, dto: CreateUser, hashedPassword: string): (r: Result<User>)
    ensures r.Err? <==> dto.role.Null?
    ensures r.Err? ==> r.error == Internal
    ensures r.Ok? ==> r.value.id == id && r.value.email == dto.email && r.value.name == dto.name
    ensures r.Ok? ==> r.value.password == Some(hashedPassword) && r.value.enrolledCourses == []
    ensures r.Ok? ==> r.value.facebookId == dto.facebookId && r.value.googleId == dto.googleId
    ensures r.Ok? ==> (dto.role.Set? ==> r.value.role == dto.role.value) && (dto.role.Unset? ==> r.value.role == Student)
  {
    if dto.role.Null? then Err(Internal)
    else Ok(User(id, dto.email, Some(hashedPassword), dto.name, Assign(dto.role, Student),
                 dto.facebookId, dto.googleId, []))
  }

  /** `Object.assign(user, patch)` followed by the save: the supplied fields overwrite, a null
      clears a nullable column (password, facebookId, googleId), and a null in a NOT NULL column
      makes the save fail. */
  function ApplyPatch(u: User, p: UserPatch): (r: Result<User>)
    ensures r.Err? <==> NullsRequiredColumn(p)
    ensures r.Err? ==> r.error == Internal
    ensures r.Ok? ==> r.value.id == u.id && r.value.enrolledCourses == u.enrolledCourses
    ensures r.Ok? ==> (p.email.Set? ==> r.value.email == p.email.value) && (p.email.Unset? ==> r.value.email == u.email)
    ensures r.Ok? ==> (p.name.Set? ==> r.value.name == p.name.value) && (p.name.Unset? ==> r.value.name == u.name)
    ensures r.Ok? ==> (p.role.Set? ==> r.value.role == p.role.value) && (p.role.Unset? ==> r.value.role == u.role)
    ensures r.Ok? ==>
      && (p.password.Set? ==> r.value.password == Some(p.password.value))
      && (p.password.Null? ==> r.value.password == None)
      && (p.password.Unset? ==> r.value.password == u.password)
    ensures r.Ok? ==>
      && (p.facebookId.Set? ==> r.value.facebookId == Some(p.facebookId.value))
      && (p.facebookId.Null? ==> r.value.facebookId == None)
      && (p.facebookId.Unset? ==> r.value.facebookId == u.facebookId)
    ensures r.Ok? ==>
      && (p.googleId.Set? ==> r.value.googleId == Some(p.googleId.value))
      && (p.googleId.Null? ==> r.value.googleId == None)
      && (p.googleId.Unset? ==> r.value.googleId == u.googleId)
  {
    if NullsRequiredColumn(p) then Err(Internal)
    else
      Ok(u.(email := Assign(p.email, u.email), password := AssignNullable(p.password, u.password),
            name := Assign(p.name, u.name), role := Assign(p.role, u.role),
            facebookId := AssignNullable(p.facebookId, u.facebookId),
            googleId := AssignNullable(p.googleId, u.googleId)))
  }

  /** Applying the same patch twice is applying it once; the empty patch changes nothing. */
  lemma ApplyPatchIdempotent(u: User, p: UserPatch)
    ensures ApplyPatch(u, p).Ok? ==> ApplyPatch(ApplyPatch(u, p).value, p) == ApplyPatch(u, p)
    ensures ApplyPatch(u, EmptyPatch) == Ok(u)
  {
  }

  /** The patch `update` assigns: a non-empty password is replaced by its hash; an empty or null
      one is falsy and assigned as it is. */
  function HashedPatch(p: UserPatch, hashedPassword: string): UserPatch
  {
    if p.password.Set? && p.password.value != "" then p.(password := Set(hashedPassword)) else p
  }

  /** `create`: Conflict when the email is taken; otherwise the insert, which fails with
      Internal for an explicit null role and else stores one new row. */
  method Create(db: Store, dto: CreateUser, hashedPassword: string, newId: Id) returns (r: Result<User>)
    requires db.Valid() && newId !in db.users
    modifies db
    ensures db.Valid()
    ensures db.courses == old(db.courses) && db.groups == old(db.groups) && db.grades == old(db.grades)
    ensures r.Err? ==> db.users == old(db.users)
    ensures EmailTaken(old(db.users), dto.email) ==> r == Err(Conflict)
    ensures !EmailTaken(old(db.users), dto.email) && dto.role.Null? ==> r == Err(Internal)
    ensures r.Ok? <==> !EmailTaken(old(db.users), dto.email) && !dto.role.Null?
    ensures r.Ok? ==> r == NewUser(newId, dto, hashedPassword) && db.users == old(db.users)[newId := r.value]
    ensures r.Ok? ==> forall id :: id in db.users ==> (db.users[id].email == dto.email <==> id == newId)
  {
    if exists id :: id in db.users && db.users[id].email == dto.email {
      return Err(Conflict);
    }
    r := NewUser(newId, dto, hashedPassword);
    if r.Err? {
      return;
    }
    db.users := db.users[newId := r.value];
  }

  /** `findOne`: NotFound for an unknown id. */
  function FindOne(db: Store, id: Id): (r: Result<User>)
    reads db
    requires db.Valid()
    ensures r.Err? <==> id !in db.users
    ensures r.Err? ==> r.error == NotFound
    ensures r.Ok? ==> r.value == db.users[id] && r.value.id == id
  {
    if id in db.users then Ok(db.users[id]) else Err(NotFound)
  }

  /** `findByEmail`: some user with that email, or none when no user has it. */
  method FindByEmail(db: Store, email: string) returns (r: Option<User>)
    ensures r.None? <==> !EmailTaken(db.users, email)
    ensures r.Some? ==> r.value.id in db.users && db.users[r.value.id] == r.value && r.value.email == email
    requires db.Valid()
  {
    if exists id :: id in db.users && db.users[id].email == email {
      var id :| id in db.users && db.users[id].email == email;
      r := Some(db.users[id]);
    } else {
      r := None;
    }
  }

  ghost predicate SocialIdTaken(users: map<Id, User>, p: Provider, socialId: string)
  {
    exists id :: id in users && SocialId(users[id], p) == Some(socialId)
  }

  /** `findBySocialId`: looks in `facebookId` or `googleId` according to the provider. */
  method FindBySocialId(db: Store, p: Provider, socialId: string) returns (r: Option<User>)
    requires db.Valid()
    ensures r.None? <==> !SocialIdTaken(db.users, p, socialId)
    ensures r.Some? ==> r.value.id in db.users && db.users[r.value.id] == r.value && SocialId(r.value, p) == Some(socialId)
  {
    if exists id :: id in db.users && SocialId(db.users[id], p) == Some(socialId) {
      var id :| id in db.users && SocialId(db.users[id], p) == Some(socialId);
      r := Some(db.users[id]);
    } else {
      r := None;
    }
  }

  /** Some user other than `id` already has `email`. */
  ghost predicate EmailTakenByOther(users: map<Id, User>, id: Id, email: string)
  {
    exists other :: other in users && other != id && users[other].email == email
  }

  /** The patch sets an email that another user than `id` already has. */
  ghost predicate EmailClash(users: map<Id, User>, id: Id, p: UserPatch)
  {
    p.email.Set? && EmailTakenByOther(users, id, p.email.value)
  }

  /** `update`: NotFound for an unknown id; otherwise the supplied fields overwrite the row, a
      supplied non-empty password replaced by its hash. Saving a null into a NOT NULL column, or
      an email another user already has (the unique email column), fails with Internal. */
  method Update(db: Store, id: Id, patch: UserPatch, hashedPassword: string) returns (r: Result<User>)
    requires db.Valid()
    modifies db
    ensures db.Valid()
    ensures db.courses == old(db.courses) && db.groups == old(db.groups) && db.grades == old(db.grades)
    ensures r.Err? ==> db.users == old(db.users)
    ensures id !in old(db.users) ==> r == Err(NotFound)
    ensures id in old(db.users) && (NullsRequiredColumn(patch) || EmailClash(old(db.users), id, patch)) ==>
      r == Err(Internal)
    ensures id in old(db.users) && !NullsRequiredColumn(patch) && !EmailClash(old(db.users), id, patch) ==>
      && r == ApplyPatch(old(db.users)[id], HashedPatch(patch, hashedPassword)) && r.Ok?
      && db.users == old(db.users)[id := r.value]
  {
    var found := FindOne(db, id);
    if found.Err? {
      return Err(found.error);
    }
    var user := found.value;
    var p := patch;
    if p.password.Set? && p.password.value != "" {
      p := p.(password := Set(hashedPassword));
    }
    var saved := ApplyPatch(user, p);
    if saved.Err? {
      return saved;
    }
    user := saved.value;
    if exists other :: other in db.users && other != id && db.users[other].email == user.email {
      return Err(Internal);
    }
    db.users := db.users[id := user];
    r := Ok(user);
  }

  /** Some grade row references the user as its student. */
  ghost predicate HasGrades(grades: map<Id, Grade>, userId: Id)
  {
    exists g :: g in grades && grades[g].student == userId
  }

  /** `remove`: NotFound when no row is deleted. The grades' foreign key to their student has no
      ON DELETE action, so deleting a user whom grades reference fails (Internal) and deletes
      nothing; otherwise the row goes and no grade is left pointing at it. */
  method Remove(db: Store, id: Id) returns (r: Result<()>)
    requires db.Valid()
    modifies db
    ensures db.Valid()
    ensures db.courses == old(db.courses) && db.groups == old(db.groups) && db.grades == old(db.grades)
    ensures id !in old(db.users) ==> r == Err(NotFound)
    ensures id in old(db.users) && HasGrades(db.grades, id) ==> r == Err(Internal)
    ensures r.Ok? <==> id in old(db.users) && !HasGrades(db.grades, id)
    ensures r.Err? ==> db.users == old(db.users)
    ensures r.Ok? ==> db.users == old(db.users) - {id} && forall g :: g in db.grades ==> db.grades[g].student != id
  {
    if id !in db.users {
      return Err(NotFound);
    }
    if exists g :: g in db.grades && db.grades[g].student == id {
      return Err(Internal);
    }
    db.users := db.users - {id};
    r := Ok(());
  }

  /** `addCourse`: NotFound for a missing user or course; enrols the course at the end unless
      it is already enrolled. */
  method AddCourse(db: Store, userId: Id, courseId: Id) returns (r: Result<User>)
    requires db.Valid()
    modifies db
    ensures db.Valid()
    ensures db.courses == old(db.courses) && db.groups == old(db.groups) && db.grades == old(db.grades)
    ensures r.Err? <==> userId !in old(db.users) || courseId !in old(db.courses)
    ensures r.Err? ==> r.error == NotFound && db.users == old(db.users)
    ensures r.Ok? ==>
      var u := old(db.users)[userId];
      && r.value == u.(enrolledCourses := AppendIfAbsent(u.enrolledCourses, courseId))
      && db.users == old(db.users)[userId := r.value]
    ensures r.Ok? && courseId in old(db.users)[userId].enrolledCourses ==> db.users == old(db.users)
  {
    if userId !in db.users {
      return Err(NotFound);
    }
    if courseId !in db.courses {
      return Err(NotFound);
    }
    var user := db.users[userId];
    var courseExists := courseId in user.enrolledCourses;
    if !courseExists {
      user := user.(enrolledCourses := user.enrolledCourses + [courseId]);
      db.users := db.users[userId := user];
    }
    r := Ok(user);
  }

  /** `removeCourse`: NotFound for a missing user; otherwise the course is filtered out of the
      enrolments (the course itself need not exist). */
  method RemoveCourse(db: Store, userId: Id, courseId: Id) returns (r: Result<User>)
    requires db.Valid()
    modifies db
    ensures db.Valid()
    ensures db.courses == old(db.courses) && db.groups == old(db.groups) && db.grades == old(db.grades)
    ensures r.Err? <==> userId !in old(db.users)
    ensures r.Err? ==> r.error == NotFound && db.users == old(db.users)
    ensures r.Ok? ==>
      var u := old(db.users)[userId];
      && r.value == u.(enrolledCourses := Without(u.enrolledCourses, courseId))
      && db.users == old(db.users)[userId := r.value]
      && courseId !in r.value.enrolledCourses
  {
    if userId !in db.users {
      return Err(NotFound);
    }
    var user := db.users[userId];
    WithoutNoDuplicates(user.enrolledCourses, courseId);
    user := user.(enrolledCourses := Without(user.enrolledCourses, courseId));
    db.users := db.users[userId := user];
    r := Ok(user);
  }
}
