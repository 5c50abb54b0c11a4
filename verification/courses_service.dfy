/** `CoursesService`: course rows, their defaults, public-course filtering, partial updates and
    the course-group relation. */
module CoursesService {
  import opened Wrappers
  import opened Entities
  import opened SeqOps

  /** The fields of a course creation request. The flags may be left out or be an explicit null
      (`IsOptional` lets both through validation); a null description and one left out are both
      stored as NULL. */
  datatype CreateCourse = CreateCourse(name: string, description: Option<string>,
                                       isPublic: Field<bool>, acceptingGrades: Field<bool>)

  /** The fields of an update request: the creation fields, each of which may be left out or
      be an explicit null. */
  datatype CoursePatch = CoursePatch(name: Field<string>, description: Field<string>,
                                     isPublic: Field<bool>, acceptingGrades: Field<bool>)

  /** The patch sets one of the NOT NULL columns (name, isPublic, acceptingGrades) to null. */
  predicate NullsRequiredColumn(p: CoursePatch)
  {
    p.name.Null? || p.isPublic.Null? || p.acceptingGrades.Null?
  }

  /** The columns the public queries select: id, name and description. */
  datatype PublicCourse = PublicCourse(id: Id, name: string, description: Option<string>)

  function PublicView(c: Course): PublicCourse
  {
    PublicCourse(c.id, c.name, c.description)
  }

  /** The insert `create` makes: a flag left out takes its column default, `isPublic` false and
      `acceptingGrades` true. An explicit null flag is inserted as NULL, which the NOT NULL
      column rejects. */
  function NewCourse(id: Id, dto: CreateCourse): (r: Result<Course>)
    ensures r.Err? <==> dto.isPublic.Null? || dto.acceptingGrades.Null?
    ensures r.Err? ==> r.error == Internal
    ensures r.Ok? ==> (r.value.isPublic <==> dto.isPublic == Set(true))
    ensures r.Ok? ==> (r.value.acceptingGrades <==> dto.acceptingGrades != Set(false))
    ensures r.Ok? ==> r.value.groups == [] && r.value.id == id && r.value.name == dto.name
    ensures r.Ok? ==> r.value.description == dto.description
  {
    if dto.isPublic.Null? || dto.acceptingGrades.Null? then Err(Internal)
    else Ok(Course(id, dto.name, dto.description, Assign(dto.isPublic, false),
                   Assign(dto.acceptingGrades, true), []))
  }

  /** `create`: one new row, or Internal when the insert puts a null into a NOT NULL flag. */
  method Create(db: Store, dto: CreateCourse, newId: Id) returns (r: Result<Course>)
    requires db.Valid() && newId !in db.courses
    modifies db
    ensures db.Valid()
    ensures db.users == old(db.users) && db.groups == old(db.groups) && db.grades == old(db.grades)
    ensures r == NewCourse(newId, dto)
    ensures r.Err? ==> r.error == Internal && db.courses == old(db.courses)
    ensures r.Ok? ==> db.courses == old(db.courses)[newId := r.value]
  {
    r := NewCourse(newId, dto);
    if r.Ok? {
      db.courses := db.courses[newId := r.value];
    }
  }

  /** `findPublic`: exactly the courses with `isPublic` set, as their public columns. */
  function FindPublic(db: Store): (r: map<Id, PublicCourse>)
    reads db
    requires db.Valid()
    ensures forall id :: id in r <==> id in db.courses && db.courses[id].isPublic
    ensures forall id :: id in r ==> r[id] == PublicView(db.courses[id]) && r[id].id == id
  {
    map id | id in db.courses && db.courses[id].isPublic :: PublicView(db.courses[id])
  }

  /** `findPublicCourse`: NotFound alike for a missing and for a private course. */
  function FindPublicCourse(db: Store, id: Id): (r: Result<PublicCourse>)
    reads db
    ensures r.Ok? <==> id in db.courses && db.courses[id].isPublic
    ensures r.Err? ==> r.error == NotFound
    ensures r.Ok? ==> r.value == PublicView(db.courses[id])
  {
    if id in db.courses && db.courses[id].isPublic then Ok(PublicView(db.courses[id])) else Err(NotFound)
  }

  /** `findPublicCourseGroups`: the course's groups, NotFound alike for a missing and a private
      course. */
  function FindPublicCourseGroups(db: Store, id: Id): (r: Result<seq<Id>>)
    reads db
    ensures r.Ok? <==> id in db.courses && db.courses[id].isPublic
    ensures r.Err? ==> r.error == NotFound
    ensures r.Ok? ==> r.value == db.courses[id].groups
  {
    if id in db.courses && db.courses[id].isPublic then Ok(db.courses[id].groups) else Err(NotFound)
  }

  /** A private course cannot be told apart from a missing one through the public queries,
      and every course returned by id is also listed by `findPublic`. */
  lemma PublicQueriesAgree(db: Store, id: Id)
    requires db.Valid()
    ensures FindPublicCourse(db, id).Ok? <==> id in FindPublic(db)
    ensures FindPublicCourse(db, id).Ok? ==> FindPublicCourse(db, id).value == FindPublic(db)[id]
    ensures FindPublicCourseGroups(db, id).Err? <==> FindPublicCourse(db, id).Err?
  {
  }

  /** `findOne`: NotFound for an unknown id. */
  function FindOne(db: Store, id: Id): (r: Result<Course>)
    reads db
    requires db.Valid()
    ensures r.Err? <==> id !in db.courses
    ensures r.Err? ==> r.error == NotFound
    ensures r.Ok? ==> r.value == db.courses[id] && r.value.id == id
  {
    if id in db.courses then Ok(db.courses[id]) else Err(NotFound)
  }

  /** `Object.assign(course, patch)` followed by the save: the supplied fields overwrite, a null
      clears the nullable description, and a null in a NOT NULL column makes the save fail. */
  function ApplyPatch(c: Course, p: CoursePatch): (r: Result<Course>)
    ensures r.Err? <==> NullsRequiredColumn(p)
    ensures r.Err? ==> r.error == Internal
    ensures r.Ok? ==> r.value.id == c.id && r.value.groups == c.groups
    ensures r.Ok? ==> (p.name.Set? ==> r.value.name == p.name.value) && (p.name.Unset? ==> r.value.name == c.name)
    ensures r.Ok? ==>
      && (p.description.Set? ==> r.value.description == Some(p.description.value))
      && (p.description.Null? ==> r.value.description == None)
      && (p.description.Unset? ==> r.value.description == c.description)
    ensures r.Ok? ==>
      && (p.isPublic.Set? ==> r.value.isPublic == p.isPublic.value)
      && (p.isPublic.Unset? ==> r.value.isPublic == c.isPublic)
    ensures r.Ok? ==>
      && (p.acceptingGrades.Set? ==> r.value.acceptingGrades == p.acceptingGrades.value)
      && (p.acceptingGrades.Unset? ==> r.value.acceptingGrades == c.acceptingGrades)
  {
    if NullsRequiredColumn(p) then Err(Internal)
    else
      Ok(c.(name := Assign(p.name, c.name), description := AssignNullable(p.description, c.description),
            isPublic := Assign(p.isPublic, c.isPublic),
            acceptingGrades := Assign(p.acceptingGrades, c.acceptingGrades)))
  }

  /** Applying the same patch twice is applying it once; the empty patch changes nothing. */
  lemma ApplyPatchIdempotent(c: Course, p: CoursePatch)
    ensures ApplyPatch(c, p).Ok? ==> ApplyPatch(ApplyPatch(c, p).value, p) == ApplyPatch(c, p)
    ensures ApplyPatch(c, CoursePatch(Unset, Unset, Unset, Unset)) == Ok(c)
  {
  }

  /** `update`: NotFound for an unknown id; a null in a NOT NULL column fails the save with
      Internal; otherwise only that row changes, by the patch. */
  method Update(db: Store, id: Id, patch: CoursePatch) returns (r: Result<Course>)
    requires db.Valid()
    modifies db
    ensures db.Valid()
    ensures db.users == old(db.users) && db.groups == old(db.groups) && db.grades == old(db.grades)
    ensures r.Err? ==> db.courses == old(db.courses)
    ensures id !in old(db.courses) ==> r == Err(NotFound)
    ensures id in old(db.courses) && NullsRequiredColumn(patch) ==> r == Err(Internal)
    ensures id in old(db.courses) && !NullsRequiredColumn(patch) ==>
      r == ApplyPatch(old(db.courses)[id], patch) && r.Ok? && db.courses == old(db.courses)[id := r.value]
  {
    var found := FindOne(db, id);
    if found.Err? {
      return Err(found.error);
    }
    r := ApplyPatch(found.value, patch);
    if r.Ok? {
      db.courses := db.courses[id := r.value];
    }
  }

  /** Some grade row references the course. */
  ghost predicate HasGrades(grades: map<Id, Grade>, courseId: Id)
  {
    exists g :: g in grades && grades[g].course == courseId
  }

  /** The users after a course is deleted: its rows in the enrolment join table go with it, so it
      leaves every user's enrolments and nothing else changes. */
  function DropEnrolments(users: map<Id, User>, courseId: Id): (r: map<Id, User>)
    ensures r.Keys == users.Keys
    ensures forall id :: id in r ==> r[id] == users[id].(enrolledCourses := Without(users[id].enrolledCourses, courseId))
  {
    map id | id in users :: users[id].(enrolledCourses := Without(users[id].enrolledCourses, courseId))
  }

  /** `remove`: NotFound when no row is deleted. The grades' foreign key to their course has no
      ON DELETE action, so deleting a course that grades reference fails (Internal) and deletes
      nothing; otherwise the row goes, the course leaves every user's enrolments, and no grade
      is left pointing at it. */
  method Remove(db: Store, id: Id) returns (r: Result<()>)
    requires db.Valid()
    modifies db
    ensures db.Valid()
    ensures db.groups == old(db.groups) && db.grades == old(db.grades)
    ensures id !in old(db.courses) ==> r == Err(NotFound)
    ensures id in old(db.courses) && HasGrades(db.grades, id) ==> r == Err(Internal)
    ensures r.Ok? <==> id in old(db.courses) && !HasGrades(db.grades, id)
    ensures r.Err? ==> db.courses == old(db.courses) && db.users == old(db.users)
    ensures r.Ok? ==>
      && db.courses == old(db.courses) - {id}
      && db.users == DropEnrolments(old(db.users), id)
      && (forall u :: u in db.users ==> id !in db.users[u].enrolledCourses)
      && (forall g :: g in db.grades ==> db.grades[g].course != id)
  {
    if id !in db.courses {
      return Err(NotFound);
    }
    if exists g :: g in db.grades && db.grades[g].course == id {
      return Err(Internal);
    }
    forall u | u in db.users
      ensures NoDuplicates(Without(db.users[u].enrolledCourses, id))
      ensures id !in Without(db.users[u].enrolledCourses, id)
    {
      WithoutNoDuplicates(db.users[u].enrolledCourses, id);
    }
    db.users := DropEnrolments(db.users, id);
    db.courses := db.courses - {id};
    r := Ok(());
  }

  /** `addGroup`: NotFound for a missing course or group; the group is appended unless the course
      already has it. */
  method AddGroup(db: Store, courseId: Id, groupId: Id) returns (r: Result<Course>)
    requires db.Valid()
    modifies db
    ensures db.Valid()
    ensures db.users == old(db.users) && db.groups == old(db.groups) && db.grades == old(db.grades)
    ensures r.Err? <==> courseId !in old(db.courses) || groupId !in old(db.groups)
    ensures r.Err? ==> r.error == NotFound && db.courses == old(db.courses)
    ensures r.Ok? ==>
      var c := old(db.courses)[courseId];
      && r.value == c.(groups := AppendIfAbsent(c.groups, groupId))
      && db.courses == old(db.courses)[courseId := r.value]
    ensures r.Ok? && groupId in old(db.courses)[courseId].groups ==> db.courses == old(db.courses)
  {
    var found := FindOne(db, courseId);
    if found.Err? {
      return Err(found.error);
    }
    if groupId !in db.groups {
      return Err(NotFound);
    }
    var course := found.value;
    var groupExists := groupId in course.groups;
    if !groupExists {
      course := course.(groups := course.groups + [groupId]);
      db.courses := db.courses[courseId := course];
    }
    r := Ok(course);
  }

  /** `removeGroup`: NotFound only for a missing course; the group is filtered out whether or not
      it exists. */
  method RemoveGroup(db: Store, courseId: Id, groupId: Id) returns (r: Result<Course>)
    requires db.Valid()
    modifies db
    ensures db.Valid()
    ensures db.users == old(db.users) && db.groups == old(db.groups) && db.grades == old(db.grades)
    ensures r.Err? <==> courseId !in old(db.courses)
    ensures r.Err? ==> r.error == NotFound && db.courses == old(db.courses)
    ensures r.Ok? ==>
      var c := old(db.courses)[courseId];
      && r.value == c.(groups := Without(c.groups, groupId))
      && db.courses == old(db.courses)[courseId := r.value]
      && groupId !in r.value.groups
  {
    var found := FindOne(db, courseId);
    if found.Err? {
      return Err(found.error);
    }
    var course := found.value;
    WithoutNoDuplicates(course.groups, groupId);
    course := course.(groups := Without(course.groups, groupId));
    db.courses := db.courses[courseId := course];
    r := Ok(course);
  }
}
