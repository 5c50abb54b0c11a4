/** The four persisted entities and an in-memory store standing for their repositories. */
module Entities {
  import opened Wrappers
  import opened SeqOps

  /** A primary key (a uuid in the database). */
  type Id = string

  datatype Role = Admin | Student

  datatype Provider = Facebook | Google

  /** A user row; `password` (a bcrypt hash) is a nullable column, and `enrolledCourses` holds
      the ids of the joined courses, in join order. */
  datatype User = User(id: Id, email: string, password: Option<string>, name: string, role: Role,
                       facebookId: Option<string>, googleId: Option<string>,
                       enrolledCourses: seq<Id>)

  /** A course row; `groups` holds the ids of the joined groups, in join order. */
  datatype Course = Course(id: Id, name: string, description: Option<string>, isPublic: bool,
                           acceptingGrades: bool, groups: seq<Id>)

  datatype Group = Group(id: Id, name: string, description: Option<string>)

  /** A grade row with the ids of its student, course and (optional) group. */
  datatype Grade = Grade(id: Id, value: real, student: Id, course: Id, group: Option<Id>)

  /** The provider-specific social id column of a user. */
  function SocialId(u: User, p: Provider): Option<string>
  {
    match p
    case Facebook => u.facebookId
    case Google => u.googleId
  }

  /** The four repositories, each a map from primary key to row. */
  class Store {
    var users: map<Id, User>
    var courses: map<Id, Course>
    var groups: map<Id, Group>
    var grades: map<Id, Grade>

    /** Every row is stored under its own id, emails are unique (the `unique` email column),
        relation lists hold no duplicates and every grade value lies in [0, 100] (the grade
        DTOs' Min/Max). */
    ghost predicate Valid()
      reads this
    {
      && (forall id :: id in users ==> users[id].id == id && NoDuplicates(users[id].enrolledCourses))
      && (forall a, b :: a in users && b in users && users[a].email == users[b].email ==> a == b)
      && (forall id :: id in courses ==> courses[id].id == id && NoDuplicates(courses[id].groups))
      && (forall id :: id in groups ==> groups[id].id == id)
      && (forall id :: id in grades ==> grades[id].id == id && 0.0 <= grades[id].value <= 100.0)
    }

    constructor ()
      ensures Valid()
      ensures users == map[] && courses == map[] && groups == map[] && grades == map[]
    {
      users, courses, groups, grades := map[], map[], map[], map[];
    }
  }
}
