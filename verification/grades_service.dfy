/** `GradesService`: the accepting-grades gate and ownership rule on grade rows, partial grade
    updates, and the distribution reports built on `calculateStats`. */
module GradesService {
  import opened Wrappers
  import opened Entities
  import opened GradeStats

  /** The group name reported for grades without a group. */
  const NoGroup: string := "No Group"

  /** The fields of a grade creation request (`value` is validated to lie in [0, 100]). */
  datatype CreateGrade = CreateGrade(value: real, studentId: Id, courseId: Id, groupId: Option<Id>)

  /** What an update request says about the group: nothing (`undefined`), clear it (`null`),
      or move the grade to the group with the given id. */
  datatype GroupChange = Keep | Clear | SetTo(groupId: Id)

  /** The fields of an update request: the value may be left out or be an explicit null
      (`IsOptional` lets both through validation). */
  datatype GradePatch = GradePatch(value: Field<real>, group: GroupChange)

  /** `if (createGradeDto.groupId)`: an absent or empty group id means "no group". */
  predicate NamesGroup(dto: CreateGrade)
  {
    dto.groupId.Some? && dto.groupId.value != ""
  }

  /** `create`: NotFound for a missing student, then for a missing course, Forbidden for a
      course that does not accept grades, then NotFound for a named group that is missing. */
  method Create(db: Store, dto: CreateGrade, newId: Id) returns (r: Result<Grade>)
    requires db.Valid() && newId !in db.grades && 0.0 <= dto.value <= 100.0
    modifies db
    ensures db.Valid()
    ensures db.users == old(db.users) && db.courses == old(db.courses) && db.groups == old(db.groups)
    ensures dto.studentId !in db.users ==> r == Err(NotFound)
    ensures dto.studentId in db.users && dto.courseId !in db.courses ==> r == Err(NotFound)
    ensures dto.studentId in db.users && dto.courseId in db.courses && !db.courses[dto.courseId].acceptingGrades ==>
      r == Err(Forbidden)
    ensures (dto.studentId in db.users && dto.courseId in db.courses && db.courses[dto.courseId].acceptingGrades
             && NamesGroup(dto) && dto.groupId.value !in db.groups) ==> r == Err(NotFound)
    ensures r.Ok? <==>
      && dto.studentId in db.users && dto.courseId in db.courses && db.courses[dto.courseId].acceptingGrades
      && (NamesGroup(dto) ==> dto.groupId.value in db.groups)
    ensures r.Err? ==> r.error in {NotFound, Forbidden} && db.grades == old(db.grades)
    ensures r.Ok? ==>
      && r.value == Grade(newId, dto.value, dto.studentId, dto.courseId, if NamesGroup(dto) then dto.groupId else None)
      && db.grades == old(db.grades)[newId := r.value]
  {
    if dto.studentId !in db.users {
      return Err(NotFound);
    }
    if dto.courseId !in db.courses {
      return Err(NotFound);
    }
    var course := db.courses[dto.courseId];
    if !course.acceptingGrades {
      return Err(Forbidden);
    }
    var group: Option<Id> := None;
    if dto.groupId.Some? && dto.groupId.value != "" {
      if dto.groupId.value !in db.groups {
        return Err(NotFound);
      }
      group := dto.groupId;
    }
    var grade := Grade(newId, dto.value, dto.studentId, dto.courseId, group);
    db.grades := db.grades[newId := grade];
    r := Ok(grade);
  }

  /** `findOne`: NotFound for an unknown id. */
  function FindOne(db: Store, id: Id): (r: Result<Grade>)
    reads db
    requires db.Valid()
    ensures r.Err? <==> id !in db.grades
    ensures r.Err? ==> r.error == NotFound
    ensures r.Ok? ==> r.value == db.grades[id] && r.value.id == id && 0.0 <= r.value.value <= 100.0
  {
    if id in db.grades then Ok(db.grades[id]) else Err(NotFound)
  }

  /** The grade an update request saves: a supplied value overwrites, the group is kept, cleared
      or replaced; the student and the course never change. A null value is assigned as it is,
      and the save fails on the NOT NULL value column. */
  function ApplyPatch(g: Grade, p: GradePatch): (r: Result<Grade>)
    ensures r.Err? <==> p.value.Null?
    ensures r.Err? ==> r.error == Internal
    ensures r.Ok? ==> r.value.id == g.id && r.value.student == g.student && r.value.course == g.course
    ensures r.Ok? ==> (p.value.Set? ==> r.value.value == p.value.value) && (p.value.Unset? ==> r.value.value == g.value)
    ensures r.Ok? ==> p.group == Keep ==> r.value.group == g.group
    ensures r.Ok? ==> p.group == Clear ==> r.value.group == None
    ensures r.Ok? ==> p.group.SetTo? ==> r.value.group == Some(p.group.groupId)
  {
    if p.value.Null? then Err(Internal)
    else
      var group := match p.group
        case Keep => g.group
        case Clear => None
        case SetTo(id) => Some(id);
      Ok(g.(value := Assign(p.value, g.value), group := group))
  }

  /** Applying the same update twice is applying it once; an empty update changes nothing. */
  lemma ApplyPatchIdempotent(g: Grade, p: GradePatch)
    ensures ApplyPatch(g, p).Ok? ==> ApplyPatch(ApplyPatch(g, p).value, p) == ApplyPatch(g, p)
    ensures ApplyPatch(g, GradePatch(Unset, Keep)) == Ok(g)
  {
  }

  /** `update`: NotFound for an unknown grade, Forbidden when its course does not accept grades,
      NotFound for a target group that is missing, then Internal when the save meets a null
      value; the row is saved only when every check passes. A grade whose course row is missing
      fails with Internal (the source dereferences the missing relation). */
  method Update(db: Store, id: Id, patch: GradePatch) returns (r: Result<Grade>)
    requires db.Valid()
    requires patch.value.Set? ==> 0.0 <= patch.value.value <= 100.0
    modifies db
    ensures db.Valid()
    ensures db.users == old(db.users) && db.courses == old(db.courses) && db.groups == old(db.groups)
    ensures r.Err? ==> db.grades == old(db.grades)
    ensures id !in old(db.grades) ==> r == Err(NotFound)
    ensures id in old(db.grades) ==>
      var g := old(db.grades)[id];
      && (g.course !in db.courses ==> r == Err(Internal))
      && (g.course in db.courses && !db.courses[g.course].acceptingGrades ==> r == Err(Forbidden))
      && (g.course in db.courses && db.courses[g.course].acceptingGrades ==>
            if patch.group.SetTo? && patch.group.groupId !in db.groups then r == Err(NotFound)
            else if patch.value.Null? then r == Err(Internal)
            else r == ApplyPatch(g, patch) && r.Ok? && db.grades == old(db.grades)[id := r.value])
  {
    var found := FindOne(db, id);
    if found.Err? {
      return Err(found.error);
    }
    var grade := found.value;
    if grade.course !in db.courses {
      return Err(Internal);
    }
    if !db.courses[grade.course].acceptingGrades {
      return Err(Forbidden);
    }
    var nullValue := false;
    if patch.value != Unset {
      if patch.value.Null? {
        nullValue := true;
      } else {
        grade := grade.(value := patch.value.value);
      }
    }
    match patch.group {
      case Keep =>
      case Clear =>
        grade := grade.(group := None);
      case SetTo(groupId) =>
        if groupId !in db.groups {
          return Err(NotFound);
        }
        grade := grade.(group := Some(groupId));
    }
    if nullValue {
      return Err(Internal);
    }
    db.grades := db.grades[id := grade];
    r := Ok(grade);
  }

  /** `remove`: NotFound for an unknown grade; Forbidden when a non-admin removes another
      student's grade, then Forbidden when the course does not accept grades. A missing student
      row (looked at only for non-admins) or course row fails with Internal. */
  method Remove(db: Store, id: Id, actorId: Id, actorRole: Role) returns (r: Result<()>)
    requires db.Valid()
    modifies db
    ensures db.Valid()
    ensures db.users == old(db.users) && db.courses == old(db.courses) && db.groups == old(db.groups)
    ensures r.Err? ==> db.grades == old(db.grades)
    ensures r.Ok? ==> db.grades == old(db.grades) - {id}
    ensures id !in old(db.grades) ==> r == Err(NotFound)
    ensures id in old(db.grades) ==>
      var g := old(db.grades)[id];
      var owner := actorRole == Admin || (g.student in db.users && g.student == actorId);
      && (actorRole != Admin && g.student in db.users && g.student != actorId ==> r == Err(Forbidden))
      && (owner && g.course in db.courses && !db.courses[g.course].acceptingGrades ==> r == Err(Forbidden))
      && (r.Ok? <==> owner && g.course in db.courses && db.courses[g.course].acceptingGrades)
  {
    var found := FindOne(db, id);
    if found.Err? {
      return Err(found.error);
    }
    var grade := found.value;
    if actorRole != Admin {
      if grade.student !in db.users {
        return Err(Internal);
      }
      if grade.student != actorId {
        return Err(Forbidden);
      }
    }
    if grade.course !in db.courses {
      return Err(Internal);
    }
    if !db.courses[grade.course].acceptingGrades {
      return Err(Forbidden);
    }
    db.grades := db.grades - {id};
    r := Ok(());
  }

  // ----- Distribution reports -----

  /** The grade rows a query returns, in the order the database returns them: each matching row
      of `grades` exactly once. `groupId` restricts the rows to one group. */
  ghost predicate QueryRows(grades: map<Id, Grade>, rows: seq<Grade>, courseId: Id, groupId: Option<Id>)
  {
    && (forall i :: 0 <= i < |rows| ==>
          rows[i].id in grades && grades[rows[i].id] == rows[i] && rows[i].course == courseId
          && (groupId.Some? ==> rows[i].group == groupId))
    && (forall i, j :: 0 <= i < j < |rows| ==> rows[i].id != rows[j].id)
    && (forall id :: id in grades && grades[id].course == courseId && (groupId.Some? ==> grades[id].group == groupId) ==>
          exists i :: 0 <= i < |rows| && rows[i].id == id)
  }

  /** `grades.map(grade => grade.value)` */
  function Values(rows: seq<Grade>): (vs: seq<real>)
    ensures |vs| == |rows| && forall i :: 0 <= i < |rows| ==> vs[i] == rows[i].value
  {
    seq(|rows|, i requires 0 <= i < |rows| => rows[i].value)
  }

  /** The name a grade is reported under: its group's name, or `NoGroup` without a group. */
  function GroupName(groups: map<Id, Group>, g: Grade): string
  {
    if g.group.Some? && g.group.value in groups then groups[g.group.value].name else NoGroup
  }

  function LabelRows(groups: map<Id, Group>, rows: seq<Grade>): (lab: seq<Labelled>)
    ensures |lab| == |rows|
    ensures forall i :: 0 <= i < |rows| ==> lab[i] == Labelled(GroupName(groups, rows[i]), rows[i].value)
  {
    seq(|rows|, i requires 0 <= i < |rows| => Labelled(GroupName(groups, rows[i]), rows[i].value))
  }

  /** Total of the histogram counts of the per-group statistics over `names`. */
  function GroupHistogramTotal(lab: seq<Labelled>, names: seq<string>): nat
  {
    if names == [] then 0
    else GroupHistogramTotal(lab, names[..|names| - 1]) + BinTotal(Summary(ValuesLabelled(lab, names[|names| - 1])).distribution)
  }

  lemma {:induction false} PresentLabelNonEmpty(lab: seq<Labelled>, x: string)
    requires x in Labels(lab)
    ensures ValuesLabelled(lab, x) != []
  {
    var init := lab[..|lab| - 1];
    assert Labels(lab) == Labels(init) + [lab[|lab| - 1].group];
    if lab[|lab| - 1].group != x {
      PresentLabelNonEmpty(init, x);
    }
  }

  /** Every group that occurs has a non-empty value list, so its histogram counts all of its
      values. */
  lemma {:induction false} GroupHistogramsCount(lab: seq<Labelled>, names: seq<string>)
    requires forall i :: 0 <= i < |names| ==> names[i] in Labels(lab)
    ensures GroupHistogramTotal(lab, names) == GroupedCount(lab, names)
  {
    if names != [] {
      var x := names[|names| - 1];
      GroupHistogramsCount(lab, names[..|names| - 1]);
      PresentLabelNonEmpty(lab, x);
      SummaryHistogram(ValuesLabelled(lab, x));
    }
  }

  /** Every grade is counted in exactly one group's value list and exactly one bin of that
      group's histogram. */
  lemma GroupsCoverGrades(lab: seq<Labelled>)
    ensures GroupedCount(lab, FirstOccurrences(Labels(lab))) == |lab|
    ensures GroupHistogramTotal(lab, FirstOccurrences(Labels(lab))) == |lab|
  {
    var names := FirstOccurrences(Labels(lab));
    FirstOccurrencesMembers(Labels(lab));
    GroupsPartition(lab);
    GroupHistogramsCount(lab, names);
  }

  /** Every group present in the rows gets a full set of ten bins. */
  lemma GroupBins(lab: seq<Labelled>, g: string)
    requires g in Labels(lab)
    ensures |Summary(ValuesLabelled(lab, g)).distribution| == BinCount
  {
    PresentLabelNonEmpty(lab, g);
    SummaryHistogram(ValuesLabelled(lab, g));
  }

  /** The `for (const [groupName, values] of Object.entries(groups))` loop of `getDistribution`:
      the statistics of each group's values, keyed by the group's name. */
  method StatsPerGroup(names: seq<string>, groups: map<string, seq<real>>)
    returns (groupStats: map<string, Stats>)
    requires forall g :: g in groups <==> g in names
    ensures forall g :: g in groupStats <==> g in groups
    ensures forall g :: g in groupStats ==> groupStats[g] == Summary(groups[g])
  {
    groupStats := map[];
    for k := 0 to |names|
      invariant forall g :: g in groupStats <==> g in names[..k]
      invariant forall g :: g in groupStats ==> g in groups && groupStats[g] == Summary(groups[g])
    {
      var name := names[k];
      assert names[..k + 1] == names[..k] + [name];
      var s := CalculateStats(groups[name]);
      groupStats := groupStats[name := s];
    }
    assert names[..|names|] == names;
  }

  /** The report of `getDistribution`; `groupNames` is the order of the groups object's keys. */
  datatype CourseDistribution = CourseDistribution(courseName: string, overall: Stats, groupNames: seq<string>,
                                                   groups: map<string, Stats>, totalGrades: nat)

  /** `getDistribution`: NotFound for a missing course, Forbidden for a private one; otherwise the
      statistics of all grades and of each group's grades. `rows` are the course's grade rows in
      database order. */
  method GetDistribution(db: Store, courseId: Id, rows: seq<Grade>) returns (r: Result<CourseDistribution>)
    requires db.Valid() && QueryRows(db.grades, rows, courseId, None)
    ensures courseId !in db.courses ==> r == Err(NotFound)
    ensures courseId in db.courses && !db.courses[courseId].isPublic ==> r == Err(Forbidden)
    ensures r.Ok? <==> courseId in db.courses && db.courses[courseId].isPublic
    ensures r.Ok? ==>
      var d := r.value;
      var lab := LabelRows(db.groups, rows);
      && d.courseName == db.courses[courseId].name
      && d.overall == Summary(Values(rows))
      && d.groupNames == FirstOccurrences(Labels(lab))
      && (forall g :: g in d.groups <==> g in Labels(lab))
      && (forall g :: g in d.groups ==> d.groups[g] == Summary(ValuesLabelled(lab, g)) && |d.groups[g].distribution| == BinCount)
      && d.totalGrades == |rows|
      && GroupedCount(lab, d.groupNames) == d.totalGrades
      && GroupHistogramTotal(lab, d.groupNames) == d.totalGrades
  {
    if courseId !in db.courses {
      return Err(NotFound);
    }
    var course := db.courses[courseId];
    if !course.isPublic {
      return Err(Forbidden);
    }
    var allValues := Values(rows);
    var lab := LabelRows(db.groups, rows);
    var names, groups := GroupByLabel(lab);
    FirstOccurrencesMembers(Labels(lab));
    var groupStats := StatsPerGroup(names, groups);
    var overall := CalculateStats(allValues);
    GroupsCoverGrades(lab);
    forall g | g in groupStats ensures |groupStats[g].distribution| == BinCount {
      GroupBins(lab, g);
    }
    r := Ok(CourseDistribution(course.name, overall, names, groupStats, |allValues|));
  }

  /** The report of `getGroupDistribution`. */
  datatype GroupDistribution = GroupDistribution(courseName: string, group: string, stats: Stats, totalGrades: nat)

  /** `getGroupDistribution`: NotFound for a missing course, Forbidden for a private one, then
      NotFound for a missing group; otherwise the statistics of the course's grades in that group. */
  method GetGroupDistribution(db: Store, courseId: Id, groupId: Id, rows: seq<Grade>) returns (r: Result<GroupDistribution>)
    requires db.Valid() && QueryRows(db.grades, rows, courseId, Some(groupId))
    ensures courseId !in db.courses ==> r == Err(NotFound)
    ensures courseId in db.courses && !db.courses[courseId].isPublic ==> r == Err(Forbidden)
    ensures courseId in db.courses && db.courses[courseId].isPublic && groupId !in db.groups ==> r == Err(NotFound)
    ensures r.Ok? <==> courseId in db.courses && db.courses[courseId].isPublic && groupId in db.groups
    ensures r.Ok? ==>
      && r.value.courseName == db.courses[courseId].name
      && r.value.group == db.groups[groupId].name
      && r.value.stats == Summary(Values(rows))
      && r.value.totalGrades == |rows|
    ensures r.Ok? && rows != [] ==>
      && BinTotal(r.value.stats.distribution) == r.value.totalGrades
      && 0.0 <= r.value.stats.min <= r.value.stats.median <= r.value.stats.max <= 100.0
  {
    if courseId !in db.courses {
      return Err(NotFound);
    }
    var course := db.courses[courseId];
    if !course.isPublic {
      return Err(Forbidden);
    }
    if groupId !in db.groups {
      return Err(NotFound);
    }
    var values := Values(rows);
    var stats := CalculateStats(values);
    if rows != [] {
      SummaryBounds(values);
      assert values[0] in values;
    }
    r := Ok(GroupDistribution(course.name, db.groups[groupId].name, stats, |values|));
  }

  /** Stored grades lie in [0, 100], so the mean of a course's grades does too; the mean and
      the variance of the summary are those of the values in database order, so a standard
      deviation of the latter is one of the summary. */
  lemma StoredMoments(grades: map<Id, Grade>, rows: seq<Grade>, courseId: Id, sd: real)
    requires rows != [] && QueryRows(grades, rows, courseId, None)
    requires forall id :: id in grades ==> 0.0 <= grades[id].value <= 100.0
    requires var n := |rows| as real;
      sd * sd == SquaredDeviationSum(Values(rows), Sum(Values(rows)) / n) / n
    ensures var v := Values(rows);
      var n := |v| as real;
      var s := Summary(v);
      && s.mean == Sum(v) / n && 0.0 <= s.mean <= 100.0
      && s.variance == SquaredDeviationSum(v, s.mean) / n
      && sd * sd == s.variance
  {
    var v := Values(rows);
    var n := |v| as real;
    forall i | 0 <= i < |v| ensures 0.0 <= v[i] <= 100.0 {
      assert rows[i].id in grades;
    }
    SumBounds(v, 0.0, 100.0);
    MeanBetween(Sum(v), n, 0.0, 100.0);
    SummaryMean(v);
    SummaryVariance(v);
  }

  /** The x-domain of `generateNormalCurve`; the y-values are left out. */
  /** The curve's x-coordinates; `None` is the NaN coordinate of a count of 0. */
  datatype NormalCurve = NormalCurve(courseName: string, mean: real, standardDeviation: real, xs: seq<Option<real>>)

  /** `generateNormalCurve`: NotFound for a missing course, Forbidden for a private one, NotFound
      for a course without grades; otherwise `points + 1` x-values spread evenly over the three-
      sigma window clipped to [0, 100], or one NaN coordinate for a count of 0. `sd` is the
      square root of the population variance the source computes from the values. */
  method GenerateNormalCurve(db: Store, courseId: Id, points: int, rows: seq<Grade>, sd: real) returns (r: Result<NormalCurve>)
    requires db.Valid() && QueryRows(db.grades, rows, courseId, None)
    requires rows != [] ==>
      var n := |rows| as real;
      sd >= 0.0 && sd * sd == SquaredDeviationSum(Values(rows), Sum(Values(rows)) / n) / n
    ensures courseId !in db.courses ==> r == Err(NotFound)
    ensures courseId in db.courses && !db.courses[courseId].isPublic ==> r == Err(Forbidden)
    ensures courseId in db.courses && db.courses[courseId].isPublic && rows == [] ==> r == Err(NotFound)
    ensures r.Ok? <==> courseId in db.courses && db.courses[courseId].isPublic && rows != []
    ensures r.Ok? ==>
      var c := r.value;
      && c.courseName == db.courses[courseId].name
      && c.mean == Summary(Values(rows)).mean && 0.0 <= c.mean <= 100.0
      && c.standardDeviation == sd && sd * sd == Summary(Values(rows)).variance
      && |c.xs| == (if points < 0 then 0 else points + 1)
      && (points == 0 ==> c.xs == [None])
      && (points > 0 ==>
            && c.xs[0].Some? && c.xs[0].value == CurveLow(c.mean, sd)
            && c.xs[points].Some? && c.xs[points].value == CurveHigh(c.mean, sd)
            && forall i :: 0 <= i < |c.xs| ==> c.xs[i].Some? && 0.0 <= c.xs[i].value <= 100.0)
  {
    if courseId !in db.courses {
      return Err(NotFound);
    }
    var course := db.courses[courseId];
    if !course.isPublic {
      return Err(Forbidden);
    }
    var values := Values(rows);
    if |values| == 0 {
      return Err(NotFound);
    }
    var n := |values| as real;
    var mean := Sum(values) / n;
    StoredMoments(db.grades, rows, courseId, sd);
    var xs := CurveXs(mean, sd, points);
    r := Ok(NormalCurve(course.name, mean, sd, xs));
  }
}
