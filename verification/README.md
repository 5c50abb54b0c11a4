# Grade tracking: a Dafny model of the grade, course and account logic

The system is a grade-tracking web application.

- A NestJS backend stores users, courses, groups and grades. It enforces the rules around them:
  - courses accept grades or not;
  - students only remove their own grades;
  - emails are unique;
  - enrolments and course groups never hold duplicates.
- It also reports statistics over a course's grades:
  - min, max, mean, median, population variance and a ten-bin histogram, overall and per group;
  - the x-domain of a normal curve.
- A React frontend adds up the groups' histograms into a total with a weighted mean and variance, and picks the chart datasets.
- The frontend also colours grades by band and validates the registration form.

This project models that core in Dafny.

**Modules**

| Module | Models |
|---|---|
| `Wrappers` | `Option`, `Result` and the HTTP errors (`NotFound`, `Forbidden`, `Conflict`, `Internal`). |
| `Entities` | The four entities and the `Store` class. |
| `SeqOps` | Duplicate-free insertion (`AppendIfAbsent`) and filtering removal (`Without`). These are shared by enrolments and course groups. |
| `Sorting` | The numeric sort used by `calculateStats`. |
| `GradeStats` | `calculateStats`, the grouping loop of `getDistribution`, and the x-domain loop of `generateNormalCurve`. |
| `UsersService`, `CoursesService`, `GradesService`, `AuthService` | The four backend services. Each operation is a method over a `Store` passed in; the method changes the store in place. |
| `Config`, `DistributionChart`, `ProfilePage`, `RegisterPage` | The frontend constant tables and helpers. |

**Store**
- `Store` has four maps keyed by id: users, courses, groups and grades.
- Its invariant `Valid()` says:
  - every row sits under its own id;
  - emails are unique (the `unique` email column);
  - enrolment and group lists hold no duplicates;
  - every grade value lies in [0, 100].

**Values from outside the system are parameters**
- The new row's uuid, with a requires that it is unused.
- The bcrypt hash of a new password, and the bcrypt comparison as a function.
- The JWT signer as a function.
- The random password of a social user.
- The rows a query returns, in database order, tied to the store by `GradesService.QueryRows`.
- The standard deviation: any `sd >= 0` whose square is the variance.

**Statistics**
- Numbers are `real`, so every bin and mean statement holds under exact arithmetic.
- The JavaScript sort is modelled by an insertion sort. `Sorting.SortedUnique` shows that every sorted permutation is the same sequence, so the result does not depend on the engine's algorithm.

## Model

| member | source | states |
|---|---|---|
| Sorting.Insert | backend/src/grades/grades.service.ts:228 | Inserting into a sorted sequence keeps it sorted and adds exactly the one element. |
| Sorting.SortedCopy | backend/src/grades/grades.service.ts:228 | The sorted copy is sorted and is a permutation of the input; the input, a value, is not reordered. |
| Sorting.SortedUnique | backend/src/grades/grades.service.ts:228 | Two sorted sequences with the same elements are equal, so any correct numeric sort gives the same result. |
| Sorting.SortedCopyMembers | backend/src/grades/grades.service.ts:228 | A value occurs in the input exactly when it occurs in the sorted copy. |
| GradeStats.SumOfPermutation | backend/src/grades/grades.service.ts:233-234 | A sum does not depend on the order of its terms, so the mean and the variance of the sorted copy are those of the input. |
| GradeStats.MedianBetween | backend/src/grades/grades.service.ts:237-243 | The median (middle element, or the average of the two middle ones) lies between the least and the greatest element. |
| GradeStats.SquaredDeviationSumNonNegative | backend/src/grades/grades.service.ts:246-248 | The sum of squared deviations is never negative. |
| GradeStats.ExactlyOneBin | backend/src/grades/grades.service.ts:264-275 | A value between min and max is in exactly one bin: the first whose start is at most the value and whose end is above it, with the last bin also holding its end. |
| GradeStats.BinsDisjoint | backend/src/grades/grades.service.ts:264-275 | With a positive width, a value in one bin is in no later bin. |
| GradeStats.HistogramSnoc | backend/src/grades/grades.service.ts:264-275 | Counting one more value increments exactly its bin, or changes nothing when it falls outside every bin. |
| GradeStats.HistogramTotal | backend/src/grades/grades.service.ts:252-275 | When every value lies between min and max, the ten bin counts add up to the number of values. |
| GradeStats.SummaryBounds | backend/src/grades/grades.service.ts:228-243 | For non-empty input, min and max are input values, every value lies between them, and min <= median <= max. |
| GradeStats.SummaryMean | backend/src/grades/grades.service.ts:233-234 | The mean is the sum of the input over its length, and lies between min and max. |
| GradeStats.SummaryVariance | backend/src/grades/grades.service.ts:246-248 | The variance is the population variance of the input around its mean, and is never negative. |
| GradeStats.SummaryHistogram | backend/src/grades/grades.service.ts:252-275 | For non-empty input there are ten bins and their counts add up to the number of values. |
| GradeStats.FillBins | backend/src/grades/grades.service.ts:252-275 | The nested bin loops, with their early `break`, produce the histogram of the sorted values. |
| GradeStats.CalculateStats | backend/src/grades/grades.service.ts:215-285 | The method computes the summary. Empty input gives zeros and no bins. Otherwise there are ten bins counting every value, min <= median <= max, and variance >= 0. |
| GradeStats.FirstOccurrencesMembers | backend/src/grades/grades.service.ts:157-166 | The group names, in order of first appearance, are exactly the labels present, without duplicates. |
| GradeStats.AbsentLabelEmpty | backend/src/grades/grades.service.ts:157-166 | A name that labels no row has no values. |
| GradeStats.GroupsPartition | backend/src/grades/grades.service.ts:157-178 | The group sizes add up to the number of grades: every grade is in exactly one group. |
| GradeStats.GroupStep | backend/src/grades/grades.service.ts:160-165 | Creating the group on first sight and pushing the value turns the groups of the first k rows into those of the first k + 1. |
| GradeStats.GroupByLabel | backend/src/grades/grades.service.ts:157-166 | The grouping loop yields, for each name present and no other, the values labelled with it in row order. The names come in order of first appearance. |
| GradeStats.CurveDomain | backend/src/grades/grades.service.ts:316-317 | For a mean in [0, 100] and sd >= 0, the clipped three-sigma window is an interval inside [0, 100] holding the mean. |
| GradeStats.StepWithin | backend/src/grades/grades.service.ts:318-325 | Every x-coordinate min + i * step with i <= points lies in the window. |
| GradeStats.CurveXWithin | backend/src/grades/grades.service.ts:316-322 | For a positive count, every coordinate min + i * step with i <= points is a number in the clipped window, which lies inside [0, 100]. The first coordinate is the window's low end and the last its high end. |
| GradeStats.CurveXs | backend/src/grades/grades.service.ts:316-325 | There are points + 1 x-coordinates, or none for a negative count. A count of 0 gives one NaN coordinate (the step divides by zero). Otherwise every coordinate is the numeric i-th step; for a positive count they run from the window's low end to its high end, all inside [0, 100]. |
| Entities.Store.constructor | backend/src/users/entities/user.entity.ts:15 | An empty store satisfies the invariant, including unique emails. |
| UsersService.ApplyPatch | backend/src/users/users.service.ts:72-73 | Saving fails with Internal exactly when the patch nulls a NOT NULL column (email, name, role). Otherwise a supplied field overwrites its column, a null clears a nullable one (password, facebookId, googleId), and a field left out keeps its value. Id and enrolments never change. |
| UsersService.ApplyPatchIdempotent | backend/src/users/users.service.ts:72 | Applying a patch twice is applying it once, and the empty patch changes nothing. |
| UsersService.NewUser | backend/src/users/entities/user.entity.ts:24-29 | The insert fails with Internal exactly when the request's role is an explicit null (the role column is NOT NULL). Otherwise the row has the request's fields, the hashed password, no enrolments, and the role supplied or the default Student when left out. |
| UsersService.Create | backend/src/users/users.service.ts:19-36 | A taken email gives Conflict. Otherwise an explicit null role fails the insert with Internal. Success exactly when neither applies; then exactly the new row is added, and afterwards only that row has the email. On error the store is unchanged. |
| UsersService.FindOne | backend/src/users/users.service.ts:42-51 | NotFound exactly for an unknown id; otherwise the stored row. |
| UsersService.FindByEmail | backend/src/users/users.service.ts:53-55 | None exactly when no user has the email; otherwise a stored user with that email. |
| UsersService.FindBySocialId | backend/src/users/users.service.ts:57-63 | Looks in the provider's own column. None exactly when no user holds the id there. |
| UsersService.Update | backend/src/users/users.service.ts:65-74 | An unknown id gives NotFound. A null in a NOT NULL column, or an email another user holds (the unique column), fails with Internal and leaves the store unchanged. Otherwise the patch is applied, with a supplied non-empty password replaced by its hash. |
| UsersService.Remove | backend/src/users/users.service.ts:76-81 | NotFound when no row matches. A user whom grades reference is not deleted: the grades' foreign key has no ON DELETE action, so the delete fails with Internal. Otherwise only that row goes, and no grade points at it. |
| UsersService.AddCourse | backend/src/users/users.service.ts:83-109 | NotFound for a missing user or course. Otherwise the course is appended after the existing enrolments unless already enrolled, in which case nothing changes. |
| UsersService.RemoveCourse | backend/src/users/users.service.ts:111-123 | NotFound only for a missing user. Otherwise the course is filtered out of the enrolments and absent afterwards. |
| SeqOps.AppendIfAbsent | backend/src/users/users.service.ts:102-104 | Appends at the end only when absent. The result holds no duplicates when the input holds none, and keeps the input as a prefix. |
| SeqOps.AppendIfAbsentIdempotent | backend/src/users/users.service.ts:102-108 | Adding the same element twice is adding it once. |
| SeqOps.Without | backend/src/users/users.service.ts:121 | The element is absent afterwards, every other element is kept, and nothing is added. |
| SeqOps.WithoutConcat | backend/src/users/users.service.ts:121 | Filtering distributes over concatenation, so the kept elements stay in their relative order. |
| SeqOps.WithoutAbsent | backend/src/users/users.service.ts:121 | Removing an element that is not there changes nothing. |
| SeqOps.WithoutIdempotent | backend/src/users/users.service.ts:121 | Removing twice is removing once. |
| SeqOps.WithoutMultiset | backend/src/courses/courses.service.ts:122 | Filtering removes every copy of the element and no other element. |
| SeqOps.WithoutNoDuplicates | backend/src/courses/courses.service.ts:122 | Filtering keeps a duplicate-free list duplicate-free. |
| CoursesService.NewCourse | backend/src/courses/entities/course.entity.ts:16-20 | The insert fails with Internal exactly when `isPublic` or `acceptingGrades` is an explicit null (both columns are NOT NULL). Otherwise the course is public only when asked and accepts grades unless asked not to; it starts with no groups. |
| CoursesService.Create | backend/src/courses/courses.service.ts:18-21 | The outcome is the insert's: Internal for an explicit null flag, with nothing stored; otherwise exactly the new course row is added. |
| CoursesService.FindPublic | backend/src/courses/courses.service.ts:27-32 | Exactly the courses with isPublic set, as id, name and description. |
| CoursesService.FindPublicCourse | backend/src/courses/courses.service.ts:34-45 | NotFound alike for a missing and for a private course; otherwise its public columns. |
| CoursesService.FindPublicCourseGroups | backend/src/courses/courses.service.ts:47-58 | NotFound alike for a missing and for a private course; otherwise its groups. |
| CoursesService.PublicQueriesAgree | backend/src/courses/courses.service.ts:27-58 | A course found by id is the one listed publicly, and the group query fails exactly when the course query does. |
| CoursesService.FindOne | backend/src/courses/courses.service.ts:60-69 | NotFound exactly for an unknown id; otherwise the stored row. |
| CoursesService.ApplyPatch | backend/src/courses/courses.service.ts:73-74 | Saving fails with Internal exactly when the patch nulls a NOT NULL column (name, isPublic, acceptingGrades). Otherwise a supplied field overwrites, a null clears the description, and a field left out keeps its value. Id and groups are kept. |
| CoursesService.ApplyPatchIdempotent | backend/src/courses/courses.service.ts:73 | Applying a patch twice is applying it once; the empty patch changes nothing. |
| CoursesService.Update | backend/src/courses/courses.service.ts:71-75 | NotFound for an unknown id. A null in a NOT NULL column fails with Internal and nothing changes. Otherwise only that row changes, by the patch. |
| CoursesService.DropEnrolments | backend/src/users/entities/user.entity.ts:40-41 | Deleting a course removes its rows from the enrolment join table: every user keeps all other fields and loses only that course from the enrolments. |
| CoursesService.Remove | backend/src/courses/courses.service.ts:77-82 | NotFound when no row matches. A course that grades reference is not deleted: the delete fails with Internal and nothing changes. Otherwise the row goes, the course leaves every user's enrolments, and no grade points at it. |
| CoursesService.AddGroup | backend/src/courses/courses.service.ts:84-110 | NotFound for a missing course or group. Otherwise the group is appended unless present, in which case nothing changes. |
| CoursesService.RemoveGroup | backend/src/courses/courses.service.ts:112-124 | NotFound only for a missing course, whether or not the group exists. Otherwise the group is filtered out and absent afterwards. |
| GradesService.Create | backend/src/grades/grades.service.ts:24-61 | Errors come in this order: NotFound for the student, NotFound for the course, Forbidden for a closed course, NotFound for a named group that is missing. Success exactly when all checks pass; then one row with the named group, if any, is added. |
| GradesService.FindOne | backend/src/grades/grades.service.ts:69-78 | NotFound exactly for an unknown id; a found grade lies in [0, 100]. |
| GradesService.ApplyPatch | backend/src/grades/grades.service.ts:101-119 | Saving fails with Internal exactly when the value is an explicit null (the value column is NOT NULL). Otherwise a supplied value overwrites and one left out is kept. The group is kept (undefined), cleared (null) or replaced. Student and course never change. |
| GradesService.ApplyPatchIdempotent | backend/src/grades/grades.service.ts:101-119 | Applying an update twice is applying it once; an empty update changes nothing. |
| GradesService.Update | backend/src/grades/grades.service.ts:94-120 | NotFound for an unknown grade, Forbidden for a closed course, NotFound for a missing target group, then Internal when the save meets a null value. Otherwise exactly that row becomes the patched grade; on error nothing changes. |
| GradesService.Remove | backend/src/grades/grades.service.ts:122-136 | NotFound for an unknown grade. Forbidden when a non-admin removes another student's grade, then Forbidden for a closed course. The row is deleted exactly when the actor may and the course accepts grades. |
| GradesService.Values | backend/src/grades/grades.service.ts:153 | One value per row, in row order. |
| GradesService.LabelRows | backend/src/grades/grades.service.ts:157-166 | One labelled value per row, in row order. The label is the group's name, or "No Group" for a grade without a group. |
| GradesService.GroupsCoverGrades | backend/src/grades/grades.service.ts:157-178 | The group sizes, and the group histograms' counts, both add up to the number of grades. |
| GradesService.GroupBins | backend/src/grades/grades.service.ts:169-172 | Every group present has a ten-bin histogram, since it holds at least one grade. |
| GradesService.StatsPerGroup | backend/src/grades/grades.service.ts:169-172 | One statistics entry per group, for no other name, each the summary of that group's values. |
| GradesService.GetDistribution | backend/src/grades/grades.service.ts:138-180 | NotFound for a missing course, Forbidden for a private one. Otherwise: the overall summary; one ten-bin summary per group name present; totalGrades is the number of grades and equals both the group sizes' sum and the group histograms' sum. |
| GradesService.GetGroupDistribution | backend/src/grades/grades.service.ts:182-213 | NotFound for a missing course, Forbidden for a private one, then NotFound for a missing group. Otherwise the summary of that group's grades; with grades, its bins count all of them and 0 <= min <= median <= max <= 100. |
| GradesService.StoredMoments | backend/src/grades/grades.service.ts:309-314 | The mean of a course's stored grades lies in [0, 100], and a square root of their variance is one of the summary's variance. |
| GradesService.GenerateNormalCurve | backend/src/grades/grades.service.ts:287-333 | NotFound for a missing course, Forbidden for a private one, NotFound with no grades. Otherwise the mean (in [0, 100]) and the standard deviation of the summary. There are points + 1 x-coordinates across the clipped window inside [0, 100], or one NaN coordinate for a count of 0. |
| AuthService.ValidateUser | backend/src/auth/auth.service.ts:15-22 | A user exactly when some user has the email and the password matches its hash; that user is returned without its password or relations. The bcrypt comparison rejects a null hash, which surfaces as Internal exactly when the user with the email has no password. |
| AuthService.Login | backend/src/auth/auth.service.ts:24-35 | The token signs the email, sub = id and the role. The user record holds only id, email, name and role. |
| AuthService.LoginIgnoresSecrets | backend/src/auth/auth.service.ts:24-35 | The login result never depends on the password hash, the social ids or the enrolments. |
| AuthService.Register | backend/src/auth/auth.service.ts:37-40 | A taken email propagates Conflict and an explicit null role propagates Internal, both with nothing stored. Otherwise the new user is stored and logged in. |
| AuthService.LinkPatchLinks | backend/src/auth/auth.service.ts:50-58 | Linking sets only the provider's own social-id column. |
| AuthService.ValidateSocialLogin | backend/src/auth/auth.service.ts:42-78 | Three cases. A holder of the social id is returned with nothing changed. Else the user with the profile's first email gets the provider's column set. Else exactly one user is created with that email, the display name and the id in the provider's column. In every case the stored user holds the social id. |
| Config.GradeRangesWellFormed | frontend/src/config.ts:39-50 | Ten ranges, from 0 to 100, each with min <= max. Each range starts one above the end of the previous. |
| Config.GradeRangeCaptions | frontend/src/config.ts:40-49 | Every range is labelled "min-max" with its own bounds. |
| Config.GradeRangesPartition | frontend/src/config.ts:39-50 | Every integer grade from 0 to 100 lies in exactly one range. |
| Config.ParseNatToString | frontend/src/config.ts:40-49 | The decimal numerals in the labels read back as the numbers they were written from. |
| Config.ColorFor | frontend/src/config.ts:21-36 | `index % CHART_COLORS.length` always picks a colour of the palette. |
| Config.ColorsCycle | frontend/src/config.ts:21-36 | The first fourteen indices take the palette in order; an index fourteen further on takes the same colour again. |
| DistributionChart.SumBuckets | frontend/src/components/GradeDistributionChart.tsx:57-67 | The in-place accumulation over the array of buckets yields the total buckets: each range's bounds and label, with the groups' counts at that index added up. |
| DistributionChart.TotalConservesCounts | frontend/src/components/GradeDistributionChart.tsx:57-77 | The total is labelled total/Total. It has one bucket per range with copied bounds and labels, each the column sum of the groups. Its count is the number of grades of all groups. |
| DistributionChart.ColumnsCountEveryGrade | frontend/src/components/GradeDistributionChart.tsx:63-67 | Adding up by bucket loses and invents no grade. |
| DistributionChart.WeightedTotals | frontend/src/components/GradeDistributionChart.tsx:70-77 | The first pass computes the midpoint sum weighted by the counts, and the count. |
| DistributionChart.SquaresTotal | frontend/src/components/GradeDistributionChart.tsx:81-86 | The second pass computes the squared deviations of the midpoints weighted by the counts. |
| DistributionChart.Moments | frontend/src/components/GradeDistributionChart.tsx:70-87 | Mean and variance are 0 with no grades; otherwise they are the weighted sums over the count. |
| DistributionChart.WeightedSumBounds | frontend/src/components/GradeDistributionChart.tsx:70-77 | When every midpoint lies in [lo, hi], the weighted sum lies between lo and hi times the count. |
| DistributionChart.TotalMoments | frontend/src/components/GradeDistributionChart.tsx:70-87 | With no grade, mean and variance are 0. Otherwise the mean is the count-weighted mean of the midpoints and lies in [0, 100]. The variance is never negative. |
| DistributionChart.CalculateTotalDistribution | frontend/src/components/GradeDistributionChart.tsx:55-96 | The method computes the total distribution, whose properties are the two lemmas above. |
| DistributionChart.CurveLinesComplete | frontend/src/components/GradeDistributionChart.tsx:132-151 | Every shown distribution with positive variance gets a normal-curve line in its own colour. |
| DistributionChart.CurveLinesSound | frontend/src/components/GradeDistributionChart.tsx:132-151 | Every normal-curve line belongs to a shown distribution with positive variance. |
| DistributionChart.Bars | frontend/src/components/GradeDistributionChart.tsx:122-129 | One bar dataset per shown distribution, in order, with its counts and its position's colour. |
| DistributionChart.AddCurves | frontend/src/components/GradeDistributionChart.tsx:132-151 | The push loop appends exactly the normal-curve lines after the bars. |
| DistributionChart.PrepareChartData | frontend/src/components/GradeDistributionChart.tsx:114-157 | The labels are the range labels. The datasets are the bars of the groups (plus the total when shown), followed by their normal-curve lines only when curves are switched on. |
| ProfilePage.GradeClass | frontend/src/pages/ProfilePage.js:164-169 | excellent exactly from 90, good exactly in [75, 90), average exactly in [60, 75), poor exactly below 60. |
| ProfilePage.GradeClassMonotone | frontend/src/pages/ProfilePage.js:164-169 | A higher grade never gets a lower class. |
| RegisterPage.HandleSubmit | frontend/src/pages/RegisterPage.js:19-36 | Checks in order (empty field, mismatch, short password) and reports only the first failure. Registers exactly when all three pass. The length is JavaScript's, in UTF-16 code units. |
| RegisterPage.CharactersBoundUtf16 | frontend/src/pages/RegisterPage.js:29 | A string has at least as many UTF-16 code units as characters, and at most twice as many. |
| RegisterPage.BackendMinimumPassesForm | backend/src/users/dto/create-user.dto.ts:14 | A password of at least six characters always passes the page's length check. The backend's `MinLength` count is at most the number of characters, so this covers every password the backend accepts. |
| RegisterPage.FormAdmitsShortPassword | frontend/src/pages/RegisterPage.js:29 | The converse fails. Three characters above U+FFFF are six UTF-16 code units, so the page submits a three-character password, which the backend's `MinLength(6)` refuses. |

## Left out

**Floating point and maths**
- Floating point: numbers are exact reals. Float rounding at bin boundaries and in the means is not modelled.
- `Math.sqrt`: the standard deviation is a parameter whose square is the variance.
- GradeStats.CalculateStats: the summary carries the population variance where the source returns `standardDeviation`, its square root. Every statement about the spread is made about the variance.
- The normal curve's y-values: `Math.exp`, `normalPDF`, and the frontend's `generateNormalCurveData` with its y-values are not part of this model. The chart's curve datasets therefore carry a name and a colour but no data.
- `toFixed(1)` bin labels are display keys; bins are identified by index. Two labels can collide when the range is narrower than 0.5, and that is not modelled.
- GradesService.GenerateNormalCurve: the count is an integer. A query string that `parseInt` turns into NaN is not modelled; the source would then return no coordinates.
- GradesService.GenerateNormalCurve: a standard deviation of 0 is not treated specially. The window then shrinks to the mean, and the model follows the code. The y-values, which would divide by zero, are outside the model.

**Objects, order and the database**
- JavaScript object key order: the groups object of `getDistribution` is a map plus the list of names in order of first appearance. Integer-like group names, which JS would reorder, and prototype keys are not modelled.
- Database: row order is a parameter.
- Foreign keys: the store invariant does not include referential integrity. The services keep it: grade creation checks its student and course, and user and course removal refuse rows that grades reference. The Internal branches of grade update and removal for a missing student or course therefore arise only in stores not built through the services.
- The grade's foreign key to its group, and the deletion of groups, are not modelled (`groups.service.ts` is not part of this model).
- UsersService.Update: a duplicate email is reported as Internal, standing for the database's unique-constraint error.

**Libraries, randomness and concurrency**
- bcrypt, JWT and `Math.random` are parameters.
- OAuth, controllers, guards, DTO decorators and `async` ordering are not modelled. The grade value range of the DTOs appears as a precondition.
- AuthService.ValidateSocialLogin requires a profile with at least one email. The source reads `emails[0].value` and would throw without one.

**Partial or omitted operations**
- The update DTOs (`UpdateUserDto`, `UpdateCourseDto`) are not part of this model. They are modelled as the creation fields, each of which may be left out or be an explicit null. An optional creation field that is NOT NULL in its table (a user's role, a course's flags, a grade update's value) is likewise left out or null; a nullable one (description, social ids) is an `Option`, since null and left out both store NULL. The validators on a supplied value, such as `IsEmail` and `MinLength`, are not modelled.
- `findAll`, `findByStudent` and `findByCourse` only return stored rows and are not modelled. `groups.service.ts` is not part of this model.
- DistributionChart.CalculateTotalDistribution requires every group histogram to have at most ten buckets (`BucketsFit`). With more, the source would index past the end of the total's array.
- ProfilePage.GradeClass takes a real. Non-number grades, such as `undefined` or strings, are not modelled.
- React state and rendering, toasts and the submitting flag are not modelled.
