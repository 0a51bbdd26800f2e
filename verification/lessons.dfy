/**
 * The course catalogue: lessons in order inside each course, lookup by id,
 * and navigation to the next and previous lesson. `AllCourses` is the one
 * course the application ships; the navigation functions take the catalogue
 * as a parameter so that their properties hold for any catalogue.
 */
module Lessons {
  import opened Wrappers
  import opened Lists

  datatype Difficulty = Beginner | Intermediate | Advanced

  /** A lesson; its long text fields (content, sample code, expected output) are not modelled. */
  datatype Lesson = Lesson(
    id: string,
    title: string,
    difficulty: Difficulty,
    estimatedTime: nat,
    prerequisites: seq<string>,
    nextLesson: Option<string>)

  datatype Course = Course(
    id: string,
    name: string,
    difficulty: Difficulty,
    lessons: seq<Lesson>,
    totalLessons: nat,
    estimatedHours: nat)

  // ---------------------------------------------------------------------------
  // Searching

  function CourseId(c: Course): string { c.id }
  function LessonId(l: Lesson): string { l.id }

  /** `courses.find(c => c.id === id)`: the first course with that id. */
  function FindCourse(courses: seq<Course>, id: string): (r: Option<Course>)
    ensures r.None? <==> forall k :: 0 <= k < |courses| ==> courses[k].id != id
    ensures r.Some? ==> r.value.id == id
    ensures r.Some? ==> exists k :: 0 <= k < |courses| && courses[k] == r.value
                                    && forall j :: 0 <= j < k ==> courses[j].id != id
  {
    var k := FirstIndex(courses, CourseId, id);
    if k == -1 then None else Some(courses[k])
  }

  /** `lessons.findIndex(l => l.id === id)`: the first index with that id, or -1. */
  function FindLessonIndex(lessons: seq<Lesson>, id: string): int {
    FirstIndex(lessons, LessonId, id)
  }

  /** `getLessonById`: the first lesson with that id in the first course with that id. */
  function GetLessonById(courses: seq<Course>, courseId: string, lessonId: string): (r: Option<Lesson>)
    ensures r.Some? <==> FindCourse(courses, courseId).Some?
                         && FindLessonIndex(FindCourse(courses, courseId).value.lessons, lessonId) >= 0
    ensures r.Some? ==> r.value.id == lessonId && r.value in FindCourse(courses, courseId).value.lessons
    ensures r.Some? ==>
              var lessons := FindCourse(courses, courseId).value.lessons;
              r.value == lessons[FindLessonIndex(lessons, lessonId)]
  {
    match FindCourse(courses, courseId)
    case None => None
    case Some(course) =>
      var k := FindLessonIndex(course.lessons, lessonId);
      if k == -1 then None else Some(course.lessons[k])
  }

  // ---------------------------------------------------------------------------
  // Navigation

  /** `getNextLesson`: the lesson after the current one; none for an unknown course or lesson, or the last lesson. */
  function GetNextLesson(courses: seq<Course>, courseId: string, currentId: string): (r: Option<Lesson>)
    ensures FindCourse(courses, courseId).None? ==> r.None?
    ensures FindCourse(courses, courseId).Some? ==>
              var lessons := FindCourse(courses, courseId).value.lessons;
              var k := FindLessonIndex(lessons, currentId);
              && (r.Some? <==> 0 <= k < |lessons| - 1)
              && (r.Some? ==> r.value == lessons[k + 1])
  {
    match FindCourse(courses, courseId)
    case None => None
    case Some(course) =>
      var k := FindLessonIndex(course.lessons, currentId);
      if k == -1 || k == |course.lessons| - 1 then None else Some(course.lessons[k + 1])
  }

  /** `getPreviousLesson`: the lesson before the current one; none for the first lesson or an unknown one. */
  function GetPreviousLesson(courses: seq<Course>, courseId: string, currentId: string): (r: Option<Lesson>)
    ensures FindCourse(courses, courseId).None? ==> r.None?
    ensures FindCourse(courses, courseId).Some? ==>
              var lessons := FindCourse(courses, courseId).value.lessons;
              var k := FindLessonIndex(lessons, currentId);
              && (r.Some? <==> k >= 1)
              && (r.Some? ==> r.value == lessons[k - 1])
  {
    match FindCourse(courses, courseId)
    case None => None
    case Some(course) =>
      var k := FindLessonIndex(course.lessons, currentId);
      if k <= 0 then None else Some(course.lessons[k - 1])
  }

  /** No two lessons of the sequence share an id. */
  predicate UniqueIds(lessons: seq<Lesson>) {
    forall i, j :: 0 <= i < j < |lessons| ==> lessons[i].id != lessons[j].id
  }

  lemma IndexOfUnique(lessons: seq<Lesson>, k: int)
    requires UniqueIds(lessons) && 0 <= k < |lessons|
    ensures FindLessonIndex(lessons, lessons[k].id) == k
  {
  }

  /** With unique ids, going forward then back returns to the lesson one started from. */
  lemma PreviousOfNext(courses: seq<Course>, courseId: string, currentId: string)
    requires FindCourse(courses, courseId).Some? && UniqueIds(FindCourse(courses, courseId).value.lessons)
    requires GetNextLesson(courses, courseId, currentId).Some?
    ensures GetPreviousLesson(courses, courseId, GetNextLesson(courses, courseId, currentId).value.id)
            == GetLessonById(courses, courseId, currentId)
  {
    var lessons := FindCourse(courses, courseId).value.lessons;
    var k := FindLessonIndex(lessons, currentId);
    IndexOfUnique(lessons, k + 1);
  }

  /** With unique ids, going back then forward returns to the lesson one started from. */
  lemma NextOfPrevious(courses: seq<Course>, courseId: string, currentId: string)
    requires FindCourse(courses, courseId).Some? && UniqueIds(FindCourse(courses, courseId).value.lessons)
    requires GetPreviousLesson(courses, courseId, currentId).Some?
    ensures GetNextLesson(courses, courseId, GetPreviousLesson(courses, courseId, currentId).value.id)
            == GetLessonById(courses, courseId, currentId)
  {
    var lessons := FindCourse(courses, courseId).value.lessons;
    var k := FindLessonIndex(lessons, currentId);
    IndexOfUnique(lessons, k - 1);
  }

  // ---------------------------------------------------------------------------
  // The shipped catalogue

  const CCourse: Course := Course(
    "c-programming",
    "C Programming Fundamentals",
    Beginner,
    [ Lesson("c-001", "Introduction to C Programming", Beginner, 30, [], Some("c-002")),
      Lesson("c-002", "Variables and Data Types", Beginner, 45, ["c-001"], Some("c-003")),
      Lesson("c-003", "Input and Output", Beginner, 40, ["c-002"], Some("c-004")),
      Lesson("c-004", "Operators and Expressions", Beginner, 50, ["c-003"], Some("c-005")),
      Lesson("c-005", "Control Structures - Conditional Statements", Beginner, 55, ["c-004"], Some("c-006")) ],
    24,
    40)

  const AllCourses: seq<Course> := [CCourse]

  /** Each lesson after the first names its predecessor as prerequisite; each but the last names its successor as next. */
  lemma CourseChainIsLinked()
    ensures UniqueIds(CCourse.lessons)
    ensures forall k :: 1 <= k < |CCourse.lessons| ==> CCourse.lessons[k].prerequisites == [CCourse.lessons[k - 1].id]
    ensures forall k :: 0 <= k < |CCourse.lessons| - 1 ==> CCourse.lessons[k].nextLesson == Some(CCourse.lessons[k + 1].id)
  {
  }

  /** The catalogue holds the C course under its id. */
  lemma FindsCCourse()
    ensures FindCourse(AllCourses, "c-programming") == Some(CCourse)
  {
  }

  /** The catalogue's first gap: the last lesson names a next lesson, `c-006`, that is not in the course. */
  lemma DanglingNextLesson()
    ensures CCourse.lessons[4].nextLesson == Some("c-006")
    ensures GetLessonById(AllCourses, "c-programming", "c-006").None?
  {
    FindsCCourse();
    var ls := CCourse.lessons;
    assert forall k :: 0 <= k < |ls| ==> ls[k].id[4] != '6';
  }

  /** The catalogue's second gap: navigation stops after the fifth lesson, though 24 are announced. */
  lemma NavigationStopsAtFive()
    ensures GetNextLesson(AllCourses, "c-programming", "c-005").None?
    ensures CCourse.totalLessons == 24 && |CCourse.lessons| == 5
  {
    FindsCCourse();
    CourseChainIsLinked();
    IndexOfUnique(CCourse.lessons, 4);
  }
}
