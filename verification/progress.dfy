/**
 * Per-course learning progress: the pure state updates behind the progress
 * hook. Reading and writing browser storage is not modelled; every update
 * takes the current list of course records and returns the new one. Wall-clock
 * ISO timestamps are opaque values passed in as `now`.
 */
module Progress {
  import opened Wrappers
  import opened Lists

  /** An ISO-8601 timestamp, opaque to the model. */
  type Timestamp = string

  datatype LessonProgress = LessonProgress(
    lessonId: string,
    completed: bool,
    completedAt: Option<Timestamp>,
    timeSpent: int,
    attempts: int)

  datatype CourseProgress = CourseProgress(
    courseId: string,
    currentLessonId: string,
    lessonsCompleted: seq<LessonProgress>,
    totalTimeSpent: int,
    startedAt: Timestamp,
    lastAccessedAt: Timestamp)

  function ProgressCourseId(p: CourseProgress): string { p.courseId }

  /** The index of the first record of the course, or -1. */
  function CourseIndex(progress: seq<CourseProgress>, courseId: string): int {
    FirstIndex(progress, ProgressCourseId, courseId)
  }

  /** `progress.find(p => p.courseId === courseId)`: the first record of that course. */
  function GetCourseProgress(progress: seq<CourseProgress>, courseId: string): (r: Option<CourseProgress>)
    ensures r.None? <==> forall k :: 0 <= k < |progress| ==> progress[k].courseId != courseId
    ensures r.Some? ==> r.value == progress[CourseIndex(progress, courseId)]
    ensures r.Some? ==> r.value.courseId == courseId
  {
    var k := CourseIndex(progress, courseId);
    if k == -1 then None else Some(progress[k])
  }

  // ---------------------------------------------------------------------------
  // startCourse

  /** The record a course starts with. */
  function NewCourseProgress(courseId: string, firstLessonId: string, now: Timestamp): CourseProgress {
    CourseProgress(courseId, firstLessonId, [], 0, now, now)
  }

  /** `startCourse`: nothing changes for a course already started; otherwise one fresh record is appended. */
  function StartCourse(progress: seq<CourseProgress>, courseId: string, firstLessonId: string, now: Timestamp)
    : (r: seq<CourseProgress>)
    ensures GetCourseProgress(progress, courseId).Some? ==> r == progress
    ensures GetCourseProgress(progress, courseId).None? ==>
              && |r| == |progress| + 1 && r[..|progress|] == progress
              && r[|progress|].courseId == courseId
              && r[|progress|].currentLessonId == firstLessonId
              && r[|progress|].lessonsCompleted == []
              && r[|progress|].totalTimeSpent == 0
  {
    if GetCourseProgress(progress, courseId).Some? then progress
    else progress + [NewCourseProgress(courseId, firstLessonId, now)]
  }

  /** After `startCourse` the course has a record, and starting again changes nothing. */
  lemma StartCourseIdempotent(progress: seq<CourseProgress>, courseId: string, first: string, now: Timestamp,
                              first': string, now': Timestamp)
    ensures GetCourseProgress(StartCourse(progress, courseId, first, now), courseId).Some?
    ensures StartCourse(StartCourse(progress, courseId, first, now), courseId, first', now')
            == StartCourse(progress, courseId, first, now)
  {
    var r := StartCourse(progress, courseId, first, now);
    if GetCourseProgress(progress, courseId).None? {
      assert r[|progress|].courseId == courseId;
    }
  }

  // ---------------------------------------------------------------------------
  // updateCurrentLesson

  /** `updateCurrentLesson`: every record of the course moves to `lessonId`; all other records are untouched. */
  function UpdateCurrentLesson(progress: seq<CourseProgress>, courseId: string, lessonId: string, now: Timestamp)
    : (r: seq<CourseProgress>)
    ensures |r| == |progress|
    ensures forall k :: 0 <= k < |r| && progress[k].courseId != courseId ==> r[k] == progress[k]
    ensures forall k :: 0 <= k < |r| && progress[k].courseId == courseId ==>
              r[k] == progress[k].(currentLessonId := lessonId, lastAccessedAt := now)
  {
    seq(|progress|, k requires 0 <= k < |progress| =>
      if progress[k].courseId == courseId
      then progress[k].(currentLessonId := lessonId, lastAccessedAt := now)
      else progress[k])
  }

  /** After the update the course's record reports the new current lesson, and no other course's record changed. */
  lemma UpdateCurrentLessonEffect(progress: seq<CourseProgress>, courseId: string, lessonId: string,
                                  now: Timestamp, other: string)
    requires GetCourseProgress(progress, courseId).Some?
    requires other != courseId
    ensures GetCourseProgress(UpdateCurrentLesson(progress, courseId, lessonId, now), courseId).Some?
    ensures GetCourseProgress(UpdateCurrentLesson(progress, courseId, lessonId, now), courseId).value.currentLessonId
            == lessonId
    ensures GetCourseProgress(UpdateCurrentLesson(progress, courseId, lessonId, now), other)
            == GetCourseProgress(progress, other)
  {
    var r := UpdateCurrentLesson(progress, courseId, lessonId, now);
    SameCourseIds(progress, r);
    var k := CourseIndex(r, courseId);
    assert progress[k].courseId == courseId;
    FindOther(progress, r, other);
  }

  /** Two lists whose records have the same course ids position by position. */
  ghost predicate SameCourseIdsAt(a: seq<CourseProgress>, b: seq<CourseProgress>) {
    |a| == |b| && forall k :: 0 <= k < |a| ==> a[k].courseId == b[k].courseId
  }

  lemma SameCourseIds(a: seq<CourseProgress>, b: seq<CourseProgress>)
    requires |a| == |b| && forall k :: 0 <= k < |a| ==> a[k].courseId == b[k].courseId
    ensures SameCourseIdsAt(a, b)
  {
  }

  /** If the records of `other` are unchanged and ids line up, looking `other` up gives the same answer. */
  lemma {:induction false} FindOther(a: seq<CourseProgress>, b: seq<CourseProgress>, other: string)
    requires SameCourseIdsAt(a, b)
    requires forall k :: 0 <= k < |a| && a[k].courseId == other ==> b[k] == a[k]
    ensures GetCourseProgress(b, other) == GetCourseProgress(a, other)
  {
    if |a| > 0 {
      FindOther(a[1..], b[1..], other);
    }
  }

  // ---------------------------------------------------------------------------
  // completeLesson

  /** Whether some entry records `lessonId`. */
  predicate HasEntry(lessons: seq<LessonProgress>, lessonId: string) {
    exists k :: 0 <= k < |lessons| && lessons[k].lessonId == lessonId
  }

  /**
   * The lesson list after one more completion of `lessonId`: a first completion
   * appends a completed entry with one attempt; a repeat adds one attempt and
   * the time to the existing entry, adding no entry.
   */
  function RecordCompletion(lessons: seq<LessonProgress>, lessonId: string, timeSpent: int, now: Timestamp)
    : (r: seq<LessonProgress>)
    ensures !HasEntry(lessons, lessonId) ==>
              r == lessons + [LessonProgress(lessonId, true, Some(now), timeSpent, 1)]
    ensures HasEntry(lessons, lessonId) ==> |r| == |lessons|
    ensures HasEntry(lessons, lessonId) ==> forall k :: 0 <= k < |r| ==>
              r[k] == if lessons[k].lessonId == lessonId
                      then lessons[k].(attempts := lessons[k].attempts + 1,
                                       timeSpent := lessons[k].timeSpent + timeSpent)
                      else lessons[k]
  {
    if HasEntry(lessons, lessonId) then
      seq(|lessons|, k requires 0 <= k < |lessons| =>
        if lessons[k].lessonId == lessonId
        then lessons[k].(attempts := lessons[k].attempts + 1, timeSpent := lessons[k].timeSpent + timeSpent)
        else lessons[k])
    else lessons + [LessonProgress(lessonId, true, Some(now), timeSpent, 1)]
  }

  /** The course record after completing a lesson in it. */
  function CompleteInCourse(p: CourseProgress, lessonId: string, timeSpent: int, now: Timestamp): CourseProgress {
    p.(lessonsCompleted := RecordCompletion(p.lessonsCompleted, lessonId, timeSpent, now),
       totalTimeSpent := p.totalTimeSpent + timeSpent,
       lastAccessedAt := now)
  }

  /** `completeLesson`: every record of the course records the completion and adds the time to its total. */
  function CompleteLesson(progress: seq<CourseProgress>, courseId: string, lessonId: string, timeSpent: int,
                          now: Timestamp): (r: seq<CourseProgress>)
    ensures |r| == |progress|
    ensures forall k :: 0 <= k < |r| && progress[k].courseId != courseId ==> r[k] == progress[k]
    ensures forall k :: 0 <= k < |r| && progress[k].courseId == courseId ==>
              && r[k].courseId == courseId
              && r[k].currentLessonId == progress[k].currentLessonId
              && r[k].startedAt == progress[k].startedAt
              && r[k].lastAccessedAt == now
              && r[k].totalTimeSpent == progress[k].totalTimeSpent + timeSpent
              && r[k].lessonsCompleted == RecordCompletion(progress[k].lessonsCompleted, lessonId, timeSpent, now)
  {
    seq(|progress|, k requires 0 <= k < |progress| =>
      if progress[k].courseId == courseId then CompleteInCourse(progress[k], lessonId, timeSpent, now)
      else progress[k])
  }

  /** Completing a lesson of a course that was never started changes nothing. */
  lemma CompleteUnstartedIsNoOp(progress: seq<CourseProgress>, courseId: string, lessonId: string,
                                timeSpent: int, now: Timestamp)
    requires GetCourseProgress(progress, courseId).None?
    ensures CompleteLesson(progress, courseId, lessonId, timeSpent, now) == progress
  {
  }

  /** No two entries of the lesson list share a lesson id. */
  predicate UniqueLessons(lessons: seq<LessonProgress>) {
    forall i, j :: 0 <= i < j < |lessons| ==> lessons[i].lessonId != lessons[j].lessonId
  }

  /** Recording a completion never creates a duplicate entry. */
  lemma RecordCompletionKeepsUnique(lessons: seq<LessonProgress>, lessonId: string, timeSpent: int, now: Timestamp)
    requires UniqueLessons(lessons)
    ensures UniqueLessons(RecordCompletion(lessons, lessonId, timeSpent, now))
  {
  }

  /** Every entry of the list is marked completed (true of every list built by `completeLesson`). */
  predicate AllCompleted(lessons: seq<LessonProgress>) {
    forall k :: 0 <= k < |lessons| ==> lessons[k].completed
  }

  /** `isLessonCompleted`: the course has a record with a completed entry for the lesson. */
  function IsLessonCompleted(progress: seq<CourseProgress>, courseId: string, lessonId: string): (b: bool)
    ensures b <==> GetCourseProgress(progress, courseId).Some?
                   && exists l :: l in GetCourseProgress(progress, courseId).value.lessonsCompleted
                                  && l.lessonId == lessonId && l.completed
  {
    match GetCourseProgress(progress, courseId)
    case None => false
    case Some(p) => exists l :: l in p.lessonsCompleted && l.lessonId == lessonId && l.completed
  }

  /** Recording a completion keeps every entry completed, and the lesson then has a completed entry. */
  lemma RecordCompletionCompletes(lessons: seq<LessonProgress>, lessonId: string, timeSpent: int, now: Timestamp)
    requires AllCompleted(lessons)
    ensures AllCompleted(RecordCompletion(lessons, lessonId, timeSpent, now))
    ensures exists l :: l in RecordCompletion(lessons, lessonId, timeSpent, now) && l.lessonId == lessonId && l.completed
  {
    var r := RecordCompletion(lessons, lessonId, timeSpent, now);
    if HasEntry(lessons, lessonId) {
      var k :| 0 <= k < |lessons| && lessons[k].lessonId == lessonId;
      assert r[k] in r;
    } else {
      assert r[|lessons|] in r;
    }
  }

  /** After completing a lesson of a started course whose entries are all completed, the lesson counts as completed. */
  lemma CompletedAfterCompleteLesson(progress: seq<CourseProgress>, courseId: string, lessonId: string,
                                     timeSpent: int, now: Timestamp)
    requires GetCourseProgress(progress, courseId).Some?
    requires AllCompleted(GetCourseProgress(progress, courseId).value.lessonsCompleted)
    ensures IsLessonCompleted(CompleteLesson(progress, courseId, lessonId, timeSpent, now), courseId, lessonId)
  {
    var r := CompleteLesson(progress, courseId, lessonId, timeSpent, now);
    var k := CourseIndex(progress, courseId);
    FirstAt(r, courseId, k);
    RecordCompletionCompletes(progress[k].lessonsCompleted, lessonId, timeSpent, now);
  }

  /** The record at `k` is the first of its course. */
  lemma FirstAt(progress: seq<CourseProgress>, courseId: string, k: nat)
    requires k < |progress| && progress[k].courseId == courseId
    requires forall j :: 0 <= j < k ==> progress[j].courseId != courseId
    ensures GetCourseProgress(progress, courseId) == Some(progress[k])
  {
    FirstIndexAt(progress, ProgressCourseId, k);
  }

  // ---------------------------------------------------------------------------
  // getCompletionPercentage

  /** `Math.round(count / total * 100)` for non-negative integers: the nearest integer, halves rounded up. */
  function RoundedPercent(count: nat, total: nat): (pct: nat)
    requires total > 0
    ensures (2 * pct - 1) * total <= 200 * count < (2 * pct + 1) * total
  {
    var q := (200 * count + total) / (2 * total);
    assert q * (2 * total) <= 200 * count + total < (q + 1) * (2 * total);
    assert (2 * q - 1) * total == q * (2 * total) - total;
    assert (2 * q + 1) * total == (q + 1) * (2 * total) - total;
    q
  }

  /** `getCompletionPercentage`: 0 without a record, else the rounded share of completed entries. */
  function GetCompletionPercentage(progress: seq<CourseProgress>, courseId: string, totalLessons: nat): (pct: nat)
    requires totalLessons > 0
    ensures GetCourseProgress(progress, courseId).None? ==> pct == 0
    ensures GetCourseProgress(progress, courseId).Some? ==>
              pct == RoundedPercent(|GetCourseProgress(progress, courseId).value.lessonsCompleted|, totalLessons)
  {
    match GetCourseProgress(progress, courseId)
    case None => 0
    case Some(p) => RoundedPercent(|p.lessonsCompleted|, totalLessons)
  }

  /** Multiplying by a positive number preserves strict order, so it can be cancelled. */
  lemma CancelPositiveFactor(a: int, b: int, t: int)
    requires t > 0 && a * t < b * t
    ensures a < b
  {
  }

  /** The rounded percentage is at most 100 while no more entries than lessons exist, and 100 exactly when all are done. */
  lemma RoundedPercentBounds(count: nat, total: nat)
    requires 0 < total && count <= total
    ensures RoundedPercent(count, total) <= 100
    ensures count == total ==> RoundedPercent(count, total) == 100
  {
    var pct := RoundedPercent(count, total);
    assert (2 * pct - 1) * total <= 200 * count <= 200 * total < 201 * total;
    CancelPositiveFactor(2 * pct - 1, 201, total);
    if count == total {
      assert 200 * total < (2 * pct + 1) * total;
      CancelPositiveFactor(200, 2 * pct + 1, total);
    }
  }

  /** More completed entries never give a smaller percentage. */
  lemma RoundedPercentMonotone(c1: nat, c2: nat, total: nat)
    requires 0 < total && c1 <= c2
    ensures RoundedPercent(c1, total) <= RoundedPercent(c2, total)
  {
    var p1 := RoundedPercent(c1, total);
    var p2 := RoundedPercent(c2, total);
    assert (2 * p1 - 1) * total <= 200 * c1 <= 200 * c2 < (2 * p2 + 1) * total;
    CancelPositiveFactor(2 * p1 - 1, 2 * p2 + 1, total);
  }
}
