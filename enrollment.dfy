/** The enrollment registry (backend/src/courses/services/enrollment.service.ts): for each
    student the set of courses they are enrolled in and their progress in each. */
module Enrollment {

  import opened Base
  import CourseManagement

  /** What enrollStudent, getStudentEnrollments and getCourseEnrollments report. */
  datatype EnrollmentInfo = EnrollmentInfo(courseId: string, studentId: string, progress: nat)

  /** What updateProgress reports. */
  datatype ProgressInfo = ProgressInfo(courseId: string, studentId: string, progress: nat, lastCompletedLesson: string)

  const NoCourse := NotFound("Course not found")
  const AlreadyEnrolled := Conflict("Student already enrolled in this course")
  const NoEnrollment := NotFound("Enrollment not found")

  /** The progress step of updateProgress: 10 points, capped at 100. */
  const Step: nat := 10
  const Complete: nat := 100

  /** The registry invariant: the progress map of every student has exactly the student's
      courses as keys, no student is listed with an empty set, and progress is at most 100. */
  ghost predicate Consistent(enrollments: map<string, set<string>>, progress: map<string, map<string, nat>>)
  {
    && enrollments.Keys == progress.Keys
    && forall s | s in enrollments ::
         && enrollments[s] != {}
         && progress[s].Keys == enrollments[s]
         && forall c | c in progress[s] :: progress[s][c] <= Complete
  }

  predicate IsEnrolled(enrollments: map<string, set<string>>, studentId: string, courseId: string)
  {
    studentId in enrollments && courseId in enrollments[studentId]
  }

  /** The course sets after enrolling (enrollment.service.ts:15-22). */
  function EnrolledSets(enrollments: map<string, set<string>>, studentId: string, courseId: string): map<string, set<string>>
  {
    var mine := if studentId in enrollments then enrollments[studentId] else {};
    enrollments[studentId := mine + {courseId}]
  }

  /** The progress maps after enrolling (enrollment.service.ts:25-27). */
  function EnrolledProgress(progress: map<string, map<string, nat>>, studentId: string, courseId: string): map<string, map<string, nat>>
  {
    var mine := if studentId in progress then progress[studentId] else map[];
    progress[studentId := mine[courseId := 0]]
  }

  /** The course sets after unenrolling (enrollment.service.ts:44-47). */
  function UnenrolledSets(enrollments: map<string, set<string>>, studentId: string, courseId: string): map<string, set<string>>
  {
    if studentId !in enrollments then enrollments
    else
      var rest := enrollments[studentId] - {courseId};
      if rest == {} then enrollments - {studentId} else enrollments[studentId := rest]
  }

  /** The progress maps after unenrolling (enrollment.service.ts:50-56). */
  function UnenrolledProgress(progress: map<string, map<string, nat>>, studentId: string, courseId: string): map<string, map<string, nat>>
  {
    if studentId !in progress then progress
    else
      var rest := progress[studentId] - {courseId};
      if |rest| == 0 then progress - {studentId} else progress[studentId := rest]
  }

  /** `Math.min(currentProgress + 10, 100)`, where a missing entry counts as 0. */
  function Advanced(progress: map<string, map<string, nat>>, studentId: string, courseId: string): nat
  {
    var mine := if studentId in progress then progress[studentId] else map[];
    var current := if courseId in mine then mine[courseId] else 0;
    if current + Step < Complete then current + Step else Complete
  }

  /** The progress maps after updateProgress (enrollment.service.ts:67-73). */
  function ProgressUpdated(progress: map<string, map<string, nat>>, studentId: string, courseId: string): map<string, map<string, nat>>
  {
    var mine := if studentId in progress then progress[studentId] else map[];
    progress[studentId := mine[courseId := Advanced(progress, studentId, courseId)]]
  }

  lemma EnrollKeepsConsistent(enrollments: map<string, set<string>>, progress: map<string, map<string, nat>>,
                              studentId: string, courseId: string)
    requires Consistent(enrollments, progress) && !IsEnrolled(enrollments, studentId, courseId)
    ensures Consistent(EnrolledSets(enrollments, studentId, courseId), EnrolledProgress(progress, studentId, courseId))
  {
  }

  /** Unenrolling removes exactly that course; a student left with none disappears from
      both maps together. */
  lemma UnenrollKeepsConsistent(enrollments: map<string, set<string>>, progress: map<string, map<string, nat>>,
                                studentId: string, courseId: string)
    requires Consistent(enrollments, progress) && IsEnrolled(enrollments, studentId, courseId)
    ensures var e := UnenrolledSets(enrollments, studentId, courseId);
      var p := UnenrolledProgress(progress, studentId, courseId);
      && Consistent(e, p)
      && !IsEnrolled(e, studentId, courseId)
      && (studentId !in e <==> enrollments[studentId] == {courseId})
      && (studentId !in p <==> enrollments[studentId] == {courseId})
  {
    var rest := progress[studentId] - {courseId};
    assert rest.Keys == enrollments[studentId] - {courseId};
    if enrollments[studentId] != {courseId} {
      var other :| other in enrollments[studentId] && other != courseId;
      assert other in rest;
    }
  }

  lemma ProgressKeepsConsistent(enrollments: map<string, set<string>>, progress: map<string, map<string, nat>>,
                                studentId: string, courseId: string)
    requires Consistent(enrollments, progress) && IsEnrolled(enrollments, studentId, courseId)
    ensures Consistent(enrollments, ProgressUpdated(progress, studentId, courseId))
  {
  }

  /** Progress only grows, by the 10-point step until it is capped at 100. */
  lemma ProgressMonotone(enrollments: map<string, set<string>>, progress: map<string, map<string, nat>>,
                         studentId: string, courseId: string)
    requires Consistent(enrollments, progress) && IsEnrolled(enrollments, studentId, courseId)
    ensures var before := progress[studentId][courseId];
      var after := ProgressUpdated(progress, studentId, courseId)[studentId][courseId];
      && before <= after <= Complete
      && (after == before + Step || after == Complete)
      && (before == Complete <==> after == before)
  {
  }

  /** Each update adds 10, capped at 100: ten take a fresh enrollment to completion. */
  lemma {:induction false} RepeatedUpdates(progress: map<string, map<string, nat>>, studentId: string, courseId: string, n: nat)
    requires studentId in progress && courseId in progress[studentId] && progress[studentId][courseId] <= Complete
    ensures var after := Repeat(progress, studentId, courseId, n);
      studentId in after && courseId in after[studentId]
      && after[studentId][courseId] == if progress[studentId][courseId] + n * Step < Complete
                                       then progress[studentId][courseId] + n * Step else Complete
  {
    if n > 0 {
      RepeatedUpdates(progress, studentId, courseId, n - 1);
    }
  }

  /** n successive updateProgress calls for one enrollment. */
  function Repeat(progress: map<string, map<string, nat>>, studentId: string, courseId: string, n: nat): map<string, map<string, nat>>
  {
    if n == 0 then progress else ProgressUpdated(Repeat(progress, studentId, courseId, n - 1), studentId, courseId)
  }

  /** Enrolling in a new course and unenrolling again restores both maps exactly. */
  lemma EnrollThenUnenrollRestores(enrollments: map<string, set<string>>, progress: map<string, map<string, nat>>,
                                   studentId: string, courseId: string)
    requires Consistent(enrollments, progress) && !IsEnrolled(enrollments, studentId, courseId)
    ensures UnenrolledSets(EnrolledSets(enrollments, studentId, courseId), studentId, courseId) == enrollments
    ensures UnenrolledProgress(EnrolledProgress(progress, studentId, courseId), studentId, courseId) == progress
  {
    SetsRestored(enrollments, studentId, courseId);
    ProgressRestored(progress, studentId, courseId);
  }

  lemma SetsRestored(enrollments: map<string, set<string>>, studentId: string, courseId: string)
    requires !IsEnrolled(enrollments, studentId, courseId)
    requires studentId in enrollments ==> enrollments[studentId] != {}
    ensures UnenrolledSets(EnrolledSets(enrollments, studentId, courseId), studentId, courseId) == enrollments
  {
    var e := EnrolledSets(enrollments, studentId, courseId);
    if studentId in enrollments {
      assert e[studentId] - {courseId} == enrollments[studentId];
    } else {
      assert e[studentId] - {courseId} == {};
      assert e - {studentId} == enrollments;
    }
  }

  lemma ProgressRestored(progress: map<string, map<string, nat>>, studentId: string, courseId: string)
    requires studentId in progress ==> courseId !in progress[studentId] && |progress[studentId]| > 0
    ensures UnenrolledProgress(EnrolledProgress(progress, studentId, courseId), studentId, courseId) == progress
  {
    var p := EnrolledProgress(progress, studentId, courseId);
    if studentId in progress {
      assert p[studentId] - {courseId} == progress[studentId];
    } else {
      assert p[studentId] - {courseId} == map[];
      assert p - {studentId} == progress;
    }
  }

  // ----------------------------------------------------------- the service

  class EnrollmentService {
    var enrollments: map<string, set<string>>
    var progress: map<string, map<string, nat>>

    ghost predicate Valid()
      reads this
    {
      Consistent(enrollments, progress)
    }

    constructor ()
      ensures Valid() && enrollments == map[] && progress == map[]
    {
      enrollments := map[];
      progress := map[];
    }

    /** enrollStudent (enrollment.service.ts:9-35); `course` is the looked-up course, if any. */
    method EnrollStudent(courseId: string, studentId: string, course: Option<CourseManagement.Course>)
      returns (r: Result<EnrollmentInfo>)
      requires Valid()
      modifies this
      ensures Valid()
      ensures course.None? ==> r == Error(NoCourse) && enrollments == old(enrollments) && progress == old(progress)
      ensures course.Some? && IsEnrolled(old(enrollments), studentId, courseId) ==>
        r == Error(AlreadyEnrolled) && enrollments == old(enrollments) && progress == old(progress)
      ensures course.Some? && !IsEnrolled(old(enrollments), studentId, courseId) ==>
        && r == Success(EnrollmentInfo(courseId, studentId, 0))
        && enrollments == EnrolledSets(old(enrollments), studentId, courseId)
        && progress == EnrolledProgress(old(progress), studentId, courseId)
    {
      if course.None? {
        return Error(NoCourse);
      }
      var mine := if studentId in enrollments then enrollments[studentId] else {};
      if courseId in mine {
        return Error(AlreadyEnrolled);
      }
      EnrollKeepsConsistent(enrollments, progress, studentId, courseId);
      enrollments := enrollments[studentId := mine + {courseId}];
      var marks := if studentId in progress then progress[studentId] else map[];
      progress := progress[studentId := marks[courseId := 0]];
      return Success(EnrollmentInfo(courseId, studentId, 0));
    }

    /** unenrollStudent (enrollment.service.ts:37-59). */
    method UnenrollStudent(courseId: string, studentId: string) returns (r: Result<bool>)
      requires Valid()
      modifies this
      ensures Valid()
      ensures !IsEnrolled(old(enrollments), studentId, courseId) ==>
        r == Error(NoEnrollment) && enrollments == old(enrollments) && progress == old(progress)
      ensures IsEnrolled(old(enrollments), studentId, courseId) ==>
        && r == Success(true)
        && enrollments == UnenrolledSets(old(enrollments), studentId, courseId)
        && progress == UnenrolledProgress(old(progress), studentId, courseId)
    {
      if !(studentId in enrollments && courseId in enrollments[studentId]) {
        return Error(NoEnrollment);
      }
      UnenrollKeepsConsistent(enrollments, progress, studentId, courseId);
      var rest := enrollments[studentId] - {courseId};
      if rest == {} {
        enrollments := enrollments - {studentId};
      } else {
        enrollments := enrollments[studentId := rest];
      }
      if studentId in progress {
        var marks := progress[studentId] - {courseId};
        if |marks| == 0 {
          progress := progress - {studentId};
        } else {
          progress := progress[studentId := marks];
        }
      }
      return Success(true);
    }

    /** updateProgress (enrollment.service.ts:61-82). */
    method UpdateProgress(courseId: string, studentId: string, lessonId: string) returns (r: Result<ProgressInfo>)
      requires Valid()
      modifies this
      ensures Valid() && enrollments == old(enrollments)
      ensures !IsEnrolled(enrollments, studentId, courseId) ==> r == Error(NoEnrollment) && progress == old(progress)
      ensures IsEnrolled(enrollments, studentId, courseId) ==>
        && r == Success(ProgressInfo(courseId, studentId, Advanced(old(progress), studentId, courseId), lessonId))
        && progress == ProgressUpdated(old(progress), studentId, courseId)
    {
      if !(studentId in enrollments && courseId in enrollments[studentId]) {
        return Error(NoEnrollment);
      }
      ProgressKeepsConsistent(enrollments, progress, studentId, courseId);
      var marks := if studentId in progress then progress[studentId] else map[];
      var current := if courseId in marks then marks[courseId] else 0;
      var next := if current + Step < Complete then current + Step else Complete;
      assert next == Advanced(progress, studentId, courseId);
      assert progress[studentId := marks[courseId := next]] == ProgressUpdated(progress, studentId, courseId);
      progress := progress[studentId := marks[courseId := next]];
      return Success(ProgressInfo(courseId, studentId, next, lessonId));
    }

    /** getStudentEnrollments (enrollment.service.ts:84-93): one entry per enrolled course,
        with its progress (0 when none is recorded). */
    method GetStudentEnrollments(studentId: string) returns (r: seq<EnrollmentInfo>)
      ensures var mine := if studentId in enrollments then enrollments[studentId] else {};
        && |r| == |mine|
        && (forall c :: c in mine <==> exists i | 0 <= i < |r| :: r[i].courseId == c)
        && (forall i, j | 0 <= i < j < |r| :: r[i].courseId != r[j].courseId)
        && forall i | 0 <= i < |r| ::
             r[i].studentId == studentId && r[i].progress == Recorded(progress, studentId, r[i].courseId)
    {
      var mine := if studentId in enrollments then enrollments[studentId] else {};
      var todo := mine;
      r := [];
      while todo != {}
        invariant todo <= mine
        invariant CourseListing(r, mine - todo, studentId, progress)
        invariant |r| + |todo| == |mine|
        decreases |todo|
      {
        var c :| c in todo;
        var entry := EnrollmentInfo(c, studentId, Recorded(progress, studentId, c));
        CourseListingStep(r, mine - todo, studentId, progress, c);
        assert mine - (todo - {c}) == (mine - todo) + {c};
        r := r + [entry];
        todo := todo - {c};
      }
      assert mine - todo == mine;
    }

    /** getCourseEnrollments (enrollment.service.ts:95-108): one entry per student enrolled in
        the course, with that progress (0 when none is recorded). */
    method GetCourseEnrollments(courseId: string) returns (r: seq<EnrollmentInfo>)
      ensures forall s :: IsEnrolled(enrollments, s, courseId) <==> exists i | 0 <= i < |r| :: r[i].studentId == s
      ensures forall i, j | 0 <= i < j < |r| :: r[i].studentId != r[j].studentId
      ensures forall i | 0 <= i < |r| ::
                r[i].courseId == courseId && r[i].progress == Recorded(progress, r[i].studentId, courseId)
    {
      var todo := enrollments.Keys;
      r := [];
      while todo != {}
        invariant todo <= enrollments.Keys
        invariant StudentListing(r, EnrolledIn(enrollments, courseId) - todo, courseId, progress)
        decreases |todo|
      {
        var s :| s in todo;
        ghost var enrolled := EnrolledIn(enrollments, courseId);
        if courseId in enrollments[s] {
          StudentListingStep(r, enrolled - todo, courseId, progress, s);
          assert enrolled - (todo - {s}) == (enrolled - todo) + {s};
          r := r + [EnrollmentInfo(courseId, s, Recorded(progress, s, courseId))];
        } else {
          assert enrolled - (todo - {s}) == enrolled - todo;
        }
        todo := todo - {s};
      }
      assert EnrolledIn(enrollments, courseId) - todo == EnrolledIn(enrollments, courseId);
    }
  }

  /** The students enrolled in a course. */
  function EnrolledIn(enrollments: map<string, set<string>>, courseId: string): (r: set<string>)
    ensures forall s :: s in r <==> IsEnrolled(enrollments, s, courseId)
  {
    set s | s in enrollments && courseId in enrollments[s]
  }

  /** `r` lists each course of `courses` once, for the student, with its progress. */
  ghost predicate CourseListing(r: seq<EnrollmentInfo>, courses: set<string>, studentId: string,
                                progress: map<string, map<string, nat>>)
  {
    && ListsCourses(r, courses)
    && (forall i, j | 0 <= i < j < |r| :: r[i].courseId != r[j].courseId)
    && forall i | 0 <= i < |r| ::
         r[i].studentId == studentId && r[i].progress == Recorded(progress, studentId, r[i].courseId)
  }

  lemma CourseListingStep(r: seq<EnrollmentInfo>, courses: set<string>, studentId: string,
                          progress: map<string, map<string, nat>>, c: string)
    requires CourseListing(r, courses, studentId, progress) && c !in courses
    ensures CourseListing(r + [EnrollmentInfo(c, studentId, Recorded(progress, studentId, c))],
                          courses + {c}, studentId, progress)
  {
    var entry := EnrollmentInfo(c, studentId, Recorded(progress, studentId, c));
    CourseListed(r, courses, entry);
    var r' := r + [entry];
    forall i, j | 0 <= i < j < |r'| ensures r'[i].courseId != r'[j].courseId {
      if j == |r| {
        assert r[i].courseId in courses;
      }
    }
  }

  /** `r` lists each student of `students` once, for the course, with their progress. */
  ghost predicate StudentListing(r: seq<EnrollmentInfo>, students: set<string>, courseId: string,
                                 progress: map<string, map<string, nat>>)
  {
    && ListsStudents(r, students)
    && (forall i, j | 0 <= i < j < |r| :: r[i].studentId != r[j].studentId)
    && forall i | 0 <= i < |r| ::
         r[i].courseId == courseId && r[i].progress == Recorded(progress, r[i].studentId, courseId)
  }

  lemma StudentListingStep(r: seq<EnrollmentInfo>, students: set<string>, courseId: string,
                           progress: map<string, map<string, nat>>, s: string)
    requires StudentListing(r, students, courseId, progress) && s !in students
    ensures StudentListing(r + [EnrollmentInfo(courseId, s, Recorded(progress, s, courseId))],
                           students + {s}, courseId, progress)
  {
    var entry := EnrollmentInfo(courseId, s, Recorded(progress, s, courseId));
    StudentListed(r, students, entry);
    var r' := r + [entry];
    forall i, j | 0 <= i < j < |r'| ensures r'[i].studentId != r'[j].studentId {
      if j == |r| {
        assert r[i].studentId in students;
      }
    }
  }

  /** `r` names exactly the courses of `courses`. */
  ghost predicate ListsCourses(r: seq<EnrollmentInfo>, courses: set<string>)
  {
    forall c :: c in courses <==> exists i | 0 <= i < |r| :: r[i].courseId == c
  }

  /** `r` names exactly the students of `students`. */
  ghost predicate ListsStudents(r: seq<EnrollmentInfo>, students: set<string>)
  {
    forall s :: s in students <==> exists i | 0 <= i < |r| :: r[i].studentId == s
  }

  lemma CourseListed(r: seq<EnrollmentInfo>, courses: set<string>, entry: EnrollmentInfo)
    requires ListsCourses(r, courses)
    ensures ListsCourses(r + [entry], courses + {entry.courseId})
  {
    var r' := r + [entry];
    forall c ensures c in courses + {entry.courseId} <==> exists i | 0 <= i < |r'| :: r'[i].courseId == c {
      if c in courses {
        var i :| 0 <= i < |r| && r[i].courseId == c;
        assert r'[i].courseId == c;
      } else if c == entry.courseId {
        assert r'[|r|].courseId == c;
      }
      if exists i | 0 <= i < |r'| :: r'[i].courseId == c {
        var i :| 0 <= i < |r'| && r'[i].courseId == c;
        if i < |r| { assert r[i].courseId == c; }
      }
    }
  }

  lemma StudentListed(r: seq<EnrollmentInfo>, students: set<string>, entry: EnrollmentInfo)
    requires ListsStudents(r, students)
    ensures ListsStudents(r + [entry], students + {entry.studentId})
  {
    var r' := r + [entry];
    forall s ensures s in students + {entry.studentId} <==> exists i | 0 <= i < |r'| :: r'[i].studentId == s {
      if s in students {
        var i :| 0 <= i < |r| && r[i].studentId == s;
        assert r'[i].studentId == s;
      } else if s == entry.studentId {
        assert r'[|r|].studentId == s;
      }
      if exists i | 0 <= i < |r'| :: r'[i].studentId == s {
        var i :| 0 <= i < |r'| && r'[i].studentId == s;
        if i < |r| { assert r[i].studentId == s; }
      }
    }
  }

  /** `this.progress.get(studentId)?.get(courseId) || 0`. */
  function Recorded(progress: map<string, map<string, nat>>, studentId: string, courseId: string): nat
  {
    if studentId in progress && courseId in progress[studentId] then progress[studentId][courseId] else 0
  }
}
