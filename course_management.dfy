/** Course, module and lesson management (backend/src/courses/services/course-management.service.ts
    and the entities in backend/src/courses/entities/). A course lists its modules and a
    module lists its lessons by id, so a change made through the module or lesson store is
    seen through the course, as the shared objects of the source are. */
module CourseManagement {

  import opened Base

  datatype Course = Course(
    id: string,
    title: string,
    description: string,
    instructorId: string,
    thumbnail: string,
    price: real,
    moduleIds: seq<string>,
    enrolledStudents: seq<string>,
    isPublished: bool)

  datatype CourseModule = CourseModule(
    id: string,
    title: string,
    description: string,
    courseId: string,
    lessonIds: seq<string>,
    order: int)

  datatype LessonType = Video | Document | QuizLesson

  datatype TranscodingStatus = Pending | Processing | Done | Failed

  datatype Variant = Variant(quality: string, url: string)

  datatype Transcoding = Transcoding(status: TranscodingStatus, progress: nat, variants: seq<Variant>)

  datatype Content = Content(url: Option<string>, transcoding: Option<Transcoding>)

  datatype Lesson = Lesson(
    id: string,
    title: string,
    description: string,
    moduleId: string,
    lessonType: LessonType,
    content: Content,
    order: int)

  /** The body of createCourse. */
  datatype CourseData = CourseData(title: string, description: string, instructorId: string, thumbnail: string, price: real)

  /** The body of updateCourse: the fields it sets. */
  datatype CoursePatch = CoursePatch(
    title: Option<string>,
    description: Option<string>,
    instructorId: Option<string>,
    thumbnail: Option<string>,
    price: Option<real>,
    isPublished: Option<bool>)

  datatype ModuleData = ModuleData(title: string, description: string)

  datatype LessonData = LessonData(title: string, description: string, lessonType: LessonType, content: Content)

  const NoCourse := NotFound("Course not found")
  const NoModule := NotFound("Module not found")
  const NoLesson := NotFound("Lesson not found")
  const NoModules := BadRequest("Cannot publish course without modules")
  const ProcessingFailed := BadRequest("Video processing failed")

  /** The Course constructor (course.entity.ts:16-23): a new course is unpublished, with no
      modules and no students, whatever the body says. */
  function NewCourse(id: string, data: CourseData): (c: Course)
    ensures c.id == id && !c.isPublished && c.moduleIds == [] && c.enrolledStudents == []
    ensures c.title == data.title && c.price == data.price && c.instructorId == data.instructorId
  {
    Course(id, data.title, data.description, data.instructorId, data.thumbnail, data.price, [], [], false)
  }

  function Patched<T>(old_: T, patch: Option<T>): T
  {
    match patch
    case Some(v) => v
    case None => old_
  }

  /** `Object.assign(course, courseData)`; it may set isPublished, bypassing publishCourse's check. */
  function PatchCourse(c: Course, patch: CoursePatch): (r: Course)
    ensures r.id == c.id && r.moduleIds == c.moduleIds && r.enrolledStudents == c.enrolledStudents
    ensures r.isPublished == if patch.isPublished.Some? then patch.isPublished.value else c.isPublished
  {
    c.(title := Patched(c.title, patch.title),
       description := Patched(c.description, patch.description),
       instructorId := Patched(c.instructorId, patch.instructorId),
       thumbnail := Patched(c.thumbnail, patch.thumbnail),
       price := Patched(c.price, patch.price),
       isPublished := Patched(c.isPublished, patch.isPublished))
  }

  // ------------------------------------------------------- video qualities

  /** t occurs in s at position i. */
  predicate OccursAt(s: string, t: string, i: int)
  {
    0 <= i && i + |t| <= |s| && s[i..i + |t|] == t
  }

  /** `s.includes(t)`. */
  predicate Contains(s: string, t: string)
  {
    exists i | 0 <= i <= |s| :: OccursAt(s, t, i)
  }

  /** getQualityFromUrl (course-management.service.ts:223-228). */
  function QualityFromUrl(url: string): (q: string)
    ensures q in ["1080p", "720p", "480p", "360p"]
  {
    if Contains(url, "1080p") then "1080p"
    else if Contains(url, "720p") then "720p"
    else if Contains(url, "480p") then "480p"
    else "360p"
  }

  lemma ContainsPart(a: string, t: string, b: string)
    ensures Contains(a + t + b, t)
  {
    assert (a + t + b)[|a|..|a| + |t|] == t;
    assert OccursAt(a + t + b, t, |a|);
  }

  /** The quality is the best of 1080p, 720p, 480p that the URL names, and 360p when it names
      none; any quality other than 360p does occur in the URL. */
  lemma QualityIsBestNamed(url: string)
    ensures QualityFromUrl(url) != "360p" ==> Contains(url, QualityFromUrl(url))
    ensures QualityFromUrl(url) == "1080p" <==> Contains(url, "1080p")
    ensures QualityFromUrl(url) == "720p" <==> Contains(url, "720p") && !Contains(url, "1080p")
    ensures QualityFromUrl(url) == "480p" <==> Contains(url, "480p") && !Contains(url, "720p") && !Contains(url, "1080p")
    ensures QualityFromUrl(url) == "360p" <==> !Contains(url, "480p") && !Contains(url, "720p") && !Contains(url, "1080p")
  {
    assert "1080p" != "720p" && "1080p" != "480p" && "1080p" != "360p";
    assert "720p"[0] != "480p"[0] && "720p"[0] != "360p"[0] && "480p"[0] != "360p"[0];
  }

  /** A URL that names a marker and no better one gets that marker's quality. */
  lemma QualityOfNamedUrl(a: string, b: string)
    requires !Contains(a + "720p" + b, "1080p")
    ensures QualityFromUrl(a + "720p" + b) == "720p"
  {
    ContainsPart(a, "720p", b);
  }

  /** q is the first of 1080p, 720p, 480p that the URL names, or 360p when it names none. */
  ghost predicate BestNamed(url: string, q: string)
  {
    || (q == "1080p" && Contains(url, "1080p"))
    || (q == "720p" && Contains(url, "720p") && !Contains(url, "1080p"))
    || (q == "480p" && Contains(url, "480p") && !Contains(url, "720p") && !Contains(url, "1080p"))
    || (q == "360p" && !Contains(url, "480p") && !Contains(url, "720p") && !Contains(url, "1080p"))
  }

  /** Every URL has exactly one best-named quality. */
  lemma BestNamedUnique(url: string, q: string, q': string)
    requires BestNamed(url, q) && BestNamed(url, q')
    ensures q == q'
  {
  }

  lemma AllBestNamed(urls: seq<string>)
    ensures forall i | 0 <= i < |urls| :: BestNamed(urls[i], QualityFromUrl(urls[i]))
  {
    forall i | 0 <= i < |urls| ensures BestNamed(urls[i], QualityFromUrl(urls[i])) {
      QualityIsBestNamed(urls[i]);
    }
  }

  /** The variants of a transcoded video: their URLs are the given ones in order, and each
      is labelled with the best quality its URL names. */
  function Variants(urls: seq<string>): (vs: seq<Variant>)
    ensures |vs| == |urls|
    ensures forall i | 0 <= i < |urls| :: vs[i].url == urls[i] && BestNamed(urls[i], vs[i].quality)
  {
    AllBestNamed(urls);
    seq(|urls|, i requires 0 <= i < |urls| => Variant(QualityFromUrl(urls[i]), urls[i]))
  }

  /** The content of a video lesson before processing: pending, at progress 0. */
  const PendingVideo := Content(None, Some(Transcoding(Pending, 0, [])))

  /** The lesson after video processing (course-management.service.ts:194-219): completed at
      100 with one variant per URL, or marked failed. */
  function Transcoded(lesson: Lesson, processed: Option<seq<string>>): (r: Lesson)
    requires lesson.content.transcoding.Some?
    ensures r.id == lesson.id && r.moduleId == lesson.moduleId && r.order == lesson.order
    ensures r.content.transcoding.Some?
    ensures r == lesson.(content := lesson.content.(transcoding := r.content.transcoding))
    ensures var t := r.content.transcoding.value;
      match processed
      case Some(urls) => t.status == Done && t.progress == 100 && t.variants == Variants(urls)
      case None => t == lesson.content.transcoding.value.(status := Failed)
  {
    var t := lesson.content.transcoding.value;
    match processed
    case Some(urls) => lesson.(content := lesson.content.(transcoding := Some(Transcoding(Done, 100, Variants(urls)))))
    case None => lesson.(content := lesson.content.(transcoding := Some(t.(status := Failed))))
  }

  // ---------------------------------------------------------- reordering

  /** `pathPrediction.map(index => modules[index]).filter(Boolean)`: the modules at the
      predicted positions, out-of-range positions dropped. */
  function Reordered(ids: seq<string>, prediction: seq<int>): (r: seq<string>)
    ensures |r| <= |prediction|
    ensures forall x | x in r :: x in ids
    ensures (forall k | 0 <= k < |prediction| :: 0 <= prediction[k] < |ids|) ==>
              |r| == |prediction| && forall k | 0 <= k < |prediction| :: r[k] == ids[prediction[k]]
  {
    if prediction == [] then []
    else
      var p := prediction[0];
      (if 0 <= p < |ids| then [ids[p]] else []) + Reordered(ids, prediction[1..])
  }

  lemma {:induction false} ReorderedAppend(ids: seq<string>, a: seq<int>, b: seq<int>)
    ensures Reordered(ids, a + b) == Reordered(ids, a) + Reordered(ids, b)
  {
    if a != [] {
      assert (a + b)[0] == a[0];
      assert (a + b)[1..] == a[1..] + b;
      ReorderedAppend(ids, a[1..], b);
      var head := if 0 <= a[0] < |ids| then [ids[a[0]]] else [];
      assert Reordered(ids, a + b) == head + Reordered(ids, a[1..] + b);
      assert Reordered(ids, a) == head + Reordered(ids, a[1..]);
    } else {
      assert a + b == b;
    }
  }

  /** Positions outside the module list are dropped wherever they occur. */
  lemma OutOfRangeDropped(ids: seq<string>, a: seq<int>, p: int, b: seq<int>)
    requires !(0 <= p < |ids|)
    ensures Reordered(ids, a + [p] + b) == Reordered(ids, a + b)
  {
    ReorderedAppend(ids, a + [p], b);
    ReorderedAppend(ids, a, [p]);
    ReorderedAppend(ids, a, b);
    assert Reordered(ids, [p]) == [] by { assert [p][1..] == []; }
    assert Reordered(ids, a) + [] == Reordered(ids, a);
  }

  /** Taking the first element of p out of p, and one occurrence of it out of q, leaves
      equal multisets. */
  lemma RemoveMatching(p: seq<int>, q: seq<int>, j: nat)
    requires p != [] && j < |q| && q[j] == p[0] && multiset(p) == multiset(q)
    ensures multiset(p[1..]) == multiset(q[..j] + q[j + 1..])
  {
    var x := p[0];
    var q' := q[..j] + q[j + 1..];
    assert q == q[..j] + [x] + q[j + 1..];
    assert p == [x] + p[1..];
    calc {
      multiset(q') + multiset([x]);
      multiset(q[..j]) + multiset(q[j + 1..]) + multiset([x]);
      multiset(q[..j]) + multiset([x]) + multiset(q[j + 1..]);
      multiset(p);
      multiset(p[1..]) + multiset([x]);
    }
    assert multiset(p[1..]) == multiset(p[1..]) + multiset([x]) - multiset([x]);
    assert multiset(q') == multiset(q') + multiset([x]) - multiset([x]);
  }

  /** Reordering by q is reordering by q without its j-th position, plus what that position
      alone gives. */
  lemma ReorderedSplit(ids: seq<string>, q: seq<int>, j: nat)
    requires j < |q|
    ensures multiset(Reordered(ids, q)) == multiset(Reordered(ids, q[..j] + q[j + 1..])) + multiset(Reordered(ids, [q[j]]))
  {
    assert q == q[..j] + [q[j]] + q[j + 1..];
    ReorderedSplitParts(ids, q[..j], q[j], q[j + 1..]);
  }

  lemma ReorderedSplitParts(ids: seq<string>, front: seq<int>, x: int, back: seq<int>)
    ensures multiset(Reordered(ids, front + [x] + back)) == multiset(Reordered(ids, front + back)) + multiset(Reordered(ids, [x]))
  {
    ReorderedAppend(ids, front + [x], back);
    ReorderedAppend(ids, front, [x]);
    ReorderedAppend(ids, front, back);
    var a, b, m := Reordered(ids, front), Reordered(ids, back), Reordered(ids, [x]);
    assert multiset(a + m + b) == multiset(a) + multiset(m) + multiset(b);
  }

  /** Reordering by two predictions that are permutations of each other gives the same
      modules, counted with repetition; out-of-range positions included. */
  lemma {:induction false} ReorderedRespectsPermutation(ids: seq<string>, p: seq<int>, q: seq<int>)
    requires multiset(p) == multiset(q)
    ensures multiset(Reordered(ids, p)) == multiset(Reordered(ids, q))
    decreases |p|
  {
    if p != [] {
      var x := p[0];
      assert x in multiset(q);
      var j :| 0 <= j < |q| && q[j] == x;
      var q' := q[..j] + q[j + 1..];
      RemoveMatching(p, q, j);
      ReorderedRespectsPermutation(ids, p[1..], q');
      ReorderedSplit(ids, q, j);
      ReorderedSplit(ids, p, 0);
      assert p[..0] + p[1..] == p[1..];
    } else {
      assert q == [] by { assert |multiset(q)| == 0; }
    }
  }

  /** The positions 0, 1, ..., n - 1. */
  function Positions(n: nat): (r: seq<int>)
    ensures |r| == n && forall k | 0 <= k < n :: r[k] == k
  {
    seq(n, k requires 0 <= k < n => k)
  }

  /** The number of scores the learning-path model produces: its last layer has 32 softmax
      units (course-management.service.ts:50-52), so the prediction handed to reorderContent
      is always a permutation of Positions(32). */
  const PathScores: nat := 32

  /** A prediction none of whose positions is in range keeps no module. */
  lemma {:induction false} NoneInRange(ids: seq<string>, s: seq<int>)
    requires forall k | 0 <= k < |s| :: !(0 <= s[k] < |ids|)
    ensures Reordered(ids, s) == []
  {
    if s != [] {
      assert !(0 <= s[0] < |ids|);
      assert forall k | 0 <= k < |s[1..]| :: s[1..][k] == s[k + 1];
      NoneInRange(ids, s[1..]);
    }
  }

  /** Taking positions 0 .. n - 1 in turn gives the first n modules back, and the whole list
      once n reaches its length. */
  lemma ReorderedPositions(ids: seq<string>, n: nat)
    ensures Reordered(ids, Positions(n)) == ids[..if n <= |ids| then n else |ids|]
  {
    if n <= |ids| {
      FirstPositions(ids, n);
    } else {
      PositionsBeyond(ids, n);
    }
  }

  lemma FirstPositions(ids: seq<string>, n: nat)
    requires n <= |ids|
    ensures Reordered(ids, Positions(n)) == ids[..n]
  {
    var r := Reordered(ids, Positions(n));
    assert |r| == n && forall k | 0 <= k < n :: r[k] == ids[k];
  }

  lemma PositionsBeyond(ids: seq<string>, n: nat)
    requires |ids| < n
    ensures Reordered(ids, Positions(n)) == ids
  {
    var m := |ids|;
    var rest := Positions(n)[m..];
    PositionsSplit(m, n);
    ReorderedAppend(ids, Positions(m), rest);
    NoneInRange(ids, rest);
    FirstPositions(ids, m);
    assert ids[..m] == ids;
  }

  /** Positions(n) is Positions(m) followed by positions from m on. */
  lemma PositionsSplit(m: nat, n: nat)
    requires m <= n
    ensures Positions(n) == Positions(m) + Positions(n)[m..]
    ensures forall k | 0 <= k < n - m :: Positions(n)[m..][k] == m + k
  {
    assert forall k | 0 <= k < n - m :: Positions(n)[m..][k] == Positions(n)[m + k];
  }

  /** A prediction that permutes the positions 0 .. n - 1 keeps the first n modules (all of
      them when n is at least their number), each once, in some order. */
  lemma PermutationKeepsFirst(ids: seq<string>, prediction: seq<int>, n: nat)
    requires multiset(prediction) == multiset(Positions(n))
    ensures multiset(Reordered(ids, prediction)) == multiset(ids[..if n <= |ids| then n else |ids|])
  {
    ReorderedRespectsPermutation(ids, prediction, Positions(n));
    ReorderedPositions(ids, n);
  }

  /** A prediction that permutes at least as many positions as there are modules yields a
      permutation of the modules. */
  lemma PermutationPreserved(ids: seq<string>, prediction: seq<int>, n: nat)
    requires |ids| <= n && multiset(prediction) == multiset(Positions(n))
    ensures multiset(Reordered(ids, prediction)) == multiset(ids)
  {
    PermutationKeepsFirst(ids, prediction, n);
    assert ids[..|ids|] == ids;
  }

  /** With more modules than the model has scores, personalisation keeps only the modules
      at positions 0 .. 31: the course loses the rest. */
  lemma LongCourseLosesModules(ids: seq<string>, prediction: seq<int>)
    requires |ids| > PathScores && multiset(prediction) == multiset(Positions(PathScores))
    ensures |Reordered(ids, prediction)| == PathScores < |ids|
    ensures multiset(Reordered(ids, prediction)) == multiset(ids[..PathScores])
    ensures (forall i, j | 0 <= i < j < |ids| :: ids[i] != ids[j]) ==>
              forall k | PathScores <= k < |ids| :: ids[k] !in Reordered(ids, prediction)
  {
    var r := Reordered(ids, prediction);
    PermutationKeepsFirst(ids, prediction, PathScores);
    assert |multiset(r)| == |r|;
    if forall i, j | 0 <= i < j < |ids| :: ids[i] != ids[j] {
      forall k | PathScores <= k < |ids| ensures ids[k] !in r {
        assert forall i | 0 <= i < PathScores :: ids[..PathScores][i] != ids[k];
        assert ids[k] !in multiset(r);
      }
    }
  }

  /** The last position of x in s. */
  function LastIndex(s: seq<string>, x: string): (k: nat)
    requires x in s
    ensures k < |s| && s[k] == x && forall j | k < j < |s| :: s[j] != x
  {
    if s[|s| - 1] == x then |s| - 1
    else
      assert x in s[..|s| - 1] by {
        var i :| 0 <= i < |s| && s[i] == x;
        assert s[..|s| - 1][i] == x;
      }
      LastIndex(s[..|s| - 1], x)
  }

  /** The modules after the renumbering `forEach` of reorderContent: a module listed in
      `ids` gets one past its last position in the list; the others are untouched. */
  function Renumbered(modules: map<string, CourseModule>, ids: seq<string>): map<string, CourseModule>
  {
    map m | m in modules :: if m in ids then modules[m].(order := LastIndex(ids, m) + 1) else modules[m]
  }

  lemma RenumberedStep(modules: map<string, CourseModule>, ids: seq<string>, now: map<string, CourseModule>, i: nat)
    requires i < |ids| && ids[i] in modules
    requires now == Renumbered(modules, ids[..i])
    ensures Renumbered(modules, ids[..i + 1]) == now[ids[i] := now[ids[i]].(order := i + 1)]
  {
    var next := Renumbered(modules, ids[..i + 1]);
    var expected := now[ids[i] := now[ids[i]].(order := i + 1)];
    assert ids[..i + 1] == ids[..i] + [ids[i]];
    forall m | m in modules ensures next[m] == expected[m] {
      if m == ids[i] {
        assert LastIndex(ids[..i + 1], m) == i;
      } else if m in ids[..i] {
        assert m in ids[..i + 1];
        var k := LastIndex(ids[..i + 1], m);
        assert ids[..i + 1][k] == ids[..i][k];
        assert LastIndex(ids[..i], m) == k;
      } else {
        assert m !in ids[..i + 1];
      }
    }
    assert next.Keys == expected.Keys;
  }

  /** With no repeated module, renumbering gives module i the order i + 1. */
  lemma RenumberedDistinct(modules: map<string, CourseModule>, ids: seq<string>)
    requires forall i, j | 0 <= i < j < |ids| :: ids[i] != ids[j]
    requires forall i | 0 <= i < |ids| :: ids[i] in modules
    ensures forall i | 0 <= i < |ids| :: Renumbered(modules, ids)[ids[i]].order == i + 1
  {
    forall i | 0 <= i < |ids| ensures Renumbered(modules, ids)[ids[i]].order == i + 1 {
      assert LastIndex(ids, ids[i]) == i;
    }
  }

  // ------------------------------------------------------------ the catalog

  /** Each record is filed under its own id; a course lists existing modules of its own and
      a module lists existing lessons of its own. */
  ghost predicate CatalogValid(courses: map<string, Course>, modules: map<string, CourseModule>, lessons: map<string, Lesson>)
  {
    && (forall c | c in courses ::
          && courses[c].id == c
          && forall i | 0 <= i < |courses[c].moduleIds| ::
               courses[c].moduleIds[i] in modules && modules[courses[c].moduleIds[i]].courseId == c)
    && (forall m | m in modules ::
          && modules[m].id == m
          && modules[m].courseId in courses
          && forall i | 0 <= i < |modules[m].lessonIds| ::
               modules[m].lessonIds[i] in lessons && lessons[modules[m].lessonIds[i]].moduleId == m)
    && (forall l | l in lessons :: lessons[l].id == l && lessons[l].moduleId in modules)
  }

  /** The modules of a course carry their positions as order numbers. */
  ghost predicate OrdersMatchPositions(ids: seq<string>, modules: map<string, CourseModule>)
  {
    forall i | 0 <= i < |ids| :: ids[i] in modules && modules[ids[i]].order == i + 1
  }

  /** Storing twice under one key keeps only the second value. */
  lemma Overwritten(lessons: map<string, Lesson>, k: string, first: Lesson, second: Lesson)
    ensures lessons[k := first][k := second] == lessons[k := second]
  {
  }

  lemma NewCourseKeepsValid(courses: map<string, Course>, modules: map<string, CourseModule>, lessons: map<string, Lesson>,
                            courseId: string, data: CourseData)
    requires CatalogValid(courses, modules, lessons)
    ensures CatalogValid(courses[courseId := NewCourse(courseId, data)], modules, lessons)
  {
  }

  /** Appending a module under a fresh id keeps the catalog valid and numbers it one past
      the course's module count; orders that matched positions still do. */
  lemma AddModuleKeepsValid(courses: map<string, Course>, modules: map<string, CourseModule>, lessons: map<string, Lesson>,
                            courseId: string, added: CourseModule)
    requires CatalogValid(courses, modules, lessons) && courseId in courses
    requires added.id !in modules && added.courseId == courseId && added.lessonIds == []
    requires added.order == |courses[courseId].moduleIds| + 1
    ensures var c := courses[courseId];
      var courses' := courses[courseId := c.(moduleIds := c.moduleIds + [added.id])];
      var modules' := modules[added.id := added];
      && CatalogValid(courses', modules', lessons)
      && (OrdersMatchPositions(c.moduleIds, modules) ==> OrdersMatchPositions(courses'[courseId].moduleIds, modules'))
  {
    var c := courses[courseId];
    var modules' := modules[added.id := added];
    assert forall i | 0 <= i < |c.moduleIds| :: c.moduleIds[i] != added.id;
    forall c' | c' in courses ensures forall i | 0 <= i < |courses[c'].moduleIds| :: courses[c'].moduleIds[i] != added.id {
    }
  }

  /** Appending a lesson under a fresh id keeps the catalog valid. */
  lemma AddLessonKeepsValid(courses: map<string, Course>, modules: map<string, CourseModule>, lessons: map<string, Lesson>,
                            moduleId: string, lesson: Lesson)
    requires CatalogValid(courses, modules, lessons) && moduleId in modules
    requires lesson.id !in lessons && lesson.moduleId == moduleId
    ensures var m := modules[moduleId];
      CatalogValid(courses, modules[moduleId := m.(lessonIds := m.lessonIds + [lesson.id])], lessons[lesson.id := lesson])
  {
    forall m | m in modules ensures forall i | 0 <= i < |modules[m].lessonIds| :: modules[m].lessonIds[i] != lesson.id {
    }
  }

  /** Changing what a lesson says, but not where it is filed, keeps the catalog valid. */
  lemma LessonUpdateKeepsValid(courses: map<string, Course>, modules: map<string, CourseModule>, lessons: map<string, Lesson>,
                               lesson: Lesson)
    requires CatalogValid(courses, modules, lessons)
    requires lesson.id in lessons && lessons[lesson.id].moduleId == lesson.moduleId
    ensures CatalogValid(courses, modules, lessons[lesson.id := lesson])
  {
  }

  /** Reordering keeps the catalog valid; without repeats the new orders match positions. */
  lemma ReorderKeepsValid(courses: map<string, Course>, modules: map<string, CourseModule>, lessons: map<string, Lesson>,
                          courseId: string, prediction: seq<int>)
    requires CatalogValid(courses, modules, lessons) && courseId in courses
    ensures var ids := Reordered(courses[courseId].moduleIds, prediction);
      var courses' := courses[courseId := courses[courseId].(moduleIds := ids)];
      && CatalogValid(courses', Renumbered(modules, ids), lessons)
      && ((forall i, j | 0 <= i < j < |ids| :: ids[i] != ids[j]) ==> OrdersMatchPositions(ids, Renumbered(modules, ids)))
  {
    var ids := Reordered(courses[courseId].moduleIds, prediction);
    forall i | 0 <= i < |ids| ensures ids[i] in modules && modules[ids[i]].courseId == courseId {
      assert ids[i] in courses[courseId].moduleIds;
    }
    var courses' := courses[courseId := courses[courseId].(moduleIds := ids)];
    ListingKeepsValid(courses, modules, lessons, courseId, ids);
    OrdersOnlyKeepValid(courses', modules, Renumbered(modules, ids), lessons);
    if forall i, j | 0 <= i < j < |ids| :: ids[i] != ids[j] {
      RenumberedDistinct(modules, ids);
    }
  }

  /** Listing other modules of its own in a course keeps the catalog valid. */
  lemma ListingKeepsValid(courses: map<string, Course>, modules: map<string, CourseModule>, lessons: map<string, Lesson>,
                          courseId: string, ids: seq<string>)
    requires CatalogValid(courses, modules, lessons) && courseId in courses
    requires forall i | 0 <= i < |ids| :: ids[i] in modules && modules[ids[i]].courseId == courseId
    ensures CatalogValid(courses[courseId := courses[courseId].(moduleIds := ids)], modules, lessons)
  {
  }

  /** Changing only the order numbers of modules keeps the catalog valid. */
  lemma OrdersOnlyKeepValid(courses: map<string, Course>, modules: map<string, CourseModule>,
                            modules': map<string, CourseModule>, lessons: map<string, Lesson>)
    requires CatalogValid(courses, modules, lessons)
    requires modules'.Keys == modules.Keys
    requires forall m | m in modules :: modules'[m] == modules[m].(order := modules'[m].order)
    ensures CatalogValid(courses, modules', lessons)
  {
  }

  // ----------------------------------------------------------- the service

  class CourseManager {
    var courses: map<string, Course>
    var modules: map<string, CourseModule>
    var lessons: map<string, Lesson>

    ghost predicate Valid()
      reads this
    {
      CatalogValid(courses, modules, lessons)
    }

    constructor ()
      ensures Valid() && courses == map[] && modules == map[] && lessons == map[]
    {
      courses := map[];
      modules := map[];
      lessons := map[];
    }

    /** createCourse (course-management.service.ts:110-118); `courseId` is the fresh id. */
    method CreateCourse(courseId: string, data: CourseData) returns (c: Course)
      requires Valid() && courseId !in courses
      modifies this
      ensures Valid() && modules == old(modules) && lessons == old(lessons)
      ensures c == NewCourse(courseId, data) && courses == old(courses)[courseId := c]
    {
      NewCourseKeepsValid(courses, modules, lessons, courseId, data);
      c := NewCourse(courseId, data);
      courses := courses[courseId := c];
    }

    /** updateCourse (course-management.service.ts:120-133). */
    method UpdateCourse(courseId: string, patch: CoursePatch) returns (r: Result<Course>)
      requires Valid()
      modifies this
      ensures Valid() && modules == old(modules) && lessons == old(lessons)
      ensures courseId !in old(courses) ==> r == Error(NoCourse) && courses == old(courses)
      ensures courseId in old(courses) ==>
        r == Success(PatchCourse(old(courses)[courseId], patch)) && courses == old(courses)[courseId := r.value]
    {
      if courseId !in courses {
        return Error(NoCourse);
      }
      var c := PatchCourse(courses[courseId], patch);
      courses := courses[courseId := c];
      return Success(c);
    }

    /** addModule (course-management.service.ts:135-152); `moduleId` is the fresh id. */
    method AddModule(courseId: string, moduleId: string, data: ModuleData) returns (r: Result<CourseModule>)
      requires Valid() && moduleId !in modules
      modifies this
      ensures Valid() && lessons == old(lessons)
      ensures courseId !in old(courses) ==> r == Error(NoCourse) && courses == old(courses) && modules == old(modules)
      ensures courseId in old(courses) ==>
        var c := old(courses)[courseId];
        && r == Success(CourseModule(moduleId, data.title, data.description, courseId, [], |c.moduleIds| + 1))
        && modules == old(modules)[moduleId := r.value]
        && courses == old(courses)[courseId := c.(moduleIds := c.moduleIds + [moduleId])]
        && (OrdersMatchPositions(c.moduleIds, old(modules)) ==> OrdersMatchPositions(courses[courseId].moduleIds, modules))
    {
      if courseId !in courses {
        return Error(NoCourse);
      }
      var c := courses[courseId];
      var added := CourseModule(moduleId, data.title, data.description, courseId, [], |c.moduleIds| + 1);
      AddModuleKeepsValid(courses, modules, lessons, courseId, added);
      modules := modules[moduleId := added];
      courses := courses[courseId := c.(moduleIds := c.moduleIds + [moduleId])];
      return Success(added);
    }

    /** addLesson (course-management.service.ts:154-171); `lessonId` is the fresh id. */
    method AddLesson(moduleId: string, lessonId: string, data: LessonData) returns (r: Result<Lesson>)
      requires Valid() && lessonId !in lessons
      modifies this
      ensures Valid() && courses == old(courses)
      ensures moduleId !in old(modules) ==> r == Error(NoModule) && modules == old(modules) && lessons == old(lessons)
      ensures moduleId in old(modules) ==>
        var m := old(modules)[moduleId];
        && r == Success(Lesson(lessonId, data.title, data.description, moduleId, data.lessonType, data.content, |m.lessonIds| + 1))
        && lessons == old(lessons)[lessonId := r.value]
        && modules == old(modules)[moduleId := m.(lessonIds := m.lessonIds + [lessonId])]
    {
      if moduleId !in modules {
        return Error(NoModule);
      }
      var m := modules[moduleId];
      var lesson := Lesson(lessonId, data.title, data.description, moduleId, data.lessonType, data.content, |m.lessonIds| + 1);
      AddLessonKeepsValid(courses, modules, lessons, moduleId, lesson);
      lessons := lessons[lessonId := lesson];
      modules := modules[moduleId := m.(lessonIds := m.lessonIds + [lessonId])];
      return Success(lesson);
    }

    /** uploadVideoLesson (course-management.service.ts:173-221). `processed` is what video
        processing returned: the variant URLs, or None when it failed. The lesson is
        created pending either way; a failure leaves it stored, marked failed. */
    method UploadVideoLesson(moduleId: string, lessonId: string, title: string, description: string,
                             processed: Option<seq<string>>) returns (r: Result<Lesson>)
      requires Valid() && lessonId !in lessons
      modifies this
      ensures Valid() && courses == old(courses)
      ensures moduleId !in old(modules) ==> r == Error(NoModule) && modules == old(modules) && lessons == old(lessons)
      ensures moduleId in old(modules) ==>
        var m := old(modules)[moduleId];
        var final := Transcoded(Lesson(lessonId, title, description, moduleId, Video, PendingVideo, |m.lessonIds| + 1), processed);
        && modules == old(modules)[moduleId := m.(lessonIds := m.lessonIds + [lessonId])]
        && lessons == old(lessons)[lessonId := final]
        && (processed.Some? ==> r == Success(final))
        && (processed.None? ==> r == Error(ProcessingFailed))
    {
      if moduleId !in modules {
        return Error(NoModule);
      }
      ghost var m := modules[moduleId];
      ghost var before := lessons;
      var added := AddLesson(moduleId, lessonId, LessonData(title, description, Video, PendingVideo));
      assert added.value == Lesson(lessonId, title, description, moduleId, Video, PendingVideo, |m.lessonIds| + 1);
      r := FinishUpload(added.value, processed);
      Overwritten(before, lessonId, added.value, Transcoded(added.value, processed));
    }

    /** The end of uploadVideoLesson (course-management.service.ts:186-220): record what
        video processing returned on the stored pending lesson. */
    method FinishUpload(pending: Lesson, processed: Option<seq<string>>) returns (r: Result<Lesson>)
      requires Valid() && pending.id in lessons && lessons[pending.id].moduleId == pending.moduleId
      requires pending.content.transcoding.Some?
      modifies this
      ensures Valid() && courses == old(courses) && modules == old(modules)
      ensures lessons == old(lessons)[pending.id := Transcoded(pending, processed)]
      ensures processed.Some? ==> r == Success(Transcoded(pending, processed))
      ensures processed.None? ==> r == Error(ProcessingFailed)
    {
      var lesson := Transcoded(pending, processed);
      StoreLesson(lesson);
      if processed.None? {
        return Error(ProcessingFailed);
      }
      return Success(lesson);
    }

    /** `this.lessons.set(lesson.id, lesson)` for a lesson already filed in its module. */
    method StoreLesson(lesson: Lesson)
      requires Valid() && lesson.id in lessons && lessons[lesson.id].moduleId == lesson.moduleId
      modifies this
      ensures Valid() && courses == old(courses) && modules == old(modules)
      ensures lessons == old(lessons)[lesson.id := lesson]
    {
      LessonUpdateKeepsValid(courses, modules, lessons, lesson);
      lessons := lessons[lesson.id := lesson];
    }

    /** getModule (course-management.service.ts:651-657). */
    method GetModule(moduleId: string) returns (r: Result<CourseModule>)
      ensures moduleId !in modules <==> r == Error(NoModule)
      ensures moduleId in modules ==> r == Success(modules[moduleId])
    {
      if moduleId !in modules {
        return Error(NoModule);
      }
      return Success(modules[moduleId]);
    }

    /** getLesson (course-management.service.ts:659-665). */
    method GetLesson(lessonId: string) returns (r: Result<Lesson>)
      ensures lessonId !in lessons <==> r == Error(NoLesson)
      ensures lessonId in lessons ==> r == Success(lessons[lessonId])
    {
      if lessonId !in lessons {
        return Error(NoLesson);
      }
      return Success(lessons[lessonId]);
    }

    /** publishCourse (course-management.service.ts:667-681): only a course with modules. */
    method PublishCourse(courseId: string) returns (r: Result<Course>)
      requires Valid()
      modifies this
      ensures Valid() && modules == old(modules) && lessons == old(lessons)
      ensures courseId !in old(courses) ==> r == Error(NoCourse) && courses == old(courses)
      ensures courseId in old(courses) && old(courses)[courseId].moduleIds == [] ==>
        r == Error(NoModules) && courses == old(courses)
      ensures courseId in old(courses) && old(courses)[courseId].moduleIds != [] ==>
        r == Success(old(courses)[courseId].(isPublished := true)) && courses == old(courses)[courseId := r.value]
    {
      if courseId !in courses {
        return Error(NoCourse);
      }
      var c := courses[courseId];
      if |c.moduleIds| == 0 {
        return Error(NoModules);
      }
      c := c.(isPublished := true);
      courses := courses[courseId := c];
      return Success(c);
    }

    /** unpublishCourse (course-management.service.ts:683-693). */
    method UnpublishCourse(courseId: string) returns (r: Result<Course>)
      requires Valid()
      modifies this
      ensures Valid() && modules == old(modules) && lessons == old(lessons)
      ensures courseId !in old(courses) ==> r == Error(NoCourse) && courses == old(courses)
      ensures courseId in old(courses) ==>
        r == Success(old(courses)[courseId].(isPublished := false)) && courses == old(courses)[courseId := r.value]
    {
      if courseId !in courses {
        return Error(NoCourse);
      }
      var c := courses[courseId].(isPublished := false);
      courses := courses[courseId := c];
      return Success(c);
    }

    /** reorderContent (course-management.service.ts:320-332) on the course filed under
        `courseId`: keep the modules at the predicted positions, then number them 1, 2, ... */
    method ReorderContent(courseId: string, prediction: seq<int>)
      requires Valid() && courseId in courses
      modifies this
      ensures Valid() && lessons == old(lessons)
      ensures var ids := Reordered(old(courses)[courseId].moduleIds, prediction);
        && courses == old(courses)[courseId := old(courses)[courseId].(moduleIds := ids)]
        && modules == Renumbered(old(modules), ids)
        && ((forall i, j | 0 <= i < j < |ids| :: ids[i] != ids[j]) ==> OrdersMatchPositions(ids, modules))
    {
      ReorderKeepsValid(courses, modules, lessons, courseId, prediction);
      var ids := Reordered(courses[courseId].moduleIds, prediction);
      forall i | 0 <= i < |ids| ensures ids[i] in modules {
        assert ids[i] in courses[courseId].moduleIds;
      }
      courses := courses[courseId := courses[courseId].(moduleIds := ids)];
      Renumber(ids);
    }

    /** The `forEach` of reorderContent: module i of `ids` gets order i + 1. */
    method Renumber(ids: seq<string>)
      requires forall i | 0 <= i < |ids| :: ids[i] in modules
      modifies this
      ensures modules == Renumbered(old(modules), ids)
      ensures courses == old(courses) && lessons == old(lessons)
    {
      ghost var before := modules;
      assert Renumbered(before, ids[..0]) == before;
      for i := 0 to |ids|
        invariant modules == Renumbered(before, ids[..i])
        invariant courses == old(courses) && lessons == old(lessons)
      {
        RenumberedStep(before, ids, modules, i);
        modules := modules[ids[i] := modules[ids[i]].(order := i + 1)];
      }
      assert ids[..|ids|] == ids;
    }
  }
}
