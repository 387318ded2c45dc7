/**
 * The course normalizer: from a list of raw course records to minimal
 * course descriptors (course id, course name, primary instructor).
 *
 * The specification is a filter followed by a map: `WithTeachers` keeps the
 * courses whose teacher list is present and non-empty, and `DescribeAll`
 * turns each of them into a descriptor, failing with the first missing key.
 * `CreateClassDict` is the append loop that computes it.
 */
module CourseNormalizer {
  import opened CanvasRecords

  /** The truth value of `course.get('teachers')`: absent, null and [] are all false. */
  predicate HasTeachers(c: RawCourse) {
    c.teachers.Some? && |c.teachers.value| > 0
  }

  /** The first (primary) teacher of a course that has teachers. */
  function PrimaryTeacher(c: RawCourse): Teacher
    requires HasTeachers(c)
  {
    c.teachers.value[0]
  }

  /** A course with teachers carries every key its descriptor is built from. */
  predicate Complete(c: RawCourse)
    requires HasTeachers(c)
  {
    c.id.Some? && c.name.Some? && PrimaryTeacher(c).displayName.Some?
  }

  /**
   * The key whose lookup fails first when the descriptor of an incomplete
   * course is built: the dictionary literal reads `id`, then `name`, then the
   * first teacher's `display_name`.
   */
  function FirstAbsentKey(c: RawCourse): (k: MissingKey)
    requires HasTeachers(c) && !Complete(c)
    ensures k == CourseId <==> c.id.None?
    ensures k == CourseName <==> c.id.Some? && c.name.None?
    ensures k == DisplayName <==> c.id.Some? && c.name.Some? && PrimaryTeacher(c).displayName.None?
  {
    if c.id.None? then CourseId
    else if c.name.None? then CourseName
    else DisplayName
  }

  /** The descriptor of one course with teachers, or the KeyError its construction raises. */
  function Describe(c: RawCourse): (r: Result<CourseDescriptor>)
    requires HasTeachers(c)
    ensures r.Success? <==> Complete(c)
    ensures r.Success? ==>
      && r.value.courseId == c.id.value
      && r.value.courseName == c.name.value
      && r.value.instructor == c.teachers.value[0].displayName.value
    ensures r.Failure? ==> r.error == FirstAbsentKey(c)
  {
    if Complete(c) then
      Success(CourseDescriptor(c.id.value, c.name.value, PrimaryTeacher(c).displayName.value))
    else
      Failure(FirstAbsentKey(c))
  }

  /** The courses that have teachers, in input order (the filter). */
  function WithTeachers(cs: seq<RawCourse>): (r: seq<RawCourse>)
    ensures |r| <= |cs|
    ensures forall k | 0 <= k < |r| :: HasTeachers(r[k])
  {
    if cs == [] then []
    else
      var last := cs[|cs| - 1];
      WithTeachers(cs[..|cs| - 1]) + (if HasTeachers(last) then [last] else [])
  }

  /**
   * The indices of the courses that have teachers, in increasing order:
   * `WithTeachers(cs)[k]` is the course at position `Positions(cs)[k]`.
   */
  function Positions(cs: seq<RawCourse>): (p: seq<nat>)
    ensures |p| == |WithTeachers(cs)|
    ensures forall k | 0 <= k < |p| :: p[k] < |cs| && WithTeachers(cs)[k] == cs[p[k]]
    ensures forall j, k | 0 <= j < k < |p| :: p[j] < p[k]
    ensures forall i | 0 <= i < |cs| :: HasTeachers(cs[i]) <==> i in p
  {
    if cs == [] then []
    else
      var n := |cs| - 1;
      assert forall i | 0 <= i < n :: cs[..n][i] == cs[i];
      Positions(cs[..n]) + (if HasTeachers(cs[n]) then [n] else [])
  }

  /**
   * The descriptors of courses that all have teachers, in order (the map).
   * The first incomplete course aborts the whole computation.
   */
  function DescribeAll(ws: seq<RawCourse>): (r: Result<seq<CourseDescriptor>>)
    requires forall k | 0 <= k < |ws| :: HasTeachers(ws[k])
    ensures r.Success? <==> forall k | 0 <= k < |ws| :: Complete(ws[k])
    ensures r.Success? ==>
      && |r.value| == |ws|
      && forall k | 0 <= k < |ws| ::
        && r.value[k].courseId == ws[k].id.value
        && r.value[k].courseName == ws[k].name.value
        && r.value[k].instructor == PrimaryTeacher(ws[k]).displayName.value
  {
    if ws == [] then Success([])
    else
      var n := |ws| - 1;
      assert forall k | 0 <= k < n :: ws[..n][k] == ws[k];
      match DescribeAll(ws[..n])
      case Failure(e) => Failure(e)
      case Success(prefix) =>
        match Describe(ws[n])
        case Failure(e) => Failure(e)
        case Success(d) => Success(prefix + [d])
  }

  /** What `create_class_dict` returns for a decoded course list, or the KeyError it raises. */
  function ClassDict(cs: seq<RawCourse>): (r: Result<seq<CourseDescriptor>>)
    ensures r.Success? ==> |r.value| <= |cs|
  {
    DescribeAll(WithTeachers(cs))
  }

  /** One step of the append loop: the result on `s + [c]` from the result on `s`. */
  lemma {:induction false} ClassDictSnoc(s: seq<RawCourse>, c: RawCourse)
    ensures ClassDict(s + [c]) ==
      match ClassDict(s)
      case Failure(e) => Failure(e)
      case Success(out) =>
        if !HasTeachers(c) then Success(out)
        else
          match Describe(c)
          case Failure(e) => Failure(e)
          case Success(d) => Success(out + [d])
  {
    var sc := s + [c];
    assert sc[..|sc| - 1] == s;
    var ws := WithTeachers(s);
    if HasTeachers(c) {
      var wc := ws + [c];
      assert WithTeachers(sc) == wc;
      assert wc[..|wc| - 1] == ws;
    } else {
      assert WithTeachers(sc) == ws;
    }
  }

  /** Once a KeyError has been raised, later courses do not matter. */
  lemma {:induction false} FailureSticks(a: seq<RawCourse>, b: seq<RawCourse>)
    ensures ClassDict(a).Failure? ==> ClassDict(a + b) == ClassDict(a)
    decreases |b|
  {
    if b != [] {
      var b' := b[..|b| - 1];
      FailureSticks(a, b');
      assert a + b == (a + b') + [b[|b| - 1]];
      ClassDictSnoc(a + b', b[|b| - 1]);
    } else {
      assert a + b == a;
    }
  }

  /**
   * `create_class_dict`: walk the courses, skip those without teachers and
   * append one descriptor for each of the others. A missing key aborts.
   */
  method CreateClassDict(courses: seq<RawCourse>) returns (r: Result<seq<CourseDescriptor>>)
    ensures r == ClassDict(courses)
  {
    var output: seq<CourseDescriptor> := [];
    var i := 0;
    while i < |courses|
      invariant 0 <= i <= |courses|
      invariant ClassDict(courses[..i]) == Success(output)
    {
      var course := courses[i];
      assert courses[..i + 1] == courses[..i] + [course];
      ClassDictSnoc(courses[..i], course);
      FailureSticks(courses[..i + 1], courses[i + 1..]);
      assert courses[..i + 1] + courses[i + 1..] == courses;
      if course.teachers.Some? && |course.teachers.value| > 0 {
        var teacher := course.teachers.value[0];
        if course.id.None? {
          return Failure(CourseId);
        }
        if course.name.None? {
          return Failure(CourseName);
        }
        if teacher.displayName.None? {
          return Failure(DisplayName);
        }
        output := output + [CourseDescriptor(course.id.value, course.name.value, teacher.displayName.value)];
      }
      i := i + 1;
    }
    assert courses[..i] == courses;
    r := Success(output);
  }
}
