/**
 * What the course normalizer promises, stated over its specification
 * `ClassDict` and proved for all inputs.
 */
module NormalizerProperties {
  import opened CanvasRecords
  import opened CourseNormalizer

  /** Position `i` holds the first course that has teachers but lacks a key its descriptor needs. */
  predicate FirstIncomplete(cs: seq<RawCourse>, i: int) {
    && 0 <= i < |cs|
    && HasTeachers(cs[i])
    && !Complete(cs[i])
    && forall j | 0 <= j < i && HasTeachers(cs[j]) :: Complete(cs[j])
  }

  /** Two courses look the same to the normalizer: same teacher test and, if kept, same three keys. */
  predicate SameKeysRead(c: RawCourse, d: RawCourse) {
    && HasTeachers(c) == HasTeachers(d)
    && (HasTeachers(c) ==>
      && c.id == d.id
      && c.name == d.name
      && PrimaryTeacher(c).displayName == PrimaryTeacher(d).displayName)
  }

  /**
   * On success there is exactly one descriptor per course with teachers, in
   * input order: the k-th descriptor copies the id, the name and the first
   * teacher's display name of the k-th such course, whose position in the
   * input is `Positions(cs)[k]`.
   */
  lemma ClassDictEntries(cs: seq<RawCourse>)
    ensures ClassDict(cs).Success? ==>
      var out, p := ClassDict(cs).value, Positions(cs);
      && |out| == |p|
      && forall k | 0 <= k < |p| ::
        && p[k] < |cs|
        && HasTeachers(cs[p[k]])
        && out[k].courseId == cs[p[k]].id.value
        && out[k].courseName == cs[p[k]].name.value
        && out[k].instructor == cs[p[k]].teachers.value[0].displayName.value
  {
  }

  /** The call returns normally exactly when every course with teachers has all three keys. */
  lemma {:induction false} ClassDictSucceedsIff(cs: seq<RawCourse>)
    ensures ClassDict(cs).Success? <==>
      forall i | 0 <= i < |cs| && HasTeachers(cs[i]) :: Complete(cs[i])
  {
    var ws, p := WithTeachers(cs), Positions(cs);
    if forall i | 0 <= i < |cs| && HasTeachers(cs[i]) :: Complete(cs[i]) {
      forall k | 0 <= k < |ws| ensures Complete(ws[k]) {
        assert ws[k] == cs[p[k]];
      }
    } else {
      var i :| 0 <= i < |cs| && HasTeachers(cs[i]) && !Complete(cs[i]);
      assert i in p;
      var k :| 0 <= k < |p| && p[k] == i;
      assert !Complete(ws[k]);
    }
  }

  /**
   * The KeyError raised is the one of the first incomplete course with
   * teachers, for the first key missing from it in the order id, name,
   * display_name.
   */
  lemma {:induction false} ClassDictFailsAt(cs: seq<RawCourse>, i: int)
    requires FirstIncomplete(cs, i)
    ensures ClassDict(cs) == Failure(FirstAbsentKey(cs[i]))
  {
    var prefix := cs[..i];
    assert forall j | 0 <= j < i :: prefix[j] == cs[j];
    ClassDictSucceedsIff(prefix);
    assert ClassDict(prefix).Success?;
    ClassDictSnoc(prefix, cs[i]);
    assert Describe(cs[i]) == Failure(FirstAbsentKey(cs[i]));
    assert ClassDict(prefix + [cs[i]]) == Failure(FirstAbsentKey(cs[i]));
    assert cs[..i + 1] == prefix + [cs[i]];
    FailureSticks(cs[..i + 1], cs[i + 1..]);
    assert cs[..i + 1] + cs[i + 1..] == cs;
  }

  /** Conversely, a failing call always has a first incomplete course with teachers. */
  lemma {:induction false} ClassDictFailureWitness(cs: seq<RawCourse>)
    ensures ClassDict(cs).Failure? ==> exists i :: FirstIncomplete(cs, i)
    decreases |cs|
  {
    if cs != [] && ClassDict(cs).Failure? {
      var n := |cs| - 1;
      var prefix := cs[..n];
      assert cs == prefix + [cs[n]];
      assert forall j | 0 <= j < n :: prefix[j] == cs[j];
      ClassDictSnoc(prefix, cs[n]);
      ClassDictFailureWitness(prefix);
      if ClassDict(prefix).Failure? {
        var i :| FirstIncomplete(prefix, i);
        assert FirstIncomplete(cs, i);
      } else {
        ClassDictSucceedsIff(prefix);
        assert FirstIncomplete(cs, n);
      }
    }
  }

  /** Filtering distributes over concatenation. */
  lemma {:induction false} WithTeachersAppend(a: seq<RawCourse>, b: seq<RawCourse>)
    ensures WithTeachers(a + b) == WithTeachers(a) + WithTeachers(b)
    decreases |b|
  {
    if b == [] {
      assert a + b == a;
    } else {
      var b' := b[..|b| - 1];
      WithTeachersAppend(a, b');
      var ab := a + b;
      assert ab[..|ab| - 1] == a + b';
    }
  }

  /**
   * A course without teachers contributes nothing: removing it leaves the
   * result, descriptors or KeyError, unchanged.
   */
  lemma {:induction false} SkipTeacherless(cs: seq<RawCourse>, i: int)
    requires 0 <= i < |cs| && !HasTeachers(cs[i])
    ensures ClassDict(cs[..i] + cs[i + 1..]) == ClassDict(cs)
  {
    var a, b := cs[..i], cs[i + 1..];
    assert cs == (a + [cs[i]]) + b;
    WithTeachersAppend(a + [cs[i]], b);
    WithTeachersAppend(a, [cs[i]]);
    WithTeachersAppend(a, b);
    assert [cs[i]][..0] == [];
    assert WithTeachers([cs[i]]) == [];
    assert WithTeachers(a) + [] == WithTeachers(a);
  }

  /**
   * Only `id`, `name` and the first teacher's `display_name` of a course with
   * teachers reach the output: later teachers and every other key do not
   * change the result.
   */
  lemma {:induction false} OnlyKeysReadMatter(cs: seq<RawCourse>, ds: seq<RawCourse>)
    requires |cs| == |ds|
    requires forall i | 0 <= i < |cs| :: SameKeysRead(cs[i], ds[i])
    ensures ClassDict(cs) == ClassDict(ds)
    decreases |cs|
  {
    if cs != [] {
      var n := |cs| - 1;
      assert cs == cs[..n] + [cs[n]];
      assert ds == ds[..n] + [ds[n]];
      OnlyKeysReadMatter(cs[..n], ds[..n]);
      ClassDictSnoc(cs[..n], cs[n]);
      ClassDictSnoc(ds[..n], ds[n]);
    }
  }

  /** No course is dropped exactly when every course has teachers. */
  lemma {:induction false} AllKeptIff(cs: seq<RawCourse>)
    ensures |WithTeachers(cs)| == |cs| <==> forall i | 0 <= i < |cs| :: HasTeachers(cs[i])
    decreases |cs|
  {
    if cs != [] {
      var n := |cs| - 1;
      AllKeptIff(cs[..n]);
      assert forall i | 0 <= i < n :: cs[..n][i] == cs[i];
    }
  }

  /** The number of courses whose `teachers` is absent, null or empty. */
  function Dropped(cs: seq<RawCourse>): nat {
    if cs == [] then 0
    else Dropped(cs[..|cs| - 1]) + (if HasTeachers(cs[|cs| - 1]) then 0 else 1)
  }

  /** On success the output has one entry fewer than the input for each course without teachers. */
  lemma {:induction false} ClassDictDropCount(cs: seq<RawCourse>)
    ensures |WithTeachers(cs)| + Dropped(cs) == |cs|
    ensures ClassDict(cs).Success? ==> |ClassDict(cs).value| == |cs| - Dropped(cs)
    decreases |cs|
  {
    if cs != [] {
      ClassDictDropCount(cs[..|cs| - 1]);
    }
  }

  /** On success the output is exactly as long as the input iff no course lacks teachers. */
  lemma ClassDictLength(cs: seq<RawCourse>)
    ensures ClassDict(cs).Success? ==>
      && |ClassDict(cs).value| <= |cs|
      && (|ClassDict(cs).value| == |cs| <==> forall i | 0 <= i < |cs| :: HasTeachers(cs[i]))
  {
    AllKeptIff(cs);
  }

  /** A course list with one taught course and one course with an empty teacher list. */
  lemma TwoCourseScenario()
    ensures
      var cs101 := RawCourse(Some(1), Some("CS101"), Some([Teacher(Some("Paul Allen"), map[])]), map[]);
      var art100 := RawCourse(Some(2), Some("ART100"), Some([]), map[]);
      ClassDict([cs101, art100]) == Success([CourseDescriptor(1, "CS101", "Paul Allen")])
  {
    var cs101 := RawCourse(Some(1), Some("CS101"), Some([Teacher(Some("Paul Allen"), map[])]), map[]);
    var art100 := RawCourse(Some(2), Some("ART100"), Some([]), map[]);
    assert WithTeachers([]) == [];
    assert ClassDict([]) == Success([]);
    assert HasTeachers(cs101) && !HasTeachers(art100);
    var d := CourseDescriptor(1, "CS101", "Paul Allen");
    assert Describe(cs101) == Success(d);
    ClassDictSnoc([], cs101);
    assert [] + [cs101] == [cs101];
    assert [] + [d] == [d];
    assert ClassDict([cs101]) == Success([d]);
    assert [cs101] + [art100] == [cs101, art100];
    ClassDictSnoc([cs101], art100);
  }
}
