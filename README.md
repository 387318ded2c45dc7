# Course normalizer of ReferenceAnalytics, in Dafny

ReferenceAnalytics fetches the caller's course list from the Canvas REST API
(`/api/v1/courses?include[]=teachers`), reduces each course to a minimal
descriptor (course id, course name, primary instructor) and exports the
descriptors as `Class_Data.csv`. This project models the reduction step,
`create_class_dict` in `main.py`, and proves what it does for every input.

- `canvas_records.dfy` (module `CanvasRecords`): the decoded JSON records.
  A raw course has an optional `id`, `name` and `teachers` list. Each teacher
  has an optional `display_name`. The keys the function never reads are kept
  in `otherKeys`. The output record `CourseDescriptor` has exactly the three
  fields `course_id`, `course_name` and `instructor`. The KeyError the Python
  code raises on a missing key is a `Failure` value naming that key.
- `course_normalizer.dfy` (module `CourseNormalizer`): the specification and
  the loop. The specification `ClassDict` is a filter followed by a map.
  `WithTeachers` keeps, in order, the courses whose `teachers` value is truthy.
  `DescribeAll` turns each kept course into a descriptor, and the first
  missing key aborts the whole call. `CreateClassDict` is the source's append
  loop, and it is proved to return exactly `ClassDict(courses)`.
- `normalizer_properties.dfy` (module `NormalizerProperties`): the all-inputs
  lemmas. They cover order, one-to-one projection, field copying, the length
  bound, skipping of teacher-less courses, first-teacher-only, and exactly
  when and with which key the call fails.

A course with teachers that lacks `id`, `name` or the first teacher's
`display_name` makes the Python function raise KeyError, which discards all
output. The model returns `Failure(key)` for this case instead of ruling it
out with a precondition. The key is the first one missing in the order the
dictionary literal reads them: `id`, then `name`, then `display_name`. The
code raises KeyError on a missing `display_name` too, and the model follows
the code.

## Model

| member | source | states |
|---|---|---|
| CourseNormalizer.HasTeachers | main.py:16 | The truth value of `course.get('teachers')`: false when the key is absent, holds null or holds an empty list, true for a non-empty list. |
| CourseNormalizer.FirstAbsentKey | main.py:24-26 | The KeyError of an incomplete course names `id` exactly when `id` is absent, `name` exactly when `id` is present and `name` absent, and `display_name` exactly when both are present and the first teacher lacks `display_name`. |
| CourseNormalizer.Describe | main.py:24-27 | The dictionary literal for one course with teachers. It succeeds exactly when the three keys are present, and then copies `id`, `name` and the first teacher's `display_name`. Otherwise it fails with the first absent key. |
| CourseNormalizer.WithTeachers | main.py:15-16 | The kept courses number at most the input courses, and every kept course has a present, non-empty teacher list. |
| CourseNormalizer.Positions | main.py:15-16 | The kept courses are the input courses at strictly increasing positions. A position is among them exactly when the course there has teachers. |
| CourseNormalizer.DescribeAll | main.py:24-28 | Describing the kept courses succeeds exactly when each has `id`, `name` and a first-teacher `display_name`. On success, entry k copies those three values from kept course k, one entry per course. |
| CourseNormalizer.ClassDict | main.py:11-29 | A successful result never has more entries than there are input courses. |
| CourseNormalizer.ClassDictSnoc | main.py:15-28 | One loop iteration. A course without teachers leaves the output unchanged. A course with teachers appends its descriptor at the end, or raises the KeyError of its construction. An earlier KeyError is kept. |
| CourseNormalizer.FailureSticks | main.py:24-26 | Once a KeyError is raised, later courses do not change the outcome. |
| CourseNormalizer.CreateClassDict | main.py:11-29 | The loop that starts from an empty list, skips teacher-less courses and appends one descriptor per other course returns exactly the filter-then-map specification, KeyError included. |
| NormalizerProperties.ClassDictEntries | main.py:15-28 | On success there is one entry per course with teachers, in input order. Entry k has the `id`, the `name` and the first teacher's `display_name` of the course at the k-th such position. |
| NormalizerProperties.ClassDictSucceedsIff | main.py:16-26 | The call returns normally if and only if every course with teachers has `id`, `name` and a first-teacher `display_name`. |
| NormalizerProperties.ClassDictFailsAt | main.py:24-26 | If a course with teachers lacks one of these keys and every earlier course with teachers has them all, the call fails. The error names that course's first missing key, in the order `id`, `name`, `display_name`. |
| NormalizerProperties.ClassDictFailureWitness | main.py:15-26 | A failing call always has such a first incomplete course with teachers. |
| NormalizerProperties.WithTeachersAppend | main.py:15-16 | Selecting courses with teachers distributes over concatenation, so the selection is decided course by course. |
| NormalizerProperties.SkipTeacherless | main.py:16 | A course whose `teachers` is absent, null or empty contributes nothing. Removing it leaves the result unchanged, whether that result is the descriptors or the KeyError. |
| NormalizerProperties.OnlyKeysReadMatter | main.py:24-27 | Only `id`, `name` and the first teacher's `display_name` reach the output. Later teachers and every other key of a course or a teacher do not change the result. |
| NormalizerProperties.AllKeptIff | main.py:15-16 | No course is dropped if and only if every course has teachers. |
| NormalizerProperties.ClassDictDropCount | main.py:14-28 | Kept and dropped courses add up to the input length. On success the output has exactly as many entries as the input has courses with teachers, so the number dropped is the number of courses whose `teachers` is absent, null or empty. |
| NormalizerProperties.ClassDictLength | main.py:14-28 | On success, the output is no longer than the input. Its length equals the input's exactly when every course has teachers. |
| NormalizerProperties.TwoCourseScenario | main.py:15-28 | Input: CS101 (id 1, taught by Paul Allen) and ART100 (id 2, empty teacher list). Output: the single descriptor (1, "CS101", "Paul Allen"). |

## Left out

- `print_dump` (main.py:7-8) only pretty-prints JSON to standard output.
- The `__main__` block (main.py:32-52) is not modelled. It covers these steps:
  - reading `AUTHTOKEN` from the environment;
  - building the bearer header;
  - the HTTP GET through `requests`;
  - printing;
  - the pandas DataFrame conversion and the CSV export.
  These are process state, network, I/O and foreign libraries.
- JSON decoding (`raw_response.json()`, main.py:15) is a foreign library call. The model takes the decoded list of course objects as its input.
- A response body that is not a JSON array of objects is not modelled. Examples are an error object, or a `teachers` value that is truthy but not a list of objects.
- A key that is present with the JSON value null is not modelled for `id`, `name` and `display_name`. The source would copy null into the descriptor. The model types these values as non-null and uses None only for an absent key. For `teachers`, absent and null behave the same, so both are None.
- Other JSON value types are not modelled. The model types `id` as an integer and `name` and `display_name` as strings. Keys the function never reads are abstracted as a string-to-string map.
- Course curation by an instructor allow-list, assignment-group flattening, graded-assignment aggregation and the CSV flattener are not part of this model. The function modelled here does not contain them.
