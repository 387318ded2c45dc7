/**
 * The records that the course normalizer reads and writes.
 *
 * A raw course is one element of the JSON array that the Canvas endpoint
 * `/api/v1/courses?include[]=teachers` returns, already decoded. Every key
 * the normalizer looks up is optional, because a JSON object may lack it;
 * the keys it never looks at are kept together in `otherKeys`, so that the
 * model can say they do not reach the output.
 */
module CanvasRecords {

  datatype Option<+T> = None | Some(value: T)

  /**
   * The remaining keys of a JSON object, which the normalizer never reads.
   * It never holds a key that a record keeps as a field of its own: `id`,
   * `name` and `teachers` for a course, `display_name` for a teacher.
   */
  type OtherKeys = map<string, string>

  /** One element of a course's `teachers` list; `displayName` is None when the key is absent. */
  datatype Teacher = Teacher(displayName: Option<string>, otherKeys: OtherKeys)

  /**
   * One raw course record. For `id` and `name`, None means the key is absent.
   * `teachers` is None when the key is absent or holds JSON null, and
   * Some([]) when it holds an empty list.
   */
  datatype RawCourse = RawCourse(
    id: Option<int>,
    name: Option<string>,
    teachers: Option<seq<Teacher>>,
    otherKeys: OtherKeys)

  /** The minimal descriptor emitted per course: exactly three fields. */
  datatype CourseDescriptor = CourseDescriptor(courseId: int, courseName: string, instructor: string)

  /** The key whose lookup raised a KeyError: `id`, `name` or the first teacher's `display_name`. */
  datatype MissingKey = CourseId | CourseName | DisplayName

  /** Either the value computed or the KeyError that aborted the computation. */
  datatype Result<+T> = Success(value: T) | Failure(error: MissingKey)
}
