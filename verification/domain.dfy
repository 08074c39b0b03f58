/** Records the admin pages receive from the server. A JavaScript value that
    may be missing (`null`, `undefined` or `''`) is the empty string here.
    Most uses only test such fields for truthiness; the one exception is the
    name match of `addPeriod`, which calls `toLowerCase` on a subject's name
    and would throw on a missing one (not modelled). */
module Domain {

  /** A subject of the class. `teacherId` is empty when no teacher is
      assigned; `teacherName` is empty when the server sent none. */
  datatype Subject = Subject(id: string, name: string, teacherId: string, teacherName: string)

  /** A registered teacher as listed for assignment. */
  datatype Teacher = Teacher(id: string, name: string)
}
