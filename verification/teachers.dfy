/** The teacher assignment page: the form check of `handleAssign` before its
    request, the PIN input filter, the list of unassigned subjects and the
    teacher-name lookup. */
module TeacherAssign {
  import opened Wrappers
  import opened Seqs
  import opened Text
  import opened Domain

  /** "Please fill all fields", "PIN must be 4 digits", or the request to
      `/class/assign-teacher` with these fields. */
  datatype AssignStep =
    | FillAllFields
    | PinMustBeFourDigits
    | AssignRequest(teacherId: string, subjectId: string, teacherPin: string)

  /** `handleAssign` up to the request. */
  function HandleAssign(teacherId: string, subjectId: string, teacherPin: string): (r: AssignStep)
    ensures r.FillAllFields? <==> teacherId == "" || subjectId == "" || teacherPin == ""
    ensures r.PinMustBeFourDigits? <==>
      teacherId != "" && subjectId != "" && teacherPin != "" && JsLength(teacherPin) != 4
    ensures r.AssignRequest? <==>
      teacherId != "" && subjectId != "" && JsLength(teacherPin) == 4
    ensures r.AssignRequest? ==> r == AssignRequest(teacherId, subjectId, teacherPin)
  {
    if teacherId == "" || subjectId == "" || teacherPin == "" then FillAllFields
    else if JsLength(teacherPin) != 4 then PinMustBeFourDigits
    else AssignRequest(teacherId, subjectId, teacherPin)
  }

  /** The PIN field keeps only digits, in order, at most four of them
      (`e.target.value.replace(/\D/g, '').slice(0, 4)`). */
  function PinInput(value: string): (r: string)
    ensures AllDigits(r) && |r| <= 4
    ensures |r| <= |KeepDigits(value)| && r == KeepDigits(value)[..|r|]
    ensures |r| == if |KeepDigits(value)| <= 4 then |KeepDigits(value)| else 4
  {
    CleanPin(value)
  }

  /** With the PIN typed through the field, the request goes out exactly
      when both picks are made and at least four digits were typed; it
      carries the first four. */
  lemma FilteredPinReachesRequest(teacherId: string, subjectId: string, typed: string)
    ensures HandleAssign(teacherId, subjectId, PinInput(typed)).AssignRequest? <==>
      teacherId != "" && subjectId != "" && |KeepDigits(typed)| >= 4
    ensures HandleAssign(teacherId, subjectId, PinInput(typed)).AssignRequest? ==>
      HandleAssign(teacherId, subjectId, PinInput(typed)).teacherPin == KeepDigits(typed)[..4]
  {
    var pin := PinInput(typed);
    assert IsBmp(pin) by {
      forall k | 0 <= k < |pin|
        ensures pin[k] as int < 0x1_0000
      {
        assert IsDigit(pin[k]);
      }
    }
    JsLengthBmp(pin);
  }

  predicate Unassigned(s: Subject) {
    s.teacherId == ""
  }

  predicate Assigned(s: Subject) {
    s.teacherId != ""
  }

  /** `subjects.filter(s => !s.teacherId)`. */
  function UnassignedSubjects(subjects: seq<Subject>): (r: seq<Subject>)
    ensures forall k :: 0 <= k < |r| ==> r[k].teacherId == "" && r[k] in subjects
    ensures forall k :: 0 <= k < |subjects| && subjects[k].teacherId == "" ==> subjects[k] in r
  {
    Filter(subjects, Unassigned)
  }

  /** The unassigned list keeps the original order: listing the subjects of
      two lists one after the other gives the two lists' unassigned subjects
      one after the other. */
  lemma UnassignedKeepsOrder(a: seq<Subject>, b: seq<Subject>)
    ensures UnassignedSubjects(a + b) == UnassignedSubjects(a) + UnassignedSubjects(b)
  {
    FilterAppend(a, b, Unassigned);
  }

  /** Unassigned and assigned subjects together account for every subject. */
  lemma UnassignedAndAssignedPartition(a: seq<Subject>)
    ensures |UnassignedSubjects(a)| + |Filter(a, Assigned)| == |a|
  {
    FilterPartition(a, Unassigned, Assigned);
  }

  /** `getTeacherName`: the name of the first teacher with this id, or
      "Unknown" when there is none or its name is empty. */
  function GetTeacherName(teachers: seq<Teacher>, teacherId: string): (r: string)
    ensures r != ""
    ensures (forall k :: 0 <= k < |teachers| ==> teachers[k].id != teacherId) ==> r == "Unknown"
    ensures r != "Unknown" ==>
      exists k :: 0 <= k < |teachers| && teachers[k].id == teacherId && teachers[k].name == r &&
                  forall j :: 0 <= j < k ==> teachers[j].id != teacherId
    ensures forall k :: (0 <= k < |teachers| && teachers[k].id == teacherId && teachers[k].name != "" &&
                         forall j :: 0 <= j < k ==> teachers[j].id != teacherId) ==> r == teachers[k].name
  {
    match FindIndex(teachers, (t: Teacher) => t.id == teacherId)
    case Some(k) => if teachers[k].name != "" then teachers[k].name else "Unknown"
    case None => "Unknown"
  }
}
