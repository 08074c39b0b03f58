/** The checks `saveAttendance` runs before it posts a day's attendance, the
    request body it builds, and how it reads the server's reply. The
    comparison of a PIN with the teacher's secret happens on the server and
    is not part of this model: the reply is an input. */
module SaveGate {
  import opened Wrappers
  import opened Seqs
  import opened Text
  import opened Domain
  import opened PeriodLedger

  /** What `getTeacherForSubject` returns for an assigned subject. */
  datatype TeacherRef = TeacherRef(name: string, id: string)

  /** `getTeacherForSubject`: the teacher of the first subject with this id,
      when one is assigned. */
  function TeacherForSubject(subjects: seq<Subject>, subjectId: string): (r: Option<TeacherRef>)
    ensures subjectId == "" ==> r.None?
    ensures r.Some? ==> exists k :: 0 <= k < |subjects| && subjects[k].id == subjectId && subjects[k].teacherId == r.value.id
    ensures r.Some? ==> r.value.id != "" && r.value.name != ""
    ensures subjectId != "" && (forall k :: 0 <= k < |subjects| ==> subjects[k].id != subjectId) ==> r.None?
    ensures (forall k :: 0 <= k < |subjects| ==> subjects[k].id == subjectId ==> subjects[k].teacherId == "") ==> r.None?
    ensures forall k ::
      && 0 <= k < |subjects| && subjectId != "" && subjects[k].id == subjectId
      && (forall j :: 0 <= j < k ==> subjects[j].id != subjectId)
      ==> r == (if subjects[k].teacherId == "" then None
              else Some(TeacherRef(if subjects[k].teacherName != "" then subjects[k].teacherName else "Assigned Teacher",
                                   subjects[k].teacherId)))
  {
    if subjectId == "" then None
    else match FindIndex(subjects, (s: Subject) => s.id == subjectId)
      case Some(k) =>
        var s := subjects[k];
        if s.teacherId != "" then
          Some(TeacherRef(if s.teacherName != "" then s.teacherName else "Assigned Teacher", s.teacherId))
        else None
      case None => None
  }

  /** A period whose subject has an assigned teacher: its attendance needs
      that teacher's PIN to be verified. */
  predicate TeacherBound(subjects: seq<Subject>, subjectId: string) {
    TeacherForSubject(subjects, subjectId).Some?
  }

  /** A period needs a teacher exactly when the first subject with its id
      has an assigned teacher. */
  lemma TeacherBoundExact(subjects: seq<Subject>, subjectId: string)
    ensures TeacherBound(subjects, subjectId) <==>
      subjectId != "" &&
      exists k :: 0 <= k < |subjects| && subjects[k].id == subjectId && subjects[k].teacherId != "" &&
        forall j :: 0 <= j < k ==> subjects[j].id != subjectId
  {
    if subjectId != "" {
      match FindIndex(subjects, (s: Subject) => s.id == subjectId)
      case Some(k) =>
        assert subjects[k].id == subjectId;
      case None =>
    }
  }

  /** A period that still waits for a PIN: teacher-bound, not yet verified,
      and its code slot missing, empty or not four units long. */
  predicate NeedsPin(subjects: seq<Subject>, codes: map<int, string>, p: Period) {
    && !p.isVerified
    && TeacherBound(subjects, p.subjectId)
    && (p.periodNum !in codes || codes[p.periodNum] == "" || JsLength(codes[p.periodNum]) != 4)
  }

  /** In a consistent page state every period has a slot, and an
      unverified period's slot holds only digits; so a period waits for a
      PIN exactly when it is unverified, bound to a teacher, and fewer than
      four digits have been typed. */
  lemma NeedsPinConsistent(subjects: seq<Subject>, l: Ledger, i: nat)
    requires Consistent(l)
    requires i < |l.periods|
    ensures NeedsPin(subjects, l.codes, l.periods[i]) <==>
      !l.periods[i].isVerified && TeacherBound(subjects, l.periods[i].subjectId) &&
      |l.codes[l.periods[i].periodNum]| < 4
  {
    var p := l.periods[i];
    assert p.periodNum in Nums(l.periods);
    var c := l.codes[p.periodNum];
    if !p.isVerified {
      assert CodeShape(c) && c != Mask;
      assert IsBmp(c) by {
        forall k | 0 <= k < |c|
          ensures c[k] as int < 0x1_0000
        {
          assert IsDigit(c[k]);
        }
      }
      JsLengthBmp(c);
    }
  }

  /** One period of the request body. `verificationCode` is `None` when the
      slot is missing (the key is then dropped from the JSON body). */
  datatype PayloadPeriod = PayloadPeriod(
    periodNum: int,
    subjectId: string,
    subjectName: string,
    absentRollNumbers: seq<int>,
    verificationCode: Option<string>)

  /** The code sent for a slot: the slot's content, except that the mask
      stands for "no new code". */
  function SentCode(codes: map<int, string>, n: int): (r: Option<string>)
    ensures r.None? <==> n !in codes
    ensures r.Some? ==> r.value != Mask
    ensures r.Some? && codes[n] != Mask ==> r.value == codes[n]
    ensures r.Some? && codes[n] == Mask ==> r.value == ""
  {
    if n !in codes then None
    else if codes[n] != Mask then Some(codes[n])
    else Some("")
  }

  /** One period of the request body: the period's own fields and the
      code of its slot. */
  function ToPayload(codes: map<int, string>, p: Period): (r: PayloadPeriod)
    ensures r.periodNum == p.periodNum && r.subjectId == p.subjectId
    ensures r.subjectName == p.subjectName && r.absentRollNumbers == p.absentRollNumbers
    ensures r.verificationCode.None? <==> p.periodNum !in codes
    ensures r.verificationCode != Some(Mask)
    ensures p.periodNum in codes && codes[p.periodNum] != Mask ==> r.verificationCode == Some(codes[p.periodNum])
  {
    PayloadPeriod(p.periodNum, p.subjectId, p.subjectName, p.absentRollNumbers, SentCode(codes, p.periodNum))
  }

  /** The outcome of pressing save: nothing happens, one of three refusals
      (each a notification), or the request is sent with this body. */
  datatype SaveStep =
    | Ignored
    | EmptyRoster
    | NoSubjectSelected
    | PendingPin(subjectNames: seq<string>)
    | Post(periods: seq<PayloadPeriod>)

  predicate HasSubject(p: Period) {
    p.subjectId != ""
  }

  /** `saveAttendance` up to the request. `classId` is empty when no class is
      signed in; `roster` is the class's normalised roster. */
  function SaveAttendance(classId: string, isDateLocked: bool, roster: seq<string>,
                          subjects: seq<Subject>, l: Ledger): (r: SaveStep)
    ensures r.Ignored? <==> classId == "" || isDateLocked
    ensures r.EmptyRoster? <==> classId != "" && !isDateLocked && roster == []
    ensures r.NoSubjectSelected? <==>
      classId != "" && !isDateLocked && roster != [] &&
      forall i :: 0 <= i < |l.periods| ==> !HasSubject(l.periods[i])
    ensures r.PendingPin? <==>
      classId != "" && !isDateLocked && roster != [] &&
      (exists i :: 0 <= i < |l.periods| && HasSubject(l.periods[i])) &&
      (exists i :: 0 <= i < |l.periods| && NeedsPin(subjects, l.codes, l.periods[i]))
    ensures r.Post? <==>
      classId != "" && !isDateLocked && roster != [] &&
      (exists i :: 0 <= i < |l.periods| && HasSubject(l.periods[i])) &&
      (forall i :: 0 <= i < |l.periods| ==> !NeedsPin(subjects, l.codes, l.periods[i]))
    ensures r.PendingPin? ==> r.subjectNames == PendingNames(subjects, l) && r.subjectNames != []
    ensures r.Post? ==> |r.periods| == |l.periods|
    ensures r.Post? ==> forall i :: 0 <= i < |l.periods| ==> r.periods[i] == ToPayload(l.codes, l.periods[i])
  {
    if classId == "" || isDateLocked then Ignored
    else if |roster| == 0 then EmptyRoster
    else if |Filter(l.periods, HasSubject)| == 0 then
      assert forall i :: 0 <= i < |l.periods| ==> !HasSubject(l.periods[i]);
      NoSubjectSelected
    else
      var pending := Filter(l.periods, (p: Period) => NeedsPin(subjects, l.codes, p));
      if |pending| > 0 then
        PendingPin(PendingNames(subjects, l))
      else
        Post(Map(l.periods, (p: Period) => ToPayload(l.codes, p)))
  }

  /** The subject names listed in "Please enter teacher PIN for: ...". */
  function PendingNames(subjects: seq<Subject>, l: Ledger): seq<string> {
    Map(Filter(l.periods, (p: Period) => NeedsPin(subjects, l.codes, p)), (p: Period) => p.subjectName)
  }

  /** The refusal for missing PINs names the subject of every period still
      waiting for one, and only those. */
  lemma PendingNamesExact(subjects: seq<Subject>, l: Ledger)
    ensures var names := PendingNames(subjects, l);
      && (forall i :: 0 <= i < |l.periods| && NeedsPin(subjects, l.codes, l.periods[i]) ==>
            l.periods[i].subjectName in names)
      && (forall k :: 0 <= k < |names| ==>
            exists i :: 0 <= i < |l.periods| && NeedsPin(subjects, l.codes, l.periods[i]) &&
                        l.periods[i].subjectName == names[k])
  {
    MapFilterImages(l.periods, (p: Period) => NeedsPin(subjects, l.codes, p), (p: Period) => p.subjectName);
  }

  /** The mask is never sent as a code. */
  lemma PostNeverSendsMask(classId: string, isDateLocked: bool, roster: seq<string>,
                           subjects: seq<Subject>, l: Ledger)
    requires SaveAttendance(classId, isDateLocked, roster, subjects, l).Post?
    ensures var body := SaveAttendance(classId, isDateLocked, roster, subjects, l).periods;
      forall i :: 0 <= i < |body| ==> body[i].verificationCode != Some(Mask)
  {
  }

  /** From a consistent page state, every teacher-bound period that is not
      yet verified goes out with a four-digit PIN. */
  lemma PostCarriesFourDigitPins(classId: string, isDateLocked: bool, roster: seq<string>,
                                 subjects: seq<Subject>, l: Ledger)
    requires Consistent(l)
    requires SaveAttendance(classId, isDateLocked, roster, subjects, l).Post?
    ensures var body := SaveAttendance(classId, isDateLocked, roster, subjects, l).periods;
      forall i :: 0 <= i < |l.periods| && !l.periods[i].isVerified && TeacherBound(subjects, l.periods[i].subjectId) ==>
        body[i].verificationCode.Some? &&
        |body[i].verificationCode.value| == 4 && AllDigits(body[i].verificationCode.value)
  {
    var body := SaveAttendance(classId, isDateLocked, roster, subjects, l).periods;
    forall i | 0 <= i < |l.periods| && !l.periods[i].isVerified && TeacherBound(subjects, l.periods[i].subjectId)
      ensures body[i].verificationCode.Some?
      ensures |body[i].verificationCode.value| == 4 && AllDigits(body[i].verificationCode.value)
    {
      var p := l.periods[i];
      assert !NeedsPin(subjects, l.codes, p);
      var c := l.codes[p.periodNum];
      assert c != Mask;
      assert IsBmp(c) by {
        forall k | 0 <= k < |c|
          ensures c[k] as int < 0x1_0000
        {
          assert IsDigit(c[k]);
        }
      }
      JsLengthBmp(c);
      assert body[i] == ToPayload(l.codes, p);
    }
  }

  /** A period bound to a teacher, not yet verified and with an empty code
      slot blocks the save of any day it is part of, and the refusal names
      its subject. */
  lemma EmptyPinBlocksSave(classId: string, roster: seq<string>, subjects: seq<Subject>, l: Ledger, i: nat)
    requires classId != "" && roster != []
    requires i < |l.periods|
    requires TeacherBound(subjects, l.periods[i].subjectId) && !l.periods[i].isVerified
    requires l.periods[i].periodNum in l.codes && l.codes[l.periods[i].periodNum] == ""
    ensures var r := SaveAttendance(classId, false, roster, subjects, l);
      r.PendingPin? && l.periods[i].subjectName in r.subjectNames
  {
    var p := l.periods[i];
    assert HasSubject(p);
    assert NeedsPin(subjects, l.codes, p);
    var r := SaveAttendance(classId, false, roster, subjects, l);
    assert r.PendingPin?;
    PendingNamesExact(subjects, l);
    assert p.subjectName in PendingNames(subjects, l);
  }

  // ---------------------------------------------------------------------
  // After the request
  // ---------------------------------------------------------------------

  /** A period of the saved day as the server returns it. */
  datatype SavedPeriod = SavedPeriod(subjectId: string, subjectName: string, isVerified: bool)

  /** The server's answer: the request failed, or the day was saved;
      `periods` is `None` when the reply carries none. */
  datatype SaveReply = RequestFailed | Saved(periods: Option<seq<SavedPeriod>>)

  /** "Failed to save attendance", "Attendance saved & verified!", or
      "Saved, but wrong PIN for: ...". */
  datatype SaveReport = SaveFailed | SavedAndVerified | SavedWithWrongPin(subjectNames: seq<string>)

  /** A saved period that counts as saved but unverified. */
  predicate Unverified(subjects: seq<Subject>, p: SavedPeriod) {
    TeacherBound(subjects, p.subjectId) && !p.isVerified
  }

  function ReportSave(subjects: seq<Subject>, reply: SaveReply): (r: SaveReport)
    ensures r.SaveFailed? <==> reply.RequestFailed?
    ensures r.SavedAndVerified? <==>
      reply.Saved? && forall i :: 0 <= i < |reply.periods.GetOr([])| ==>
        !Unverified(subjects, reply.periods.GetOr([])[i])
    ensures r.SavedWithWrongPin? ==> r.subjectNames == WrongPinNames(subjects, reply.periods.GetOr([])) && r.subjectNames != []
  {
    match reply
    case RequestFailed => SaveFailed
    case Saved(periods) =>
      var failed := Filter(periods.GetOr([]), (p: SavedPeriod) => Unverified(subjects, p));
      if |failed| > 0 then SavedWithWrongPin(WrongPinNames(subjects, periods.GetOr([])))
      else SavedAndVerified
  }

  /** The subject names listed in "Saved, but wrong PIN for: ...". */
  function WrongPinNames(subjects: seq<Subject>, saved: seq<SavedPeriod>): seq<string> {
    Map(Filter(saved, (p: SavedPeriod) => Unverified(subjects, p)), (p: SavedPeriod) => p.subjectName)
  }

  /** The warning names exactly the subjects of the saved periods that are
      teacher-bound and not verified. */
  lemma WrongPinNamesExact(subjects: seq<Subject>, saved: seq<SavedPeriod>)
    ensures var names := WrongPinNames(subjects, saved);
      && (forall i :: 0 <= i < |saved| && Unverified(subjects, saved[i]) ==> saved[i].subjectName in names)
      && (forall k :: 0 <= k < |names| ==>
            exists i :: 0 <= i < |saved| && Unverified(subjects, saved[i]) && saved[i].subjectName == names[k])
  {
    MapFilterImages(saved, (p: SavedPeriod) => Unverified(subjects, p), (p: SavedPeriod) => p.subjectName);
  }
}
