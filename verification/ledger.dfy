/** The periods of one class on one date as the attendance page edits them
    (`addPeriod`, `deletePeriod`, `toggleAbsent`, `handleCodeInput` and the
    load in `loadAttendanceForDate`): a list of periods plus the
    verification-code input of each, keyed by period number. */
module PeriodLedger {
  import opened Wrappers
  import opened Seqs
  import opened Text
  import opened Sorting
  import opened Domain

  /** The placeholder shown in the code slot of a verified period. */
  const Mask: string := "****"

  /** One class session. Roll numbers are numbers: the page toggles
      `roll = i + 1` and sorts with `(a, b) => a - b`. */
  datatype Period = Period(
    periodNum: int,
    subjectName: string,
    subjectId: string,
    absentRollNumbers: seq<int>,
    isVerified: bool)

  /** The page state: `periods` and `verificationCodes`. */
  datatype Ledger = Ledger(periods: seq<Period>, codes: map<int, string>)

  function Nums(ps: seq<Period>): set<int> {
    set i | 0 <= i < |ps| :: ps[i].periodNum
  }

  predicate UniqueNums(ps: seq<Period>) {
    forall i, j :: 0 <= i < j < |ps| ==> ps[i].periodNum != ps[j].periodNum
  }

  /** What a code slot can hold: the mask, or what the PIN filter lets through. */
  predicate CodeShape(c: string) {
    c == Mask || (AllDigits(c) && |c| <= 4)
  }

  /** The state the page keeps: period numbers are unique, there is exactly
      one code slot per period, and the mask sits only on verified periods. */
  predicate Consistent(l: Ledger) {
    && UniqueNums(l.periods)
    && l.codes.Keys == Nums(l.periods)
    && (forall i :: 0 <= i < |l.periods| ==> CodeShape(l.codes[l.periods[i].periodNum]))
    && (forall i :: 0 <= i < |l.periods| && l.codes[l.periods[i].periodNum] == Mask ==>
          l.periods[i].isVerified)
  }

  // ---------------------------------------------------------------------
  // addPeriod
  // ---------------------------------------------------------------------

  function MaxPeriodNum(ps: seq<Period>): (m: int)
    requires ps != []
    ensures forall i :: 0 <= i < |ps| ==> ps[i].periodNum <= m
    ensures exists i :: 0 <= i < |ps| && ps[i].periodNum == m
  {
    if |ps| == 1 then ps[0].periodNum
    else
      var m := MaxPeriodNum(ps[1..]);
      if ps[0].periodNum >= m then ps[0].periodNum else m
  }

  /** `Math.max(...periods.map(p => p.periodNum)) + 1`, or 1: the least
      number above every existing one. */
  function NextPeriodNum(ps: seq<Period>): (n: int)
    ensures forall i :: 0 <= i < |ps| ==> ps[i].periodNum < n
    ensures ps == [] ==> n == 1
    ensures ps != [] ==> exists i :: 0 <= i < |ps| && ps[i].periodNum == n - 1
  {
    if ps == [] then 1 else MaxPeriodNum(ps) + 1
  }

  /** The add-period form: the custom-subject switch, the picked subject id
      and the typed name. */
  datatype AddForm = AddForm(isCustomSubject: bool, selectedSubjectId: string, newSubjectName: string)

  /** The subject a new period is bound to; `subjectId` is empty for a
      free-text period. */
  datatype Binding = Binding(subjectId: string, subjectName: string)

  /** "Please enter a subject name". */
  datatype AddError = SubjectNameRequired

  /** The picked subject, when the form is not in custom mode, an id is
      picked and a subject has it. */
  function PickedSubject(subjects: seq<Subject>, form: AddForm): (k: Option<nat>)
    ensures k.Some? ==> k.value < |subjects| && subjects[k.value].id == form.selectedSubjectId
    ensures k.Some? ==> !form.isCustomSubject && form.selectedSubjectId != ""
    ensures k.Some? ==> forall j :: 0 <= j < k.value ==> subjects[j].id != form.selectedSubjectId
    ensures k.None? && !form.isCustomSubject && form.selectedSubjectId != "" ==>
      forall j :: 0 <= j < |subjects| ==> subjects[j].id != form.selectedSubjectId
  {
    if !form.isCustomSubject && form.selectedSubjectId != "" then
      FindIndex(subjects, (s: Subject) => s.id == form.selectedSubjectId)
    else None
  }

  /** The first subject whose name equals `name` ignoring case. */
  function SubjectNamed(subjects: seq<Subject>, name: string): (k: Option<nat>)
    ensures k.Some? ==> k.value < |subjects| && Lower(subjects[k.value].name) == Lower(name)
    ensures k.Some? ==> forall j :: 0 <= j < k.value ==> Lower(subjects[j].name) != Lower(name)
    ensures k.None? <==> forall j :: 0 <= j < |subjects| ==> Lower(subjects[j].name) != Lower(name)
  {
    FindIndex(subjects, (s: Subject) => Lower(s.name) == Lower(name))
  }

  /** The subject resolution of `addPeriod`: an existing picked subject
      wins; otherwise the trimmed typed name binds the first subject with
      that name ignoring case; otherwise the period carries the typed name
      alone; with no name either, the form is refused. */
  function ResolveSubject(subjects: seq<Subject>, form: AddForm): (r: Result<Binding, AddError>)
    ensures PickedSubject(subjects, form).Some? ==>
      var s := subjects[PickedSubject(subjects, form).value];
      r == Success(Binding(s.id, s.name))
    ensures r.Failure? <==> PickedSubject(subjects, form).None? && Trim(form.newSubjectName) == []
    ensures PickedSubject(subjects, form).None? && Trim(form.newSubjectName) != [] ==>
      match SubjectNamed(subjects, Trim(form.newSubjectName))
      case Some(k) => r == Success(Binding(subjects[k].id, subjects[k].name))
      case None => r == Success(Binding("", Trim(form.newSubjectName)))
  {
    match PickedSubject(subjects, form)
    case Some(k) => Success(Binding(subjects[k].id, subjects[k].name))
    case None =>
      var inputName := Trim(form.newSubjectName);
      if inputName == [] then Failure(SubjectNameRequired)
      else match SubjectNamed(subjects, inputName)
        case Some(k) => Success(Binding(subjects[k].id, subjects[k].name))
        case None => Success(Binding("", inputName))
  }

  /** A period bound to a subject id carries that subject's own name, and a
      free-text period never shares its name, ignoring case, with a
      subject: typing a known name recovers the subject (and its teacher). */
  lemma ResolvedBindingIsKnown(subjects: seq<Subject>, form: AddForm)
    requires ResolveSubject(subjects, form).Success?
    ensures var b := ResolveSubject(subjects, form).value;
      b.subjectId != "" ==>
        exists k :: 0 <= k < |subjects| && subjects[k].id == b.subjectId && subjects[k].name == b.subjectName
    ensures var b := ResolveSubject(subjects, form).value;
      (forall k :: 0 <= k < |subjects| ==> subjects[k].id != "") && b.subjectId == "" ==>
        b.subjectName != [] && forall k :: 0 <= k < |subjects| ==> Lower(subjects[k].name) != Lower(b.subjectName)
  {
  }

  /** `addPeriod`: append a fresh, empty, unverified period and an empty
      code slot for it. */
  function AddPeriod(l: Ledger, subjects: seq<Subject>, form: AddForm): (r: Result<Ledger, AddError>)
    ensures r.Failure? <==> ResolveSubject(subjects, form).Failure?
    ensures r.Success? ==>
      var n := NextPeriodNum(l.periods);
      var b := ResolveSubject(subjects, form).value;
      && r.value.periods == l.periods + [Period(n, b.subjectName, b.subjectId, [], false)]
      && r.value.codes == l.codes[n := ""]
  {
    match ResolveSubject(subjects, form)
    case Failure(e) => Failure(e)
    case Success(b) =>
      var n := NextPeriodNum(l.periods);
      Success(Ledger(l.periods + [Period(n, b.subjectName, b.subjectId, [], false)], l.codes[n := ""]))
  }

  /** The new period's number is not in use, so numbers stay unique. */
  lemma AddPeriodFresh(l: Ledger, subjects: seq<Subject>, form: AddForm)
    requires AddPeriod(l, subjects, form).Success?
    ensures var ps := AddPeriod(l, subjects, form).value.periods;
      ps[|ps| - 1].periodNum !in Nums(l.periods)
    ensures UniqueNums(l.periods) ==> UniqueNums(AddPeriod(l, subjects, form).value.periods)
  {
  }

  lemma AddPeriodConsistent(l: Ledger, subjects: seq<Subject>, form: AddForm)
    requires Consistent(l)
    requires AddPeriod(l, subjects, form).Success?
    ensures Consistent(AddPeriod(l, subjects, form).value)
  {
    var r := AddPeriod(l, subjects, form).value;
    AppendFreshConsistent(l, r.periods[|l.periods|]);
  }

  lemma AppendFreshConsistent(l: Ledger, p: Period)
    requires Consistent(l)
    requires forall i :: 0 <= i < |l.periods| ==> l.periods[i].periodNum < p.periodNum
    ensures Consistent(Ledger(l.periods + [p], l.codes[p.periodNum := ""]))
  {
    var ps := l.periods + [p];
    var codes := l.codes[p.periodNum := ""];
    assert Nums(ps) == Nums(l.periods) + {p.periodNum} by {
      assert ps[|l.periods|] == p;
      forall m | m in Nums(ps)
        ensures m in Nums(l.periods) + {p.periodNum}
      {
        var i :| 0 <= i < |ps| && ps[i].periodNum == m;
        if i < |l.periods| {
          assert ps[i] == l.periods[i];
        }
      }
      forall m | m in Nums(l.periods)
        ensures m in Nums(ps)
      {
        var i :| 0 <= i < |l.periods| && l.periods[i].periodNum == m;
        assert ps[i] == l.periods[i];
      }
    }
    forall i | 0 <= i < |ps|
      ensures CodeShape(codes[ps[i].periodNum])
      ensures codes[ps[i].periodNum] == Mask ==> ps[i].isVerified
    {
      if i < |l.periods| {
        assert ps[i] == l.periods[i];
      } else {
        assert !AllDigits(Mask) by {
          assert !IsDigit(Mask[0]);
        }
      }
    }
  }

  // ---------------------------------------------------------------------
  // deletePeriod
  // ---------------------------------------------------------------------

  /** `deletePeriod`: drop the periods numbered `n` and the code slot for `n`. */
  function DeletePeriod(l: Ledger, n: int): (r: Ledger)
    ensures forall i :: 0 <= i < |r.periods| ==> r.periods[i] in l.periods && r.periods[i].periodNum != n
    ensures forall i :: 0 <= i < |l.periods| && l.periods[i].periodNum != n ==> l.periods[i] in r.periods
    ensures r.codes.Keys == l.codes.Keys - {n}
    ensures forall k :: k in r.codes ==> r.codes[k] == l.codes[k]
  {
    Ledger(Filter(l.periods, (p: Period) => p.periodNum != n), l.codes - {n})
  }

  /** Deletion works period by period, in order: a period survives alone or
      not at all, and the survivors of two lists one after the other are the
      survivors of each, one after the other. So the posted order and the
      number of copies are those of the list before deletion. */
  lemma DeleteKeepsOrder(a: seq<Period>, b: seq<Period>, codes: map<int, string>, n: int, p: Period)
    ensures DeletePeriod(Ledger(a + b, codes), n).periods
         == DeletePeriod(Ledger(a, codes), n).periods + DeletePeriod(Ledger(b, codes), n).periods
    ensures DeletePeriod(Ledger([p], codes), n).periods == if p.periodNum != n then [p] else []
  {
    FilterAppend(a, b, (q: Period) => q.periodNum != n);
  }

  /** Deleting the period just added gives back the ledger it was added to. */
  lemma AddThenDelete(l: Ledger, subjects: seq<Subject>, form: AddForm)
    requires Consistent(l)
    requires AddPeriod(l, subjects, form).Success?
    ensures DeletePeriod(AddPeriod(l, subjects, form).value, NextPeriodNum(l.periods)) == l
  {
    var r := AddPeriod(l, subjects, form).value;
    DeleteAppended(l, r.periods[|l.periods|]);
  }

  lemma DeleteAppended(l: Ledger, p: Period)
    requires l.codes.Keys == Nums(l.periods)
    requires forall i :: 0 <= i < |l.periods| ==> l.periods[i].periodNum < p.periodNum
    ensures DeletePeriod(Ledger(l.periods + [p], l.codes[p.periodNum := ""]), p.periodNum) == l
  {
    var keep := (q: Period) => q.periodNum != p.periodNum;
    FilterAppend(l.periods, [p], keep);
    FilterAll(l.periods, keep);
    assert Filter([p], keep) == [];
    assert p.periodNum !in l.codes;
    assert l.codes[p.periodNum := ""] - {p.periodNum} == l.codes;
  }

  lemma DeletePeriodConsistent(l: Ledger, n: int)
    requires Consistent(l)
    ensures Consistent(DeletePeriod(l, n))
  {
    var r := DeletePeriod(l, n);
    FilterUnique(l.periods, (p: Period) => p.periodNum != n);
    FilteredNums(l.periods, n);
    forall j | 0 <= j < |r.periods|
      ensures CodeShape(r.codes[r.periods[j].periodNum])
      ensures r.codes[r.periods[j].periodNum] == Mask ==> r.periods[j].isVerified
    {
      var i :| 0 <= i < |l.periods| && l.periods[i] == r.periods[j];
    }
  }

  lemma FilteredNums(ps: seq<Period>, n: int)
    ensures Nums(Filter(ps, (p: Period) => p.periodNum != n)) == Nums(ps) - {n}
  {
    var qs := Filter(ps, (p: Period) => p.periodNum != n);
    forall m | m in Nums(ps) - {n}
      ensures m in Nums(qs)
    {
      var i :| 0 <= i < |ps| && ps[i].periodNum == m;
      var j :| 0 <= j < |qs| && qs[j] == ps[i];
    }
    forall m | m in Nums(qs)
      ensures m in Nums(ps) - {n}
    {
      var j :| 0 <= j < |qs| && qs[j].periodNum == m;
      var i :| 0 <= i < |ps| && ps[i] == qs[j];
    }
  }

  /** Filtering a list of periods with unique numbers keeps them unique. */
  lemma {:induction false} FilterUnique(ps: seq<Period>, keep: Period -> bool)
    requires UniqueNums(ps)
    ensures UniqueNums(Filter(ps, keep))
  {
    if ps != [] {
      FilterUnique(ps[1..], keep);
      var t := Filter(ps[1..], keep);
      forall j | 0 <= j < |t|
        ensures t[j].periodNum != ps[0].periodNum
      {
        var i :| 0 <= i < |ps[1..]| && ps[1..][i] == t[j];
        assert ps[i + 1] == t[j];
      }
    }
  }

  // ---------------------------------------------------------------------
  // toggleAbsent
  // ---------------------------------------------------------------------

  /** The comparator `(a, b) => a - b`. */
  predicate IntLe(a: int, b: int) {
    a <= b
  }

  lemma IntLeTotalPreorder()
    ensures TotalPreorder(IntLe)
  {
  }

  /** One roll's toggle in an absentee list: remove every copy when present,
      otherwise append it and sort ascending. */
  function ToggleRoll(absent: seq<int>, roll: int): (r: seq<int>)
    ensures roll in r <==> roll !in absent
    ensures forall x :: x != roll ==> (x in r <==> x in absent)
    ensures roll !in absent ==> Sorted(r, IntLe) && multiset(r) == multiset(absent) + multiset{roll}
    ensures roll in absent ==> multiset(r) == multiset(absent)[roll := 0]
    ensures roll in absent && Sorted(absent, IntLe) ==> Sorted(r, IntLe)
  {
    if roll in absent then
      FilterMultiset(absent, (x: int) => x != roll, roll);
      FilterSortedInts(absent, (x: int) => x != roll);
      Filter(absent, (x: int) => x != roll)
    else
      IntLeTotalPreorder();
      SortBySorted(absent + [roll], IntLe);
      var r := SortBy(absent + [roll], IntLe);
      SameElements(r, absent + [roll]);
      r
  }

  /** Removing every copy of `roll` leaves every other roll with all its
      copies. */
  lemma {:induction false} FilterMultiset(s: seq<int>, keep: int -> bool, roll: int)
    requires forall x :: keep(x) <==> x != roll
    ensures multiset(Filter(s, keep)) == multiset(s)[roll := 0]
  {
    if s != [] {
      FilterMultiset(s[1..], keep, roll);
      assert s == [s[0]] + s[1..];
    }
  }

  /** The rolls kept by a filter stay in ascending order. */
  lemma {:induction false} FilterSortedInts(s: seq<int>, keep: int -> bool)
    ensures Sorted(s, IntLe) ==> Sorted(Filter(s, keep), IntLe)
  {
    if s != [] && Sorted(s, IntLe) {
      SortedTail(s);
      FilterSortedInts(s[1..], keep);
      var t := Filter(s[1..], keep);
      SortedHeadBelow(s, t);
      if keep(s[0]) {
        SortedCons(s[0], t);
      }
    }
  }

  lemma SortedTail(s: seq<int>)
    requires s != [] && Sorted(s, IntLe)
    ensures Sorted(s[1..], IntLe)
  {
    forall a, b | 0 <= a < b < |s[1..]|
      ensures IntLe(s[1..][a], s[1..][b])
    {
      assert s[1..][a] == s[a + 1] && s[1..][b] == s[b + 1];
    }
  }

  /** The head of an ascending list is below every element drawn from its
      tail. */
  lemma SortedHeadBelow(s: seq<int>, t: seq<int>)
    requires s != [] && Sorted(s, IntLe)
    requires forall j :: 0 <= j < |t| ==> t[j] in s[1..]
    ensures forall j :: 0 <= j < |t| ==> s[0] <= t[j]
  {
    forall j | 0 <= j < |t|
      ensures s[0] <= t[j]
    {
      var i :| 0 <= i < |s[1..]| && s[1..][i] == t[j];
      assert s[i + 1] == t[j];
    }
  }

  lemma SortedCons(x: int, t: seq<int>)
    requires Sorted(t, IntLe)
    requires forall j :: 0 <= j < |t| ==> x <= t[j]
    ensures Sorted([x] + t, IntLe)
  {
    var r := [x] + t;
    forall a, b | 0 <= a < b < |r|
      ensures IntLe(r[a], r[b])
    {
      assert r[b] == t[b - 1];
      if a > 0 {
        assert r[a] == t[a - 1];
        assert IntLe(t[a - 1], t[b - 1]);
      }
    }
  }

  /** Toggling the same roll twice restores the absentee set. */
  lemma ToggleRollTwice(absent: seq<int>, roll: int)
    ensures forall x :: x in ToggleRoll(ToggleRoll(absent, roll), roll) <==> x in absent
  {
  }

  /** `toggleAbsent`: toggle `roll` in every period numbered `n`. */
  function ToggleAbsent(l: Ledger, n: int, roll: int): (r: Ledger)
    ensures r.codes == l.codes
    ensures |r.periods| == |l.periods|
    ensures forall i :: 0 <= i < |l.periods| && l.periods[i].periodNum != n ==> r.periods[i] == l.periods[i]
    ensures forall i :: 0 <= i < |l.periods| && l.periods[i].periodNum == n ==>
      r.periods[i] == l.periods[i].(absentRollNumbers := ToggleRoll(l.periods[i].absentRollNumbers, roll))
  {
    var ps := l.periods;
    Ledger(
      seq(|ps|, i requires 0 <= i < |ps| =>
        if ps[i].periodNum != n then ps[i]
        else ps[i].(absentRollNumbers := ToggleRoll(ps[i].absentRollNumbers, roll))),
      l.codes)
  }

  /** Toggling leaves period numbers, subjects and verification alone, so
      the ledger stays consistent. */
  lemma ToggleAbsentConsistent(l: Ledger, n: int, roll: int)
    requires Consistent(l)
    ensures Consistent(ToggleAbsent(l, n, roll))
  {
    var r := ToggleAbsent(l, n, roll);
    assert forall i :: 0 <= i < |l.periods| ==> r.periods[i].periodNum == l.periods[i].periodNum;
    assert Nums(r.periods) == Nums(l.periods);
  }

  /** Toggling twice restores every period's absentee set and changes
      nothing else. */
  lemma ToggleAbsentTwice(l: Ledger, n: int, roll: int)
    ensures var r := ToggleAbsent(ToggleAbsent(l, n, roll), n, roll);
      && r.codes == l.codes
      && |r.periods| == |l.periods|
      && forall i :: 0 <= i < |l.periods| ==>
           && r.periods[i].(absentRollNumbers := []) == l.periods[i].(absentRollNumbers := [])
           && forall x :: x in r.periods[i].absentRollNumbers <==> x in l.periods[i].absentRollNumbers
  {
    var m := ToggleAbsent(l, n, roll);
    var r := ToggleAbsent(m, n, roll);
    forall i | 0 <= i < |l.periods|
      ensures forall x :: x in r.periods[i].absentRollNumbers <==> x in l.periods[i].absentRollNumbers
    {
      if l.periods[i].periodNum == n {
        ToggleRollTwice(l.periods[i].absentRollNumbers, roll);
      }
    }
  }

  // ---------------------------------------------------------------------
  // handleCodeInput
  // ---------------------------------------------------------------------

  /** `handleCodeInput`: store the filtered PIN in slot `n`. */
  function HandleCodeInput(l: Ledger, n: int, value: string): (r: Ledger)
    ensures r.periods == l.periods
    ensures n in r.codes && AllDigits(r.codes[n]) && |r.codes[n]| <= 4
    ensures |r.codes[n]| <= |KeepDigits(value)|
    ensures r.codes[n] == KeepDigits(value)[..|r.codes[n]|]
    ensures |r.codes[n]| == if |KeepDigits(value)| <= 4 then |KeepDigits(value)| else 4
    ensures r.codes.Keys == l.codes.Keys + {n}
    ensures forall k :: k in l.codes && k != n ==> r.codes[k] == l.codes[k]
  {
    Ledger(l.periods, l.codes[n := CleanPin(value)])
  }

  lemma HandleCodeInputConsistent(l: Ledger, n: int, value: string)
    requires Consistent(l)
    requires n in Nums(l.periods)
    ensures Consistent(HandleCodeInput(l, n, value))
  {
    assert !AllDigits(Mask) by {
      assert !IsDigit(Mask[0]);
    }
  }

  // ---------------------------------------------------------------------
  // loadAttendanceForDate
  // ---------------------------------------------------------------------

  /** A period as the server stores it; absent fields are `None`. */
  datatype StoredPeriod = StoredPeriod(
    periodNum: int,
    subjectName: Option<string>,
    subjectId: Option<string>,
    absentRollNumbers: Option<seq<int>>,
    isVerified: Option<bool>)

  /** The defaults the page applies to a stored period. */
  function LoadPeriod(p: StoredPeriod): (r: Period)
    ensures r.periodNum == p.periodNum
    ensures r.isVerified <==> p.isVerified == Some(true)
    ensures p.subjectName.Some? ==> r.subjectName == p.subjectName.value
    ensures p.subjectName.None? ==> r.subjectName == ""
    ensures p.subjectId.Some? ==> r.subjectId == p.subjectId.value
    ensures p.subjectId.None? ==> r.subjectId == ""
    ensures p.absentRollNumbers.Some? ==> r.absentRollNumbers == p.absentRollNumbers.value
    ensures p.absentRollNumbers.None? ==> r.absentRollNumbers == []
  {
    Period(p.periodNum, p.subjectName.GetOr(""), p.subjectId.GetOr(""),
           p.absentRollNumbers.GetOr([]), p.isVerified.GetOr(false))
  }

  function SlotFor(p: StoredPeriod): string {
    if p.isVerified == Some(true) then Mask else ""
  }

  /** The code-slot prefill, period by period in order. */
  function PrefillCodes(ps: seq<StoredPeriod>): (m: map<int, string>)
    ensures m.Keys == set i | 0 <= i < |ps| :: ps[i].periodNum
    ensures forall k :: k in m ==> m[k] == Mask || m[k] == ""
  {
    if ps == [] then map[]
    else
      var last := ps[|ps| - 1];
      var m := PrefillCodes(ps[..|ps| - 1]);
      assert forall i :: 0 <= i < |ps| - 1 ==> ps[..|ps| - 1][i] == ps[i];
      m[last.periodNum := SlotFor(last)]
  }

  /** A period's slot holds the mask exactly when it is verified; when two
      stored periods share a number, the later one decides. */
  lemma {:induction false} PrefillLastWins(ps: seq<StoredPeriod>, i: nat)
    requires i < |ps|
    requires forall j :: i < j < |ps| ==> ps[j].periodNum != ps[i].periodNum
    ensures PrefillCodes(ps)[ps[i].periodNum] == (if ps[i].isVerified == Some(true) then Mask else "")
  {
    if i < |ps| - 1 {
      var init := ps[..|ps| - 1];
      assert init[i] == ps[i];
      PrefillLastWins(init, i);
    }
  }

  /** `loadAttendanceForDate`: `None` stands for a failed request or a reply
      without periods. */
  function LoadAttendanceForDate(reply: Option<seq<StoredPeriod>>): (r: Ledger)
    ensures reply.None? || reply.value == [] ==> r == Ledger([], map[])
    ensures reply.Some? ==> |r.periods| == |reply.value|
    ensures reply.Some? ==> forall i :: 0 <= i < |r.periods| ==> r.periods[i] == LoadPeriod(reply.value[i])
    ensures reply.Some? && reply.value != [] ==> r.codes == PrefillCodes(reply.value)
    ensures r.codes.Keys == Nums(r.periods)
    ensures forall i :: 0 <= i < |r.periods| ==> CodeShape(r.codes[r.periods[i].periodNum])
  {
    if reply.Some? && |reply.value| > 0 then
      var ps := Map(reply.value, LoadPeriod);
      var codes := PrefillCodes(reply.value);
      LoadedNums(reply.value, ps);
      Ledger(ps, codes)
    else Ledger([], map[])
  }

  lemma LoadedNums(stored: seq<StoredPeriod>, ps: seq<Period>)
    requires |ps| == |stored|
    requires forall i :: 0 <= i < |ps| ==> ps[i].periodNum == stored[i].periodNum
    ensures Nums(ps) == set i | 0 <= i < |stored| :: stored[i].periodNum
  {
    var a := set i | 0 <= i < |stored| :: stored[i].periodNum;
    forall m | m in a
      ensures m in Nums(ps)
    {
      var i :| 0 <= i < |stored| && stored[i].periodNum == m;
      assert ps[i].periodNum == m;
    }
  }

  /** With unique stored numbers, the loaded page state is consistent and
      the code slot of each period is the mask exactly when it is verified. */
  lemma LoadConsistent(stored: seq<StoredPeriod>)
    requires forall i, j :: 0 <= i < j < |stored| ==> stored[i].periodNum != stored[j].periodNum
    ensures Consistent(LoadAttendanceForDate(Some(stored)))
    ensures var l := LoadAttendanceForDate(Some(stored));
      forall i :: 0 <= i < |l.periods| ==> (l.codes[l.periods[i].periodNum] == Mask <==> l.periods[i].isVerified)
    ensures var l := LoadAttendanceForDate(Some(stored));
      forall i :: 0 <= i < |l.periods| ==>
        l.codes[l.periods[i].periodNum] == (if l.periods[i].isVerified then Mask else "")
  {
    var l := LoadAttendanceForDate(Some(stored));
    if stored != [] {
      forall i | 0 <= i < |l.periods|
        ensures l.codes[l.periods[i].periodNum] == (if l.periods[i].isVerified then Mask else "")
      {
        assert l.periods[i] == LoadPeriod(stored[i]);
        PrefillLastWins(stored, i);
      }
    }
  }
}
