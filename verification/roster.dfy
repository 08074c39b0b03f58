/** The class roster as the attendance page builds it
    (`sanitizeRollNumber`, `sortRollNumbers`, `normalizeClassRollNumbers`):
    roll identifiers are trimmed, empty and repeated ones dropped, and the
    rest sorted in natural order; an empty roster falls back to "1".."N". */
module Roster {
  import opened Wrappers
  import opened Seqs
  import opened Text
  import opened Sorting

  /** One entry of the stored roster: `null`/`undefined`, or a value whose
      `String(value)` is `text`. */
  datatype RawRoll = Nullish | Value(text: string)

  /** A JavaScript number, as `Number(classData.totalStudents)` yields it. */
  datatype JsNumber = NaN | Infinite(negative: bool) | Finite(value: real)

  /** The fields of the class record the roster is built from. A missing or
      non-array `rollNumbers` is `None`; a missing record is
      `ClassData(None, NaN)`. */
  datatype ClassData = ClassData(rollNumbers: Option<seq<RawRoll>>, totalStudents: JsNumber)

  /** `Array.from({ length: n })` throws a RangeError when n exceeds the
      largest array length. */
  datatype RosterError = InvalidArrayLength

  const MaxArrayLength: int := 0xFFFF_FFFF

  /** A roll identifier as stored: non-empty, with no surrounding white space. */
  predicate IsTrimmed(s: string) {
    s != [] && !IsJsSpace(s[0]) && !IsJsSpace(s[|s| - 1])
  }

  /** `sanitizeRollNumber`. */
  function SanitizeRollNumber(v: RawRoll): (r: Option<string>)
    ensures v.Nullish? ==> r.None?
    ensures v.Value? ==> (r.None? <==> forall k :: 0 <= k < |v.text| ==> IsJsSpace(v.text[k]))
    ensures r.Some? ==> r.value == Trim(v.text) && IsTrimmed(r.value)
  {
    match v
    case Nullish => None
    case Value(text) =>
      var cleaned := Trim(text);
      if cleaned == [] then None else Some(cleaned)
  }

  /** A sanitised roll is left as it is by a second sanitising. */
  lemma SanitizeIdempotent(v: RawRoll)
    requires SanitizeRollNumber(v).Some?
    ensures SanitizeRollNumber(Value(SanitizeRollNumber(v).value)) == SanitizeRollNumber(v)
  {
    TrimIdempotent(v.text);
  }

  // ---------------------------------------------------------------------
  // Natural order (`localeCompare` with `numeric: true, sensitivity: 'base'`)
  // ---------------------------------------------------------------------

  /** A collation unit: a whole run of digits compares by its value, any
      other character by its ASCII-case-folded code. Digits come first. */
  datatype Token = Number(n: nat) | Letter(code: int)

  predicate TokenLt(a: Token, b: Token) {
    match (a, b)
    case (Number(m), Number(n)) => m < n
    case (Number(_), Letter(_)) => true
    case (Letter(_), Number(_)) => false
    case (Letter(c), Letter(d)) => c < d
  }

  /** The length of the run of digits that starts `s`. */
  function DigitRun(s: string): (n: nat)
    requires s != [] && IsDigit(s[0])
    ensures 0 < n <= |s|
    ensures AllDigits(s[..n])
    ensures n == |s| || !IsDigit(s[n])
  {
    if |s| == 1 || !IsDigit(s[1]) then 1
    else
      var n := 1 + DigitRun(s[1..]);
      assert s[..n] == [s[0]] + s[1..][..n - 1];
      n
  }

  function Tokens(s: string): seq<Token>
    decreases |s|
  {
    if s == [] then []
    else if IsDigit(s[0]) then
      var n := DigitRun(s);
      [Number(DecimalValue(s[..n]))] + Tokens(s[n..])
    else [Letter(LowerChar(s[0]) as int)] + Tokens(s[1..])
  }

  predicate LexLe(a: seq<Token>, b: seq<Token>) {
    a == [] || (b != [] && (TokenLt(a[0], b[0]) || (a[0] == b[0] && LexLe(a[1..], b[1..]))))
  }

  /** The natural comparison: `NaturalLe(a, b)` when `a` does not sort after `b`. */
  predicate NaturalLe(a: string, b: string) {
    LexLe(Tokens(a), Tokens(b))
  }

  lemma {:induction false} LexLeTotal(a: seq<Token>, b: seq<Token>)
    ensures LexLe(a, b) || LexLe(b, a)
  {
    if a != [] && b != [] && a[0] == b[0] {
      LexLeTotal(a[1..], b[1..]);
    }
  }

  lemma {:induction false} LexLeTransitive(a: seq<Token>, b: seq<Token>, c: seq<Token>)
    requires LexLe(a, b) && LexLe(b, c)
    ensures LexLe(a, c)
  {
    if a != [] && a[0] == b[0] && b[0] == c[0] {
      LexLeTransitive(a[1..], b[1..], c[1..]);
    }
  }

  /** The natural comparison is a total preorder, so sorting by it is
      well defined. */
  lemma NaturalLeTotalPreorder()
    ensures TotalPreorder(NaturalLe)
  {
    forall a, b
      ensures NaturalLe(a, b) || NaturalLe(b, a)
    {
      LexLeTotal(Tokens(a), Tokens(b));
    }
    forall a, b, c | NaturalLe(a, b) && NaturalLe(b, c)
      ensures NaturalLe(a, c)
    {
      LexLeTransitive(Tokens(a), Tokens(b), Tokens(c));
    }
  }

  /** A numeral is one token carrying its value. */
  lemma NumeralTokens(s: string)
    requires s != [] && AllDigits(s)
    ensures Tokens(s) == [Number(DecimalValue(s))]
  {
    assert s[..|s|] == s;
    assert s[|s|..] == [];
  }

  /** Numerals sort by value: "2" before "10". */
  lemma NumeralsSortByValue(m: nat, n: nat)
    ensures NaturalLe(NatToString(m), NatToString(n)) <==> m <= n
  {
    NumeralTokens(NatToString(m));
    NumeralTokens(NatToString(n));
    var a, b := [Number(m)], [Number(n)];
    assert a[1..] == [] && b[1..] == [];
    assert LexLe(a, b) <==> TokenLt(a[0], b[0]) || a[0] == b[0];
  }

  /** `sortRollNumbers`. */
  function SortRollNumbers(rolls: seq<string>): (r: seq<string>)
    ensures multiset(r) == multiset(rolls)
    ensures Sorted(r, NaturalLe)
  {
    NaturalLeTotalPreorder();
    SortBySorted(rolls, NaturalLe);
    SortBy(rolls, NaturalLe)
  }

  // ---------------------------------------------------------------------
  // Roster normalisation
  // ---------------------------------------------------------------------

  function Cleaned(raw: seq<RawRoll>): (r: seq<Option<string>>)
    ensures |r| == |raw|
    ensures forall k :: 0 <= k < |r| ==> r[k] == SanitizeRollNumber(raw[k])
  {
    Map(raw, SanitizeRollNumber)
  }

  /** The filter with a `seen` set: the first occurrence of each sanitised
      roll, in input order. */
  function FirstOccurrences(xs: seq<Option<string>>, seen: set<string>): (r: seq<string>)
    ensures NoDuplicates(r)
    ensures forall k :: 0 <= k < |r| ==> r[k] !in seen && Some(r[k]) in xs
    ensures forall k :: 0 <= k < |xs| && xs[k].Some? && xs[k].value !in seen ==> xs[k].value in r
  {
    if xs == [] then []
    else match xs[0]
      case None => FirstOccurrences(xs[1..], seen)
      case Some(v) =>
        if v in seen then FirstOccurrences(xs[1..], seen)
        else [v] + FirstOccurrences(xs[1..], seen + {v})
  }

  function Present(xs: seq<string>): (r: seq<Option<string>>)
    ensures |r| == |xs|
    ensures forall k :: 0 <= k < |xs| ==> r[k] == Some(xs[k])
  {
    seq(|xs|, k requires 0 <= k < |xs| => Some(xs[k]))
  }

  /** Rolls that are all present, new and distinct pass the filter
      unchanged and in their order. */
  lemma {:induction false} FirstOccurrencesOfDistinct(xs: seq<string>, seen: set<string>)
    requires NoDuplicates(xs)
    requires forall k :: 0 <= k < |xs| ==> xs[k] !in seen
    ensures FirstOccurrences(Present(xs), seen) == xs
  {
    if xs != [] {
      assert Present(xs)[1..] == Present(xs[1..]);
      forall k | 0 <= k < |xs[1..]|
        ensures xs[1..][k] !in seen + {xs[0]}
      {
        assert xs[1..][k] == xs[k + 1];
      }
      FirstOccurrencesOfDistinct(xs[1..], seen + {xs[0]});
    }
  }

  /** The sanitised, de-duplicated roster before sorting. */
  function DistinctRolls(c: ClassData): seq<string> {
    FirstOccurrences(Cleaned(c.rollNumbers.GetOr([])), {})
  }

  /** `Number.isInteger(n) && n > 0`, giving the count. */
  function PositiveCount(n: JsNumber): (r: Option<nat>)
    ensures r.Some? <==> n.Finite? && n.value > 0.0 && n.value.Floor as real == n.value
    ensures r.Some? ==> r.value as real == n.value
  {
    if n.Finite? && n.value > 0.0 && n.value.Floor as real == n.value then Some(n.value.Floor)
    else None
  }

  /** `Array.from({ length: n }, (_, i) => String(i + 1))`. */
  function Ordinals(n: nat): (r: seq<string>)
    ensures |r| == n
    ensures forall k :: 0 <= k < n ==> r[k] == NatToString(k + 1)
  {
    seq(n, k requires 0 <= k < n => NatToString(k + 1))
  }

  /** The synthesised roster lists "1".."N" without repetition, each entry a
      numeral of its position, already in natural order. */
  lemma OrdinalsWellFormed(n: nat)
    ensures NoDuplicates(Ordinals(n))
    ensures Sorted(Ordinals(n), NaturalLe)
    ensures forall k :: 0 <= k < n ==> DecimalValue(Ordinals(n)[k]) == k + 1
    ensures forall k :: 0 <= k < n ==> IsTrimmed(Ordinals(n)[k])
  {
    OrdinalsSorted(n);
    forall k | 0 <= k < n
      ensures IsTrimmed(Ordinals(n)[k])
    {
      NumeralTrimmed(k + 1);
    }
  }

  /** A numeral is a non-empty run of digits, none of them white space. */
  lemma NumeralTrimmed(m: nat)
    ensures IsTrimmed(NatToString(m))
  {
    var r := NatToString(m);
    assert IsDigit(r[0]) && IsDigit(r[|r| - 1]);
  }

  lemma OrdinalsSorted(n: nat)
    ensures Sorted(Ordinals(n), NaturalLe)
  {
    var r := Ordinals(n);
    forall i, j | 0 <= i < j < n
      ensures NaturalLe(r[i], r[j])
    {
      NumeralsSortByValue(i + 1, j + 1);
    }
  }

  /** The roster of a class with stored identifiers: the distinct
      sanitised identifiers in natural order. */
  function SortedRoster(c: ClassData): (r: seq<string>)
    ensures NoDuplicates(r) && Sorted(r, NaturalLe)
    ensures forall k :: 0 <= k < |r| ==> IsTrimmed(r[k])
    ensures forall x :: x in r <==> Some(x) in Cleaned(c.rollNumbers.GetOr([]))
  {
    var rolls := DistinctRolls(c);
    PermutationNoDuplicates(rolls, SortRollNumbers(rolls));
    SortedRosterEntries(c);
    SortRollNumbers(rolls)
  }

  lemma SortedRosterEntries(c: ClassData)
    ensures forall x :: x in SortRollNumbers(DistinctRolls(c)) <==> Some(x) in Cleaned(c.rollNumbers.GetOr([]))
    ensures forall k :: 0 <= k < |SortRollNumbers(DistinctRolls(c))| ==> IsTrimmed(SortRollNumbers(DistinctRolls(c))[k])
  {
    var rolls := DistinctRolls(c);
    var sorted := SortRollNumbers(rolls);
    SameElements(sorted, rolls);
    DistinctRollsMembership(c);
    DistinctRollsAreSanitised(c);
    forall k | 0 <= k < |sorted|
      ensures IsTrimmed(sorted[k])
    {
      assert sorted[k] in rolls;
    }
  }

  /** The synthesised roster of a class without stored identifiers. */
  function FallbackRoster(total: JsNumber): (r: Result<seq<string>, RosterError>)
    ensures r.Failure? <==> PositiveCount(total).Some? && PositiveCount(total).value > MaxArrayLength
    ensures r.Success? ==> r.value == Ordinals(PositiveCount(total).GetOr(0))
  {
    match PositiveCount(total)
    case Some(n) =>
      if n > MaxArrayLength then Failure(InvalidArrayLength) else Success(Ordinals(n))
    case None => Success([])
  }

  /** `normalizeClassRollNumbers`. */
  function NormalizeClassRollNumbers(c: ClassData): (r: Result<seq<string>, RosterError>)
    ensures r.Failure? <==>
      DistinctRolls(c) == [] && PositiveCount(c.totalStudents).Some? &&
      PositiveCount(c.totalStudents).value > MaxArrayLength
    ensures r.Success? ==> NoDuplicates(r.value) && Sorted(r.value, NaturalLe)
    ensures r.Success? ==> forall k :: 0 <= k < |r.value| ==> IsTrimmed(r.value[k])
    ensures DistinctRolls(c) != [] ==>
      r.Success? && forall x :: x in r.value <==> Some(x) in Cleaned(c.rollNumbers.GetOr([]))
    ensures DistinctRolls(c) == [] && r.Success? ==>
      r.value == Ordinals(PositiveCount(c.totalStudents).GetOr(0))
  {
    if |DistinctRolls(c)| > 0 then Success(SortedRoster(c))
    else
      OrdinalsWellFormed(PositiveCount(c.totalStudents).GetOr(0));
      FallbackRoster(c.totalStudents)
  }

  lemma DistinctRollsMembership(c: ClassData)
    ensures forall x :: x in DistinctRolls(c) <==> Some(x) in Cleaned(c.rollNumbers.GetOr([]))
  {
    var xs := Cleaned(c.rollNumbers.GetOr([]));
    forall x | Some(x) in xs
      ensures x in DistinctRolls(c)
    {
      var k :| 0 <= k < |xs| && xs[k] == Some(x);
    }
  }

  /** A permutation of a list without repetitions has none either. */
  lemma PermutationNoDuplicates<T>(a: seq<T>, b: seq<T>)
    requires NoDuplicates(a) && multiset(a) == multiset(b)
    ensures NoDuplicates(b)
  {
    forall i, j | 0 <= i < j < |b|
      ensures b[i] != b[j]
    {
      if b[i] == b[j] {
        TwoIndicesCount(b, i, j);
        NoDuplicatesCount(a, b[i]);
      }
    }
  }

  lemma {:induction false} TwoIndicesCount<T>(s: seq<T>, i: nat, j: nat)
    requires i < j < |s| && s[i] == s[j]
    ensures multiset(s)[s[i]] >= 2
  {
    assert s == s[..i] + [s[i]] + s[i + 1..j] + [s[j]] + s[j + 1..];
  }

  lemma {:induction false} NoDuplicatesCount<T>(s: seq<T>, x: T)
    requires NoDuplicates(s)
    ensures multiset(s)[x] <= 1
  {
    if s != [] {
      assert s == [s[0]] + s[1..];
      NoDuplicatesCount(s[1..], x);
      if s[0] == x {
        assert x !in s[1..];
      }
    }
  }

  /** Every cleaned entry of a non-empty roster is a trimmed input entry. */
  lemma DistinctRollsAreSanitised(c: ClassData)
    ensures forall x :: x in DistinctRolls(c) ==> IsTrimmed(x)
  {
    var xs := Cleaned(c.rollNumbers.GetOr([]));
    forall x | x in DistinctRolls(c)
      ensures IsTrimmed(x)
    {
      var k :| 0 <= k < |DistinctRolls(c)| && DistinctRolls(c)[k] == x;
      var i :| 0 <= i < |xs| && xs[i] == Some(x);
      assert xs[i] == SanitizeRollNumber(c.rollNumbers.GetOr([])[i]);
    }
  }

  lemma SmallNumeralOrder()
    ensures !NaturalLe("10", "1") && !NaturalLe("2", "1") && NaturalLe("2", "10")
  {
    assert DecimalValue("10") == 10;
    NumeralTokens("10");
    NumeralTokens("1");
    NumeralTokens("2");
  }

  /** Worked example: identifiers sort naturally, not lexicographically. */
  lemma NaturalOrderExample()
    ensures SortRollNumbers(["2", "10", "1"]) == ["1", "2", "10"]
  {
    SmallNumeralOrder();
    assert ["1"][1..] == [];
    assert SortBy(["1"], NaturalLe) == ["1"];
    assert ["10", "1"][1..] == ["1"];
    assert Insert("10", [], NaturalLe) == ["10"];
    assert SortBy(["10", "1"], NaturalLe) == ["1", "10"];
    assert ["2", "10", "1"][1..] == ["10", "1"];
    assert ["1", "10"][1..] == ["10"];
  }
}
