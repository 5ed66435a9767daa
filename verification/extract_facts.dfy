/**
 Consequences of the pattern semantics for the extracted dictionary:
 letter case does not matter, which occurrence of a name supplies the
 value, and how the number after it is read.
 */
module ExtractFacts {
  import opened Wrappers
  import opened Text
  import opened Labs
  import opened Pattern
  import opened Extract

  /** Two texts that differ at most in the case of ASCII letters. */
  predicate SameUpToCase(s: string, t: string) {
    |s| == |t| && forall x :: 0 <= x < |s| ==> SameIgnoringCase(s[x], t[x])
  }

  /** Changing letter case leaves digits and decimal points where they were. */
  lemma {:induction false} CaseChangeKeepsNumerals(s: string, t: string)
    requires SameUpToCase(s, t)
    ensures forall x :: 0 <= x < |s| ==> (IsDigit(s[x]) <==> IsDigit(t[x]))
    ensures forall x :: 0 <= x < |s| ==> (s[x] == '.' <==> t[x] == '.')
    ensures forall x :: 0 <= x < |s| && (IsDigit(s[x]) || s[x] == '.') ==> s[x] == t[x]
  {
    forall x | 0 <= x < |s|
      ensures (IsDigit(s[x]) <==> IsDigit(t[x])) && (s[x] == '.' <==> t[x] == '.')
      ensures IsDigit(s[x]) || s[x] == '.' ==> s[x] == t[x]
    {
      if IsDigit(s[x]) || s[x] == '.' {
        NonLetterMatchesOnlyItself(s[x], t[x]);
      }
      if IsDigit(t[x]) || t[x] == '.' {
        NonLetterMatchesOnlyItself(t[x], s[x]);
      }
    }
  }

  /** A pattern matches the same spans of two texts that differ only in
      letter case. */
  lemma {:induction false} CaseChangeKeepsMatches(s: string, t: string, p: LabPattern)
    requires SameUpToCase(s, t)
    ensures forall i: nat, j: nat, k: nat :: IsMatch(s, p, i, j, k) <==> IsMatch(t, p, i, j, k)
  {
    CaseChangeKeepsNumerals(s, t);
    forall i: nat, j: nat, k: nat
      ensures IsMatch(s, p, i, j, k) <==> IsMatch(t, p, i, j, k)
    {
      assert OccursAt(s, p.name, i) <==> OccursAt(t, p.name, i);
      if p.shape.Decimal? && IsMatch(s, p, i, j, k) {
        var d :| j < d && d + 1 < k && DigitsIn(s, j, d) && s[d] == '.' && DigitsIn(s, d + 1, k);
        assert DigitsIn(t, j, d) && t[d] == '.' && DigitsIn(t, d + 1, k);
      }
      if p.shape.Decimal? && IsMatch(t, p, i, j, k) {
        var d :| j < d && d + 1 < k && DigitsIn(t, j, d) && t[d] == '.' && DigitsIn(t, d + 1, k);
        assert DigitsIn(s, j, d) && s[d] == '.' && DigitsIn(s, d + 1, k);
      }
    }
  }

  /** `re.search` reports the same span in two texts that differ only in
      letter case. */
  lemma {:induction false} SearchIgnoresCase(s: string, t: string, p: LabPattern)
    requires SameUpToCase(s, t)
    ensures Search(s, p) == Search(t, p)
  {
    CaseChangeKeepsMatches(s, t, p);
    var r := Search(s, p);
    assert IsSearchResult(s, p, r);
    assert IsSearchResult(t, p, r);
    SearchMatchesSpec(t, p, r);
  }

  lemma {:induction false} ReadingIgnoresCase(s: string, t: string, p: LabPattern)
    requires SameUpToCase(s, t)
    ensures Reading(s, p) == Reading(t, p)
  {
    SearchIgnoresCase(s, t, p);
    var r := Search(s, p);
    if r.Some? {
      var m := r.value;
      CaptureIsNumeral(s, p, m.start, m.capStart, m.capEnd);
      CaseChangeKeepsNumerals(s, t);
      assert s[m.capStart..m.capEnd] == t[m.capStart..m.capEnd];
    }
  }

  /** Matching ignores case: texts that differ only in the case of their
      letters give the same dictionary. */
  lemma {:induction false} ExtractIgnoresCase(s: string, t: string)
    requires SameUpToCase(s, t)
    ensures ExtractLabs(s) == ExtractLabs(t)
  {
    var a, b := ExtractLabs(s), ExtractLabs(t);
    forall lab: Lab
      ensures Name(lab) in a <==> Name(lab) in b
      ensures Name(lab) in a ==> a[Name(lab)] == b[Name(lab)]
    {
      EntryIgnoresCase(s, t, lab);
    }
    SameEntriesSameMap(a, b);
  }

  /** Two dictionaries over the lab names are equal when they agree lab by
      lab. */
  lemma {:induction false} SameEntriesSameMap(a: map<string, real>, b: map<string, real>)
    requires a.Keys <= LabNames && b.Keys <= LabNames
    requires forall lab :: Name(lab) in a <==> Name(lab) in b
    requires forall lab :: Name(lab) in a ==> a[Name(lab)] == b[Name(lab)]
    ensures a == b
  {
    PatternsCoverLabs();
    forall key | key in a.Keys + b.Keys
      ensures key in a && key in b && a[key] == b[key]
    {
      var lab :| Name(lab) == key;
    }
    assert a.Keys == b.Keys;
  }

  lemma {:induction false} EntryIgnoresCase(s: string, t: string, lab: Lab)
    requires SameUpToCase(s, t)
    ensures Name(lab) in ExtractLabs(s) <==> Name(lab) in ExtractLabs(t)
    ensures Name(lab) in ExtractLabs(s) ==> ExtractLabs(s)[Name(lab)] == ExtractLabs(t)[Name(lab)]
  {
    ReadingIgnoresCase(s, t, PatternOf(lab));
    ExtractLabsByLab(s, lab);
    ExtractLabsByLab(t, lab);
  }

  /** The first number after index `q`, read as a string of digits. */
  function DigitRunValue(s: string, q: nat): nat
    requires q <= |s|
  {
    var e := DigitRunEnd(s, q);
    assert DigitsIn(s[q..e], 0, e - q);
    NatValue(s[q..e])
  }

  /** For a whole-number lab, `re.search` reports the anchored attempt at
      the first occurrence of the name: no other start is ever used. */
  lemma {:induction false} WholeNumberSearchIsFirstOccurrence(text: string, p: LabPattern, i: nat)
    requires p.shape.WholeNumber?
    requires OccursAt(text, p.name, i)
    requires forall i': nat :: i' < i ==> !OccursAt(text, p.name, i')
    ensures Search(text, p) == MatchAt(text, p, i)
  {
    var here := MatchAt(text, p, i);
    MatchAtSpec(text, p, i);
    if here.None? {
      assert FirstDigitFrom(text, i + |p.name|) == |text|;
      forall i': nat, j: nat, k: nat | IsMatch(text, p, i', j, k)
        ensures false
      {
        GroupStartForced(text, p, i', j, k);
      }
      assert IsSearchResult(text, p, here);
    } else {
      assert IsLeftmostLongest(text, p, here.value);
    }
    SearchMatchesSpec(text, p, here);
  }

  /** Glucose, Testosterone and Estradiol: the value comes from the first
      occurrence of the name and nowhere else. It is the whole digit run
      that first follows that occurrence, whatever non-digits (line breaks
      included) lie in between; when no digit follows it, the lab is
      absent even if the name occurs again later. */
  lemma {:induction false} WholeNumberLabUsesFirstOccurrence(text: string, p: LabPattern, i: nat)
    requires p.shape.WholeNumber?
    requires OccursAt(text, p.name, i)
    requires forall i': nat :: i' < i ==> !OccursAt(text, p.name, i')
    ensures var j := FirstDigitFrom(text, i + |p.name|);
            && (j == |text| ==> Reading(text, p).None?)
            && (j < |text| ==> Reading(text, p) == Some(DigitRunValue(text, j) as real))
  {
    var j := FirstDigitFrom(text, i + |p.name|);
    WholeNumberSearchIsFirstOccurrence(text, p, i);
    if j < |text| {
      var e := DigitRunEnd(text, j);
      assert Search(text, p) == Some(Found(i, j, e));
      assert DigitsIn(text[j..e], 0, e - j);
    }
  }

  /** The first number written after the occurrence of the name at `i`,
      when that number has a decimal point: digits, '.', digits. */
  function PointedNumeralAfter(s: string, p: LabPattern, i: nat): (t: string)
    requires PointedNumberAfter(s, p, i)
    ensures IsNumeral(t)
  {
    var j := FirstDigitFrom(s, i + |p.name|);
    var d := DigitRunEnd(s, j);
    var e := DigitRunEnd(s, d + 1);
    PointedSlice(s, j, d, e);
    s[j..e]
  }

  /** A text that opens with a whole-number lab's name: the value is the
      first digit run after the name. */
  lemma {:induction false} WholeNumberAtStart(s: string, p: LabPattern, j: nat, e: nat)
    requires p.shape.WholeNumber?
    requires OccursAt(s, p.name, 0)
    requires NoDigitIn(s, |p.name|, j) && j < e && DigitsIn(s, j, e) && (e < |s| ==> !IsDigit(s[e]))
    ensures DigitsIn(s[j..e], 0, e - j) && Reading(s, p) == Some(NatValue(s[j..e]) as real)
  {
    FirstDigitFromUnique(s, |p.name|, j);
    DigitRunEndUnique(s, j, e);
    assert DigitRunValue(s, j) == NatValue(s[j..e]);
    WholeNumberLabUsesFirstOccurrence(s, p, 0);
  }

  /** For a whole-number lab, a number written with a decimal point loses
      its fractional part: the stored value is the largest integer not
      above the written number. */
  lemma {:induction false} WholeNumberLabTruncates(text: string, p: LabPattern, i: nat)
    requires p.shape.WholeNumber?
    requires OccursAt(text, p.name, i)
    requires forall i': nat :: i' < i ==> !OccursAt(text, p.name, i')
    requires PointedNumberAfter(text, p, i)
    ensures Reading(text, p).Some?
    ensures Reading(text, p).value == WholePart(PointedNumeralAfter(text, p, i)) as real
    ensures var v := Reading(text, p).value;
            v <= NumberValue(PointedNumeralAfter(text, p, i)) < v + 1.0
  {
    WholeNumberLabUsesFirstOccurrence(text, p, i);
    PointedNumeralWholePart(text, p, i);
  }

  lemma PointedNumeralWholePart(s: string, p: LabPattern, i: nat)
    requires PointedNumberAfter(s, p, i)
    ensures WholePart(PointedNumeralAfter(s, p, i)) == DigitRunValue(s, FirstDigitFrom(s, i + |p.name|))
  {
    var j := FirstDigitFrom(s, i + |p.name|);
    var d := DigitRunEnd(s, j);
    assert j < d && d + 1 < |s| && s[d] == '.' && IsDigit(s[d + 1]);
    var e := DigitRunEnd(s, d + 1);
    PointedSlice(s, j, d, e);
    assert PointedNumeralAfter(s, p, i) == s[j..e];
    assert DigitRunValue(s, j) == NatValue(s[j..d]);
  }

  /** At the occurrence of a name at `i`, the first digit run after it is
      followed by a decimal point and another digit. */
  ghost predicate PointedNumberAfter(s: string, p: LabPattern, i: nat) {
    && i + |p.name| <= |s|
    && var j := FirstDigitFrom(s, i + |p.name|);
       && j < |s|
       && var d := DigitRunEnd(s, j);
          d + 1 < |s| && s[d] == '.' && IsDigit(s[d + 1])
  }

  /** For a thyroid lab, the attempt at an occurrence of the name succeeds
      exactly when the first number after it has a point and a digit
      after the point. */
  lemma {:induction false} DecimalAttemptNeedsPointedNumber(text: string, p: LabPattern, i: nat)
    requires p.shape.Decimal?
    requires OccursAt(text, p.name, i)
    ensures MatchAt(text, p, i).Some? <==> PointedNumberAfter(text, p, i)
  {
  }

  /** TSH, Free T3 and Free T4: an occurrence of the name whose first number
      is not written as digits, a point and digits is skipped, and the
      value comes from the first occurrence whose first number is. Without
      such an occurrence the lab is absent. */
  lemma {:induction false} DecimalLabUsesFirstPointedOccurrence(text: string, p: LabPattern, i: nat)
    requires p.shape.Decimal?
    requires OccursAt(text, p.name, i) && PointedNumberAfter(text, p, i)
    requires forall i': nat :: i' < i && OccursAt(text, p.name, i') ==> !PointedNumberAfter(text, p, i')
    ensures Search(text, p) == MatchAt(text, p, i)
    ensures Reading(text, p) == Some(NumberValue(PointedNumeralAfter(text, p, i)))
  {
    DecimalAttemptNeedsPointedNumber(text, p, i);
    var here := MatchAt(text, p, i);
    MatchAtSpec(text, p, i);
    forall i': nat, j: nat, k: nat | IsMatch(text, p, i', j, k)
      ensures i <= i'
    {
      if i' < i {
        DecimalAttemptNeedsPointedNumber(text, p, i');
        MatchAtSpec(text, p, i');
      }
    }
    assert IsLeftmostLongest(text, p, here.value);
    SearchMatchesSpec(text, p, here);
    var j := FirstDigitFrom(text, i + |p.name|);
    var d := DigitRunEnd(text, j);
    var e := DigitRunEnd(text, d + 1);
    assert here == Some(Found(i, j, e));
    assert PointedNumeralAfter(text, p, i) == text[j..e];
  }

  /** When no occurrence of a thyroid lab's name is followed by a number
      with a point, the lab is absent: "TSH 3" gives no TSH at all. */
  lemma {:induction false} DecimalLabAbsentWithoutPointedNumber(text: string, p: LabPattern)
    requires p.shape.Decimal?
    requires forall i: nat :: OccursAt(text, p.name, i) ==> !PointedNumberAfter(text, p, i)
    ensures Reading(text, p).None?
  {
    forall i: nat, j: nat, k: nat | IsMatch(text, p, i, j, k)
      ensures false
    {
      DecimalAttemptNeedsPointedNumber(text, p, i);
      MatchAtSpec(text, p, i);
    }
  }
}
