/**
 `extract_labs_from_text`: run every lab pattern over the text, convert the
 group of each successful search with `float()`, and file it under the
 lab's name. A lab whose pattern does not match gets no key at all.
 */
module Extract {
  import opened Wrappers
  import opened Text
  import opened Labs
  import opened Pattern

  /** Every character of a match's group is a digit or the decimal point,
      and the group is a numeral. */
  lemma CaptureIsNumeral(s: string, p: LabPattern, i: nat, j: nat, k: nat)
    requires IsMatch(s, p, i, j, k)
    ensures IsNumeral(s[j..k])
    ensures forall x :: j <= x < k ==> IsDigit(s[x]) || s[x] == '.'
  {
    var t := s[j..k];
    match p.shape
    case WholeNumber =>
      assert DigitsIn(t, 0, |t|);
    case Decimal =>
      var d :| j < d && d + 1 < k && DigitsIn(s, j, d) && s[d] == '.' && DigitsIn(s, d + 1, k);
      assert DigitsIn(t, 0, d - j) && t[d - j] == '.' && DigitsIn(t, d - j + 1, |t|);
  }

  /** `v` is what `float(match.group(1))` gives for the match `re.search`
      reports, described without the scanner. */
  ghost predicate IsReadingOf(s: string, p: LabPattern, v: real) {
    exists m :: IsLeftmostLongest(s, p, m) && IsNumeral(s[m.capStart..m.capEnd])
                && v == NumberValue(s[m.capStart..m.capEnd])
  }

  /** The value one pattern contributes, if it matches anywhere. */
  function Reading(s: string, p: LabPattern): (r: Option<real>)
    ensures r.Some? <==> exists i: nat, j: nat, k: nat :: IsMatch(s, p, i, j, k)
    ensures r.Some? ==> IsReadingOf(s, p, r.value) && r.value >= 0.0
  {
    match Search(s, p)
    case None => None
    case Some(m) =>
      CaptureIsNumeral(s, p, m.start, m.capStart, m.capEnd);
      Some(NumberValue(s[m.capStart..m.capEnd]))
  }

  /** The results dictionary after the loop has handled the labs of
      `order`, in that order, when `read(lab)` is what the search for
      `lab` and the conversion of its group give. */
  function ExtractOver(read: Lab -> Option<real>, order: seq<Lab>): (labs: map<string, real>)
    ensures forall key :: key in labs ==> exists lab :: lab in order && Name(lab) == key
    ensures forall lab :: lab in order ==> (Name(lab) in labs <==> read(lab).Some?)
    ensures forall lab :: lab in order && Name(lab) in labs ==> labs[Name(lab)] == read(lab).value
  {
    if |order| == 0 then map[]
    else
      var earlier := ExtractOver(read, order[..|order| - 1]);
      var lab := order[|order| - 1];
      PatternsCoverLabs();
      assert forall l :: l in order ==> l in order[..|order| - 1] || l == lab;
      match read(lab)
      case None => earlier
      case Some(v) => earlier[Name(lab) := v]
  }

  /** `extract_labs_from_text(text)`. The keys are among the six lab
      names; a lab is present exactly when its pattern matches somewhere,
      and then holds the value of the match `re.search` reports. */
  function ExtractLabs(text: string): (labs: map<string, real>)
    ensures labs.Keys <= LabNames
    ensures forall lab :: Name(lab) in labs <==> exists i: nat, j: nat, k: nat :: IsMatch(text, PatternOf(lab), i, j, k)
    ensures forall lab :: Name(lab) in labs ==> IsReadingOf(text, PatternOf(lab), labs[Name(lab)])
  {
    PatternsCoverLabs();
    ExtractOver(lab => Reading(text, PatternOf(lab)), PatternOrder)
  }

  /** The dictionary is determined lab by lab: same keys, and each value
      is the lab's reading. */
  lemma {:induction false} ExtractLabsByLab(text: string, lab: Lab)
    ensures Name(lab) in ExtractLabs(text) <==> Reading(text, PatternOf(lab)).Some?
    ensures Name(lab) in ExtractLabs(text) ==> ExtractLabs(text)[Name(lab)] == Reading(text, PatternOf(lab)).value
  {
    PatternsCoverLabs();
  }

  /** Text in which no lab name occurs, in any letter case, yields the
      empty dictionary; in particular the empty text does. */
  lemma {:induction false} NoNameNoLabs(text: string)
    requires forall lab: Lab, i: nat :: !OccursAt(text, Name(lab), i)
    ensures ExtractLabs(text) == map[]
  {
    PatternsCoverLabs();
    assert ExtractLabs(text).Keys == {};
  }
}
