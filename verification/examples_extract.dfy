/**
 Worked instances of the extractor on short texts: letter case is ignored,
 a whole-number lab drops the fraction, and a thyroid lab skips an
 occurrence whose number has no decimal point.
 */
module ExtractExamples {
  import opened Wrappers
  import opened Text
  import opened Labs
  import opened Pattern
  import opened Extract
  import opened ExtractFacts

  /** "Glucose 110" files 110 under "Glucose". */
  lemma {:induction false} GlucoseReading(s: string)
    requires s == "Glucose 110"
    ensures "Glucose" in ExtractLabs(s) && ExtractLabs(s)["Glucose"] == 110.0
  {
    assert Name(Glucose) == "Glucose";
    assert OccursAt(s, Name(Glucose), 0);
    assert s[8..11] == "110";
    assert NatValue("110") == 110 by {
      assert "110"[..2] == "11" && "11"[..1] == "1" && "1"[..0] == "";
    }
    WholeNumberAtStart(s, PatternOf(Glucose), 8, 11);
    ExtractLabsByLab(s, Glucose);
  }

  /** "glucose 110" and "GLUCOSE 110" give the same as "Glucose 110". */
  lemma {:induction false} GlucoseInAnyCase(s: string)
    requires s == "glucose 110" || s == "GLUCOSE 110"
    ensures "Glucose" in ExtractLabs(s) && ExtractLabs(s)["Glucose"] == 110.0
  {
    var t := "Glucose 110";
    GlucoseReading(t);
    SpellingsAgree(t, s);
    ExtractIgnoresCase(t, s);
  }

  lemma SpellingsAgree(t: string, s: string)
    requires t == "Glucose 110"
    requires s == "glucose 110" || s == "GLUCOSE 110"
    ensures SameUpToCase(t, s)
  {
    forall x | 0 <= x < |t|
      ensures SameIgnoringCase(t[x], s[x])
    {
      assert x in {0, 1, 2, 3, 4, 5, 6, 7, 8, 9, 10};
    }
  }

  /** "Glucose 98.6" stores 98: the fraction is dropped. */
  lemma {:induction false} GlucoseFractionDropped(s: string)
    requires s == "Glucose 98.6"
    ensures "Glucose" in ExtractLabs(s) && ExtractLabs(s)["Glucose"] == 98.0
  {
    assert Name(Glucose) == "Glucose";
    assert OccursAt(s, Name(Glucose), 0);
    assert s[8..10] == "98";
    assert NatValue("98") == 98 by {
      assert "98"[..1] == "9" && "9"[..0] == "";
    }
    WholeNumberAtStart(s, PatternOf(Glucose), 8, 10);
    ExtractLabsByLab(s, Glucose);
  }

  /** "TSH 3" has no TSH key: the thyroid patterns need a decimal point. */
  lemma {:induction false} TshWithoutPointIsAbsent(s: string)
    requires s == "TSH 3"
    ensures "TSH" !in ExtractLabs(s)
  {
    assert forall x :: 0 <= x < |s| ==> s[x] != '.';
    DecimalLabAbsentWithoutPointedNumber(s, PatternOf(TSH));
    ExtractLabsByLab(s, TSH);
  }

  /** "TSH 3, TSH 4.5" stores 4.5: the first occurrence is skipped because
      its number has no point, and the second one supplies the value. */
  lemma {:induction false} TshSkipsUnpointedOccurrence(s: string)
    requires s == "TSH 3, TSH 4.5"
    ensures "TSH" in ExtractLabs(s) && ExtractLabs(s)["TSH"] == 4.5
  {
    var p := PatternOf(TSH);
    FirstTshUnpointed(s, p);
    SecondTshPointed(s, p);
    DecimalLabUsesFirstPointedOccurrence(s, p, 7);
    FourPointFive(PointedNumeralAfter(s, p, 7));
    ExtractLabsByLab(s, TSH);
  }

  lemma FirstTshUnpointed(s: string, p: LabPattern)
    requires s == "TSH 3, TSH 4.5" && p == PatternOf(TSH)
    ensures forall i': nat :: i' < 7 && OccursAt(s, p.name, i') ==> !PointedNumberAfter(s, p, i')
  {
    forall i': nat | i' < 7 && OccursAt(s, p.name, i')
      ensures !PointedNumberAfter(s, p, i')
    {
      assert p.name[0] == 'T';
      assert SameIgnoringCase(s[i' + 0], p.name[0]);
      assert i' == 0;
      FirstDigitFromUnique(s, 3, 4);
      DigitRunEndUnique(s, 4, 5);
    }
  }

  lemma SecondTshPointed(s: string, p: LabPattern)
    requires s == "TSH 3, TSH 4.5" && p == PatternOf(TSH)
    ensures OccursAt(s, p.name, 7) && PointedNumberAfter(s, p, 7)
    ensures PointedNumeralAfter(s, p, 7) == "4.5"
  {
    assert p.name == "TSH";
    assert OccursAt(s, p.name, 7);
    FirstDigitFromUnique(s, 10, 11);
    DigitRunEndUnique(s, 11, 12);
    DigitRunEndUnique(s, 13, 14);
  }

  lemma FourPointFive(t: string)
    requires t == "4.5"
    ensures IsNumeral(t) && NumberValue(t) == 4.5
  {
    assert DigitsIn(t, 0, 1) && t[1] == '.' && DigitsIn(t, 2, 3);
    DigitRunEndUnique(t, 0, 1);
    assert t[..1] == "4" && t[2..] == "5";
  }
}
