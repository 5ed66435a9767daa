/**
 The threshold rules that turn the extracted lab dictionary into advisory
 messages. Each rule reads its lab with `dict.get` and a default, compares
 strictly against a fixed limit, and the four rules are checked in a fixed
 order: Glucose, Testosterone, Estradiol, TSH.
 */
module Advice {
  import opened Labs

  datatype Advisory = ElevatedGlucose | LowTestosterone | LowEstradiol | HighTsh

  /** How the page shows an advisory: `st.info` or `st.warning`. */
  datatype Level = Info | Warning

  function Message(a: Advisory): string {
    match a
    case ElevatedGlucose => "Elevated Glucose: Recommend Tesamorelin and MOTs-C."
    case LowTestosterone => "Low Testosterone: Consider Testosterone Cypionate or cream."
    case LowEstradiol => "Low Estradiol: Evaluate hormone balancing."
    case HighTsh => "High TSH: Possible hypothyroidism."
  }

  function LevelOf(a: Advisory): Level {
    match a
    case ElevatedGlucose | LowEstradiol => Info
    case LowTestosterone | HighTsh => Warning
  }

  /** No two advisories share a message. */
  lemma MessagesDiffer(a: Advisory, b: Advisory)
    requires Message(a) == Message(b)
    ensures a == b
  {
  }

  /** Position of an advisory's rule among the four checks. */
  function Rank(a: Advisory): nat {
    match a
    case ElevatedGlucose => 0
    case LowTestosterone => 1
    case LowEstradiol => 2
    case HighTsh => 3
  }

  /** The advisories appear in the order their rules are checked, each at
      most once. */
  predicate InRuleOrder(r: seq<Advisory>) {
    forall x, y :: 0 <= x < y < |r| ==> Rank(r[x]) < Rank(r[y])
  }

  /** Python's `dict.get(key, default)`. */
  function Get(labs: map<string, real>, key: string, default: real): real {
    if key in labs then labs[key] else default
  }

  /** When a rule fires, said in terms of whether the lab was found at all:
      a missing Glucose, Testosterone or Estradiol never fires its rule,
      while a missing TSH always does (its default, 5, is above 4.5). */
  ghost predicate Triggered(labs: map<string, real>, a: Advisory) {
    match a
    case ElevatedGlucose => Name(Glucose) in labs && labs[Name(Glucose)] > 100.0
    case LowTestosterone => Name(Testosterone) in labs && labs[Name(Testosterone)] < 40.0
    case LowEstradiol => Name(Estradiol) in labs && labs[Name(Estradiol)] < 20.0
    case HighTsh => Name(TSH) !in labs || labs[Name(TSH)] > 4.5
  }

  /** The advisories the page shows for the lab dictionary `labs`: exactly
      the rules that fire, in rule order. */
  function Advisories(labs: map<string, real>): (r: seq<Advisory>)
    ensures InRuleOrder(r)
    ensures forall a :: a in r <==> Triggered(labs, a)
  {
    (if Get(labs, Name(Glucose), 0.0) > 100.0 then [ElevatedGlucose] else [])
    + (if Get(labs, Name(Testosterone), 100.0) < 40.0 then [LowTestosterone] else [])
    + (if Get(labs, Name(Estradiol), 100.0) < 20.0 then [LowEstradiol] else [])
    + (if Get(labs, Name(TSH), 5.0) > 4.5 then [HighTsh] else [])
  }

  /** Two rule-ordered lists with the same members are the same list. */
  lemma {:induction false} RuleOrderDeterminedByMembers(r1: seq<Advisory>, r2: seq<Advisory>)
    requires InRuleOrder(r1) && InRuleOrder(r2)
    requires forall a :: a in r1 <==> a in r2
    ensures r1 == r2
    decreases |r1|
  {
    assert |r1| > 0 ==> r1[0] in r2;
    assert |r2| > 0 ==> r2[0] in r1;
    if |r1| > 0 && |r2| > 0 {
      var x :| 0 <= x < |r2| && r2[x] == r1[0];
      var y :| 0 <= y < |r1| && r1[y] == r2[0];
      assert Rank(r2[0]) <= Rank(r2[x]) && Rank(r1[0]) <= Rank(r1[y]);
      forall a
        ensures a in r1[1..] <==> a in r2[1..]
      {
        if a in r1[1..] {
          var k :| 0 <= k < |r1| - 1 && r1[1..][k] == a;
          assert Rank(r1[0]) < Rank(r1[k + 1]);
          assert a in r2;
          var m :| 0 <= m < |r2| && r2[m] == a;
          assert m != 0 && r2[1..][m - 1] == a;
        }
        if a in r2[1..] {
          var k :| 0 <= k < |r2| - 1 && r2[1..][k] == a;
          assert Rank(r2[0]) < Rank(r2[k + 1]);
          assert a in r1;
          var m :| 0 <= m < |r1| && r1[m] == a;
          assert m != 0 && r1[1..][m - 1] == a;
        }
      }
      RuleOrderDeterminedByMembers(r1[1..], r2[1..]);
      assert r1 == [r1[0]] + r1[1..];
      assert r2 == [r2[0]] + r2[1..];
    }
  }

  /** The rules' output is characterised independently of how it is
      computed: it is the one rule-ordered list of the firing rules. */
  lemma {:induction false} AdvisoriesCharacterised(labs: map<string, real>, r: seq<Advisory>)
    ensures r == Advisories(labs) <==> InRuleOrder(r) && forall a :: a in r <==> Triggered(labs, a)
  {
    if InRuleOrder(r) && forall a :: a in r <==> Triggered(labs, a) {
      RuleOrderDeterminedByMembers(r, Advisories(labs));
    }
  }

  /** With nothing extracted the page still warns about TSH, and only
      about TSH. */
  lemma {:induction false} NoLabsOnlyHighTsh(labs: map<string, real>)
    requires labs == map[]
    ensures Advisories(labs) == [HighTsh]
  {
    AdvisoriesCharacterised(labs, [HighTsh]);
  }

  /** The comparisons are strict: values exactly at 100, 40, 20 and 4.5
      trigger nothing. */
  lemma {:induction false} LimitValuesTriggerNothing(labs: map<string, real>)
    requires labs == map[Name(Glucose) := 100.0, Name(Testosterone) := 40.0,
                         Name(Estradiol) := 20.0, Name(TSH) := 4.5]
    ensures Advisories(labs) == []
  {
    AdvisoriesCharacterised(labs, []);
  }

  /** Free T3 and Free T4 never influence the advisories: dictionaries
      that agree on the four rule labs give the same list. */
  lemma {:induction false} OnlyRuleLabsMatter(labs: map<string, real>, other: map<string, real>)
    requires forall lab :: lab !in {FreeT3, FreeT4} ==>
               (Name(lab) in labs <==> Name(lab) in other)
               && (Name(lab) in labs ==> labs[Name(lab)] == other[Name(lab)])
    ensures Advisories(labs) == Advisories(other)
  {
    assert Glucose !in {FreeT3, FreeT4} && Testosterone !in {FreeT3, FreeT4};
    assert Estradiol !in {FreeT3, FreeT4} && TSH !in {FreeT3, FreeT4};
    AdvisoriesCharacterised(other, Advisories(labs));
  }

  /** {Glucose: 110} warns about glucose and, because TSH is missing,
      about TSH; {Testosterone: 30} warns about testosterone and TSH. */
  lemma {:induction false} SingleLabExamples(g: map<string, real>, t: map<string, real>)
    requires g == map[Name(Glucose) := 110.0]
    requires t == map[Name(Testosterone) := 30.0]
    ensures Advisories(g) == [ElevatedGlucose, HighTsh]
    ensures Advisories(t) == [LowTestosterone, HighTsh]
  {
    PatternsCoverLabs();
    AdvisoriesCharacterised(g, [ElevatedGlucose, HighTsh]);
    AdvisoriesCharacterised(t, [LowTestosterone, HighTsh]);
  }
}
