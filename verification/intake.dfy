/**
 What the logged-in page computes from an upload: the lab dictionary, the
 advisories the threshold rules raise for it, and the fixed list of care
 plan recommendations that the exported PDF carries. Before any file is
 uploaded the dictionary is empty and the rules still run on it.
 */
module Intake {
  import opened Wrappers
  import opened Text
  import opened Labs
  import opened Extract
  import opened Advice

  /** The five recommendations written into every exported care plan; the
      page itself shows only their heading. */
  const Recommendations: seq<string> := [
    "Tesamorelin (3mg/ml): Reduces abdominal fat. 20 units SQ daily x6 days/week.",
    "Fat Burner Plus Blend: AOD-9604 / MOTs-C / Tesamorelin / Ipamorelin \U{2014} 20 units SQ daily M-F.",
    "CJC-1295 / Ipamorelin: Promotes recovery and sleep. Inject 5 nights/week.",
    "GHK-Cu / Epithalon: Regeneration and anti-aging. Inject 20 units SQ M-F.",
    "Testosterone therapy pending lab validation."
  ]

  datatype CarePlan = CarePlan(labs: map<string, real>, advisories: seq<Advisory>, recommendations: seq<string>)

  /** The care plan for an optional upload, given as the text already pulled
      out of the PDF's pages. The recommendations never depend on the labs;
      the labs are what the extractor finds in the text, and the advisories
      are exactly the rules that fire on them. */
  function PlanFor(upload: Option<string>): (p: CarePlan)
    ensures p.recommendations == Recommendations && |p.recommendations| == 5
    ensures p.labs.Keys <= LabNames
    ensures upload.Some? ==> p.labs == ExtractLabs(upload.value)
    ensures upload.None? ==> p.labs == map[] && p.advisories == [HighTsh]
    ensures InRuleOrder(p.advisories) && forall a :: a in p.advisories <==> Triggered(p.labs, a)
  {
    var labs := match upload
      case None => map[]
      case Some(text) => ExtractLabs(text);
    NoLabsOnlyHighTsh(map[]);
    CarePlan(labs, Advisories(labs), Recommendations)
  }

  /** A document in which no lab name appears (a PDF that opens but has no
      text layer, such as a scan, yields empty text) gives no labs and the
      lone TSH warning. */
  lemma {:induction false} NoNamesOnlyHighTsh(text: string)
    requires forall lab: Lab, i: nat :: !OccursAt(text, Name(lab), i)
    ensures PlanFor(Some(text)).labs == map[]
    ensures PlanFor(Some(text)).advisories == [HighTsh]
  {
    NoNameNoLabs(text);
    NoLabsOnlyHighTsh(ExtractLabs(text));
  }

  /** What the page displays for the advisories: one `st.info` or
      `st.warning` call each, with its message, in order. */
  function Notices(advisories: seq<Advisory>): seq<(Level, string)> {
    if |advisories| == 0 then []
    else Notices(advisories[..|advisories| - 1])
         + [(LevelOf(advisories[|advisories| - 1]), Message(advisories[|advisories| - 1]))]
  }

  /** Before any upload the page shows exactly one advisory notice: the TSH
      warning. */
  lemma {:induction false} NoUploadOnlyTshWarning()
    ensures Notices(PlanFor(None).advisories) == [(Warning, "High TSH: Possible hypothyroidism.")]
  {
    assert Notices([HighTsh]) == Notices([]) + [(Warning, Message(HighTsh))];
  }

  /** Each notice's text names its advisory, so the page's notices
      determine the advisories, and with them which rules fired. */
  lemma {:induction false} NoticesDetermineAdvisories(a: seq<Advisory>, b: seq<Advisory>)
    requires Notices(a) == Notices(b)
    ensures a == b
    decreases |a|
  {
    NoticeLength(a);
    NoticeLength(b);
    if |a| > 0 {
      var a', b' := a[..|a| - 1], b[..|b| - 1];
      assert Notices(a) == Notices(a') + [(LevelOf(a[|a| - 1]), Message(a[|a| - 1]))];
      assert Notices(b) == Notices(b') + [(LevelOf(b[|b| - 1]), Message(b[|b| - 1]))];
      NoticeLength(a');
      NoticeLength(b');
      assert Notices(a') == Notices(a)[..|a| - 1] == Notices(b');
      MessagesDiffer(a[|a| - 1], b[|b| - 1]);
      NoticesDetermineAdvisories(a', b');
      assert a == a' + [a[|a| - 1]] && b == b' + [b[|b| - 1]];
    }
  }

  lemma {:induction false} NoticeLength(a: seq<Advisory>)
    ensures |Notices(a)| == |a|
    decreases |a|
  {
    if |a| > 0 {
      NoticeLength(a[..|a| - 1]);
    }
  }
}
