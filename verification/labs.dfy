/**
 The six laboratory markers the extractor knows, the key each one is filed
 under in the result dictionary, and the shape of number its pattern
 captures.
 */
module Labs {

  datatype Lab = Glucose | Testosterone | Estradiol | TSH | FreeT3 | FreeT4

  /** What the capture group of a lab's pattern accepts: `\d+` or `\d+\.\d+`. */
  datatype Shape = WholeNumber | Decimal

  /** The dictionary key, which is also the literal that starts the pattern. */
  function Name(lab: Lab): string {
    match lab
    case Glucose => "Glucose"
    case Testosterone => "Testosterone"
    case Estradiol => "Estradiol"
    case TSH => "TSH"
    case FreeT3 => "Free T3"
    case FreeT4 => "Free T4"
  }

  function ShapeOf(lab: Lab): Shape {
    match lab
    case Glucose | Testosterone | Estradiol => WholeNumber
    case TSH | FreeT3 | FreeT4 => Decimal
  }

  /** A compiled pattern `name(?:[^\d]|\s)*(G)`, with `G` given by `shape`. */
  datatype LabPattern = LabPattern(name: string, shape: Shape)

  /** The entry of the patterns dictionary for `lab`. */
  function PatternOf(lab: Lab): LabPattern {
    LabPattern(Name(lab), ShapeOf(lab))
  }

  /** The order in which the patterns dictionary is iterated. */
  const PatternOrder: seq<Lab> := [Glucose, Testosterone, Estradiol, TSH, FreeT3, FreeT4]

  /** The only keys the result dictionary can ever hold. */
  const LabNames: set<string> := {"Glucose", "Testosterone", "Estradiol", "TSH", "Free T3", "Free T4"}

  /** Every lab is tried exactly once, and the names are the six keys; two
      different labs never share a key. */
  lemma {:induction false} PatternsCoverLabs()
    ensures forall lab :: lab in PatternOrder
    ensures forall lab :: Name(lab) in LabNames
    ensures forall key :: key in LabNames ==> exists lab :: Name(lab) == key
    ensures forall a, b :: Name(a) == Name(b) ==> a == b
  {
    forall lab: Lab
      ensures lab in PatternOrder
    {
      match lab
      case Glucose => assert PatternOrder[0] == lab;
      case Testosterone => assert PatternOrder[1] == lab;
      case Estradiol => assert PatternOrder[2] == lab;
      case TSH => assert PatternOrder[3] == lab;
      case FreeT3 => assert PatternOrder[4] == lab;
      case FreeT4 => assert PatternOrder[5] == lab;
    }
    forall key | key in LabNames
      ensures exists lab :: Name(lab) == key
    {
      if key == "Glucose" { assert Name(Glucose) == key; }
      else if key == "Testosterone" { assert Name(Testosterone) == key; }
      else if key == "Estradiol" { assert Name(Estradiol) == key; }
      else if key == "TSH" { assert Name(TSH) == key; }
      else if key == "Free T3" { assert Name(FreeT3) == key; }
      else { assert Name(FreeT4) == key; }
    }
    forall a, b | Name(a) == Name(b)
      ensures a == b
    {
      if a != b {
        NamesDiffer(a, b);
      }
    }
  }

  lemma {:induction false} NamesDiffer(a: Lab, b: Lab)
    requires a != b
    ensures Name(a) != Name(b)
  {
    var x, y := Name(a), Name(b);
    if |x| == |y| {
      // Equal lengths: Free T3 and Free T4 differ in their last letter,
      // every other pair in its first.
      if {a, b} == {FreeT3, FreeT4} {
        assert x[6] != y[6];
      } else {
        assert x[0] != y[0];
      }
    }
  }
}
