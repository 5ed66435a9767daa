/**
 The lab patterns and Python's `re.search` over them.

 Each pattern reads `Name(?:[^\d]|\s)*(G)` where `G` is `\d+` for the
 whole-number labs and `\d+\.\d+` for the thyroid labs, compiled with
 `re.IGNORECASE`. Since `\s` is contained in `[^\d]`, the repeated group
 accepts exactly the non-digit characters (newlines included), so the
 pattern is `Name[^\d]*(G)`.

 IsMatch is the declarative side: which spans of the text the pattern
 matches and where its group lies. MatchAt and Search are the
 left-to-right scanner: the anchored attempt at one start index, and the
 search that tries the start indices in increasing order. The lemmas show
 the scanner returns exactly the leftmost match, and at that start the
 longest one, which is the match the backtracking engine reports: its
 group ends where the whole match ends, and `\d+` is greedy.
 */
module Pattern {
  import opened Wrappers
  import opened Text
  import opened Labs

  /** A successful search: where the match starts and where group 1 lies. */
  datatype Found = Found(start: nat, capStart: nat, capEnd: nat)

  /** The pattern `p` matches `s[i..k]` with group 1 equal to `s[j..k]`. */
  ghost predicate IsMatch(s: string, p: LabPattern, i: nat, j: nat, k: nat) {
    && OccursAt(s, p.name, i)
    && i + |p.name| <= j < k <= |s|
    && NoDigitIn(s, i + |p.name|, j)
    && match p.shape {
         case WholeNumber => DigitsIn(s, j, k)
         case Decimal =>
           exists d :: j < d && d + 1 < k && DigitsIn(s, j, d) && s[d] == '.' && DigitsIn(s, d + 1, k)
       }
  }

  /** `m` is the leftmost match and, among the matches at its start, the
      longest. */
  ghost predicate IsLeftmostLongest(s: string, p: LabPattern, m: Found) {
    && IsMatch(s, p, m.start, m.capStart, m.capEnd)
    && forall i: nat, j: nat, k: nat :: IsMatch(s, p, i, j, k) ==> m.start < i || (m.start == i && k <= m.capEnd)
  }

  /** What `re.search(pattern, s, re.IGNORECASE)` returns, declaratively. */
  ghost predicate IsSearchResult(s: string, p: LabPattern, r: Option<Found>) {
    match r
    case None => forall i: nat, j: nat, k: nat :: !IsMatch(s, p, i, j, k)
    case Some(m) => IsLeftmostLongest(s, p, m)
  }

  /** The non-digit stretch after the name ends at the first digit, so the
      group of any match at a given start begins at the same index. */
  lemma {:induction false} GroupStartForced(s: string, p: LabPattern, i: nat, j: nat, k: nat)
    requires IsMatch(s, p, i, j, k)
    ensures j == FirstDigitFrom(s, i + |p.name|)
  {
    assert IsDigit(s[j]) by {
      if p.shape.Decimal? {
        var d :| j < d && d + 1 < k && DigitsIn(s, j, d) && s[d] == '.' && DigitsIn(s, d + 1, k);
      }
    }
    FirstDigitFromUnique(s, i + |p.name|, j);
  }

  /** The anchored attempt of the pattern at start index `i`: the name,
      then every non-digit up to the first digit, then the greedy group.
      MatchAtSpec relates it to IsMatch; the contract is kept there so that
      the search's own proofs do not carry it for every start index. */
  function MatchAt(s: string, p: LabPattern, i: nat): (r: Option<Found>)
    ensures r.Some? ==> r.value.start == i
  {
    var name := p.name;
    if !OccursAt(s, name, i) then None
    else
      var j := FirstDigitFrom(s, i + |name|);
      if j == |s| then None
      else
        var d := DigitRunEnd(s, j);
        match p.shape
        case WholeNumber => Some(Found(i, j, d))
        case Decimal =>
          if d + 1 < |s| && s[d] == '.' && IsDigit(s[d + 1]) then
            Some(Found(i, j, DigitRunEnd(s, d + 1)))
          else None
  }

  /** The attempt at `i` fails exactly when no match starts at `i`, and
      otherwise yields the longest match starting there. */
  lemma {:induction false} MatchAtSpec(s: string, p: LabPattern, i: nat)
    ensures MatchAt(s, p, i).Some? ==>
              var m := MatchAt(s, p, i).value;
              IsMatch(s, p, i, m.capStart, m.capEnd)
              && forall j: nat, k: nat :: IsMatch(s, p, i, j, k) ==> k <= m.capEnd
    ensures MatchAt(s, p, i).None? ==> forall j: nat, k: nat :: !IsMatch(s, p, i, j, k)
  {
    var name := p.name;
    if OccursAt(s, name, i) {
      var j := FirstDigitFrom(s, i + |name|);
      if j == |s| {
        NoMatchWithoutDigit(s, p, i);
      } else {
        var d := DigitRunEnd(s, j);
        match p.shape
        case WholeNumber =>
          WholeNumberLongest(s, p, i, j, d);
        case Decimal =>
          if d + 1 < |s| && s[d] == '.' && IsDigit(s[d + 1]) {
            DecimalLongest(s, p, i, j, d, DigitRunEnd(s, d + 1));
          } else {
            DecimalNeedsPointAndDigit(s, p, i, j, d);
          }
      }
    }
  }

  lemma NoMatchWithoutDigit(s: string, p: LabPattern, i: nat)
    requires i + |p.name| <= |s|
    requires FirstDigitFrom(s, i + |p.name|) == |s|
    ensures forall j: nat, k: nat :: !IsMatch(s, p, i, j, k)
  {
    forall j: nat, k: nat | IsMatch(s, p, i, j, k)
      ensures false
    {
      GroupStartForced(s, p, i, j, k);
    }
  }

  lemma WholeNumberLongest(s: string, p: LabPattern, i: nat, j: nat, d: nat)
    requires p.shape.WholeNumber? && OccursAt(s, p.name, i)
    requires i + |p.name| <= |s| && j == FirstDigitFrom(s, i + |p.name|) && j < |s|
    requires d == DigitRunEnd(s, j)
    ensures IsMatch(s, p, i, j, d)
    ensures forall j': nat, k: nat :: IsMatch(s, p, i, j', k) ==> k <= d
  {
    forall j': nat, k: nat | IsMatch(s, p, i, j', k)
      ensures k <= d
    {
      GroupStartForced(s, p, i, j', k);
      assert d < |s| ==> !IsDigit(s[d]);
    }
  }

  lemma DecimalLongest(s: string, p: LabPattern, i: nat, j: nat, d: nat, e: nat)
    requires p.shape.Decimal? && OccursAt(s, p.name, i)
    requires i + |p.name| <= |s| && j == FirstDigitFrom(s, i + |p.name|) && j < |s|
    requires d == DigitRunEnd(s, j) && d + 1 < |s| && s[d] == '.' && IsDigit(s[d + 1])
    requires e == DigitRunEnd(s, d + 1)
    ensures IsMatch(s, p, i, j, e)
    ensures forall j': nat, k: nat :: IsMatch(s, p, i, j', k) ==> k <= e
  {
    forall j': nat, k: nat | IsMatch(s, p, i, j', k)
      ensures k <= e
    {
      GroupStartForced(s, p, i, j', k);
      var d' :| j < d' && d' + 1 < k && DigitsIn(s, j, d') && s[d'] == '.' && DigitsIn(s, d' + 1, k);
      DigitRunEndUnique(s, j, d');
      assert e < |s| ==> !IsDigit(s[e]);
    }
  }

  lemma DecimalNeedsPointAndDigit(s: string, p: LabPattern, i: nat, j: nat, d: nat)
    requires p.shape.Decimal?
    requires i + |p.name| <= |s| && j == FirstDigitFrom(s, i + |p.name|) && j < |s|
    requires d == DigitRunEnd(s, j)
    requires !(d + 1 < |s| && s[d] == '.' && IsDigit(s[d + 1]))
    ensures forall j': nat, k: nat :: !IsMatch(s, p, i, j', k)
  {
    forall j': nat, k: nat | IsMatch(s, p, i, j', k)
      ensures false
    {
      GroupStartForced(s, p, i, j', k);
    }
  }

  /** `re.search` from start index `i` on: try each start in turn and
      report the first attempt that succeeds. */
  function SearchFrom(s: string, p: LabPattern, i: nat): (r: Option<Found>)
    requires i <= |s|
    ensures r.Some? ==> i <= r.value.start <= |s| && r == MatchAt(s, p, r.value.start)
    decreases |s| - i
  {
    var m := MatchAt(s, p, i);
    if m.Some? then m
    else if i == |s| then None
    else SearchFrom(s, p, i + 1)
  }

  /** Every attempt the search passes over fails: an attempt at `i'`
      is skipped when the search from `i` finds nothing, or finds a match
      starting after `i'`. */
  lemma {:induction false} SearchFromSkips(s: string, p: LabPattern, i: nat, i': nat)
    requires i <= i' <= |s|
    requires SearchFrom(s, p, i).None? || i' < SearchFrom(s, p, i).value.start
    ensures MatchAt(s, p, i').None?
    decreases i' - i
  {
    if i < i' {
      SearchFromSkips(s, p, i + 1, i');
    }
  }

  /** `re.search(pattern, s, re.IGNORECASE)` for the pattern `p`:
      the leftmost match, and the longest at that start. */
  function Search(s: string, p: LabPattern): (r: Option<Found>)
    ensures IsSearchResult(s, p, r)
  {
    FirstAttemptIsLeftmostLongest(s, p);
    SearchFrom(s, p, 0)
  }

  lemma {:induction false} FirstAttemptIsLeftmostLongest(s: string, p: LabPattern)
    ensures IsSearchResult(s, p, SearchFrom(s, p, 0))
  {
    var r := SearchFrom(s, p, 0);
    match r
    case None =>
      forall i: nat, j: nat, k: nat | IsMatch(s, p, i, j, k)
        ensures false
      {
        SearchFromSkips(s, p, 0, i);
        MatchAtSpec(s, p, i);
      }
    case Some(m) =>
      MatchAtSpec(s, p, m.start);
      forall i: nat, j: nat, k: nat | IsMatch(s, p, i, j, k)
        ensures m.start < i || (m.start == i && k <= m.capEnd)
      {
        if i < m.start {
          SearchFromSkips(s, p, 0, i);
        }
        MatchAtSpec(s, p, i);
      }
  }

  /** The declarative description pins down one result, and the scanner
      returns it: a candidate meets the description exactly when it is
      what Search returns. */
  lemma {:induction false} SearchMatchesSpec(s: string, p: LabPattern, r: Option<Found>)
    ensures IsSearchResult(s, p, r) <==> r == Search(s, p)
  {
    var found := Search(s, p);
    if IsSearchResult(s, p, r) {
      match r
      case None =>
      case Some(m) =>
        assert found.Some?;
        var f := found.value;
        assert f.start == m.start && f.capEnd == m.capEnd;
        GroupStartForced(s, p, m.start, m.capStart, m.capEnd);
        GroupStartForced(s, p, f.start, f.capStart, f.capEnd);
    }
  }
}
