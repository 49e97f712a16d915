/** The query interpreter: structured filters (years and tournament stages)
    mined from the text of a query. */
module QueryFilters {
  import opened Strings

  /** The filters extracted from a query: years in order of occurrence and a
      sorted, duplicate-free list of stage tokens. */
  datatype FilterSet = FilterSet(years: seq<int>, stages: seq<string>)

  /** The synonym table: each row lists the phrases that name one stage. */
  const StageSynonyms: seq<(seq<string>, string)> := [
    (["championship", "title", "finals", "grand final", "final"], "final"),
    (["semi", "semifinal", "semi-final", "sf"], "semi"),
    (["quarter", "quarterfinal", "quarter-final", "qf"], "quarter")
  ]

  /** The closed stage vocabulary, in ascending string order. */
  const StageVocabulary: seq<string> := ["final", "quarter", "semi"]

  // ---------------------------------------------------------------------
  // Years: the pattern \b(19|20)\d{2}\b

  /** The year pattern matches the four characters starting at i: "19" or "20"
      and two more digits, with a word boundary on both sides. */
  predicate YearMatchAt(s: string, i: nat) {
    && i + 4 <= |s|
    && (i == 0 || !IsWordChar(s[i - 1]))
    && ((s[i] == '1' && s[i + 1] == '9') || (s[i] == '2' && s[i + 1] == '0'))
    && IsDigit(s[i + 2]) && IsDigit(s[i + 3])
    && (i + 4 == |s| || !IsWordChar(s[i + 4]))
  }

  /** int(m.group(0)) for the match at i. */
  function YearAt(s: string, i: nat): int
    requires YearMatchAt(s, i)
  {
    DigitsValue(s[i..i + 4])
  }

  /** finditer: try every start position from i on; after a match, resume
      where the match ended. */
  function ScanYears(s: string, i: nat): seq<int>
    decreases |s| - i
  {
    if i + 4 > |s| then []
    else if YearMatchAt(s, i) then [YearAt(s, i)] + ScanYears(s, i + 4)
    else ScanYears(s, i + 1)
  }

  /** The years of a (lower-cased) query, in order of occurrence. */
  function Years(s: string): seq<int> {
    ScanYears(s, 0)
  }

  /** Reference definition: the year at every position where the pattern
      matches, positions taken in increasing order. */
  function YearsFrom(s: string, i: nat): seq<int>
    decreases |s| - i
  {
    if i >= |s| then []
    else (if YearMatchAt(s, i) then [YearAt(s, i)] else []) + YearsFrom(s, i + 1)
  }

  /** Matches never overlap: the three positions inside a match sit between
      two digits, where there is no word boundary. */
  lemma NoMatchInside(s: string, i: nat, d: nat)
    requires YearMatchAt(s, i) && 1 <= d <= 3
    ensures !YearMatchAt(s, i + d)
  {
    assert IsWordChar(s[i + d - 1]);
  }

  lemma {:induction false} YearsFromNearEnd(s: string, i: nat)
    requires i + 4 > |s|
    ensures YearsFrom(s, i) == []
    decreases |s| - i
  {
    if i < |s| {
      YearsFromNearEnd(s, i + 1);
    }
  }

  /** Resuming after a match loses nothing: the scan agrees with the reference. */
  lemma {:induction false} ScanAgreesWithReference(s: string, i: nat)
    ensures ScanYears(s, i) == YearsFrom(s, i)
    decreases |s| - i
  {
    if i + 4 > |s| {
      YearsFromNearEnd(s, i);
    } else if YearMatchAt(s, i) {
      NoMatchInside(s, i, 1);
      NoMatchInside(s, i, 2);
      NoMatchInside(s, i, 3);
      ScanAgreesWithReference(s, i + 4);
      assert YearsFrom(s, i + 1) == YearsFrom(s, i + 2) == YearsFrom(s, i + 3) == YearsFrom(s, i + 4);
    } else {
      ScanAgreesWithReference(s, i + 1);
    }
  }

  lemma YearAtRange(s: string, i: nat)
    requires YearMatchAt(s, i)
    ensures 1900 <= YearAt(s, i) <= 2099
  {
    FourDigitsValue(s[i..i + 4]);
  }

  lemma {:induction false} YearsFromSound(s: string, i: nat, y: int)
    requires y in YearsFrom(s, i)
    ensures exists p: nat | i <= p < |s| :: YearMatchAt(s, p) && YearAt(s, p) == y
    decreases |s| - i
  {
    if i < |s| {
      if YearMatchAt(s, i) && YearAt(s, i) == y {
        assert YearMatchAt(s, i) && YearAt(s, i) == y;
      } else {
        YearsFromSound(s, i + 1, y);
        var p: nat :| i + 1 <= p < |s| && YearMatchAt(s, p) && YearAt(s, p) == y;
        assert i <= p < |s| && YearMatchAt(s, p) && YearAt(s, p) == y;
      }
    }
  }

  lemma {:induction false} YearsFromComplete(s: string, i: nat, p: nat)
    requires i <= p < |s| && YearMatchAt(s, p)
    ensures YearAt(s, p) in YearsFrom(s, i)
    decreases p - i
  {
    if i < p {
      YearsFromComplete(s, i + 1, p);
    }
  }

  /** A value is an extracted year exactly when the pattern matches as a whole
      word somewhere in the query and reads as that value. */
  lemma YearsMembership(s: string, y: int)
    ensures y in Years(s) <==> exists p: nat | p < |s| :: YearMatchAt(s, p) && YearAt(s, p) == y
  {
    ScanAgreesWithReference(s, 0);
    if y in Years(s) {
      YearsFromSound(s, 0, y);
    }
    if exists p: nat | p < |s| :: YearMatchAt(s, p) && YearAt(s, p) == y {
      var p: nat :| p < |s| && YearMatchAt(s, p) && YearAt(s, p) == y;
      YearsFromComplete(s, 0, p);
    }
  }

  /** Every extracted year lies in [1900, 2099]. */
  lemma YearsInRange(s: string)
    ensures forall y | y in Years(s) :: 1900 <= y <= 2099
  {
    forall y | y in Years(s)
      ensures 1900 <= y <= 2099
    {
      YearsMembership(s, y);
      var p: nat :| p < |s| && YearMatchAt(s, p) && YearAt(s, p) == y;
      YearAtRange(s, p);
    }
  }

  /** A query with no whole-word year yields no years. */
  lemma NoMatchNoYears(s: string)
    requires forall p: nat | p < |s| :: !YearMatchAt(s, p)
    ensures Years(s) == []
  {
    if Years(s) != [] {
      YearsMembership(s, Years(s)[0]);
    }
  }

  /** Four digits glued to letters are not a whole word. */
  lemma GluedYearIgnored()
    ensures Years("wimbledon2012") == []
  {
    var s := "wimbledon2012";
    forall p: nat | p < |s|
      ensures !YearMatchAt(s, p)
    {
      if p + 4 <= |s| && p > 0 {
        assert IsWordChar(s[p - 1]);
      }
    }
    NoMatchNoYears(s);
  }

  /** Four digits glued to a fifth digit are not a whole word either. */
  lemma FiveDigitsIgnored()
    ensures Years("12012") == []
  {
    var s := "12012";
    forall p: nat | p < |s|
      ensures !YearMatchAt(s, p)
    {
      if p == 1 {
        assert IsWordChar(s[0]);
      }
    }
    NoMatchNoYears(s);
  }

  /** Repeated years are kept, in order of occurrence. */
  lemma RepeatedYearsKept()
    ensures Years("2012 vs 2012") == [2012, 2012]
  {
    var s := "2012 vs 2012";
    assert YearMatchAt(s, 0);
    FourDigitsValue(s[0..4]);
    assert YearAt(s, 0) == 2012;
    assert !YearMatchAt(s, 4) && !YearMatchAt(s, 5) && !YearMatchAt(s, 6) && !YearMatchAt(s, 7);
    assert YearMatchAt(s, 8);
    FourDigitsValue(s[8..12]);
    assert YearAt(s, 8) == 2012;
    assert ScanYears(s, 12) == [];
    assert ScanYears(s, 8) == [2012];
    assert ScanYears(s, 4) == [2012];
  }

  // ---------------------------------------------------------------------
  // Stages

  /** any(v in ql for v in variants) */
  predicate AnyVariantIn(variants: seq<string>, ql: string) {
    exists v | v in variants :: Contains(ql, v)
  }

  /** Some phrase of some synonym row for `stage` occurs in the query. */
  predicate StageHit(ql: string, stage: string) {
    exists j | 0 <= j < |StageSynonyms| :: StageSynonyms[j].1 == stage && AnyVariantIn(StageSynonyms[j].0, ql)
  }

  /** sorted() of a set of stage tokens: the vocabulary is already in
      ascending order, so keeping its members that are in the set sorts them. */
  function SortedStages(st: set<string>): (r: seq<string>)
    requires st <= {"final", "quarter", "semi"}
    ensures forall x :: x in r <==> x in st
    ensures forall i, j | 0 <= i < j < |r| :: LexLess(r[i], r[j])
  {
    assert LexLess("final", "quarter") && LexLess("final", "semi") && LexLess("quarter", "semi");
    (if "final" in st then ["final"] else [])
      + (if "quarter" in st then ["quarter"] else [])
      + (if "semi" in st then ["semi"] else [])
  }

  /** The set of stages the synonym table finds in a query. */
  function StageSet(ql: string): (st: set<string>)
    ensures st <= {"final", "quarter", "semi"}
    ensures forall x :: x in st <==> StageHit(ql, x)
  {
    set j | 0 <= j < |StageSynonyms| && AnyVariantIn(StageSynonyms[j].0, ql) :: StageSynonyms[j].1
  }

  /** The stages of a (lower-cased) query: sorted, duplicate-free, drawn from
      the closed vocabulary, and present exactly when one of their phrases occurs. */
  function Stages(ql: string): (r: seq<string>)
    ensures forall x :: x in r <==> StageHit(ql, x)
    ensures forall i, j | 0 <= i < j < |r| :: LexLess(r[i], r[j])
    ensures forall i | 0 <= i < |r| :: r[i] in StageVocabulary
  {
    SortedStages(StageSet(ql))
  }

  /** "final" is itself a phrase of the final row, so "semifinal" names both
      the semi-final and the final stage. */
  lemma SemifinalAlsoFinal()
    ensures Stages("semifinal") == ["final", "semi"]
  {
    SemifinalHits();
    assert StageSet("semifinal") == {"final", "semi"};
  }

  /** Which stage rows "semifinal" hits: the final and the semi-final rows,
      not the quarter-final row. */
  lemma SemifinalHits()
    ensures StageHit("semifinal", "final") && StageHit("semifinal", "semi")
    ensures !StageHit("semifinal", "quarter")
  {
    assert OccursAt("semifinal", "final", 4);
    assert OccursAt("semifinal", "semi", 0);
    assert AnyVariantIn(StageSynonyms[0].0, "semifinal") by {
      assert "final" in StageSynonyms[0].0 && Contains("semifinal", "final");
    }
    assert AnyVariantIn(StageSynonyms[1].0, "semifinal") by {
      assert "semi" in StageSynonyms[1].0 && Contains("semifinal", "semi");
    }
    SemifinalNotQuarter();
  }

  /** The long names of the semi-final and the quarter-final all contain
      "final", which is itself a phrase of the final row: a query holding any
      of them yields the final stage next to its own. */
  lemma LongStageNamesAlsoFinal(ql: string, v: string)
    requires v == "semifinal" || v == "semi-final" || v == "quarterfinal" || v == "quarter-final"
    requires Contains(ql, v)
    ensures "final" in Stages(ql)
    ensures (v == "semifinal" || v == "semi-final") ==> "semi" in Stages(ql)
    ensures (v == "quarterfinal" || v == "quarter-final") ==> "quarter" in Stages(ql)
  {
    LongNameHasFinal(v);
    ContainsTransitive(ql, v, "final");
    VariantHit(ql, 0, 4, "final");
    if v == "semifinal" {
      VariantHit(ql, 1, 1, v);
    } else if v == "semi-final" {
      VariantHit(ql, 1, 2, v);
    } else if v == "quarterfinal" {
      VariantHit(ql, 2, 1, v);
    } else {
      VariantHit(ql, 2, 2, v);
    }
  }

  /** Each long semi-final or quarter-final name ends with "final". */
  lemma LongNameHasFinal(v: string)
    requires v == "semifinal" || v == "semi-final" || v == "quarterfinal" || v == "quarter-final"
    ensures Contains(v, "final")
  {
    assert OccursAt(v, "final", |v| - 5);
  }

  /** A query holding variant number i of synonym row j hits that row's stage. */
  lemma VariantHit(ql: string, j: nat, i: nat, v: string)
    requires j < |StageSynonyms| && i < |StageSynonyms[j].0| && StageSynonyms[j].0[i] == v
    requires Contains(ql, v)
    ensures StageHit(ql, StageSynonyms[j].1)
  {
    assert AnyVariantIn(StageSynonyms[j].0, ql);
  }

  /** No quarter-final phrase occurs in "semifinal", which has no 'q'. */
  lemma SemifinalNotQuarter()
    ensures forall v | v in StageSynonyms[2].0 :: !Contains("semifinal", v)
  {
    var s := "semifinal";
    assert forall i | 0 <= i < |s| :: s[i] != 'q' by {
      assert s == ['s', 'e', 'm', 'i', 'f', 'i', 'n', 'a', 'l'];
    }
    forall v | v in StageSynonyms[2].0
      ensures !Contains(s, v)
    {
      NotContainedAt(s, v);
    }
  }

  lemma NotContainedAt(s: string, v: string)
    requires v in ["quarter", "quarterfinal", "quarter-final", "qf"]
    requires forall i | 0 <= i < |s| :: s[i] != 'q'
    ensures !Contains(s, v)
  {
    forall i: nat | i <= |s|
      ensures !OccursAt(s, v, i)
    {
      if i + |v| <= |s| {
        assert s[i..i + |v|][0] == s[i] != v[0];
      }
    }
  }

  /** The query interpreter. `q` is the normalised query text. */
  method ExtractFilters(q: string) returns (f: FilterSet)
    ensures f.years == Years(Lower(q))
    ensures f.stages == Stages(Lower(q))
  {
    var ql := Lower(q);
    var years := Years(ql);
    var stages: set<string> := {};
    for i := 0 to |StageSynonyms|
      invariant stages == set j | 0 <= j < i && AnyVariantIn(StageSynonyms[j].0, ql) :: StageSynonyms[j].1
    {
      var (variants, normalized) := StageSynonyms[i];
      if exists v | v in variants :: Contains(ql, v) {
        stages := stages + {normalized};
      }
    }
    f := FilterSet(years, SortedStages(stages));
  }
}
