/** The converter from match-level ATP tables (one row per match) to moments:
    one "Match Point" moment per match, with a derived round label, tags,
    templated commentary and summary, and an identifier built from the year,
    the players and the row number. */
module Sackmann {
  import opened Common
  import opened Strings
  import opened Frames

  /** The columns the converter guarantees before reading rows. */
  const ExpectedInputCols: seq<string> :=
    ["tourney_name", "surface", "tourney_date", "round", "winner_name", "loser_name", "score"]

  lemma ExpectedDistinct()
    ensures forall k | 0 <= k < |ExpectedInputCols| :: ExpectedInputCols[k] !in ExpectedInputCols[..k]
  {
  }

  /** A row of a normalised table: every expected column is there. */
  predicate HasExpected(row: Row) {
    && "tourney_name" in row && "surface" in row && "tourney_date" in row && "round" in row
    && "winner_name" in row && "loser_name" in row && "score" in row
  }

  /** HasExpected is the same as carrying every label of ExpectedInputCols. */
  lemma HasExpectedMeansAll(row: Row)
    ensures HasExpected(row) <==> forall c | c in ExpectedInputCols :: c in row
  {
  }

  // =====================================================================
  // Per-value helpers

  /** parse_year: a missing value gives None; otherwise the first four
      characters after leading whitespace, read as a number, when they are
      all digits (the pattern ^\s*(\d{4})), and None when they are not. */
  function ParseYear(c: Cell): (r: Option<nat>)
    ensures r.Some? ==> r.value <= 9999
    ensures IsNa(c) ==> r.None?
  {
    if IsNa(c) then None
    else
      var t := StripLeft(PyStr(c));
      if |t| >= 4 && AllDigits(t[..4]) then
        FourDigitsValue(t[..4]);
        Some(DigitsValue(t[..4]))
      else None
  }

  /** Any four digits written as text, leading zeros included, after any
      leading whitespace and before anything else (the YYYYMMDD dates of
      the tables), read back as their number. */
  lemma ParseYearRoundTrip(ws: string, d: string, rest: string)
    requires forall i | 0 <= i < |ws| :: IsSpace(ws[i])
    requires |d| == 4 && AllDigits(d)
    ensures ParseYear(Str(ws + d + rest)) == Some(DigitsValue(d))
  {
    assert !IsSpace(d[0]);
    assert ws + d + rest == ws + (d + rest);
    StripLeftSkips(ws, d + rest);
    assert (d + rest)[..4] == d;
  }

  /** A value whose text, after leading whitespace, does not start with four
      digits has no year. */
  lemma ParseYearNeedsFourDigits(t: string)
    requires |StripLeft(t)| < 4 || !AllDigits(StripLeft(t)[..4])
    ensures ParseYear(Str(t)) == None
  {
  }

  /** has_tiebreak: only a string can signal a tie-break; it does when its
      upper-cased form contains "7-6", "TB" or "(". */
  predicate HasTiebreak(c: Cell) {
    match c
    case Str(t) =>
      var u := Upper(t);
      Contains(u, "7-6") || Contains(u, "TB") || Contains(u, "(")
    case _ => false
  }

  /** The test ignores case, and a set score such as "7-6(5)" always counts. */
  lemma HasTiebreakProperties(t: string, p: string, q: string)
    ensures HasTiebreak(Str(Lower(t))) == HasTiebreak(Str(t))
    ensures HasTiebreak(Str(p + "7-6" + q))
    ensures !HasTiebreak(NaN) && !HasTiebreak(Null)
  {
    LowerUpper(t);
    var s := p + "7-6" + q;
    assert Upper(s)[|p|..|p| + 3] == "7-6";
    assert OccursAt(Upper(s), "7-6", |p|);
  }

  /** The round cell as the converter reads it: the stripped, upper-cased
      text, with a missing value read as "". */
  function RoundCode(c: Cell): string {
    Upper(Strip(if IsNa(c) then "" else PyStr(c)))
  }

  /** round_human: a short code through the table; "Q" and digits to
      "Qualifying <digits>"; any other non-empty code title-cased; "Unknown"
      for an empty or missing value. */
  function RoundHuman(c: Cell): (r: string)
    ensures r != ""
  {
    var code := RoundCode(c);
    if code in ShortRounds then ShortRounds[code]
    else if |code| >= 2 && code[0] == 'Q' && AllDigits(code[1..]) then "Qualifying " + code[1..]
    else if code != "" then Title(code)
    else "Unknown"
  }

  predicate IsFinal(name: string) {
    Lower(name) == "final"
  }

  /** The round label reads "final" exactly for the codes F and FINAL, in
      any case and with any surrounding whitespace. */
  lemma RoundHumanFinal(c: Cell)
    ensures IsFinal(RoundHuman(c)) <==> RoundCode(c) == "F" || RoundCode(c) == "FINAL"
  {
    var code := RoundCode(c);
    ShortRoundLabelsAreNotCodes();
    CaseIdempotent(Strip(if IsNa(c) then "" else PyStr(c)));
    assert Upper(code) == code;
    if code in ShortRounds {
    } else if |code| >= 2 && code[0] == 'Q' && AllDigits(code[1..]) {
      assert |Lower("Qualifying " + code[1..])| > 5;
    } else if code != "" {
      CaseIdempotent(code);
      if Lower(code) == "final" {
        LowerUpper(code);
        assert Upper(Lower(code)) == code;
        assert Upper("final") == "FINAL";
      }
    } else {
      assert Lower("Unknown") != "final";
    }
  }

  /** Known codes, in any case, as the tables write them. */
  lemma RoundHumanCodes()
    ensures RoundHuman(Str("SF")) == "Semi-final"
    ensures RoundHuman(Str("qf")) == "Quarter-final"
  {
    assert Strip("SF") == "SF";
    assert RoundCode(Str("SF")) == "SF";
    assert Strip("qf") == "qf";
    assert Upper("qf") == "QF";
    assert RoundCode(Str("qf")) == "QF";
  }

  /** A qualifying round keeps its number; a missing value is "Unknown". */
  lemma RoundHumanQualifying()
    ensures RoundHuman(Str("Q2")) == "Qualifying 2"
    ensures RoundHuman(NaN) == "Unknown"
  {
    assert Strip("Q2") == "Q2";
    assert Upper("Q2") == "Q2";
    assert RoundCode(Str("Q2")) == "Q2";
    assert "Q2" !in ShortRounds;
    assert "Q2"[1..] == "2" && AllDigits("2");
    assert RoundCode(NaN) == "";
  }

  /** championship_tag */
  function ChampionshipTag(roundName: string): (r: string)
    ensures r == "" || r == "championship point"
    ensures r != "" <==> IsFinal(roundName)
  {
    if IsFinal(roundName) then "championship point" else ""
  }

  /** safe_str: "" for a missing value, the value's text otherwise. */
  function SafeStr(c: Cell): (r: string)
    ensures IsNa(c) ==> r == ""
    ensures c.Str? ==> r == c.text
  {
    if IsNa(c) then "" else PyStr(c)
  }

  /** The year as an f-string writes it: "None" when there is none. */
  function YearText(y: Option<nat>): string {
    if y.Some? then NatToString(y.value) else "None"
  }

  lemma OrNonEmpty(c: Cell, alt: string)
    requires alt != ""
    ensures Or(c, alt) != ""
  {
  }

  // =====================================================================
  // Commentary and summary

  /** The values a sentence names, placeholders already filled in. */
  datatype SentenceFields = SentenceFields(tname: string, yr: string, w: string, l: string, score: string)

  /** The fields as build_commentary reads them: each empty or missing value
      is replaced by its placeholder, and the tournament falls back from
      tourney_name to tournament. */
  function CommentaryFields(row: Row): (f: SentenceFields)
    ensures !Truthy(RowGet(row, "winner_name")) ==> f.w == "Unknown Winner"
    ensures Truthy(RowGet(row, "winner_name")) ==> f.w == PyStr(RowGet(row, "winner_name"))
    ensures f.w != "" && f.l != "" && f.tname != ""
  {
    SentenceFields(
      tname := Or(RowGet(row, "tourney_name"), Or(RowGet(row, "tournament"), "Unknown Tournament")),
      yr := YearText(ParseYear(RowGet(row, "tourney_date"))),
      w := Or(RowGet(row, "winner_name"), "Unknown Winner"),
      l := Or(RowGet(row, "loser_name"), "Unknown Loser"),
      score := Or(RowGet(row, "score"), ""))
  }

  /** The rest of the final's sentence, after the winner's name. */
  function TitleTail(f: SentenceFields): (r: string)
    ensures StartsWith(r, " strikes the final winning point") && r[|r| - 1] == '.'
  {
    " strikes the final winning point" +
      (" to capture the " + f.tname + " " + f.yr + " title over " + f.l + ", closing it " + f.score + ".")
  }

  /** The rest of any other round's sentence, after the winner's name. */
  function MatchTail(f: SentenceFields): (r: string)
    ensures StartsWith(r, " converts match point against ") && r[|r| - 1] == '.'
  {
    " converts match point against " + (f.l + " at " + f.tname + " " + f.yr + ", final score " + f.score + ".")
  }

  /** The commentary sentence for the given fields. */
  function CommentaryText(f: SentenceFields, final: bool): string {
    f.w + (if final then TitleTail(f) else MatchTail(f))
  }

  /** build_commentary: the title sentence for a final, the match-point
      sentence otherwise. */
  function BuildCommentary(row: Row, roundName: string): string {
    CommentaryText(CommentaryFields(row), IsFinal(roundName))
  }

  /** The wording tells a final apart from any other round; the sentence
      opens with the winner's name and ends with a full stop. */
  lemma CommentaryTextProperties(f: SentenceFields, final: bool)
    ensures var r := CommentaryText(f, final);
      && StartsWith(r, f.w + " ")
      && (final <==> StartsWith(r, f.w + " strikes the final winning point"))
      && (!final <==> StartsWith(r, f.w + " converts match point against "))
      && EndsWith(r, ".")
  {
    TailWording(f.w, " strikes the final winning point", " converts match point against ",
                TitleTail(f), MatchTail(f), final);
  }

  /** Two sentences about the same name whose tails start differently can
      be told apart by their opening. */
  lemma TailWording(w: string, a: string, b: string, ta: string, tb: string, first: bool)
    requires |a| >= 2 && |b| >= 2 && a[0] == ' ' && b[0] == ' ' && a[1] != b[1]
    requires StartsWith(ta, a) && StartsWith(tb, b)
    requires ta[|ta| - 1] == '.' && tb[|tb| - 1] == '.'
    ensures var r := w + (if first then ta else tb);
      && StartsWith(r, w + " ")
      && (first <==> StartsWith(r, w + a))
      && (!first <==> StartsWith(r, w + b))
      && EndsWith(r, ".")
  {
    var tail := if first then ta else tb;
    StartsWithAppend(w, tail, a);
    StartsWithAppend(w, tail, b);
    StartsWithAppend(w, tail, " ");
    assert tail[0] == ' ';
    if first {
      assert tail[1] != b[1];
    } else {
      assert tail[1] != a[1];
    }
    assert (w + tail)[|w + tail| - 1] == '.';
  }

  /** The fields as build_summary reads them, with its own placeholders; the
      summary names no score. */
  function SummaryFields(row: Row): (f: SentenceFields)
    ensures !Truthy(RowGet(row, "winner_name")) ==> f.w == "Winner"
    ensures Truthy(RowGet(row, "winner_name")) ==> f.w == PyStr(RowGet(row, "winner_name"))
    ensures f.w != "" && f.l != "" && f.tname != ""
  {
    SentenceFields(
      tname := Or(RowGet(row, "tourney_name"), "Tournament"),
      yr := YearText(ParseYear(RowGet(row, "tourney_date"))),
      w := Or(RowGet(row, "winner_name"), "Winner"),
      l := Or(RowGet(row, "loser_name"), "Loser"),
      score := "")
  }

  function FinalSummaryTail(f: SentenceFields): (r: string)
    ensures StartsWith(r, " wins ") && r[|r| - 1] == '.'
  {
    " wins " + (f.tname + " " + f.yr + " Final vs " + f.l + ".")
  }

  function OtherSummaryTail(f: SentenceFields): (r: string)
    ensures StartsWith(r, " defeats ") && r[|r| - 1] == '.'
  {
    " defeats " + (f.l + " at " + f.tname + " " + f.yr + ".")
  }

  /** The summary sentence for the given fields. */
  function SummaryText(f: SentenceFields, final: bool): string {
    f.w + (if final then FinalSummaryTail(f) else OtherSummaryTail(f))
  }

  /** build_summary: "<w> wins <t> <y> Final vs <l>." for a final,
      "<w> defeats <l> at <t> <y>." otherwise. */
  function BuildSummary(row: Row, roundName: string): string {
    SummaryText(SummaryFields(row), IsFinal(roundName))
  }

  /** The summary uses the "wins ... Final" wording exactly for a final,
      "defeats" otherwise, and ends with a full stop. */
  lemma SummaryTextProperties(f: SentenceFields, final: bool)
    ensures var r := SummaryText(f, final);
      && StartsWith(r, f.w + " ")
      && (final <==> StartsWith(r, f.w + " wins "))
      && (!final <==> StartsWith(r, f.w + " defeats "))
      && EndsWith(r, ".")
  {
    TailWording(f.w, " wins ", " defeats ", FinalSummaryTail(f), OtherSummaryTail(f), final);
  }

  // =====================================================================
  // normalize_input_dataframe

  /** astype("string"): None becomes missing; other values keep their text. */
  function AsStringCell(c: Cell): Cell {
    if c.Null? then NaN else c
  }

  /** fillna("") */
  function FillCell(c: Cell): Cell {
    if c.NaN? then Str("") else c
  }

  /** The expected columns the table lacks, in the order they are added. */
  function MissingCols(expected: seq<string>, present: set<string>): seq<string>
    decreases |expected|
  {
    if expected == [] then []
    else
      var last := expected[|expected| - 1];
      MissingCols(expected[..|expected| - 1], present) + (if last in present then [] else [last])
  }

  lemma {:induction false} MissingColsMembers(expected: seq<string>, present: set<string>, x: string)
    ensures x in MissingCols(expected, present) <==> x in expected && x !in present
    decreases |expected|
  {
    if expected != [] {
      MissingColsMembers(expected[..|expected| - 1], present, x);
      assert expected == expected[..|expected| - 1] + [expected[|expected| - 1]];
    }
  }

  /** astype("string") on a whole column. */
  function ConvertColumn(col: seq<Cell>): (r: seq<Cell>)
    ensures |r| == |col|
  {
    seq(|col|, j requires 0 <= j < |col| => AsStringCell(col[j]))
  }

  /** fillna("") on a whole column. */
  function FillColumn(col: seq<Cell>): (r: seq<Cell>)
    ensures |r| == |col|
  {
    seq(|col|, j requires 0 <= j < |col| => FillCell(col[j]))
  }

  /** A column of missing values (pd.NA). */
  function NaNColumn(height: nat): (r: seq<Cell>)
    ensures |r| == height
  {
    seq(height, _ => NaN)
  }

  /** A column of empty strings. */
  function BlankColumn(height: nat): (r: seq<Cell>)
    ensures |r| == height
  {
    seq(height, _ => Str(""))
  }

  /** The column an expected label ends up with: its cells converted and
      filled, or a column of "" when the table lacked it. */
  function NormalizedColumn(old_col: Option<seq<Cell>>, height: nat): seq<Cell> {
    match old_col
    case Some(col) => FillColumn(ConvertColumn(col))
    case None => BlankColumn(height)
  }

  /** After normalisation a column has no missing value, and every present
      value keeps its text. */
  lemma NormalizedColumnProperties(col: seq<Cell>)
    ensures |NormalizedColumn(Some(col), 0)| == |col|
    ensures forall j | 0 <= j < |col| :: NormalizedColumn(Some(col), 0)[j].Str?
    ensures forall j | 0 <= j < |col| && col[j].Str? :: NormalizedColumn(Some(col), 0)[j] == col[j]
    ensures forall j | 0 <= j < |col| && IsNa(col[j]) :: NormalizedColumn(Some(col), 0)[j] == Str("")
  {
  }

  /** One cell sequence per column label, all of the same height. */
  ghost predicate Shape(columns: seq<string>, cells: map<string, seq<Cell>>, height: nat) {
    && cells.Keys == (set c | c in columns)
    && (forall c | c in cells :: |cells[c]| == height)
  }

  lemma ShapeAdd(columns: seq<string>, cells: map<string, seq<Cell>>, height: nat, col: string, v: seq<Cell>)
    requires Shape(columns, cells, height) && |v| == height
    ensures Shape(columns + [col], cells[col := v], height)
    ensures cells[col := v].Keys == cells.Keys + {col}
  {
    SetOfSnoc(columns, col);
  }

  lemma SetOfSnoc(s: seq<string>, x: string)
    ensures (set c | c in s + [x]) == (set c | c in s) + {x}
  {
  }

  /** The state after the first k iterations of the add-missing loop. */
  ghost predicate AddedState(columns0: seq<string>, cells0: map<string, seq<Cell>>,
                             columns: seq<string>, cells: map<string, seq<Cell>>, height: nat,
                             expected: seq<string>, k: nat)
  {
    && k <= |expected|
    && Shape(columns, cells, height)
    && columns == columns0 + MissingCols(expected[..k], cells0.Keys)
    && cells.Keys == cells0.Keys + (set c | c in expected[..k])
    && (forall c | c in cells0 :: cells[c] == cells0[c])
    && (forall c | c in cells && c !in cells0 :: cells[c] == NaNColumn(height))
  }

  lemma AddStep(columns0: seq<string>, cells0: map<string, seq<Cell>>,
                columns: seq<string>, cells: map<string, seq<Cell>>, height: nat,
                expected: seq<string>, k: nat)
    requires AddedState(columns0, cells0, columns, cells, height, expected, k) && k < |expected|
    requires expected[k] !in expected[..k]
    ensures var col := expected[k];
      if col in cells then AddedState(columns0, cells0, columns, cells, height, expected, k + 1)
      else AddedState(columns0, cells0, columns + [col], cells[col := NaNColumn(height)], height, expected, k + 1)
  {
    var col := expected[k];
    MissingColsSnoc(expected, k, cells0.Keys);
    SetOfSnoc(expected[..k], col);
    assert expected[..k + 1] == expected[..k] + [col];
    assert col in cells <==> col in cells0;
    if col !in cells {
      AddAbsent(columns0, cells0, columns, cells, height, expected, k);
    }
  }

  /** Extending the scanned prefix by one label extends the missing list by
      that label exactly when it is absent. */
  lemma MissingColsSnoc(expected: seq<string>, k: nat, present: set<string>)
    requires k < |expected|
    ensures MissingCols(expected[..k + 1], present) ==
            MissingCols(expected[..k], present) + (if expected[k] in present then [] else [expected[k]])
  {
    var e := expected[..k + 1];
    assert e[..|e| - 1] == expected[..k];
  }

  /** The iteration that adds an absent label. */
  lemma AddAbsent(columns0: seq<string>, cells0: map<string, seq<Cell>>,
                  columns: seq<string>, cells: map<string, seq<Cell>>, height: nat,
                  expected: seq<string>, k: nat)
    requires AddedState(columns0, cells0, columns, cells, height, expected, k) && k < |expected|
    requires expected[k] !in cells && expected[k] !in cells0
    requires MissingCols(expected[..k + 1], cells0.Keys) == MissingCols(expected[..k], cells0.Keys) + [expected[k]]
    ensures AddedState(columns0, cells0, columns + [expected[k]], cells[expected[k] := NaNColumn(height)], height, expected, k + 1)
  {
    var col := expected[k];
    var columns', cells' := columns + [col], cells[col := NaNColumn(height)];
    assert Shape(columns', cells', height) && cells'.Keys == cells.Keys + {col} by {
      ShapeAdd(columns, cells, height, col, NaNColumn(height));
    }
    assert columns' == columns0 + MissingCols(expected[..k + 1], cells0.Keys);
    var scanned := expected[..k + 1];
    assert cells'.Keys == cells0.Keys + (set c | c in scanned) by {
      assert scanned == expected[..k] + [col];
      AddedKeys(cells0.Keys, cells.Keys, expected[..k], col);
    }
    assert (forall c | c in cells0 :: cells'[c] == cells0[c])
        && (forall c | c in cells' && c !in cells0 :: cells'[c] == NaNColumn(height)) by {
      AddedValues(cells0, cells, height, col);
    }
  }

  /** The key set after adding one more scanned label. */
  lemma AddedKeys(keys0: set<string>, keys: set<string>, scanned: seq<string>, x: string)
    requires keys == keys0 + (set c | c in scanned)
    ensures keys + {x} == keys0 + (set c | c in scanned + [x])
  {
    SetOfSnoc(scanned, x);
  }

  /** Adding an absent label keeps the old labels' columns and gives the new
      one a column of missing values. */
  lemma AddedValues(cells0: map<string, seq<Cell>>, cells: map<string, seq<Cell>>, height: nat, col: string)
    requires col !in cells0
    requires forall c | c in cells0 :: c in cells && cells[c] == cells0[c]
    requires forall c | c in cells && c !in cells0 :: cells[c] == NaNColumn(height)
    ensures forall c | c in cells0 :: cells[col := NaNColumn(height)][c] == cells0[c]
    ensures forall c | c in cells[col := NaNColumn(height)] && c !in cells0 ::
              cells[col := NaNColumn(height)][c] == NaNColumn(height)
  {
  }

  /** fillna("") on the expected columns of a table. */
  function FillExpected(cells: map<string, seq<Cell>>, expected: seq<string>): map<string, seq<Cell>> {
    map c | c in cells :: if c in expected then FillColumn(cells[c]) else cells[c]
  }

  lemma FillExpectedShape(columns: seq<string>, cells: map<string, seq<Cell>>, height: nat, expected: seq<string>)
    requires Shape(columns, cells, height)
    ensures Shape(columns, FillExpected(cells, expected), height)
    ensures FillExpected(cells, expected).Keys == cells.Keys
  {
  }

  /** One expected label: converted and then filled, it is NormalizedColumn
      of what the table held before. */
  lemma NormalizeOne(cells0: map<string, seq<Cell>>, v1: seq<Cell>, v2: seq<Cell>, height: nat, c: string)
    requires c in cells0 ==> v1 == cells0[c]
    requires c !in cells0 ==> v1 == NaNColumn(height)
    requires v2 == ConvertColumn(v1)
    ensures FillColumn(v2) == NormalizedColumn(if c in cells0 then Some(cells0[c]) else None, height)
  {
    if c !in cells0 {
      assert forall j | 0 <= j < height :: FillColumn(v2)[j] == Str("");
    }
  }

  /** The three steps of the normalisation compose to NormalizedColumn on
      the expected labels and leave the other labels alone. */
  lemma NormalizeOutcome(columns0: seq<string>, cells0: map<string, seq<Cell>>,
                         columns: seq<string>, cells1: map<string, seq<Cell>>,
                         cells2: map<string, seq<Cell>>, height: nat, expected: seq<string>)
    requires AddedState(columns0, cells0, columns, cells1, height, expected, |expected|)
    requires Shape(columns, cells2, height) && cells2.Keys == cells1.Keys
    requires forall c | c in cells2 && c !in expected :: cells2[c] == cells1[c]
    requires forall c | c in expected :: cells2[c] == ConvertColumn(cells1[c])
    ensures Shape(columns, FillExpected(cells2, expected), height)
    ensures columns == columns0 + MissingCols(expected, cells0.Keys)
    ensures forall c | c in expected ::
              c in FillExpected(cells2, expected) &&
              FillExpected(cells2, expected)[c] == NormalizedColumn(if c in cells0 then Some(cells0[c]) else None, height)
    ensures forall c | c in cells0 && c !in expected ::
              c in FillExpected(cells2, expected) && FillExpected(cells2, expected)[c] == cells0[c]
  {
    assert expected[..|expected|] == expected;
    FillExpectedShape(columns, cells2, height, expected);
    var r := FillExpected(cells2, expected);
    forall c | c in expected
      ensures c in r && r[c] == NormalizedColumn(if c in cells0 then Some(cells0[c]) else None, height)
    {
      assert c in cells1;
      NormalizeOne(cells0, cells1[c], cells2[c], height, c);
    }
  }

  /** A table read from one CSV file: its column labels in order and one
      cell sequence per label, all of the same height. */
  class Frame {
    var columns: seq<string>
    var cells: map<string, seq<Cell>>
    var height: nat

    ghost predicate Valid()
      reads this
    {
      Shape(columns, cells, height)
    }

    constructor (columns: seq<string>, cells: map<string, seq<Cell>>, height: nat)
      requires cells.Keys == set c | c in columns
      requires forall c | c in cells :: |cells[c]| == height
      ensures Valid()
      ensures this.columns == columns && this.cells == cells && this.height == height
    {
      this.columns := columns;
      this.cells := cells;
      this.height := height;
    }

    /** Row i as a label-to-cell map. */
    function Row(i: nat): Row
      reads this
      requires Valid() && i < height
    {
      map c | c in cells :: cells[c][i]
    }

    /** normalize_input_dataframe: add each missing expected column filled
        with missing values, convert the expected columns to strings, then
        fill their missing values with "". Other columns are untouched. */
    method NormalizeInput()
      requires Valid()
      modifies this
      ensures Valid()
      ensures height == old(height)
      ensures columns == old(columns) + MissingCols(ExpectedInputCols, old(cells).Keys)
      ensures forall c | c in ExpectedInputCols ::
                c in cells && cells[c] == NormalizedColumn(if c in old(cells) then Some(old(cells)[c]) else None, height)
      ensures forall c | c in old(cells) && c !in ExpectedInputCols :: c in cells && cells[c] == old(cells)[c]
      ensures forall i | 0 <= i < height :: HasExpected(Row(i))
    {
      ExpectedDistinct();
      ghost var columns0, cells0 := columns, cells;
      AddMissingColumns(ExpectedInputCols);
      ghost var cells1 := cells;
      ConvertToString(ExpectedInputCols);
      // Fill missing values with "".
      NormalizeOutcome(columns0, cells0, columns, cells1, cells, height, ExpectedInputCols);
      cells := FillExpected(cells, ExpectedInputCols);
      RowsHaveExpected();
    }

    /** A table that carries every expected label gives rows that do, which
        is what the conversion loop asks of its rows. */
    lemma RowsHaveExpected()
      requires Valid()
      requires forall c | c in ExpectedInputCols :: c in cells
      ensures forall i | 0 <= i < height :: HasExpected(Row(i))
    {
      forall i | 0 <= i < height
        ensures HasExpected(Row(i))
      {
        HasExpectedMeansAll(Row(i));
      }
    }

    /** The first loop: every expected column the table lacks is added,
        filled with missing values, at the end of the column list. */
    method AddMissingColumns(expected: seq<string>)
      requires Valid()
      requires forall k | 0 <= k < |expected| :: expected[k] !in expected[..k]
      modifies this
      ensures Valid() && height == old(height)
      ensures AddedState(old(columns), old(cells), columns, cells, height, expected, |expected|)
    {
      for k := 0 to |expected|
        invariant height == old(height)
        invariant AddedState(old(columns), old(cells), columns, cells, height, expected, k)
      {
        var col := expected[k];
        AddStep(old(columns), old(cells), columns, cells, height, expected, k);
        if col !in cells {
          cells := cells[col := NaNColumn(height)];
          columns := columns + [col];
        }
      }
    }

    /** The second loop: astype("string") on each expected column. */
    method ConvertToString(expected: seq<string>)
      requires Valid()
      requires forall c | c in expected :: c in cells
      modifies this
      ensures Valid() && height == old(height) && columns == old(columns)
      ensures cells.Keys == old(cells).Keys
      ensures forall c | c in cells && c !in expected :: cells[c] == old(cells)[c]
      ensures forall c | c in expected :: cells[c] == ConvertColumn(old(cells)[c])
    {
      for k := 0 to |expected|
        invariant Valid() && height == old(height) && columns == old(columns)
        invariant cells.Keys == old(cells).Keys
        invariant forall c | c in cells && c !in expected[..k] :: cells[c] == old(cells)[c]
        invariant forall c | c in expected[..k] :: cells[c] == ConvertColumn(old(cells)[c])
      {
        var col := expected[k];
        assert expected[..k + 1] == expected[..k] + [col];
        if col !in expected[..k] {
          cells := cells[col := ConvertColumn(cells[col])];
        }
      }
      assert expected[..|expected|] == expected;
    }
  }

  // =====================================================================
  // Rows to moments

  /** The tag list of one match, in the order the converter appends them. */
  function SackmannTags(roundName: string, score: string): seq<string> {
    Opt(IsFinal(roundName), "championship point") +
    Opt(HasTiebreak(Str(score)), "tie-break") +
    Opt(Contains(Upper(score), "RET"), "retirement") +
    ["match point"]
  }

  const SackmannTagOrder: seq<string> := ["championship point", "tie-break", "retirement", "match point"]

  /** No tag appears twice in the vocabulary. */
  lemma SackmannTagOrderDistinct()
    ensures forall i, j | 0 <= i < |SackmannTagOrder| && 0 <= j < |SackmannTagOrder| && i != j :: SackmannTagOrder[i] != SackmannTagOrder[j]
  {
    DistinctByHead(SackmannTagOrder);
  }

  /** Each tag appears exactly under its condition, "match point" always and
      last, and the tags keep the fixed order. */
  lemma SackmannTagsProperties(roundName: string, score: string)
    ensures var tags := SackmannTags(roundName, score);
      && tags[|tags| - 1] == "match point"
      && ("championship point" in tags <==> IsFinal(roundName))
      && ("championship point" in tags <==> ChampionshipTag(roundName) != "")
      && ("tie-break" in tags <==> HasTiebreak(Str(score)))
      && ("retirement" in tags <==> Contains(Upper(score), "RET"))
      && IsSubsequence(tags, SackmannTagOrder)
  {
    var f := SackmannTagFlags(roundName, score);
    var o := SackmannTagOrder;
    var tags := SackmannTags(roundName, score);
    assert tags[|tags| - 1] == "match point";
    SackmannTagsFlagged(roundName, score);
    assert IsSubsequence(Flagged(f, o), o) by { FlaggedProperties(f, o); }
    SackmannTagOrderDistinct();
    FlaggedFourMembers(f, o, "championship point", "tie-break", "retirement", "match point");
  }

  /** The condition of each tag, in the order the loop appends them. */
  function SackmannTagFlags(roundName: string, score: string): seq<bool> {
    [IsFinal(roundName), HasTiebreak(Str(score)), Contains(Upper(score), "RET"), true]
  }

  /** The appends keep the tags whose condition holds, in the fixed order. */
  lemma SackmannTagsFlagged(roundName: string, score: string)
    ensures SackmannTags(roundName, score) == Flagged(SackmannTagFlags(roundName, score), SackmannTagOrder)
  {
    FlaggedFour(SackmannTagFlags(roundName, score), SackmannTagOrder);
  }

  /** The year part of an id: the year, or "NA". */
  function YearPart(y: Option<nat>): string {
    if y.Some? then NatToString(y.value) else "NA"
  }

  /** The parts of the id before the row number: "m", the year or "NA",
      and the two cleaned names. */
  function SackmannIdParts(row: Row): seq<string>
    requires HasExpected(row)
  {
    ["m", YearPart(ParseYear(row["tourney_date"])),
     Clean(SafeStr(row["winner_name"]), 10), Clean(SafeStr(row["loser_name"]), 10)]
  }

  /** One output row of the converter's loop; `i` is the row's position in
      the concatenated table. */
  function SackmannMoment(row: Row, i: nat, sport: string, event: string, urlPrefix: string): Moment
    requires HasExpected(row)
  {
    var tname := SafeStr(row["tourney_name"]);
    var yr := ParseYear(row["tourney_date"]);
    var surface := SafeStr(row["surface"]);
    var rnd := RoundHuman(row["round"]);
    var p1 := SafeStr(row["winner_name"]);
    var p2 := SafeStr(row["loser_name"]);
    var score := SafeStr(row["score"]);
    Moment(
      id := JoinId(SackmannIdParts(row), i),
      sport := sport,
      tournament := tname,
      year := if yr.Some? then NatToString(yr.value) else "",
      event := event,
      round := rnd,
      setNo := Str(""),
      gameNo := Str(""),
      point := Str("Match Point"),
      player1 := p1,
      player2 := p2,
      surface := surface,
      sourceUrl := urlPrefix,
      commentary := BuildCommentary(row, rnd),
      summary := BuildSummary(row, rnd),
      tags := Join(SackmannTags(rnd, score), ";"))
  }

  /** The year column is empty exactly when no year was parsed; the point is
      always "Match Point"; the id's name parts are alphanumeric, at most ten
      characters, and free of the "_" separator. */
  lemma SackmannMomentProperties(row: Row, i: nat, sport: string, event: string, urlPrefix: string)
    requires HasExpected(row)
    ensures var m := SackmannMoment(row, i, sport, event, urlPrefix);
      && (m.year == "" <==> ParseYear(row["tourney_date"]).None?)
      && m.point == Str("Match Point")
      && StartsWith(m.id, "m_")
  {
    var m := SackmannMoment(row, i, sport, event, urlPrefix);
    var yr := ParseYear(row["tourney_date"]);
    assert m.year == if yr.Some? then NatToString(yr.value) else "";
    var parts := SackmannIdParts(row);
    JoinIdHead(parts, i);
    assert m.id == JoinId(parts, i);
    IdPrefixes();
  }

  /** The converter's loop over the concatenated table: one moment per row,
      numbered by its position; the identifiers are pairwise distinct. */
  method ConvertSackmann(rows: seq<Row>, sport: string, event: string, urlPrefix: string)
    returns (out: seq<Moment>)
    requires forall i | 0 <= i < |rows| :: HasExpected(rows[i])
    ensures |out| == |rows|
    ensures forall i | 0 <= i < |rows| :: out[i] == SackmannMoment(rows[i], i, sport, event, urlPrefix)
    ensures forall i, j | 0 <= i < j < |out| :: out[i].id != out[j].id
  {
    ghost var want := seq(|rows|, k requires 0 <= k < |rows| => SackmannMoment(rows[k], k, sport, event, urlPrefix));
    out := [];
    for i := 0 to |rows|
      invariant out == want[..i]
    {
      var m := SackmannMoment(rows[i], i, sport, event, urlPrefix);
      assert m == want[i];
      PrefixSnoc(want, i);
      out := out + [m];
    }
    assert out == want;
    forall i, j | 0 <= i < j < |out|
      ensures out[i].id != out[j].id
    {
      JoinIdDistinct(SackmannIdParts(rows[i]), i, SackmannIdParts(rows[j]), j);
    }
  }
}
