/** The converter from Kaggle ATP/WTA match tables (one row per match) to
    moments: one "Match Point" moment per match, with a round label, a year
    cut from the date, sentences that name the winner and the opponent, and
    an identifier built from the year, the tournament, the players and the
    row number. */
module Kaggle {
  import opened Common
  import opened Strings
  import opened Frames
  import Sackmann

  // =====================================================================
  // Per-value helpers

  /** normalize_round: only None gives ""; anything else is rendered as text,
      stripped and sent through the short-code table, unknown values coming
      back stripped. A missing value therefore becomes "nan". */
  function KaggleRound(c: Cell): string {
    if c.Null? then ""
    else
      var s := Strip(PyStr(c));
      if s in ShortRounds then ShortRounds[s] else s
  }

  /** On text this is the point-level converters' normalize_round; None maps
      to "" and a missing value to "nan". */
  lemma KaggleRoundProperties(c: Cell)
    ensures c.Str? ==> KaggleRound(c) == NormalizeRound(c.text)
    ensures c.Null? ==> KaggleRound(c) == ""
    ensures c.NaN? ==> KaggleRound(c) == "nan"
    ensures Lower(KaggleRound(c)) == "final" <==>
              !c.Null? && (Strip(PyStr(c)) == "F" || Lower(Strip(PyStr(c))) == "final")
  {
    NormalizeRoundProperties(PyStr(c));
    if c.NaN? {
      assert StripLeft("nan") == "nan";
      assert Strip("nan") == "nan";
      assert "nan" !in ShortRounds;
    }
    if c == Str("") {
      assert Strip("") == "";
    }
  }

  /** parse_year: "" for a missing value; otherwise the first four characters
      of the text when they are all digits, and "" when they are not (no
      whitespace is skipped). */
  function KaggleYear(c: Cell): (r: string)
    ensures r == "" || (|r| == 4 && AllDigits(r) && StartsWith(PyStr(c), r))
  {
    if IsNa(c) then ""
    else
      var s := PyStr(c);
      if |s| >= 4 && AllDigits(s[..4]) then s[..4] else ""
  }

  /** A text that opens with four digits, leading zeros included, gives
      those digits back, the way the YYYY and YYYYMMDD dates of the tables
      are read. */
  lemma KaggleYearRoundTrip(d: string, rest: string)
    requires |d| == 4 && AllDigits(d)
    ensures KaggleYear(Str(d + rest)) == d
  {
    assert (d + rest)[..4] == d;
  }

  /** Wherever this converter finds a year, the match-level ATP converter
      reads the same number from the same cell. */
  lemma KaggleYearAgreesWithSackmann(c: Cell)
    requires KaggleYear(c) != ""
    ensures Sackmann.ParseYear(c) == Some(DigitsValue(KaggleYear(c)))
  {
    var s := PyStr(c);
    assert !IsSpace(s[0]);
    assert StripLeft(s) == s;
  }

  /** The final branch is taken for a non-empty round that reads "final". */
  predicate IsFinalRound(rnd: string) {
    rnd != "" && Lower(rnd) == "final"
  }

  /** The rest of the final's commentary, after the winner's name. */
  function FinalCommentaryTail(tname: string, year: string, o: string, closing: string): (r: string)
    ensures StartsWith(r, " secures the final point") && r[|r| - 1] == '.'
  {
    " secures the final point" + (" to win " + tname + " " + year + " against " + o + ", closing " + closing + ".")
  }

  /** The rest of any other round's commentary, after the winner's name. */
  function OtherCommentaryTail(o: string, place: string, year: string, score: string): (r: string)
    ensures StartsWith(r, " converts match point against ") && r[|r| - 1] == '.'
  {
    " converts match point against " + (o + " at " + place + " " + year + ", final score " + score + ".")
  }

  /** The commentary sentence; empty fields are replaced by placeholders in
      the text only. */
  function KaggleCommentary(rnd: string, tname: string, year: string, p1: string, p2: string, score: string): string {
    var o := OrStr(p2, "opponent");
    OrStr(p1, "Winner") +
      (if IsFinalRound(rnd) then FinalCommentaryTail(tname, year, o, OrStr(score, "the match"))
       else OtherCommentaryTail(o, OrStr(tname, "tournament"), year, score))
  }

  /** The summary sentence: the ATP converter's summary template, with the
      tournament placeholder used outside a final only. */
  function KaggleSummary(rnd: string, tname: string, year: string, p1: string, p2: string): string {
    var t := if IsFinalRound(rnd) then tname else OrStr(tname, "tournament");
    Sackmann.SummaryText(Sackmann.SentenceFields(t, year, OrStr(p1, "Winner"), OrStr(p2, "opponent"), ""), IsFinalRound(rnd))
  }

  /** The tag string. */
  function KaggleTags(rnd: string): string {
    if IsFinalRound(rnd) then "championship point;match point" else "match point"
  }

  /** Both sentences open with the winner's name, or "Winner" when it is
      empty, and end with a full stop; their wording tells a final apart
      from any other round. */
  lemma KaggleSentenceProperties(rnd: string, tname: string, year: string, p1: string, p2: string, score: string)
    ensures var w, c := OrStr(p1, "Winner"), KaggleCommentary(rnd, tname, year, p1, p2, score);
      && StartsWith(c, w + " ") && EndsWith(c, ".")
      && (IsFinalRound(rnd) <==> StartsWith(c, w + " secures the final point"))
      && (!IsFinalRound(rnd) <==> StartsWith(c, w + " converts match point against "))
    ensures var w, s := OrStr(p1, "Winner"), KaggleSummary(rnd, tname, year, p1, p2);
      && StartsWith(s, w + " ") && EndsWith(s, ".")
      && (IsFinalRound(rnd) <==> StartsWith(s, w + " wins "))
      && (!IsFinalRound(rnd) <==> StartsWith(s, w + " defeats "))
  {
    var w, o := OrStr(p1, "Winner"), OrStr(p2, "opponent");
    Sackmann.TailWording(w, " secures the final point", " converts match point against ",
      FinalCommentaryTail(tname, year, o, OrStr(score, "the match")),
      OtherCommentaryTail(o, OrStr(tname, "tournament"), year, score), IsFinalRound(rnd));
    var t := if IsFinalRound(rnd) then tname else OrStr(tname, "tournament");
    Sackmann.SummaryTextProperties(Sackmann.SentenceFields(t, year, w, o, ""), IsFinalRound(rnd));
  }

  /** The tags always end with "match point" and open with "championship
      point" exactly in a final. */
  lemma KaggleTagsProperties(rnd: string)
    ensures EndsWith(KaggleTags(rnd), "match point")
    ensures StartsWith(KaggleTags(rnd), "championship point") <==> IsFinalRound(rnd)
  {
    assert "championship point;match point" == "championship point" + ";" + "match point";
    assert "match point"[0] != "championship point"[0];
  }

  // =====================================================================
  // Rows to moments

  /** The columns pick settles on for one table. */
  datatype KaggleColumns = KaggleColumns(
    tourney: Option<string>, surface: Option<string>, date: Option<string>, round: Option<string>,
    winner: Option<string>, loser: Option<string>, score: Option<string>)

  /** Column detection: each field's candidate names in priority order. */
  function KagglePicks(columns: seq<string>): KaggleColumns {
    KaggleColumns(
      tourney := Pick(columns, ["tourney_name", "tournament", "tourney", "event_name"]),
      surface := Pick(columns, ["surface"]),
      date := Pick(columns, ["tourney_date", "date", "match_date", "start_date"]),
      round := Pick(columns, ["round"]),
      winner := Pick(columns, ["winner_name", "winner", "player1", "p1"]),
      loser := Pick(columns, ["loser_name", "loser", "player2", "p2"]),
      score := Pick(columns, ["score", "final_score", "match_score"]))
  }

  /** The identifier parts before the row number. */
  function KaggleIdParts(p: KaggleColumns, row: Row): seq<string> {
    ["kgl", Clean(KaggleYear(GetOr(row, p.date, "")), 12), Clean(FieldText(row, p.tourney), 12),
     Clean(FieldText(row, p.winner), 12), Clean(FieldText(row, p.loser), 12)]
  }

  /** One output row of the converter's loop for row number i. */
  function KaggleMoment(p: KaggleColumns, row: Row, i: nat, sport: string, event: string, urlPrefix: string): Moment {
    var tname := FieldText(row, p.tourney);
    var year := KaggleYear(GetOr(row, p.date, ""));
    var rnd := KaggleRound(GetOr(row, p.round, ""));
    var p1 := FieldText(row, p.winner);
    var p2 := FieldText(row, p.loser);
    var score := FieldText(row, p.score);
    Moment(
      id := JoinId(KaggleIdParts(p, row), i),
      sport := sport,
      tournament := tname,
      year := year,
      event := event,
      round := rnd,
      setNo := Str(""),
      gameNo := Str(""),
      point := Str("Match Point"),
      player1 := p1,
      player2 := p2,
      surface := FieldText(row, p.surface),
      sourceUrl := urlPrefix,
      commentary := KaggleCommentary(rnd, tname, year, p1, p2, score),
      summary := KaggleSummary(rnd, tname, year, p1, p2),
      tags := KaggleTags(rnd))
  }

  /** The player columns keep the names as read, empty or not; the year
      column is "" or four digits; the id opens with "kgl_". */
  lemma KaggleMomentProperties(p: KaggleColumns, row: Row, i: nat, sport: string, event: string, urlPrefix: string)
    ensures var m := KaggleMoment(p, row, i, sport, event, urlPrefix);
      && m.player1 == FieldText(row, p.winner) && m.player2 == FieldText(row, p.loser)
      && (m.year == "" || (|m.year| == 4 && AllDigits(m.year)))
      && StartsWith(m.id, "kgl_")
  {
    JoinIdHead(KaggleIdParts(p, row), i);
    IdPrefixes();
  }

  /** The loop over one table: one moment per row, numbered by position;
      the identifiers are pairwise distinct. */
  method ConvertKaggleTable(columns: seq<string>, rows: seq<Row>, sport: string, event: string, urlPrefix: string)
    returns (out: seq<Moment>)
    ensures |out| == |rows|
    ensures forall i | 0 <= i < |rows| :: out[i] == KaggleMoment(KagglePicks(columns), rows[i], i, sport, event, urlPrefix)
    ensures forall i, j | 0 <= i < j < |out| :: out[i].id != out[j].id
  {
    var p := KagglePicks(columns);
    ghost var want := seq(|rows|, k requires 0 <= k < |rows| => KaggleMoment(p, rows[k], k, sport, event, urlPrefix));
    out := [];
    for i := 0 to |rows|
      invariant out == want[..i]
    {
      var m := KaggleMoment(p, rows[i], i, sport, event, urlPrefix);
      assert m == want[i];
      PrefixSnoc(want, i);
      out := out + [m];
    }
    assert out == want;
    forall i, j | 0 <= i < j < |out|
      ensures out[i].id != out[j].id
    {
      JoinIdDistinct(KaggleIdParts(p, rows[i]), i, KaggleIdParts(p, rows[j]), j);
    }
  }
}
