/** The converter from Match Charting Project tables (one row per point or
    shot) to moments: the match's metadata is read from the first row, and
    every row gets a commentary sentence built from its shot and result
    fields, a summary, tags and an identifier. */
module MatchCharting {
  import opened Common
  import opened Strings
  import opened Frames

  /** Reading the first row of a table that has none. */
  datatype McpError = IndexError

  // =====================================================================
  // Outcome, commentary and summary

  /** The lower-cased winner-field values that mean a clean winner. */
  const WinValues: set<string> := {"1", "true", "yes", "winner"}

  const CleanWinner: string := "wins the point with a clean winner"

  /** The outcome phrase: a clean winner, else the error when there is one,
      else nothing. */
  function McpOutcome(win: string, err: string): string {
    if win in WinValues then CleanWinner
    else if err != "" then "point ends on " + err
    else ""
  }

  /** The clean-winner phrase appears exactly for the winner values; failing
      that, the phrase names the error, and it is empty exactly when there is
      neither. */
  lemma McpOutcomeProperties(win: string, err: string)
    ensures McpOutcome(win, err) == CleanWinner <==> win in WinValues
    ensures win !in WinValues && err != "" ==> McpOutcome(win, err) == "point ends on " + err
    ensures McpOutcome(win, err) == "" <==> win !in WinValues && err == ""
  {
    if win !in WinValues && err != "" {
      assert McpOutcome(win, err)[0] == 'p' && CleanWinner[0] == 'w';
    }
  }

  lemma CleanWinnerSaysWinner()
    ensures Contains(CleanWinner, "winner")
  {
    assert OccursAt(CleanWinner, "winner", 28);
  }

  /** The clauses of a sentence, in order; each appears only when its field
      is known. */
  function McpClauses(server: string, side: string, shot: string, direc: string, rally: string, outcome: string): seq<string> {
    Opt(server != "", server + " serves") +
    Opt(side != "" || shot != "", Strip(side + " " + shot)) +
    Opt(direc != "", direc) +
    Opt(rally != "", "after " + rally + " shots") +
    Opt(outcome != "", outcome)
  }

  /** The commentary sentence: the clauses joined by ", " with a full stop,
      or "Rally recorded." when there is none. */
  function McpCommentary(server: string, side: string, shot: string, direc: string, rally: string, outcome: string): string {
    var bits := McpClauses(server, side, shot, direc, rally, outcome);
    if bits != [] then Join(NonEmpty(bits), ", ") + "." else "Rally recorded."
  }

  /** The per-row commentary code: append each known clause to a list, then
      join. */
  method BuildMcpCommentary(server: string, side: string, shot: string, direc: string, rally: string, outcome: string)
    returns (commentary: string)
    ensures commentary == McpCommentary(server, side, shot, direc, rally, outcome)
  {
    var bits: seq<string> := [];
    if server != "" {
      bits := bits + [server + " serves"];
    }
    assert bits == Opt(server != "", server + " serves");
    ghost var b0 := bits;
    if side != "" || shot != "" {
      bits := bits + [Strip(side + " " + shot)];
    }
    assert bits == b0 + Opt(side != "" || shot != "", Strip(side + " " + shot));
    ghost var b1 := bits;
    if direc != "" {
      bits := bits + [direc];
    }
    assert bits == b1 + Opt(direc != "", direc);
    ghost var b2 := bits;
    if rally != "" {
      bits := bits + ["after " + rally + " shots"];
    }
    assert bits == b2 + Opt(rally != "", "after " + rally + " shots");
    ghost var b3 := bits;
    if outcome != "" {
      bits := bits + [outcome];
    }
    assert bits == b3 + Opt(outcome != "", outcome);
    commentary := if bits != [] then Join(NonEmpty(bits), ", ") + "." else "Rally recorded.";
  }

  /** With stripped fields, "<side> <shot>" stripped is non-empty when either
      is known. */
  lemma SideShotNonEmpty(side: string, shot: string)
    requires Stripped(side) && Stripped(shot) && (side != "" || shot != "")
    ensures Strip(side + " " + shot) != ""
  {
    var s := side + " " + shot;
    if side != "" {
      assert s[0] == side[0];
      assert StripLeft(s) == s;
      StripRightKeeps(s, 0);
    } else {
      assert s[|s| - 1] == shot[|shot| - 1];
      StripKeepsLast(s);
    }
  }

  /** Five optional clauses, each non-empty when present, give a list
      without empty clauses. */
  lemma OptClausesNonEmpty(c0: bool, x0: string, c1: bool, x1: string, c2: bool, x2: string,
                           c3: bool, x3: string, c4: bool, x4: string)
    requires (c0 ==> x0 != "") && (c1 ==> x1 != "") && (c2 ==> x2 != "") && (c3 ==> x3 != "") && (c4 ==> x4 != "")
    ensures forall b | b in Opt(c0, x0) + Opt(c1, x1) + Opt(c2, x2) + Opt(c3, x3) + Opt(c4, x4) :: b != ""
  {
    forall b | b in Opt(c0, x0) + Opt(c1, x1) + Opt(c2, x2) + Opt(c3, x3) + Opt(c4, x4)
      ensures b != ""
    {
      if b in Opt(c0, x0) { assert b == x0; }
      else if b in Opt(c1, x1) { assert b == x1; }
      else if b in Opt(c2, x2) { assert b == x2; }
      else if b in Opt(c3, x3) { assert b == x3; }
      else { assert b in Opt(c4, x4); }
    }
  }

  /** Every clause is non-empty, so the `if b` filter drops nothing: the
      sentence is "Rally recorded." when nothing is known, and otherwise
      exactly the clauses joined by ", " with a full stop. */
  lemma McpCommentaryProperties(server: string, side: string, shot: string, direc: string, rally: string, outcome: string)
    requires Stripped(side) && Stripped(shot)
    ensures var bits := McpClauses(server, side, shot, direc, rally, outcome);
      && (bits == [] <==> server == "" && side == "" && shot == "" && direc == "" && rally == "" && outcome == "")
      && (bits == [] ==> McpCommentary(server, side, shot, direc, rally, outcome) == "Rally recorded.")
      && (bits != [] ==> McpCommentary(server, side, shot, direc, rally, outcome) == Join(bits, ", ") + ".")
  {
    var bits := McpClauses(server, side, shot, direc, rally, outcome);
    if side != "" || shot != "" {
      SideShotNonEmpty(side, shot);
    }
    OptClausesNonEmpty(server != "", server + " serves", side != "" || shot != "", Strip(side + " " + shot),
      direc != "", direc, rally != "", "after " + rally + " shots", outcome != "", outcome);
    NonEmptyOfNonEmpty(bits);
  }

  /** "Point won by server." exactly when the server is the first-row player1. */
  function McpSummary(server: string, p1name: string): string {
    if server == p1name then "Point won by server." else "Point outcome recorded."
  }

  lemma McpSummaryProperties(server: string, p1name: string)
    ensures McpSummary(server, p1name) == "Point won by server." <==> server == p1name
  {
    assert "Point outcome recorded."[6] != "Point won by server."[6];
  }

  // =====================================================================
  // Tags

  /** The tags a row can get, in the order they are appended. */
  const McpTagOrder: seq<string> := ["winner", "error", "backhand", "forehand", "down-the-line", "crosscourt"]

  /** No tag appears twice in the vocabulary. */
  lemma McpTagOrderDistinct()
    ensures forall i, j | 0 <= i < |McpTagOrder| && 0 <= j < |McpTagOrder| && i != j :: McpTagOrder[i] != McpTagOrder[j]
  {
    DistinctByHead(McpTagOrder);
  }

  /** Whether each tag of McpTagOrder applies: the first two are read off the
      outcome phrase as it is, the others off `side` and `direc`, which are
      the side and direction fields lower-cased. */
  function McpTagFlags(outcome: string, side: string, direc: string): seq<bool> {
    [Contains(outcome, "winner"), Contains(outcome, "error") || Contains(outcome, "fault"),
     Contains(side, "backhand"), Contains(side, "forehand"),
     Contains(direc, "dtl") || Contains(direc, "down the line"), Contains(direc, "cross")]
  }

  /** The tag list of one row, built by appending; the six conditions are
      those of McpTagFlags, in order. */
  method CollectMcpTags(outcome: string, side: string, direc: string) returns (tags: seq<string>)
    ensures tags == Flagged(McpTagFlags(outcome, Lower(side), Lower(direc)), McpTagOrder)
  {
    var f := McpTagFlags(outcome, Lower(side), Lower(direc));
    var o := McpTagOrder;
    tags := AppendIf([], f[0], o[0]);
    assert tags == Opt(f[0], o[0]);
    tags := AppendIf(tags, f[1], o[1]);
    tags := AppendIf(tags, f[2], o[2]);
    tags := AppendIf(tags, f[3], o[3]);
    tags := AppendIf(tags, f[4], o[4]);
    tags := AppendIf(tags, f[5], o[5]);
    FlaggedSix(f, o);
  }

  /** Each tag is there exactly under its condition, the tags keep the fixed
      order, and a clean winner is always tagged "winner". */
  lemma McpTagsProperties(outcome: string, side: string, direc: string)
    ensures var tags := Flagged(McpTagFlags(outcome, side, direc), McpTagOrder);
      && IsSubsequence(tags, McpTagOrder)
      && ("winner" in tags <==> Contains(outcome, "winner"))
      && ("error" in tags <==> Contains(outcome, "error") || Contains(outcome, "fault"))
      && ("backhand" in tags <==> Contains(side, "backhand"))
      && ("forehand" in tags <==> Contains(side, "forehand"))
      && ("down-the-line" in tags <==> Contains(direc, "dtl") || Contains(direc, "down the line"))
      && ("crosscourt" in tags <==> Contains(direc, "cross"))
      && (outcome == CleanWinner ==> "winner" in tags)
  {
    var f := McpTagFlags(outcome, side, direc);
    var o := McpTagOrder;
    var tags := Flagged(f, o);
    assert IsSubsequence(tags, o) by { FlaggedProperties(f, o); }
    McpTagOrderDistinct();
    FlaggedSixMembers(f, o, "winner", "error", "backhand", "forehand", "down-the-line", "crosscourt");
    if outcome == CleanWinner {
      CleanWinnerSaysWinner();
    }
  }


  // =====================================================================
  // Rows to moments

  /** The columns pick settles on for one table. */
  datatype McpColumns = McpColumns(
    tournament: Option<string>, year: Option<string>, surface: Option<string>, round: Option<string>,
    setNo: Option<string>, gameNo: Option<string>, point: Option<string>,
    p1: Option<string>, p2: Option<string>,
    server: Option<string>, shot: Option<string>, side: Option<string>, dir: Option<string>,
    winner: Option<string>, error: Option<string>, rally: Option<string>)

  /** Column detection: each field's candidate names in priority order. */
  function McpPicks(columns: seq<string>): McpColumns {
    McpColumns(
      tournament := Pick(columns, ["tournament", "tourney_name", "event", "tournament_name"]),
      year := Pick(columns, ["year", "tourney_year", "date", "tourney_date"]),
      surface := Pick(columns, ["surface"]),
      round := Pick(columns, ["round"]),
      setNo := Pick(columns, ["set", "set_no"]),
      gameNo := Pick(columns, ["game", "game_no"]),
      point := Pick(columns, ["point", "point_no", "rally_index"]),
      p1 := Pick(columns, ["player1", "p1", "p1_name", "server", "winner"]),
      p2 := Pick(columns, ["player2", "p2", "p2_name", "returner", "loser"]),
      server := Pick(columns, ["server", "serving"]),
      shot := Pick(columns, ["shot", "shot_type", "stroke"]),
      side := Pick(columns, ["side", "hand", "wing"]),
      dir := Pick(columns, ["direction", "dir"]),
      winner := Pick(columns, ["winner", "is_winner", "point_winner"]),
      error := Pick(columns, ["error", "error_type"]),
      rally := Pick(columns, ["rally", "rally_length", "rallyCount"]))
  }

  /** The match metadata, read once per table from its first row. */
  datatype McpMeta = McpMeta(tourn: string, year: string, surface: string, roundName: string,
                             p1name: string, p2name: string)

  /** Whether any metadata column was found (each one is read from row 0). */
  predicate MetaPicked(p: McpColumns) {
    p.tournament.Some? || p.year.Some? || p.surface.Some? || p.round.Some? || p.p1.Some? || p.p2.Some?
  }

  /** `str(df[c].iloc[0]).strip() if c else ""` */
  function FirstText(rows: seq<Row>, c: Option<string>): string
    requires c.Some? ==> rows != []
  {
    if c.Some? then Strip(PyStr(RowGet(rows[0], c.value))) else ""
  }

  /** The metadata, or IndexError when a metadata column was found but the
      table has no rows. */
  function FirstRowMeta(p: McpColumns, rows: seq<Row>): (r: Result<McpMeta, McpError>)
    ensures r.Err? <==> rows == [] && MetaPicked(p)
    ensures r.Ok? && rows == [] ==> r.value == McpMeta("", "", "", "", "", "")
  {
    if rows == [] && MetaPicked(p) then Err(IndexError)
    else Ok(McpMeta(
      tourn := FirstText(rows, p.tournament),
      year := FirstText(rows, p.year),
      surface := FirstText(rows, p.surface),
      roundName := if p.round.Some? then NormalizeRound(FirstText(rows, p.round)) else "",
      p1name := FirstText(rows, p.p1),
      p2name := FirstText(rows, p.p2)))
  }

  /** "point": the point cell when its text is non-empty, else "Point". */
  function PointCell(c: Cell): Cell {
    if PyStr(c) != "" then c else Str("Point")
  }

  lemma PointCellProperties(c: Cell)
    ensures PointCell(c) == (if c == Str("") then Str("Point") else c)
    ensures PointCell(NaN) == NaN
  {
  }

  /** The identifier parts before the row number. */
  function McpIdParts(meta: McpMeta): seq<string> {
    ["mcp", Clean(meta.year, 12), Clean(meta.tourn, 12), Clean(meta.p1name, 12), Clean(meta.p2name, 12)]
  }

  /** One output row of the converter's loop for row number i. */
  function McpMoment(p: McpColumns, meta: McpMeta, row: Row, i: nat, sport: string, event: string): Moment {
    var server := FieldText(row, p.server);
    var side := FieldText(row, p.side);
    var direc := FieldText(row, p.dir);
    var outcome := McpOutcome(Lower(FieldText(row, p.winner)), FieldText(row, p.error));
    Moment(
      id := JoinId(McpIdParts(meta), i),
      sport := sport,
      tournament := meta.tourn,
      year := if meta.year != "" then Take(meta.year, 4) else "",
      event := event,
      round := meta.roundName,
      setNo := GetOr(row, p.setNo, ""),
      gameNo := GetOr(row, p.gameNo, ""),
      point := PointCell(GetOr(row, p.point, "")),
      player1 := meta.p1name,
      player2 := meta.p2name,
      surface := meta.surface,
      sourceUrl := "",
      commentary := McpCommentary(server, side, FieldText(row, p.shot), direc, FieldText(row, p.rally), outcome),
      summary := McpSummary(server, meta.p1name),
      tags := Join(Flagged(McpTagFlags(outcome, Lower(side), Lower(direc)), McpTagOrder), ";"))
  }

  /** A moment carries the first row's tournament, year (its first four
      characters), round, surface and players. */
  predicate McpShares(m: Moment, meta: McpMeta) {
    && m.tournament == meta.tourn && m.round == meta.roundName && m.surface == meta.surface
    && m.year == (if meta.year != "" then Take(meta.year, 4) else "")
    && m.player1 == meta.p1name && m.player2 == meta.p2name
  }

  /** Every row's moment takes its tournament, year, round, surface and
      players from the first row, whatever the row itself holds. */
  lemma McpMomentShares(p: McpColumns, meta: McpMeta, row: Row, i: nat, sport: string, event: string)
    ensures McpShares(McpMoment(p, meta, row, i, sport, event), meta)
  {
  }

  /** The body of the converter's loop for row number i: the row's fields
      are read, the commentary and tags are built by the list-appending
      helpers, and the moment is assembled with the first row's metadata. */
  method ConvertMcpRow(p: McpColumns, meta: McpMeta, r: Row, i: nat, sport: string, event: string) returns (m: Moment)
    ensures m == McpMoment(p, meta, r, i, sport, event)
  {
    var server := FieldText(r, p.server);
    var side := FieldText(r, p.side);
    var direc := FieldText(r, p.dir);
    var outcome := McpOutcome(Lower(FieldText(r, p.winner)), FieldText(r, p.error));
    var commentary := BuildMcpCommentary(server, side, FieldText(r, p.shot), direc, FieldText(r, p.rally), outcome);
    var tags := CollectMcpTags(outcome, side, direc);
    m := Moment(
      id := JoinId(McpIdParts(meta), i),
      sport := sport,
      tournament := meta.tourn,
      year := if meta.year != "" then Take(meta.year, 4) else "",
      event := event,
      round := meta.roundName,
      setNo := GetOr(r, p.setNo, ""),
      gameNo := GetOr(r, p.gameNo, ""),
      point := PointCell(GetOr(r, p.point, "")),
      player1 := meta.p1name,
      player2 := meta.p2name,
      surface := meta.surface,
      sourceUrl := "",
      commentary := commentary,
      summary := McpSummary(server, meta.p1name),
      tags := Join(tags, ";"));
  }

  /** The loop over the rows of one table, with its columns detected and
      its first row read: one moment per row, numbered by position, with
      pairwise distinct identifiers. */
  method ConvertMcpRows(p: McpColumns, meta: McpMeta, rows: seq<Row>, sport: string, event: string)
    returns (out: seq<Moment>)
    ensures |out| == |rows|
    ensures forall i | 0 <= i < |rows| :: out[i] == McpMoment(p, meta, rows[i], i, sport, event)
    ensures forall i, j | 0 <= i < j < |rows| :: out[i].id != out[j].id
  {
    ghost var want := seq(|rows|, k requires 0 <= k < |rows| => McpMoment(p, meta, rows[k], k, sport, event));
    out := [];
    for i := 0 to |rows|
      invariant out == want[..i]
    {
      var m := ConvertMcpRow(p, meta, rows[i], i, sport, event);
      assert m == want[i];
      PrefixSnoc(want, i);
      out := out + [m];
    }
    assert out == want;
    forall i, j | 0 <= i < j < |out|
      ensures out[i].id != out[j].id
    {
      JoinIdDistinct(McpIdParts(meta), i, McpIdParts(meta), j);
    }
  }

  /** The conversion of one table: IndexError exactly when a metadata column
      exists but the table is empty; otherwise one moment per row, numbered
      by position, all sharing the first row's metadata, with pairwise
      distinct identifiers. */
  method ConvertMcpTable(columns: seq<string>, rows: seq<Row>, sport: string, event: string)
    returns (res: Result<seq<Moment>, McpError>)
    ensures res.Err? <==> rows == [] && MetaPicked(McpPicks(columns))
    ensures res.Ok? ==>
      var meta := FirstRowMeta(McpPicks(columns), rows).value;
      && |res.value| == |rows|
      && (forall i | 0 <= i < |rows| :: res.value[i] == McpMoment(McpPicks(columns), meta, rows[i], i, sport, event))
      && (forall i | 0 <= i < |rows| :: McpShares(res.value[i], meta))
      && (forall i, j | 0 <= i < j < |rows| :: res.value[i].id != res.value[j].id)
  {
    var p := McpPicks(columns);
    var metaRes := FirstRowMeta(p, rows);
    if metaRes.Err? {
      return Err(IndexError);
    }
    var out := ConvertMcpRows(p, metaRes.value, rows, sport, event);
    forall i | 0 <= i < |rows|
      ensures McpShares(out[i], metaRes.value)
    {
      McpMomentShares(p, metaRes.value, rows[i], i, sport, event);
    }
    return Ok(out);
  }
}
