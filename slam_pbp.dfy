/** The converter from Grand Slam point-by-point tables (one row per point)
    to moments: columns found by candidate names, a commentary sentence
    assembled clause by clause, a one-line summary, a point label, tags read
    off the outcome text, and an identifier built from the year, the
    tournament, the players and the row number. */
module SlamPbp {
  import opened Common
  import opened Strings
  import opened Frames

  // =====================================================================
  // coalesce

  /** A key coalesce accepts: present, not missing, and not blank once
      stripped. */
  predicate Usable(row: Row, k: string) {
    k in row && !IsNa(row[k]) && Strip(PyStr(row[k])) != ""
  }

  /** coalesce(row, keys): the stripped text of the first usable key, else "". */
  function Coalesce(row: Row, keys: seq<string>): (r: string)
    ensures Stripped(r)
    decreases |keys|
  {
    if keys == [] then ""
    else if Usable(row, keys[0]) then
      StripIsStripped(PyStr(row[keys[0]]));
      Strip(PyStr(row[keys[0]]))
    else Coalesce(row, keys[1..])
  }

  /** The result is "" exactly when no key is usable; otherwise it is the
      stripped text of a usable key with no usable key before it. */
  lemma {:induction false} CoalesceProperties(row: Row, keys: seq<string>)
    ensures Coalesce(row, keys) == "" <==> forall j | 0 <= j < |keys| :: !Usable(row, keys[j])
    ensures Coalesce(row, keys) != "" ==>
      exists j | 0 <= j < |keys| :: Usable(row, keys[j]) && Coalesce(row, keys) == Strip(PyStr(row[keys[j]])) &&
        forall i | 0 <= i < j :: !Usable(row, keys[i])
    decreases |keys|
  {
    if keys != [] && !Usable(row, keys[0]) {
      CoalesceProperties(row, keys[1..]);
      if Coalesce(row, keys) != "" {
        var j :| 0 <= j < |keys| - 1 && Usable(row, keys[1..][j]) && Coalesce(row, keys[1..]) == Strip(PyStr(row[keys[1..][j]])) &&
          forall i | 0 <= i < j :: !Usable(row, keys[1..][i]);
        assert Usable(row, keys[j + 1]);
        forall i | 0 <= i < j + 1
          ensures !Usable(row, keys[i])
        {
          if i > 0 { assert keys[i] == keys[1..][i - 1]; }
        }
      }
      forall j | 1 <= j < |keys|
        ensures keys[j] == keys[1..][j - 1]
      {
      }
    }
  }

  // =====================================================================
  // build_commentary

  /** The columns the notes sentence is taken from. */
  const NoteKeys: seq<string> := ["notes", "desc", "description"]

  /** Who serves: "<server> serves to <returner>", or "<server> serves" when
      no returner is known. */
  function ServeClause(server: string, returner: string): string {
    if returner != "" then server + " serves to " + returner else server + " serves"
  }

  /** The first clause: the serve clause with "; <outcome>" after it, or the
      outcome alone when no server is known, or nothing. A returner without a
      server gives no clause. */
  function LeadClause(server: string, returner: string, outcome: string): seq<string> {
    if server != "" then [ServeClause(server, returner) + (if outcome != "" then "; " + outcome else "")]
    else if outcome != "" then [outcome]
    else []
  }

  /** All clauses, in sentence order: the lead clause, then the rally
      clause and the score clause, each only when its field is known. */
  function Clauses(server: string, returner: string, outcome: string, rally: string, pointScore: string): seq<string> {
    LeadClause(server, returner, outcome) +
    Opt(rally != "", "after a " + rally + "-shot rally") +
    Opt(pointScore != "", "at " + pointScore)
  }

  /** " at <tournament> <year>" when either is known. */
  function Context(tname: string, year: string): string {
    if tname != "" || year != "" then " at " + tname + " " + year else ""
  }

  /** ". <notes>" when the row carries notes. */
  function Trail(row: Row): string {
    var notes := Coalesce(row, NoteKeys);
    if notes != "" then ". " + notes else ""
  }

  /** The commentary sentence of one point. */
  function SlamCommentary(row: Row, server: string, returner: string, outcome: string, rally: string,
                          pointScore: string, tname: string, year: string): string
  {
    Strip(Join(NonEmpty(Clauses(server, returner, outcome, rally, pointScore)), ", ") +
          Context(tname, year) + "." + Trail(row))
  }

  /** The first part of build_commentary: the serve clause goes into the
      list, then the outcome is added to that last clause in place, or
      appended alone when the list is empty. */
  method CollectLead(server: string, returner: string, outcome: string) returns (bits: seq<string>)
    ensures bits == LeadClause(server, returner, outcome)
  {
    bits := [];
    if server != "" || returner != "" {
      if server != "" && returner != "" {
        bits := bits + [server + " serves to " + returner];
      } else if server != "" {
        bits := bits + [server + " serves"];
      }
    }
    assert bits == (if server != "" then [ServeClause(server, returner)] else []);
    if outcome != "" {
      if bits != [] {
        bits := bits[..|bits| - 1] + [bits[|bits| - 1] + "; " + outcome];
        assert ServeClause(server, returner) + "; " + outcome == ServeClause(server, returner) + ("; " + outcome);
      } else {
        bits := bits + [outcome];
      }
    } else if server != "" {
      assert ServeClause(server, returner) + "" == ServeClause(server, returner);
    }
  }

  /** build_commentary: collect the clauses in a list, extending the last one
      in place with the outcome, then join them and add the context, the
      full stop and the notes. The set, game and round arguments of the
      original are unused there and are not parameters here. */
  method BuildCommentary(row: Row, server: string, returner: string, outcome: string, rally: string,
                         pointScore: string, tname: string, year: string) returns (text: string)
    ensures text == SlamCommentary(row, server, returner, outcome, rally, pointScore, tname, year)
  {
    var bits := CollectLead(server, returner, outcome);
    ghost var lead := bits;
    if rally != "" {
      bits := bits + ["after a " + rally + "-shot rally"];
    }
    assert bits == lead + Opt(rally != "", "after a " + rally + "-shot rally");
    ghost var withRally := bits;
    if pointScore != "" {
      bits := bits + ["at " + pointScore];
    }
    assert bits == withRally + Opt(pointScore != "", "at " + pointScore);
    var ctx := if tname != "" || year != "" then " at " + tname + " " + year else "";
    var notes := Coalesce(row, NoteKeys);
    var trail := if notes != "" then ". " + notes else "";
    text := Join(NonEmpty(bits), ", ") + ctx + "." + trail;
    text := Strip(text);
  }

  lemma JoinHead(parts: seq<string>, sep: string)
    requires parts != []
    ensures StartsWith(Join(parts, sep), parts[0])
  {
  }

  /** Stripping keeps a closing "." and a non-blank stripped note after it. */
  lemma StripKeepsEnding(x: string, notes: string, trail: string)
    requires Stripped(notes) && trail == if notes != "" then ". " + notes else ""
    ensures EndsWith(Strip(x + "." + trail), "." + trail)
  {
    var t := "." + trail;
    assert t[0] == '.';
    if notes != "" {
      assert t[|t| - 1] == notes[|notes| - 1];
    }
    StripKeepsTail(x, t);
    assert x + "." + trail == x + t;
  }

  /** A sentence ends with the full stop, followed by the notes when the row
      has any. */
  lemma CommentaryEnding(row: Row, server: string, returner: string, outcome: string, rally: string,
                         pointScore: string, tname: string, year: string)
    ensures EndsWith(SlamCommentary(row, server, returner, outcome, rally, pointScore, tname, year), "." + Trail(row))
  {
    StripKeepsEnding(Join(NonEmpty(Clauses(server, returner, outcome, rally, pointScore)), ", ") + Context(tname, year),
                     Coalesce(row, NoteKeys), Trail(row));
  }

  /** Stripping keeps an opening that starts with a non-space character when
      a "." comes later. */
  lemma StripKeepsOpening(lead: string, rest: string, ctx: string, trail: string)
    requires lead != [] && !IsSpace(lead[0])
    ensures StartsWith(Strip(lead + rest + ctx + "." + trail), lead)
  {
    var q := rest + ctx + "." + trail;
    assert q[|rest| + |ctx|] == '.';
    assert lead + rest + ctx + "." + trail == lead + q;
    StripKeepsHead(lead, q, |rest| + |ctx|);
  }

  /** With a known server the sentence opens with the serve clause, followed
      by "; <outcome>" when there is an outcome; without one it opens with
      the outcome. */
  lemma CommentaryOpening(row: Row, server: string, returner: string, outcome: string, rally: string,
                          pointScore: string, tname: string, year: string)
    requires Stripped(server) && Stripped(outcome)
    ensures var c := SlamCommentary(row, server, returner, outcome, rally, pointScore, tname, year);
      && (server != "" ==> StartsWith(c, ServeClause(server, returner) + (if outcome != "" then "; " + outcome else "")))
      && (server == "" && outcome != "" ==> StartsWith(c, outcome))
  {
    var lead := LeadClause(server, returner, outcome);
    if lead != [] {
      var cl := Clauses(server, returner, outcome, rally, pointScore);
      var ne := NonEmpty(cl);
      var j := Join(ne, ", ");
      assert cl[0] == lead[0] && lead[0] != "";
      assert ne[0] == lead[0];
      JoinHead(ne, ", ");
      var rest := j[|lead[0]|..];
      assert j == lead[0] + rest;
      assert !IsSpace(lead[0][0]);
      StripKeepsOpening(lead[0], rest, Context(tname, year), Trail(row));
    }
  }

  /** The clause list in numbers: one lead clause when a server or an outcome
      is known, then one clause each for the rally and the score; none of
      them is empty, so the `if b` filter of the join drops nothing. */
  lemma ClausesProperties(server: string, returner: string, outcome: string, rally: string, pointScore: string)
    ensures var cl := Clauses(server, returner, outcome, rally, pointScore);
      && |cl| == (if server != "" || outcome != "" then 1 else 0) + (if rally != "" then 1 else 0) + (if pointScore != "" then 1 else 0)
      && NonEmpty(cl) == cl
  {
    var cl := Clauses(server, returner, outcome, rally, pointScore);
    var lead := LeadClause(server, returner, outcome);
    if server != "" {
      assert lead[0][0] == ServeClause(server, returner)[0] == server[0];
    }
    forall b | b in cl
      ensures b != ""
    {
      if b in lead {
        assert b == lead[0];
      } else if b in Opt(rally != "", "after a " + rally + "-shot rally") {
        assert b == "after a " + rally + "-shot rally";
      } else {
        assert b == "at " + pointScore;
      }
    }
    NonEmptyOfNonEmpty(cl);
  }

  // =====================================================================
  // build_summary

  /** build_summary: who wins the point (or "Player"), with "in the Final"
      for a final. */
  function SlamSummary(who: string, roundName: string): string {
    if roundName != "" && Lower(roundName) == "final" then OrStr(who, "Player") + " wins a key point in the Final."
    else OrStr(who, "Player") + " wins a key point."
  }

  /** The Final wording appears exactly for a round that reads "final" in
      any case, and the sentence opens with the player, or "Player" when
      none is known. */
  lemma SlamSummaryProperties(who: string, roundName: string)
    ensures EndsWith(SlamSummary(who, roundName), " in the Final.") <==> Lower(roundName) == "final"
    ensures StartsWith(SlamSummary(who, roundName), if who != "" then who else "Player")
  {
    var s := SlamSummary(who, roundName);
    var w := OrStr(who, "Player");
    if Lower(roundName) != "final" {
      assert s == w + " wins a key point.";
      assert s[|s| - 2] == 't';
    } else {
      assert roundName != "";
    }
    assert s[..|w|] == w;
  }

  // =====================================================================
  // The point label and the tags

  /** "Tie-break Point <score>" for a tie-break score ("TB" in any case, or
      "tie" in lower case), "Point" otherwise. */
  function PointLabel(pointScore: string): string {
    if Contains(Upper(pointScore), "TB") || Contains(Lower(pointScore), "tie") then "Tie-break Point " + pointScore
    else "Point"
  }

  lemma UpperTB(s: string, i: nat)
    requires i + 2 <= |s|
    ensures OccursAt(Upper(s), "TB", i) <==> OccursAt(Lower(s), "tb", i)
  {
    assert Upper(s)[i..i + 2] == [UpperChar(s[i]), UpperChar(s[i + 1])];
    assert Lower(s)[i..i + 2] == [LowerChar(s[i]), LowerChar(s[i + 1])];
  }

  /** The label is the tie-break one exactly when the score holds "tb" in
      any case or "tie" in lower case, and then it carries the score. */
  lemma PointLabelProperties(pointScore: string)
    ensures PointLabel(pointScore) != "Point" <==> Contains(Lower(pointScore), "tb") || Contains(Lower(pointScore), "tie")
    ensures PointLabel(pointScore) != "Point" ==> PointLabel(pointScore) == "Tie-break Point " + pointScore
  {
    if Contains(Upper(pointScore), "TB") {
      var i: nat :| i <= |Upper(pointScore)| && OccursAt(Upper(pointScore), "TB", i);
      UpperTB(pointScore, i);
      assert OccursAt(Lower(pointScore), "tb", i);
    }
    if Contains(Lower(pointScore), "tb") {
      var i: nat :| i <= |Lower(pointScore)| && OccursAt(Lower(pointScore), "tb", i);
      UpperTB(pointScore, i);
      assert OccursAt(Upper(pointScore), "TB", i);
    }
    var t := "Tie-break Point " + pointScore;
    assert t[0] == 'T';
  }

  /** The tags a point can get, in the order they are appended. */
  const SlamTagOrder: seq<string> := ["ace", "double fault", "winner", "break point"]

  /** No tag appears twice in the vocabulary. */
  lemma SlamTagOrderDistinct()
    ensures forall i, j | 0 <= i < |SlamTagOrder| && 0 <= j < |SlamTagOrder| && i != j :: SlamTagOrder[i] != SlamTagOrder[j]
  {
    DistinctByHead(SlamTagOrder);
  }

  /** Whether each tag of SlamTagOrder applies to an outcome. */
  function SlamTagFlags(outcome: string): seq<bool> {
    var o := Lower(outcome);
    [Contains(o, "ace"), Contains(o, "double") && Contains(o, "fault"), Contains(o, "winner"), Contains(o, "break")]
  }

  /** The tag list of one point, built by appending. */
  method CollectSlamTags(outcome: string) returns (tags: seq<string>)
    ensures tags == Flagged(SlamTagFlags(outcome), SlamTagOrder)
  {
    var f := SlamTagFlags(outcome);
    var o := SlamTagOrder;
    tags := AppendIf([], f[0], o[0]);
    assert tags == Opt(f[0], o[0]);
    tags := AppendIf(tags, f[1], o[1]);
    tags := AppendIf(tags, f[2], o[2]);
    tags := AppendIf(tags, f[3], o[3]);
    FlaggedFour(f, o);
  }

  /** Each tag is there exactly when the lower-cased outcome holds its words
      ("double fault" needs both "double" and "fault"), and the tags keep the
      fixed order. */
  lemma SlamTagsProperties(outcome: string)
    ensures var tags := Flagged(SlamTagFlags(outcome), SlamTagOrder);
      && IsSubsequence(tags, SlamTagOrder)
      && ("ace" in tags <==> Contains(Lower(outcome), "ace"))
      && ("double fault" in tags <==> Contains(Lower(outcome), "double") && Contains(Lower(outcome), "fault"))
      && ("winner" in tags <==> Contains(Lower(outcome), "winner"))
      && ("break point" in tags <==> Contains(Lower(outcome), "break"))
  {
    var f := SlamTagFlags(outcome);
    var o := SlamTagOrder;
    assert IsSubsequence(Flagged(f, o), o) by { FlaggedProperties(f, o); }
    SlamTagOrderDistinct();
    FlaggedFourMembers(f, o, "ace", "double fault", "winner", "break point");
  }

  // =====================================================================
  // Rows to moments

  /** The columns pick settles on for one table. */
  datatype SlamColumns = SlamColumns(
    tournament: Option<string>, year: Option<string>, surface: Option<string>, round: Option<string>,
    setNo: Option<string>, gameNo: Option<string>, pointNo: Option<string>,
    server: Option<string>, returner: Option<string>, p1: Option<string>, p2: Option<string>,
    score: Option<string>, outcome: Option<string>, rally: Option<string>)

  /** Column detection: each field's candidate names in priority order. */
  function SlamPicks(columns: seq<string>): SlamColumns {
    SlamColumns(
      tournament := Pick(columns, ["tournament", "tourney_name", "event", "tournament_name"]),
      year := Pick(columns, ["year", "tourney_year", "date", "tourney_date"]),
      surface := Pick(columns, ["surface"]),
      round := Pick(columns, ["round"]),
      setNo := Pick(columns, ["set", "set_no"]),
      gameNo := Pick(columns, ["game", "game_no"]),
      pointNo := Pick(columns, ["point", "point_no", "point_index"]),
      server := Pick(columns, ["server", "srv", "server_name"]),
      returner := Pick(columns, ["returner", "ret", "returner_name"]),
      p1 := Pick(columns, ["player1", "p1", "p1_name", "server", "winner"]),
      p2 := Pick(columns, ["player2", "p2", "p2_name", "returner", "loser"]),
      score := Pick(columns, ["point_score", "score", "points", "score_text"]),
      outcome := Pick(columns, ["outcome", "rally_end", "result", "shot_outcome", "winner_shot", "point_end"]),
      rally := Pick(columns, ["rally", "rally_length", "rallyCount"]))
  }

  /** The identifier: "pbp", the cleaned year, tournament and the two
      players (falling back to server and returner), then the row number. */
  function SlamIdParts(p: SlamColumns, row: Row): seq<string> {
    ["pbp", Clean(FieldText(row, p.year), 12), Clean(FieldText(row, p.tournament), 12),
     Clean(OrStr(FieldText(row, p.p1), FieldText(row, p.server)), 12),
     Clean(OrStr(FieldText(row, p.p2), FieldText(row, p.returner)), 12)]
  }

  /** One output row of the converter's loop for row number i of a table. */
  function SlamMoment(p: SlamColumns, row: Row, i: nat, sport: string, event: string): Moment {
    var tname := FieldText(row, p.tournament);
    var year := FieldText(row, p.year);
    var roundName := NormalizeRound(FieldText(row, p.round));
    var server := FieldText(row, p.server);
    var returner := FieldText(row, p.returner);
    var player1 := FieldText(row, p.p1);
    var player2 := FieldText(row, p.p2);
    var pointScore := FieldText(row, p.score);
    var outcome := FieldText(row, p.outcome);
    Moment(
      id := JoinId(SlamIdParts(p, row), i),
      sport := sport,
      tournament := tname,
      year := if year != "" then Take(year, 4) else "",
      event := event,
      round := roundName,
      setNo := GetOr(row, p.setNo, ""),
      gameNo := GetOr(row, p.gameNo, ""),
      point := Str(PointLabel(pointScore)),
      player1 := OrStr(player1, server),
      player2 := OrStr(player2, returner),
      surface := FieldText(row, p.surface),
      sourceUrl := "",
      commentary := SlamCommentary(row, server, returner, outcome, FieldText(row, p.rally), pointScore, tname, year),
      summary := SlamSummary(OrStr(server, player1), roundName),
      tags := Join(Flagged(SlamTagFlags(outcome), SlamTagOrder), ";"))
  }

  /** The year column holds at most the first four characters of the year
      field, and the id opens with "pbp_". */
  lemma SlamMomentYearAndId(p: SlamColumns, row: Row, i: nat, sport: string, event: string)
    ensures var m := SlamMoment(p, row, i, sport, event);
      && |m.year| <= 4 && StartsWith(FieldText(row, p.year), m.year)
      && StartsWith(m.id, "pbp_")
  {
    var m := SlamMoment(p, row, i, sport, event);
    var year := FieldText(row, p.year);
    assert m.year == if year != "" then Take(year, 4) else "";
    var parts := SlamIdParts(p, row);
    JoinIdHead(parts, i);
    assert m.id == JoinId(parts, i);
    IdPrefixes();
  }

  /** The summary names the Final exactly when the round field is the code
      "F" or reads "final" in any case. */
  lemma SlamMomentFinal(p: SlamColumns, row: Row, i: nat, sport: string, event: string)
    ensures EndsWith(SlamMoment(p, row, i, sport, event).summary, " in the Final.") <==>
            Strip(FieldText(row, p.round)) == "F" || Lower(Strip(FieldText(row, p.round))) == "final"
  {
    var raw := FieldText(row, p.round);
    NormalizeRoundProperties(raw);
    var server := FieldText(row, p.server);
    SlamSummaryProperties(OrStr(server, FieldText(row, p.p1)), NormalizeRound(raw));
  }

  /** The body of the converter's loop for row number i: the row's fields
      are read, the commentary and tags are built by the list-appending
      helpers, and the moment is assembled. */
  method ConvertSlamRow(p: SlamColumns, r: Row, i: nat, sport: string, event: string) returns (m: Moment)
    ensures m == SlamMoment(p, r, i, sport, event)
  {
    var tname := FieldText(r, p.tournament);
    var year := FieldText(r, p.year);
    var server := FieldText(r, p.server);
    var returner := FieldText(r, p.returner);
    var player1 := FieldText(r, p.p1);
    var player2 := FieldText(r, p.p2);
    var pointScore := FieldText(r, p.score);
    var outcome := FieldText(r, p.outcome);
    var roundName := NormalizeRound(FieldText(r, p.round));
    var commentary := BuildCommentary(r, server, returner, outcome, FieldText(r, p.rally), pointScore, tname, year);
    var tags := CollectSlamTags(outcome);
    m := Moment(
      id := JoinId(SlamIdParts(p, r), i),
      sport := sport,
      tournament := tname,
      year := if year != "" then Take(year, 4) else "",
      event := event,
      round := roundName,
      setNo := GetOr(r, p.setNo, ""),
      gameNo := GetOr(r, p.gameNo, ""),
      point := Str(PointLabel(pointScore)),
      player1 := OrStr(player1, server),
      player2 := OrStr(player2, returner),
      surface := FieldText(r, p.surface),
      sourceUrl := "",
      commentary := commentary,
      summary := SlamSummary(OrStr(server, player1), roundName),
      tags := Join(tags, ";"));
  }

  /** The loop over the rows of one table, with its columns already
      detected: one moment per row, numbered by position. Within a table
      the identifiers are pairwise distinct. */
  method ConvertSlamRows(p: SlamColumns, rows: seq<Row>, sport: string, event: string)
    returns (out: seq<Moment>)
    ensures |out| == |rows|
    ensures forall i | 0 <= i < |rows| :: out[i] == SlamMoment(p, rows[i], i, sport, event)
    ensures forall i, j | 0 <= i < j < |out| :: out[i].id != out[j].id
  {
    ghost var want := seq(|rows|, k requires 0 <= k < |rows| => SlamMoment(p, rows[k], k, sport, event));
    out := [];
    for i := 0 to |rows|
      invariant out == want[..i]
    {
      var m := ConvertSlamRow(p, rows[i], i, sport, event);
      assert m == want[i];
      PrefixSnoc(want, i);
      out := out + [m];
    }
    assert out == want;
    forall i, j | 0 <= i < j < |out|
      ensures out[i].id != out[j].id
    {
      JoinIdDistinct(SlamIdParts(p, rows[i]), i, SlamIdParts(p, rows[j]), j);
    }
  }

  /** One table: columns are detected once, then the rows are converted,
      with commentary and tags built by the list-appending helpers. */
  method ConvertSlamTable(columns: seq<string>, rows: seq<Row>, sport: string, event: string)
    returns (out: seq<Moment>)
    ensures |out| == |rows|
    ensures forall i | 0 <= i < |rows| :: out[i] == SlamMoment(SlamPicks(columns), rows[i], i, sport, event)
    ensures forall i, j | 0 <= i < j < |out| :: out[i].id != out[j].id
  {
    var p := SlamPicks(columns);
    out := ConvertSlamRows(p, rows, sport, event);
  }
}
