/** Table cells and the helpers the four ingest converters share: reading a
    cell as text, choosing a column by name, cleaning identifier parts, the
    short round-code table, and the moment record every converter emits. */
module Frames {
  import opened Common
  import opened Strings

  /** One cell of a CSV-backed table. `Null` is Python's None, `NaN` a missing
      value (NaN or pandas' NA), and `Str(text)` any present value, carried as
      the text `str()` gives for it. */
  datatype Cell = Null | NaN | Str(text: string)

  /** One table row: column label to cell. */
  type Row = map<string, Cell>

  /** pd.isna */
  predicate IsNa(c: Cell) {
    c.Null? || c.NaN?
  }

  /** str(value) */
  function PyStr(c: Cell): string {
    match c
    case Null => "None"
    case NaN => "nan"
    case Str(t) => t
  }

  /** Python truthiness of a cell: None and "" are false; NaN is a non-zero
      float and therefore true. */
  predicate Truthy(c: Cell) {
    match c
    case Null => false
    case NaN => true
    case Str(t) => t != ""
  }

  /** `row.get(col)`: the cell, or None when the row has no such column. */
  function RowGet(row: Row, col: string): Cell {
    if col in row then row[col] else Null
  }

  /** `row.get(col, default)` for a column chosen by `pick`, which may be None;
      a row never has the label None, so that case yields the default. */
  function GetOr(row: Row, col: Option<string>, default: string): Cell {
    if col.Some? && col.value in row then row[col.value] else Str(default)
  }

  /** `str(row.get(col, "")).strip()` */
  function FieldText(row: Row, col: Option<string>): (r: string)
    ensures Stripped(r)
  {
    StripIsStripped(PyStr(GetOr(row, col, "")));
    Strip(PyStr(GetOr(row, col, "")))
  }

  /** `value or alt` where value is a cell and alt a string. */
  function Or(c: Cell, alt: string): string {
    if Truthy(c) then PyStr(c) else alt
  }

  /** `s or alt` for strings. */
  function OrStr(s: string, alt: string): string {
    if s != "" then s else alt
  }

  // ---------------------------------------------------------------------
  // pick: choose a column by a list of candidate names

  /** The first column whose lower-cased label equals the lower-cased name. */
  function FirstCaseless(columns: seq<string>, name: string): (r: Option<string>)
    ensures r.Some? ==> r.value in columns && Lower(r.value) == Lower(name)
    ensures r.None? <==> forall j | 0 <= j < |columns| :: Lower(columns[j]) != Lower(name)
    decreases |columns|
  {
    if columns == [] then None
    else if Lower(columns[0]) == Lower(name) then Some(columns[0])
    else FirstCaseless(columns[1..], name)
  }

  /** A name matches a table when it is a column label, exactly or up to case. */
  predicate NameMatches(columns: seq<string>, name: string) {
    name in columns || exists j | 0 <= j < |columns| :: Lower(columns[j]) == Lower(name)
  }

  /** pick(df, names): for each name in priority order, the name itself when
      it is a column, else the first column equal to it up to case. */
  function Pick(columns: seq<string>, names: seq<string>): Option<string>
    decreases |names|
  {
    if names == [] then None
    else if names[0] in columns then Some(names[0])
    else
      match FirstCaseless(columns, names[0])
      case Some(c) => Some(c)
      case None => Pick(columns, names[1..])
  }

  /** Column c is what pick settles on for this name: the name itself when it
      is a column, otherwise the first column equal to it up to case. */
  predicate PickedFor(columns: seq<string>, name: string, c: string) {
    if name in columns then c == name
    else exists j | 0 <= j < |columns| :: columns[j] == c && Lower(c) == Lower(name) &&
           forall i | 0 <= i < j :: Lower(columns[i]) != Lower(name)
  }

  lemma {:induction false} FirstCaselessIsFirst(columns: seq<string>, name: string)
    requires FirstCaseless(columns, name).Some?
    ensures exists j | 0 <= j < |columns| :: columns[j] == FirstCaseless(columns, name).value &&
              forall i | 0 <= i < j :: Lower(columns[i]) != Lower(name)
    decreases |columns|
  {
    if Lower(columns[0]) != Lower(name) {
      FirstCaselessIsFirst(columns[1..], name);
      var j :| 0 <= j < |columns[1..]| && columns[1..][j] == FirstCaseless(columns, name).value &&
               forall i | 0 <= i < j :: Lower(columns[1..][i]) != Lower(name);
      assert columns[j + 1] == FirstCaseless(columns, name).value;
      forall i | 0 <= i < j + 1
        ensures Lower(columns[i]) != Lower(name)
      {
        if i > 0 {
          assert columns[i] == columns[1..][i - 1];
        }
      }
    }
  }

  /** pick returns None exactly when no candidate name matches; otherwise it
      returns the column picked for the first matching name, with an exact
      match preferred over a case-insensitive one. */
  lemma {:induction false} PickProperties(columns: seq<string>, names: seq<string>)
    ensures Pick(columns, names).None? <==> forall p | 0 <= p < |names| :: !NameMatches(columns, names[p])
    ensures Pick(columns, names).Some? ==>
              exists p | 0 <= p < |names| ::
                && (forall q | 0 <= q < p :: !NameMatches(columns, names[q]))
                && PickedFor(columns, names[p], Pick(columns, names).value)
    decreases |names|
  {
    if names != [] {
      var n := names[0];
      if n in columns {
        assert PickedFor(columns, names[0], n);
        assert NameMatches(columns, names[0]);
      } else if FirstCaseless(columns, n).Some? {
        FirstCaselessIsFirst(columns, n);
        assert PickedFor(columns, names[0], Pick(columns, names).value);
        assert NameMatches(columns, names[0]);
      } else {
        assert !NameMatches(columns, names[0]);
        PickProperties(columns, names[1..]);
        assert forall p | 1 <= p < |names| :: names[p] == names[1..][p - 1];
        if Pick(columns, names).Some? {
          var p :| 0 <= p < |names[1..]| &&
                   (forall q | 0 <= q < p :: !NameMatches(columns, names[1..][q])) &&
                   PickedFor(columns, names[1..][p], Pick(columns, names).value);
          assert PickedFor(columns, names[p + 1], Pick(columns, names).value);
        }
      }
    }
  }

  /** Whatever pick returns is one of the table's columns. */
  lemma {:induction false} PickIsColumn(columns: seq<string>, names: seq<string>)
    ensures Pick(columns, names).Some? ==> Pick(columns, names).value in columns
    decreases |names|
  {
    if names != [] && names[0] !in columns && FirstCaseless(columns, names[0]).None? {
      PickIsColumn(columns, names[1..]);
    }
  }

  // ---------------------------------------------------------------------
  // clean: identifier parts

  /** re.sub(r"[^A-Za-z0-9]+", "", s)[:width] */
  function Clean(s: string, width: nat): (r: string)
    ensures AllAlnum(r) && |r| <= width
  {
    Take(KeepAlnum(s), width)
  }

  lemma {:induction false} KeepAlnumMembers(s: string, c: char)
    ensures c in KeepAlnum(s) <==> c in s && IsAlnum(c)
    decreases |s|
  {
    if s != [] {
      KeepAlnumMembers(s[1..], c);
      assert s == [s[0]] + s[1..];
    }
  }

  lemma {:induction false} KeepAlnumOfAlnum(s: string)
    requires AllAlnum(s)
    ensures KeepAlnum(s) == s
    decreases |s|
  {
    if s != [] {
      KeepAlnumOfAlnum(s[1..]);
    }
  }

  /** A cleaned part holds only characters of the input that are ASCII
      letters or digits (in particular no "_", the id separator), and cleaning
      it again changes nothing. */
  lemma CleanProperties(s: string, width: nat)
    ensures forall c | c in Clean(s, width) :: c in s && IsAlnum(c)
    ensures '_' !in Clean(s, width)
    ensures Clean(Clean(s, width), width) == Clean(s, width)
    ensures AllAlnum(s) && |s| <= width ==> Clean(s, width) == s
  {
    forall c | c in Clean(s, width)
      ensures c in s && IsAlnum(c)
    {
      KeepAlnumMembers(s, c);
    }
    KeepAlnumOfAlnum(Clean(s, width));
    if AllAlnum(s) {
      KeepAlnumOfAlnum(s);
    }
  }

  // ---------------------------------------------------------------------
  // Short round codes

  /** The short-code table (ROUND_NORMALIZE, ROUND_MAP and the local
      `mapping` of the point-level converters hold the same seven entries). */
  const ShortRounds: map<string, string> := map[
    "F" := "Final", "SF" := "Semi-final", "QF" := "Quarter-final",
    "R16" := "Round of 16", "R32" := "Round of 32", "R64" := "Round of 64",
    "R128" := "Round of 128"]

  /** No label of the table is itself a code. */
  lemma ShortRoundLabelsAreNotCodes()
    ensures forall k | k in ShortRounds :: ShortRounds[k] !in ShortRounds
    ensures forall k | k in ShortRounds :: Lower(ShortRounds[k]) == "final" <==> k == "F"
  {
    assert Lower("Final") == "final";
    assert Lower("Semi-final") != "final";
    assert Lower("Quarter-final") != "final";
    assert Lower("Round of 16") != "final";
    assert Lower("Round of 32") != "final";
    assert Lower("Round of 64") != "final";
    assert Lower("Round of 128") != "final";
  }

  /** normalize_round of the point-level converters: falsy input gives "";
      otherwise the stripped value goes through the table, unknown values
      coming back stripped. */
  function NormalizeRound(r: string): string {
    if r == "" then ""
    else
      var s := Strip(r);
      if s in ShortRounds then ShortRounds[s] else s
  }

  /** The label is stripped, normalising it again changes nothing, and it
      reads "final" (in any case) exactly for the code "F" or a value that
      already says "final". */
  lemma NormalizeRoundProperties(r: string)
    ensures Stripped(NormalizeRound(r))
    ensures NormalizeRound(NormalizeRound(r)) == NormalizeRound(r)
    ensures Lower(NormalizeRound(r)) == "final" <==> Strip(r) == "F" || Lower(Strip(r)) == "final"
  {
    ShortRoundLabelsAreNotCodes();
    StripIsStripped(r);
    var s := Strip(r);
    if r == "" {
      assert Strip(r) == "";
    } else if s in ShortRounds {
      var l := ShortRounds[s];
      assert Stripped(l) by {
        assert l in ShortRounds.Values;
      }
      StripOfStripped(l);
      assert l != "" by {
        assert l in ShortRounds.Values;
      }
    } else {
      StripOfStripped(s);
    }
  }

  // ---------------------------------------------------------------------
  // The output record

  /** One row of the moments CSV, in its column order. `setNo`, `gameNo` and
      `point` (the set, game and point columns) carry whatever cell the
      converter copied there. */
  datatype Moment = Moment(
    id: string, sport: string, tournament: string, year: string, event: string,
    round: string, setNo: Cell, gameNo: Cell, point: Cell,
    player1: string, player2: string, surface: string, sourceUrl: string,
    commentary: string, summary: string, tags: string)

  /** `<prefix>_<a>_<b>_<c>_<i>` and its relatives: parts joined by "_", the
      row number last. */
  function JoinId(parts: seq<string>, i: nat): string {
    Join(parts + [NatToString(i)], "_")
  }

  /** An id opens with its first part and the separator. */
  lemma JoinIdHead(parts: seq<string>, i: nat)
    requires parts != []
    ensures StartsWith(JoinId(parts, i), parts[0] + "_")
  {
    var all := parts + [NatToString(i)];
    assert all[0] == parts[0];
    assert JoinId(parts, i) == parts[0] + "_" + Join(all[1..], "_");
  }

  /** The id prefixes of the converters, each followed by the separator. */
  lemma IdPrefixes()
    ensures "m" + "_" == "m_" && "pbp" + "_" == "pbp_" && "kgl" + "_" == "kgl_"
  {
    assert "m" + "_" == "m_";
    assert "pbp" + "_" == "pbp_";
    assert "kgl" + "_" == "kgl_";
  }

  lemma {:induction false} JoinLast(parts: seq<string>, last: string, sep: string)
    requires parts != []
    ensures Join(parts + [last], sep) == Join(parts, sep) + sep + last
    decreases |parts|
  {
    if |parts| == 1 {
      assert (parts + [last])[1..] == [last];
    } else {
      assert (parts + [last])[1..] == parts[1..] + [last];
      JoinLast(parts[1..], last, sep);
    }
  }

  /** The row number can be read back from an id: it is what follows the last
      "_". Ids built from different row numbers therefore differ. */
  lemma JoinIdDistinct(parts: seq<string>, i: nat, parts': seq<string>, j: nat)
    requires parts != [] && parts' != []
    requires i != j
    ensures JoinId(parts, i) != JoinId(parts', j)
  {
    JoinLast(parts, NatToString(i), "_");
    JoinLast(parts', NatToString(j), "_");
    AfterLastOfJoin(Join(parts, "_"), '_', NatToString(i));
    AfterLastOfJoin(Join(parts', "_"), '_', NatToString(j));
    assert Join(parts, "_") + "_" + NatToString(i) == Join(parts, "_") + ['_'] + NatToString(i);
    assert Join(parts', "_") + "_" + NatToString(j) == Join(parts', "_") + ['_'] + NatToString(j);
    if NatToString(i) == NatToString(j) {
      NatToStringInjective(i, j);
    }
  }
}
