/** The ranking core of the search module: the year/stage post-filter, the
    local hybrid fusion of BM25 and dense-vector scores, and the remote
    backend's filter-and-truncate step.

    The BM25 scores, the nearest-neighbour distances D and positions I, and the
    identifier lists stored with each index are inputs: computing them is the
    job of the index libraries. Scores are real numbers. */
module Ranking {
  import opened Common
  import opened Strings
  import opened QueryFilters

  /** One row of the moments table. `year` is None where the cell is missing;
      `attributes` carries the remaining columns unchanged. */
  datatype Record = Record(
    id: string,
    year: Option<int>,
    round: string,
    point: string,
    attributes: map<string, string>)

  /** A row together with its score column. */
  datatype Scored = Scored(rec: Record, score: real)

  /** The exceptions the search code lets escape. */
  datatype SearchError =
    | KeyError(key: string)   // a dict key or a DataFrame column that is not there
    | IndexError              // a list or array position past its end
    | EmptyReduction          // max() of a zero-length array

  // =====================================================================
  // The post-filter

  /** The year condition: no years, or the row's year is one of them. */
  predicate YearOk(r: Record, years: seq<int>) {
    years == [] || (r.year.Some? && r.year.value in years)
  }

  /** The stage condition for one stage token: it occurs in the lower-cased
      point or the lower-cased round. */
  predicate StageOk(r: Record, st: string) {
    Contains(Lower(r.point), st) || Contains(Lower(r.round), st)
  }

  /** A row survives the filters: the year condition and every stage condition. */
  predicate Admits(f: FilterSet, r: Record) {
    YearOk(r, f.years) && forall j | 0 <= j < |f.stages| :: StageOk(r, f.stages[j])
  }

  /** A boolean-mask selection `df[mask]`: the rows whose record passes, in order. */
  function Where(rows: seq<Scored>, keep: Record -> bool): (r: seq<Scored>)
    ensures |r| <= |rows|
    decreases |rows|
  {
    if rows == [] then []
    else (if keep(rows[0].rec) then [rows[0]] else []) + Where(rows[1..], keep)
  }

  /** Reference semantics of the filters: one selection by the whole condition. */
  function Select(rows: seq<Scored>, f: FilterSet): seq<Scored> {
    Where(rows, r => Admits(f, r))
  }

  lemma {:induction false} WhereTwice(rows: seq<Scored>, p: Record -> bool, q: Record -> bool, pq: Record -> bool)
    requires forall r :: pq(r) == (p(r) && q(r))
    ensures Where(Where(rows, p), q) == Where(rows, pq)
    decreases |rows|
  {
    if rows != [] {
      WhereTwice(rows[1..], p, q, pq);
      var x := rows[0];
      if p(x.rec) {
        var w := Where(rows, p);
        assert w == [x] + Where(rows[1..], p);
        assert w[0] == x && w[1..] == Where(rows[1..], p);
        assert Where(w, q) == (if q(x.rec) then [x] else []) + Where(w[1..], q);
      } else {
        assert Where(rows, p) == Where(rows[1..], p);
      }
    }
  }

  lemma {:induction false} WhereAll(rows: seq<Scored>, p: Record -> bool)
    requires forall i | 0 <= i < |rows| :: p(rows[i].rec)
    ensures Where(rows, p) == rows
    decreases |rows|
  {
    if rows != [] {
      WhereAll(rows[1..], p);
    }
  }

  lemma {:induction false} WhereSame(rows: seq<Scored>, p: Record -> bool, q: Record -> bool)
    requires forall r :: p(r) == q(r)
    ensures Where(rows, p) == Where(rows, q)
    decreases |rows|
  {
    if rows != [] {
      WhereSame(rows[1..], p, q);
    }
  }

  /** _apply_filters: select by year when years are given, then by each stage
      token in turn, each selection narrowing the previous one. */
  method ApplyFilters(df: seq<Scored>, f: FilterSet) returns (out: seq<Scored>)
    ensures out == Select(df, f)
  {
    out := df;
    if f.years != [] {
      out := Where(out, r => YearOk(r, f.years));
    } else {
      WhereAll(df, r => Admits(FilterSet(f.years, []), r));
    }
    WhereSame(df, r => YearOk(r, f.years), r => Admits(FilterSet(f.years, []), r));
    for i := 0 to |f.stages|
      invariant out == Select(df, FilterSet(f.years, f.stages[..i]))
    {
      var st := f.stages[i];
      var before := FilterSet(f.years, f.stages[..i]);
      var after := FilterSet(f.years, f.stages[..i + 1]);
      WhereTwice(df, r => Admits(before, r), r => StageOk(r, st), r => Admits(after, r));
      out := Where(out, r => StageOk(r, st));
    }
    assert f.stages[..|f.stages|] == f.stages;
  }

  /** With no years and no stages the filters keep every row, in order. */
  lemma NoFiltersKeepAll(df: seq<Scored>)
    ensures Select(df, FilterSet([], [])) == df
  {
    WhereAll(df, r => Admits(FilterSet([], []), r));
  }

  lemma {:induction false} WhereIsSubsequence(rows: seq<Scored>, p: Record -> bool)
    ensures IsSubsequence(Where(rows, p), rows)
    decreases |rows|
  {
    if rows != [] {
      WhereIsSubsequence(rows[1..], p);
      var w := Where(rows, p);
      if p(rows[0].rec) {
        assert w == [rows[0]] + Where(rows[1..], p);
        assert w[0] == rows[0] && w[1..] == Where(rows[1..], p);
      } else {
        assert w == Where(rows[1..], p);
      }
    }
  }

  lemma {:induction false} WhereMembership(rows: seq<Scored>, p: Record -> bool, e: Scored)
    ensures e in Where(rows, p) <==> e in rows && p(e.rec)
    decreases |rows|
  {
    if rows != [] {
      WhereMembership(rows[1..], p, e);
    }
  }

  /** The filters only remove rows and keep the survivors' relative order;
      a row survives exactly when it meets the year condition and every stage
      condition. */
  lemma FilterProperties(df: seq<Scored>, f: FilterSet)
    ensures IsSubsequence(Select(df, f), df)
    ensures forall e :: e in Select(df, f) <==> e in df && Admits(f, e.rec)
  {
    WhereIsSubsequence(df, r => Admits(f, r));
    forall e
      ensures e in Select(df, f) <==> e in df && Admits(f, e.rec)
    {
      WhereMembership(df, r => Admits(f, r), e);
    }
  }

  // =====================================================================
  // Identifier alignment

  /** Position r holds the last occurrence of x in ids. */
  predicate IsLastIndex(ids: seq<string>, x: string, r: nat) {
    r < |ids| && ids[r] == x && forall q | r < q < |ids| :: ids[q] != x
  }

  /** What the id-to-row dict holds: every identifier of the corpus, mapped to
      the position of its last occurrence (a later row overwrites an earlier one). */
  ghost predicate IsIdMap(ids: seq<string>, m: map<string, nat>) {
    && (forall x :: x in m <==> x in ids)
    && (forall x | x in m :: IsLastIndex(ids, x, m[x]))
  }

  /** {row_id: i for i, row_id in enumerate(ids)} */
  method BuildIdToRow(ids: seq<string>) returns (m: map<string, nat>)
    ensures IsIdMap(ids, m)
  {
    m := map[];
    for i := 0 to |ids|
      invariant forall x :: x in m <==> x in ids[..i]
      invariant forall x | x in m :: IsLastIndex(ids[..i], x, m[x])
    {
      m := m[ids[i] := i];
      assert ids[..i + 1] == ids[..i] + [ids[i]];
    }
    assert ids[..|ids|] == ids;
  }

  lemma IdMapRows(ids: seq<string>, m: map<string, nat>)
    requires IsIdMap(ids, m)
    ensures forall x | x in m :: m[x] < |ids|
  {
  }

  /** The slot writes done by a scatter loop, in loop order: (slot, value).
      A skipped iteration is written as slot -1, which no row has. */
  type Writes = seq<(int, real)>

  /** The value a zero-initialised slot holds after the writes: the last write
      to it wins. */
  function SlotValue(w: Writes, j: nat): real
    decreases |w|
  {
    if w == [] then 0.0
    else if w[|w| - 1].0 == j then w[|w| - 1].1
    else SlotValue(w[..|w| - 1], j)
  }

  /** An n-slot zero vector after the writes. */
  function Applied(n: nat, w: Writes): (v: seq<real>)
    ensures |v| == n
  {
    seq(n, j requires 0 <= j < n => SlotValue(w, j))
  }

  /** The last write to slot j decides its value. */
  lemma {:induction false} SlotValueLast(w: Writes, j: nat, t: nat)
    requires t < |w| && w[t].0 == j
    requires forall u | t < u < |w| :: w[u].0 != j
    ensures SlotValue(w, j) == w[t].1
    decreases |w|
  {
    if t < |w| - 1 {
      SlotValueLast(w[..|w| - 1], j, t);
    }
  }

  /** A slot nobody writes stays 0. */
  lemma {:induction false} SlotValueUntouched(w: Writes, j: nat)
    requires forall u | 0 <= u < |w| :: w[u].0 != j
    ensures SlotValue(w, j) == 0.0
    decreases |w|
  {
    if w != [] {
      SlotValueUntouched(w[..|w| - 1], j);
    }
  }

  /** The writes of a scatter loop whose u-th iteration looks up keys[u] in the
      id-to-row dict (None: the iteration is skipped) and stores vals[u]. */
  function KeyedWrites(idToRow: map<string, nat>, keys: seq<Option<string>>, vals: seq<real>): Writes {
    seq(|keys|, u requires 0 <= u < |keys| =>
      (if keys[u].Some? && keys[u].value in idToRow then idToRow[keys[u].value] as int else -1,
       if u < |vals| then vals[u] else 0.0))
  }

  /** Iteration t is the last one that names identifier x. */
  predicate IsLastKey(keys: seq<Option<string>>, x: string, t: nat) {
    t < |keys| && keys[t] == Some(x) && forall u | t < u < |keys| :: keys[u] != Some(x)
  }

  /** Identifier alignment of a scatter loop: the row holding the last
      occurrence of an identifier receives the value stored by the last
      iteration naming that identifier; a row whose identifier no iteration
      names, or that is not the last row with its identifier, keeps 0. */
  lemma AlignedSlot(ids: seq<string>, idToRow: map<string, nat>, keys: seq<Option<string>>, vals: seq<real>, r: nat)
    requires IsIdMap(ids, idToRow)
    requires |keys| <= |vals|
    requires forall u | 0 <= u < |keys| && keys[u].Some? :: keys[u].value in idToRow
    requires r < |ids|
    ensures forall t: nat | IsLastIndex(ids, ids[r], r) && IsLastKey(keys, ids[r], t) ::
              Applied(|ids|, KeyedWrites(idToRow, keys, vals))[r] == vals[t]
    ensures (!IsLastIndex(ids, ids[r], r) || Some(ids[r]) !in keys) ==>
              Applied(|ids|, KeyedWrites(idToRow, keys, vals))[r] == 0.0
  {
    var w := KeyedWrites(idToRow, keys, vals);
    // A write lands in row r exactly when its key is the identifier whose last row is r.
    assert forall u | 0 <= u < |keys| :: w[u].0 == r <==> (keys[u] == Some(ids[r]) && IsLastIndex(ids, ids[r], r));
    forall t: nat | IsLastIndex(ids, ids[r], r) && IsLastKey(keys, ids[r], t)
      ensures Applied(|ids|, w)[r] == vals[t]
    {
      SlotValueLast(w, r, t);
    }
    if !IsLastIndex(ids, ids[r], r) || Some(ids[r]) !in keys {
      SlotValueUntouched(w, r);
    }
  }

  // ---------------------------------------------------------------------
  // The BM25 scatter loop

  /** Iteration t of the BM25 loop raises: the score list is too short (the
      right-hand side is read first), or the identifier is not in the corpus. */
  predicate Bm25FailsAt(idToRow: map<string, nat>, idsB: seq<string>, scores: seq<real>, t: nat)
    requires t < |idsB|
  {
    t >= |scores| || idsB[t] !in idToRow
  }

  function Bm25Error(idToRow: map<string, nat>, idsB: seq<string>, scores: seq<real>, t: nat): SearchError
    requires t < |idsB|
  {
    if t >= |scores| then IndexError else KeyError(idsB[t])
  }

  predicate Bm25Ok(idToRow: map<string, nat>, idsB: seq<string>, scores: seq<real>) {
    forall t | 0 <= t < |idsB| :: !Bm25FailsAt(idToRow, idsB, scores, t)
  }

  function Bm25Keys(idsB: seq<string>): seq<Option<string>> {
    seq(|idsB|, t requires 0 <= t < |idsB| => Some(idsB[t]))
  }

  /** bm25_vec: a zero vector with one slot per corpus row, and for each
      identifier of the BM25 index, its score written to the identifier's row. */
  method ScatterBm25(idToRow: map<string, nat>, n: nat, idsB: seq<string>, scores: seq<real>)
    returns (res: Result<seq<real>, SearchError>)
    requires forall x | x in idToRow :: idToRow[x] < n
    ensures res.Ok? <==> Bm25Ok(idToRow, idsB, scores)
    ensures res.Ok? ==> |idsB| <= |scores| && res.value == Applied(n, KeyedWrites(idToRow, Bm25Keys(idsB), scores))
    ensures res.Err? ==> exists t | 0 <= t < |idsB| ::
              && Bm25FailsAt(idToRow, idsB, scores, t)
              && (forall u | 0 <= u < t :: !Bm25FailsAt(idToRow, idsB, scores, u))
              && res.error == Bm25Error(idToRow, idsB, scores, t)
  {
    var vec := new real[n](_ => 0.0);
    for t := 0 to |idsB|
      invariant forall u | 0 <= u < t :: !Bm25FailsAt(idToRow, idsB, scores, u)
      invariant t <= |scores| || |idsB| == 0
      invariant forall j | 0 <= j < n :: vec[j] == SlotValue(KeyedWrites(idToRow, Bm25Keys(idsB[..t]), scores), j)
    {
      if t >= |scores| {
        assert Bm25FailsAt(idToRow, idsB, scores, t);
        return Err(IndexError);
      }
      if idsB[t] !in idToRow {
        assert Bm25FailsAt(idToRow, idsB, scores, t);
        return Err(KeyError(idsB[t]));
      }
      ghost var before := KeyedWrites(idToRow, Bm25Keys(idsB[..t]), scores);
      ghost var after := KeyedWrites(idToRow, Bm25Keys(idsB[..t + 1]), scores);
      assert after[..t] == before;
      vec[idToRow[idsB[t]]] := scores[t];
    }
    assert idsB[..|idsB|] == idsB;
    if |idsB| > 0 {
      assert !Bm25FailsAt(idToRow, idsB, scores, |idsB| - 1);
    }
    return Ok(vec[..]);
  }

  // ---------------------------------------------------------------------
  // The nearest-neighbour scatter loop

  /** Iteration `rank` of the embedding loop raises: the position is past the
      identifier list, the distance row is too short, or the identifier is not
      in the corpus. A negative position (no neighbour) is skipped. */
  predicate EmbedFailsAt(idToRow: map<string, nat>, idsE: seq<string>, dist: seq<real>, nbrs: seq<int>, rank: nat)
    requires rank < |nbrs|
  {
    nbrs[rank] >= 0 && (nbrs[rank] >= |idsE| || rank >= |dist| || idsE[nbrs[rank]] !in idToRow)
  }

  function EmbedError(idToRow: map<string, nat>, idsE: seq<string>, dist: seq<real>, nbrs: seq<int>, rank: nat): SearchError
    requires rank < |nbrs| && 0 <= nbrs[rank]
  {
    if nbrs[rank] >= |idsE| || rank >= |dist| then IndexError else KeyError(idsE[nbrs[rank]])
  }

  predicate EmbedOk(idToRow: map<string, nat>, idsE: seq<string>, dist: seq<real>, nbrs: seq<int>) {
    forall rank | 0 <= rank < |nbrs| :: !EmbedFailsAt(idToRow, idsE, dist, nbrs, rank)
  }

  /** The identifier each iteration of the embedding loop names (None: skipped). */
  function EmbedKeys(idsE: seq<string>, nbrs: seq<int>): seq<Option<string>> {
    seq(|nbrs|, rank requires 0 <= rank < |nbrs| =>
      if 0 <= nbrs[rank] < |idsE| then Some(idsE[nbrs[rank]]) else None)
  }

  /** The distance list, read only where a neighbour is present. */
  function EmbedValues(dist: seq<real>, nbrs: seq<int>): seq<real> {
    seq(|nbrs|, rank requires 0 <= rank < |nbrs| => if rank < |dist| then dist[rank] else 0.0)
  }

  /** embed_vec: a zero vector with one slot per corpus row, and for each
      neighbour the search returned, its inner product written to its row. */
  method ScatterEmbed(idToRow: map<string, nat>, n: nat, idsE: seq<string>, dist: seq<real>, nbrs: seq<int>)
    returns (res: Result<seq<real>, SearchError>)
    requires forall x | x in idToRow :: idToRow[x] < n
    ensures res.Ok? <==> EmbedOk(idToRow, idsE, dist, nbrs)
    ensures res.Ok? ==> res.value == Applied(n, KeyedWrites(idToRow, EmbedKeys(idsE, nbrs), EmbedValues(dist, nbrs)))
    ensures res.Err? ==> exists rank | 0 <= rank < |nbrs| ::
              && EmbedFailsAt(idToRow, idsE, dist, nbrs, rank)
              && (forall u | 0 <= u < rank :: !EmbedFailsAt(idToRow, idsE, dist, nbrs, u))
              && res.error == EmbedError(idToRow, idsE, dist, nbrs, rank)
  {
    var vec := new real[n](_ => 0.0);
    ghost var vals := EmbedValues(dist, nbrs);
    for rank := 0 to |nbrs|
      invariant forall u | 0 <= u < rank :: !EmbedFailsAt(idToRow, idsE, dist, nbrs, u)
      invariant forall j | 0 <= j < n :: vec[j] == SlotValue(KeyedWrites(idToRow, EmbedKeys(idsE, nbrs[..rank]), vals), j)
    {
      ghost var before := KeyedWrites(idToRow, EmbedKeys(idsE, nbrs[..rank]), vals);
      ghost var after := KeyedWrites(idToRow, EmbedKeys(idsE, nbrs[..rank + 1]), vals);
      if nbrs[rank] < 0 {
        assert after == before + [(-1, vals[rank])];
        continue;
      }
      if nbrs[rank] >= |idsE| {
        assert EmbedFailsAt(idToRow, idsE, dist, nbrs, rank);
        return Err(IndexError);
      }
      var docId := idsE[nbrs[rank]];
      if rank >= |dist| {
        assert EmbedFailsAt(idToRow, idsE, dist, nbrs, rank);
        return Err(IndexError);
      }
      if docId !in idToRow {
        assert EmbedFailsAt(idToRow, idsE, dist, nbrs, rank);
        return Err(KeyError(docId));
      }
      assert after == before + [(idToRow[docId] as int, dist[rank])];
      vec[idToRow[docId]] := dist[rank];
    }
    assert nbrs[..|nbrs|] == nbrs;
    return Ok(vec[..]);
  }

  // =====================================================================
  // Scaling and fusion

  /** ndarray.max() of a non-empty vector. */
  function MaxOf(v: seq<real>): (m: real)
    requires v != []
    ensures m in v
    ensures forall j | 0 <= j < |v| :: v[j] <= m
    decreases |v|
  {
    if |v| == 1 then v[0]
    else
      var rest := MaxOf(v[1..]);
      if v[0] >= rest then v[0] else rest
  }

  /** `v.max() or 1`: the maximum, or 1 when the maximum is 0. */
  function Divisor(v: seq<real>): real
    requires v != []
  {
    if MaxOf(v) == 0.0 then 1.0 else MaxOf(v)
  }

  /** v / (v.max() or 1) */
  function Scale(v: seq<real>): (s: seq<real>)
    requires v != []
    ensures |s| == |v|
  {
    seq(|v|, j requires 0 <= j < |v| => v[j] / Divisor(v))
  }

  /** a * scaled bm25 + b * scaled embedding, row by row. */
  function Fuse(a: real, b: real, bm: seq<real>, em: seq<real>): (s: seq<real>)
    requires |bm| == |em| > 0
    ensures |s| == |bm|
  {
    seq(|bm|, j requires 0 <= j < |bm| => a * Scale(bm)[j] + b * Scale(em)[j])
  }

  predicate NonNegative(v: seq<real>) {
    forall j | 0 <= j < |v| :: v[j] >= 0.0
  }

  lemma DivideByMax(x: real, m: real)
    requires 0.0 <= x <= m && m > 0.0
    ensures 0.0 <= x / m <= 1.0
    ensures x == m ==> x / m == 1.0
  {
    assert (x / m) * m == x;
  }

  /** For a non-negative vector every scaled entry lies in [0, 1], and when
      the maximum is positive the maximal entries scale to exactly 1. */
  lemma ScaleBounds(v: seq<real>)
    requires v != [] && NonNegative(v)
    ensures forall j | 0 <= j < |v| :: 0.0 <= Scale(v)[j] <= 1.0
    ensures MaxOf(v) > 0.0 ==> forall j | 0 <= j < |v| && v[j] == MaxOf(v) :: Scale(v)[j] == 1.0
    ensures MaxOf(v) == 0.0 ==> forall j | 0 <= j < |v| :: Scale(v)[j] == 0.0
  {
    var m := MaxOf(v);
    forall j | 0 <= j < |v|
      ensures 0.0 <= Scale(v)[j] <= 1.0
      ensures m > 0.0 && v[j] == m ==> Scale(v)[j] == 1.0
      ensures m == 0.0 ==> Scale(v)[j] == 0.0
    {
      assert Scale(v)[j] == v[j] / Divisor(v);
      if m > 0.0 {
        DivideByMax(v[j], m);
      } else {
        assert v[j] == 0.0;
      }
    }
  }

  lemma DivideByNegative(x: real, m: real)
    requires x <= m < 0.0
    ensures x / m >= 1.0
  {
    var d := x / m;
    assert d * m == x;
    assert (d - 1.0) * m <= 0.0;
  }

  /** The code divides by the maximum, not by the range: a vector whose
      entries are all negative is divided by a negative number, and every
      scaled entry is then at least 1. */
  lemma ScaleNegativeMax(v: seq<real>)
    requires v != [] && MaxOf(v) < 0.0
    ensures forall j | 0 <= j < |v| :: Scale(v)[j] >= 1.0
  {
    var m := MaxOf(v);
    forall j | 0 <= j < |v|
      ensures Scale(v)[j] >= 1.0
    {
      assert Divisor(v) == m;
      DivideByNegative(v[j], m);
    }
  }

  /** With non-negative weights and non-negative raw scores, every fused score
      lies in [0, a + b]. */
  lemma FuseBounds(a: real, b: real, bm: seq<real>, em: seq<real>)
    requires a >= 0.0 && b >= 0.0
    requires |bm| == |em| > 0 && NonNegative(bm) && NonNegative(em)
    ensures forall j | 0 <= j < |bm| :: 0.0 <= Fuse(a, b, bm, em)[j] <= a + b
  {
    ScaleBounds(bm);
    ScaleBounds(em);
    forall j | 0 <= j < |bm|
      ensures 0.0 <= Fuse(a, b, bm, em)[j] <= a + b
    {
      WeightedSum(a, b, Scale(bm)[j], Scale(em)[j]);
    }
  }

  lemma WeightedUnit(a: real, x: real)
    requires a >= 0.0 && 0.0 <= x <= 1.0
    ensures 0.0 <= a * x <= a
  {
    assert a * (1.0 - x) >= 0.0;
  }

  lemma WeightedSum(a: real, b: real, x: real, y: real)
    requires a >= 0.0 && b >= 0.0 && 0.0 <= x <= 1.0 && 0.0 <= y <= 1.0
    ensures 0.0 <= a * x + b * y <= a + b
  {
    WeightedUnit(a, x);
    WeightedUnit(b, y);
    var p, q := a * x, b * y;
    assert 0.0 <= p <= a && 0.0 <= q <= b;
    assert p + q == a * x + b * y;
  }

  // =====================================================================
  // Ranking: sort by score descending, keep the first k

  predicate SortedDesc(s: seq<Scored>) {
    forall i, j | 0 <= i < j < |s| :: s[i].score >= s[j].score
  }

  /** Inserts x before the first row scoring no more than it. */
  function Insert(x: Scored, s: seq<Scored>): seq<Scored>
    decreases |s|
  {
    if s == [] then [x]
    else if x.score >= s[0].score then [x] + s
    else [s[0]] + Insert(x, s[1..])
  }

  /** sort_values('score', ascending=False), as a stable insertion sort.
      Pandas' quicksort is not stable, so this fixes one of the orders it
      may give tied rows; SortDescProperties and TopKProperties state only
      what holds for every order. */
  function SortDesc(s: seq<Scored>): seq<Scored>
    decreases |s|
  {
    if s == [] then [] else Insert(s[0], SortDesc(s[1..]))
  }

  lemma SortedCons(h: Scored, t: seq<Scored>)
    requires SortedDesc(t) && (t != [] ==> h.score >= t[0].score)
    ensures SortedDesc([h] + t)
  {
    var r := [h] + t;
    forall i, j | 0 <= i < j < |r|
      ensures r[i].score >= r[j].score
    {
      if i == 0 {
        assert r[j] == t[j - 1];
      } else {
        assert r[i] == t[i - 1] && r[j] == t[j - 1];
      }
    }
  }

  lemma {:induction false} InsertProperties(x: Scored, s: seq<Scored>)
    requires SortedDesc(s)
    ensures SortedDesc(Insert(x, s))
    ensures multiset(Insert(x, s)) == multiset(s) + multiset{x}
    ensures Insert(x, s)[0] == x || (s != [] && Insert(x, s)[0] == s[0])
    decreases |s|
  {
    if s == [] {
    } else if x.score >= s[0].score {
      SortedCons(x, s);
    } else {
      assert SortedDesc(s[1..]);
      InsertProperties(x, s[1..]);
      var rest := Insert(x, s[1..]);
      assert rest[0].score <= s[0].score;
      SortedCons(s[0], rest);
      assert s == [s[0]] + s[1..];
    }
  }

  /** Sorting yields a descending permutation of its input. */
  lemma {:induction false} SortDescProperties(s: seq<Scored>)
    ensures SortedDesc(SortDesc(s))
    ensures multiset(SortDesc(s)) == multiset(s)
    decreases |s|
  {
    if s != [] {
      SortDescProperties(s[1..]);
      InsertProperties(s[0], SortDesc(s[1..]));
      assert s == [s[0]] + s[1..];
    }
  }

  /** .sort_values('score', ascending=False).head(k) */
  function TopK(cands: seq<Scored>, k: int): seq<Scored> {
    PyPrefix(SortDesc(cands), k)
  }

  /** The top-k rows are sorted descending, are drawn from the candidates,
      number min(k, n) for k >= 0, and every candidate left out scores no
      higher than every one kept. */
  lemma TopKProperties(cands: seq<Scored>, k: int)
    ensures SortedDesc(TopK(cands, k))
    ensures multiset(TopK(cands, k)) <= multiset(cands)
    ensures k >= 0 ==> |TopK(cands, k)| == if k <= |cands| then k else |cands|
    ensures forall e | e in multiset(cands) - multiset(TopK(cands, k)) ::
              forall i | 0 <= i < |TopK(cands, k)| :: e.score <= TopK(cands, k)[i].score
  {
    SortDescProperties(cands);
    var sorted := SortDesc(cands);
    var r := TopK(cands, k);
    var rest := sorted[|r|..];
    assert sorted == r + rest;
    assert multiset(cands) == multiset(r) + multiset(rest);
    assert |sorted| == |cands| by {
      assert |multiset(sorted)| == |multiset(cands)|;
    }
    assert SortedDesc(r) by {
      assert forall i | 0 <= i < |r| :: r[i] == sorted[i];
    }
    forall e | e in multiset(cands) - multiset(r)
      ensures forall i | 0 <= i < |r| :: e.score <= r[i].score
    {
      assert e in multiset(rest);
      PrefixDominates(sorted, |r|, e);
    }
  }

  lemma PrefixDominates(sorted: seq<Scored>, n: nat, e: Scored)
    requires SortedDesc(sorted) && n <= |sorted| && e in sorted[n..]
    ensures forall i | 0 <= i < n :: e.score <= sorted[..n][i].score
  {
    var p :| 0 <= p < |sorted| - n && sorted[n..][p] == e;
    assert sorted[n + p] == e;
  }

  // =====================================================================
  // The two search paths

  function Ids(corpus: seq<Record>): seq<string> {
    seq(|corpus|, i requires 0 <= i < |corpus| => corpus[i].id)
  }

  /** The id-to-row dict as a value: each identifier mapped to its last row. */
  function LastIndex(ids: seq<string>, x: string): (r: nat)
    requires x in ids
    ensures IsLastIndex(ids, x, r)
    decreases |ids|
  {
    if ids[|ids| - 1] == x then |ids| - 1 else LastIndex(ids[..|ids| - 1], x)
  }

  function IdMapOf(ids: seq<string>): (m: map<string, nat>)
    ensures IsIdMap(ids, m)
  {
    map x | x in ids :: LastIndex(ids, x)
  }

  lemma LastIndexUnique(ids: seq<string>, x: string, a: nat, b: nat)
    requires IsLastIndex(ids, x, a) && IsLastIndex(ids, x, b)
    ensures a == b
  {
  }

  lemma IdMapUnique(ids: seq<string>, m: map<string, nat>)
    requires IsIdMap(ids, m)
    ensures m == IdMapOf(ids)
  {
    var m' := IdMapOf(ids);
    forall x | x in m
      ensures m[x] == m'[x]
    {
      LastIndexUnique(ids, x, m[x], m'[x]);
    }
  }

  /** Pairs each corpus row with its fused score. */
  function Zip(corpus: seq<Record>, scores: seq<real>): seq<Scored>
    requires |scores| == |corpus|
  {
    seq(|corpus|, i requires 0 <= i < |corpus| => Scored(corpus[i], scores[i]))
  }

  /** Every lookup of both scatter loops succeeds and the corpus is non-empty. */
  predicate LocalOk(corpus: seq<Record>, idsB: seq<string>, bm25Scores: seq<real>,
                    idsE: seq<string>, dist: seq<real>, nbrs: seq<int>)
  {
    var m := IdMapOf(Ids(corpus));
    Bm25Ok(m, idsB, bm25Scores) && EmbedOk(m, idsE, dist, nbrs) && |corpus| > 0
  }

  /** The fused score of every corpus row. */
  function FusedScores(corpus: seq<Record>, idsB: seq<string>, bm25Scores: seq<real>,
                       idsE: seq<string>, dist: seq<real>, nbrs: seq<int>, alpha: real, beta: real): (s: seq<real>)
    requires LocalOk(corpus, idsB, bm25Scores, idsE, dist, nbrs)
    ensures |s| == |corpus|
  {
    var m := IdMapOf(Ids(corpus));
    var bm := Applied(|corpus|, KeyedWrites(m, Bm25Keys(idsB), bm25Scores));
    var em := Applied(|corpus|, KeyedWrites(m, EmbedKeys(idsE, nbrs), EmbedValues(dist, nbrs)));
    Fuse(alpha, beta, bm, em)
  }

  /** The local branch of hybrid_search. `q` is the normalised query; the BM25
      scores for its tokens (`bm25Scores`, one per identifier in `idsB`) and the
      inner-product search over the whole corpus (distances `dist`, positions
      `nbrs` into `idsE`) are given. */
  method HybridLocal(q: string, corpus: seq<Record>,
                     idsB: seq<string>, bm25Scores: seq<real>,
                     idsE: seq<string>, dist: seq<real>, nbrs: seq<int>,
                     alpha: real, beta: real, k: int)
    returns (res: Result<seq<Scored>, SearchError>)
    ensures res.Ok? <==> LocalOk(corpus, idsB, bm25Scores, idsE, dist, nbrs)
    ensures res.Ok? ==> (res.value ==
      TopK(Select(Zip(corpus, FusedScores(corpus, idsB, bm25Scores, idsE, dist, nbrs, alpha, beta)),
                  FilterSet(Years(Lower(q)), Stages(Lower(q)))), k))
    ensures res.Err? ==> (res.error == EmptyReduction <==>
              Bm25Ok(IdMapOf(Ids(corpus)), idsB, bm25Scores) && EmbedOk(IdMapOf(Ids(corpus)), idsE, dist, nbrs))
  {
    var f := ExtractFilters(q);
    var n := |corpus|;
    var idToRow := BuildIdToRow(Ids(corpus));
    IdMapUnique(Ids(corpus), idToRow);
    var bm := ScatterBm25(idToRow, n, idsB, bm25Scores);
    if bm.Err? {
      return Err(bm.error);
    }
    var em := ScatterEmbed(idToRow, n, idsE, dist, nbrs);
    if em.Err? {
      return Err(em.error);
    }
    if n == 0 {
      return Err(EmptyReduction);
    }
    var scores := Fuse(alpha, beta, bm.value, em.value);
    var kept := ApplyFilters(Zip(corpus, scores), f);
    return Ok(TopK(kept, k));
  }

  /** The local result keeps at most k rows, sorted by score, each meeting the
      filters; with filters that no row meets it is empty (there is no fallback). */
  lemma LocalResultProperties(cands: seq<Scored>, f: FilterSet, k: int)
    ensures k >= 0 ==> |TopK(Select(cands, f), k)| <= k
    ensures SortedDesc(TopK(Select(cands, f), k))
    ensures forall e | e in TopK(Select(cands, f), k) :: Admits(f, e.rec)
    ensures (forall i | 0 <= i < |cands| :: !Admits(f, cands[i].rec)) ==> TopK(Select(cands, f), k) == []
  {
    var sel := Select(cands, f);
    var r := TopK(sel, k);
    FilterProperties(cands, f);
    TopKProperties(sel, k);
    forall e | e in r
      ensures Admits(f, e.rec)
    {
      assert e in multiset(r);
      assert e in multiset(sel);
    }
    if sel != [] {
      assert sel[0] in cands && Admits(f, sel[0].rec);
    }
  }

  /** The remote branch of hybrid_search: ask the backend for 2k hits, filter
      them the same way and keep the first k, in the backend's order. An empty
      hit list gives a frame without columns, so any filter then raises KeyError. */
  method HybridRemote(q: string, k: int, backend: (string, int) -> seq<Scored>)
    returns (res: Result<seq<Scored>, SearchError>)
    ensures var f := FilterSet(Years(Lower(q)), Stages(Lower(q)));
            var hits := backend(q, 2 * k);
            && (res.Err? <==> hits == [] && (f.years != [] || f.stages != []))
            && (res.Ok? ==> res.value == PyPrefix(Select(hits, f), k))
  {
    var f := ExtractFilters(q);
    var hits := backend(q, k * 2);
    if hits == [] && f.years != [] {
      return Err(KeyError("year"));
    }
    if hits == [] && f.stages != [] {
      return Err(KeyError("point"));
    }
    var kept := ApplyFilters(hits, f);
    return Ok(PyPrefix(kept, k));
  }

  /** The remote result has at most k hits, each meeting the filters, and they
      are the first filtered hits in the backend's order. */
  lemma RemoteResultProperties(hits: seq<Scored>, f: FilterSet, k: int)
    ensures k >= 0 ==> |PyPrefix(Select(hits, f), k)| <= k
    ensures forall e | e in PyPrefix(Select(hits, f), k) :: e in hits && Admits(f, e.rec)
    ensures IsSubsequence(PyPrefix(Select(hits, f), k), hits)
  {
    var sel := Select(hits, f);
    var r := PyPrefix(sel, k);
    FilterProperties(hits, f);
    PrefixOfSubsequence(r, sel, hits);
  }

  lemma {:induction false} PrefixOfSubsequence<T>(r: seq<T>, a: seq<T>, b: seq<T>)
    requires |r| <= |a| && r == a[..|r|] && IsSubsequence(a, b)
    ensures IsSubsequence(r, b)
    decreases |b|
  {
    if r != [] && b != [] {
      if a[0] == b[0] && IsSubsequence(a[1..], b[1..]) {
        PrefixOfSubsequence(r[1..], a[1..], b[1..]);
      } else {
        PrefixOfSubsequence(r, a, b[1..]);
      }
    }
  }
}
