/** Option and Result, the shapes in which the model reports a missing value
    or an exception raised by the Python code, and two Python sequence notions. */
module Common {

  datatype Option<+T> = None | Some(value: T)

  datatype Result<+T, +E> = Ok(value: T) | Err(error: E)

  /** s[:k] with Python's slice semantics, which is also DataFrame.head(k):
      a negative k drops items from the end. */
  function PyPrefix<T>(s: seq<T>, k: int): (r: seq<T>)
    ensures |r| <= |s| && r == s[..|r|]
    ensures k >= 0 ==> |r| == if k <= |s| then k else |s|
  {
    if k >= 0 then (if k <= |s| then s[..k] else s)
    else if |s| + k >= 0 then s[..|s| + k] else []
  }

  /** `a` is obtained from `b` by deleting elements. */
  predicate IsSubsequence<T(==)>(a: seq<T>, b: seq<T>)
    decreases |b|
  {
    if a == [] then true
    else if b == [] then false
    else (a[0] == b[0] && IsSubsequence(a[1..], b[1..])) || IsSubsequence(a, b[1..])
  }

  /** The items whose flag is set, in their order: the list that a run of
      `if flag: out.append(item)` statements builds. */
  function Flagged<T(==)>(flags: seq<bool>, items: seq<T>): seq<T>
    requires |flags| == |items|
    decreases |items|
  {
    if items == [] then []
    else (if flags[0] then [items[0]] else []) + Flagged(flags[1..], items[1..])
  }

  /** Flagged keeps the items' order and holds exactly the flagged items. */
  lemma {:induction false} FlaggedProperties<T>(flags: seq<bool>, items: seq<T>)
    requires |flags| == |items|
    ensures IsSubsequence(Flagged(flags, items), items)
    ensures forall i | 0 <= i < |items| && flags[i] :: items[i] in Flagged(flags, items)
    ensures forall x | x in Flagged(flags, items) :: exists i | 0 <= i < |items| :: flags[i] && items[i] == x
    decreases |items|
  {
    if items != [] {
      var rest := Flagged(flags[1..], items[1..]);
      FlaggedProperties(flags[1..], items[1..]);
      var r := Flagged(flags, items);
      if flags[0] {
        assert r[0] == items[0] && r[1..] == rest;
      } else {
        assert r == rest;
      }
      forall i | 0 <= i < |items| && flags[i]
        ensures items[i] in r
      {
        if i > 0 {
          assert items[i] == items[1..][i - 1] && flags[1..][i - 1];
        }
      }
      forall x | x in r
        ensures exists i | 0 <= i < |items| :: flags[i] && items[i] == x
      {
        if !(flags[0] && x == items[0]) {
          assert x in rest;
          var j :| 0 <= j < |items| - 1 && flags[1..][j] && items[1..][j] == x;
          assert flags[j + 1] && items[j + 1] == x;
        }
      }
    }
  }

  /** With distinct items, an item is kept exactly when its flag is set. */
  lemma FlaggedMember<T>(flags: seq<bool>, items: seq<T>, i: int)
    requires |flags| == |items| && 0 <= i < |items|
    requires forall j | 0 <= j < |items| && j != i :: items[j] != items[i]
    ensures items[i] in Flagged(flags, items) <==> flags[i]
  {
    FlaggedProperties(flags, items);
  }

  /** With no item listed twice, each item is kept exactly when its flag is set. */
  lemma FlaggedMembers<T>(flags: seq<bool>, items: seq<T>)
    requires |flags| == |items|
    requires forall i, j | 0 <= i < |items| && 0 <= j < |items| && i != j :: items[i] != items[j]
    ensures forall i | 0 <= i < |items| :: items[i] in Flagged(flags, items) <==> flags[i]
  {
    forall i | 0 <= i < |items|
      ensures items[i] in Flagged(flags, items) <==> flags[i]
    {
      FlaggedMember(flags, items, i);
    }
  }

  /** FlaggedMembers for six listed, distinct items. */
  lemma FlaggedSixMembers<T>(flags: seq<bool>, items: seq<T>, x0: T, x1: T, x2: T, x3: T, x4: T, x5: T)
    requires |flags| == 6 && items == [x0, x1, x2, x3, x4, x5]
    requires forall i, j | 0 <= i < |items| && 0 <= j < |items| && i != j :: items[i] != items[j]
    ensures var t := Flagged(flags, items);
      && (x0 in t <==> flags[0]) && (x1 in t <==> flags[1]) && (x2 in t <==> flags[2])
      && (x3 in t <==> flags[3]) && (x4 in t <==> flags[4]) && (x5 in t <==> flags[5])
  {
    FlaggedMembers(flags, items);
    assert items[0] == x0 && items[1] == x1 && items[2] == x2 && items[3] == x3 && items[4] == x4 && items[5] == x5;
  }

  /** FlaggedMembers for four listed, distinct items. */
  lemma FlaggedFourMembers<T>(flags: seq<bool>, items: seq<T>, x0: T, x1: T, x2: T, x3: T)
    requires |flags| == 4 && items == [x0, x1, x2, x3]
    requires forall i, j | 0 <= i < |items| && 0 <= j < |items| && i != j :: items[i] != items[j]
    ensures var t := Flagged(flags, items);
      && (x0 in t <==> flags[0]) && (x1 in t <==> flags[1]) && (x2 in t <==> flags[2]) && (x3 in t <==> flags[3])
  {
    FlaggedMembers(flags, items);
    assert items[0] == x0 && items[1] == x1 && items[2] == x2 && items[3] == x3;
  }

  /** Flagged grows at the end the way a list of appends does. */
  lemma {:induction false} FlaggedSnoc<T>(flags: seq<bool>, items: seq<T>, b: bool, x: T)
    requires |flags| == |items|
    ensures Flagged(flags + [b], items + [x]) == Flagged(flags, items) + Opt(b, x)
    decreases |items|
  {
    if items == [] {
      assert (flags + [b])[1..] == [] && (items + [x])[1..] == [];
    } else {
      assert (flags + [b])[1..] == flags[1..] + [b];
      assert (items + [x])[1..] == items[1..] + [x];
      FlaggedSnoc(flags[1..], items[1..], b, x);
    }
  }

  /** One item when its flag holds, nothing otherwise. */
  function Opt<T>(b: bool, x: T): (r: seq<T>)
    ensures |r| <= 1 && (x in r <==> b)
  {
    if b then [x] else []
  }

  /** `if b: items.append(x)` */
  method AppendIf<T>(items: seq<T>, b: bool, x: T) returns (r: seq<T>)
    ensures r == items + Opt(b, x)
  {
    r := items;
    if b {
      r := r + [x];
    }
  }

  /** The first three items, flagged, are the first three optional appends. */
  lemma FlaggedThree<T>(flags: seq<bool>, items: seq<T>)
    requires |flags| == |items| >= 3
    ensures Flagged(flags[..3], items[..3]) == Opt(flags[0], items[0]) + Opt(flags[1], items[1]) + Opt(flags[2], items[2])
  {
    var f, o := flags, items;
    FlaggedFrom(f, o, 0, []);
    FlaggedFrom(f, o, 1, Opt(f[0], o[0]));
    FlaggedFrom(f, o, 2, Opt(f[0], o[0]) + Opt(f[1], o[1]));
  }

  /** Over four items, Flagged is the four optional appends in order. */
  lemma FlaggedFour<T>(flags: seq<bool>, items: seq<T>)
    requires |flags| == |items| == 4
    ensures Flagged(flags, items) == Opt(flags[0], items[0]) + Opt(flags[1], items[1]) + Opt(flags[2], items[2]) + Opt(flags[3], items[3])
  {
    var f, o := flags, items;
    FlaggedThree(f, o);
    FlaggedFrom(f, o, 3, Opt(f[0], o[0]) + Opt(f[1], o[1]) + Opt(f[2], o[2]));
    assert f[..4] == f && o[..4] == o;
  }

  /** Over six items, Flagged is the six optional appends in order. */
  lemma FlaggedSix<T>(flags: seq<bool>, items: seq<T>)
    requires |flags| == |items| == 6
    ensures Flagged(flags, items) == Opt(flags[0], items[0]) + Opt(flags[1], items[1]) + Opt(flags[2], items[2])
                                     + Opt(flags[3], items[3]) + Opt(flags[4], items[4]) + Opt(flags[5], items[5])
  {
    var f, o := flags, items;
    FlaggedThree(f, o);
    var a3 := Opt(f[0], o[0]) + Opt(f[1], o[1]) + Opt(f[2], o[2]);
    FlaggedFrom(f, o, 3, a3);
    FlaggedFrom(f, o, 4, a3 + Opt(f[3], o[3]));
    FlaggedFrom(f, o, 5, a3 + Opt(f[3], o[3]) + Opt(f[4], o[4]));
    assert f[..6] == f && o[..6] == o;
  }

  /** An append step from a known prefix. */
  lemma FlaggedFrom<T>(flags: seq<bool>, items: seq<T>, k: int, acc: seq<T>)
    requires |flags| == |items| && 0 <= k < |items|
    requires Flagged(flags[..k], items[..k]) == acc
    ensures Flagged(flags[..k + 1], items[..k + 1]) == acc + Opt(flags[k], items[k])
  {
    FlaggedPrefix(flags, items, k);
  }

  /** A prefix one longer is the shorter prefix and one more element. */
  lemma PrefixSnoc<T>(s: seq<T>, i: nat)
    requires i < |s|
    ensures s[..i + 1] == s[..i] + [s[i]]
  {
  }

  /** One more append step: the first k + 1 items, flagged. */
  lemma FlaggedPrefix<T>(flags: seq<bool>, items: seq<T>, k: int)
    requires |flags| == |items| && 0 <= k < |items|
    ensures Flagged(flags[..k + 1], items[..k + 1]) == Flagged(flags[..k], items[..k]) + Opt(flags[k], items[k])
  {
    assert flags[..k + 1] == flags[..k] + [flags[k]];
    assert items[..k + 1] == items[..k] + [items[k]];
    FlaggedSnoc(flags[..k], items[..k], flags[k], items[k]);
  }
}
