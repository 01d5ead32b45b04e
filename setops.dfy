/** `setoperations.py`: set algebra on data frames through `pd.merge`. A
    frame is its column names and its rows of cell text. Without keyword
    arguments the frames are merged on whole rows; `on` names one key
    column of both frames, and `left_on`/`right_on` one key column of each.
    A merged row records which sides it came from, as pandas' `_merge`
    indicator does. */
module SetOperations {
  import opened Wrappers
  import opened EdaTools

  type Row = seq<string>

  datatype Frame = Frame(columns: seq<string>, rows: seq<Row>)

  /** A row of a merge: a left row and a right row whose keys agree, or a
      row of one side that matched nothing on the other. */
  datatype Merged = Both(left: Row, right: Row) | LeftOnly(left: Row) | RightOnly(right: Row)

  /** The cells of `row` at the given column positions: the key a merge
      compares. */
  function KeyOf(row: Row, cols: seq<nat>): (k: seq<string>)
    ensures |k| == |cols|
  {
    if cols == [] then [] else [if cols[0] < |row| then row[cols[0]] else ""] + KeyOf(row, cols[1..])
  }

  /** The keyword arguments read as a choice of key columns. */
  datatype Selection = WholeRows | Keys(left: seq<string>, right: seq<string>)

  const KwargsMessage := "acceptable keyword args are 'on', or 'left_on' and 'right_on'"

  /** The dispatch every operation starts with: no keyword arguments, then
      `on`, then `left_on` with `right_on`; anything else is a ValueError.
      Other keyword arguments beside these are ignored. */
  function Dispatch(kwargs: map<string, seq<string>>): (r: Result<Selection>)
    ensures r.Err? <==> kwargs != map[] && "on" !in kwargs && !("left_on" in kwargs && "right_on" in kwargs)
    ensures r.Err? ==> r.error == ValueError(KwargsMessage)
    ensures r == Ok(WholeRows) <==> kwargs == map[]
    ensures "on" in kwargs ==> r == Ok(Keys(kwargs["on"], kwargs["on"]))
    ensures "on" !in kwargs && "left_on" in kwargs && "right_on" in kwargs ==> r == Ok(Keys(kwargs["left_on"], kwargs["right_on"]))
  {
    if kwargs == map[] then Ok(WholeRows)
    else if "on" in kwargs then Ok(Keys(kwargs["on"], kwargs["on"]))
    else if "left_on" in kwargs && "right_on" in kwargs then Ok(Keys(kwargs["left_on"], kwargs["right_on"]))
    else Err(ValueError(KwargsMessage))
  }

  /** The columns of `a` that `b` also has, in `a`'s order. */
  function Common(a: seq<string>, b: seq<string>): (c: seq<string>)
    ensures forall n :: n in c <==> n in a && n in b
  {
    if a == [] then [] else (if a[0] in b then [a[0]] else []) + Common(a[1..], b)
  }

  /** The positions of the named columns. */
  function Positions(cols: seq<string>, names: seq<string>): (ps: seq<nat>)
    requires forall n :: n in names ==> n in cols
    ensures |ps| == |names|
    ensures forall i :: 0 <= i < |names| ==> ps[i] < |cols| && cols[ps[i]] == names[i]
  {
    if names == [] then [] else [IndexOf(cols, names[0])] + Positions(cols, names[1..])
  }

  /** The first named column a frame lacks. */
  function Missing(cols: seq<string>, names: seq<string>): (r: Option<string>)
    ensures r.None? <==> forall n :: n in names ==> n in cols
    ensures r.Some? ==> r.value in names && r.value !in cols
  {
    if names == [] then None
    else if names[0] !in cols then Some(names[0])
    else Missing(cols, names[1..])
  }

  /** The key columns looked up in the frames. Without keywords pandas
      merges on the columns the frames share, and raises when they share
      none; a key column a frame lacks is a KeyError; key lists of
      different lengths are a ValueError. */
  function Resolve(a: Frame, b: Frame, sel: Selection): (r: Result<(seq<nat>, seq<nat>)>)
    ensures sel.WholeRows? ==> (r.Ok? <==> Common(a.columns, b.columns) != [])
    ensures sel.Keys? ==>
              (r.Ok? <==> (|sel.left| == |sel.right| &&
                           (forall n :: n in sel.left ==> n in a.columns) &&
                           (forall n :: n in sel.right ==> n in b.columns)))
    ensures r.Ok? ==> |r.value.0| == |r.value.1|
  {
    match sel
    case WholeRows =>
      var common := Common(a.columns, b.columns);
      if common == [] then Err(RaisedException("No common columns to perform merge on"))
      else Ok((Positions(a.columns, common), Positions(b.columns, common)))
    case Keys(l, rk) =>
      if |l| != |rk| then Err(ValueError("len(right_on) must equal len(left_on)"))
      else if Missing(a.columns, l).Some? then Err(KeyError(Missing(a.columns, l).value))
      else if Missing(b.columns, rk).Some? then Err(KeyError(Missing(b.columns, rk).value))
      else Ok((Positions(a.columns, l), Positions(b.columns, rk)))
  }

  // ---------------------------------------------------------------------------
  // Merges on row sequences

  /** The rows of `b` whose key agrees with `x`'s, in order. */
  function Matches(x: Row, b: seq<Row>, ka: seq<nat>, kb: seq<nat>): (m: seq<Row>)
  {
    if b == [] then []
    else (if KeyOf(b[0], kb) == KeyOf(x, ka) then [b[0]] else []) + Matches(x, b[1..], ka, kb)
  }

  function PairWith(x: Row, ys: seq<Row>): (r: seq<Merged>)
    ensures |r| == |ys|
    ensures forall i :: 0 <= i < |ys| ==> r[i] == Both(x, ys[i])
  {
    if ys == [] then [] else [Both(x, ys[0])] + PairWith(x, ys[1..])
  }

  /** `how='inner'`: each left row with each right row of the same key, in
      left order. */
  function Inner(a: seq<Row>, b: seq<Row>, ka: seq<nat>, kb: seq<nat>): seq<Merged>
  {
    if a == [] then [] else PairWith(a[0], Matches(a[0], b, ka, kb)) + Inner(a[1..], b, ka, kb)
  }

  /** Does some row of `a` have the key of the right row `y`? */
  predicate Matched(y: Row, a: seq<Row>, ka: seq<nat>, kb: seq<nat>)
  {
    exists x :: x in a && KeyOf(x, ka) == KeyOf(y, kb)
  }

  /** The left rows with no partner, each once per occurrence. */
  function LeftUnmatched(a: seq<Row>, b: seq<Row>, ka: seq<nat>, kb: seq<nat>): (r: seq<Merged>)
  {
    if a == [] then []
    else (if Matches(a[0], b, ka, kb) == [] then [LeftOnly(a[0])] else []) + LeftUnmatched(a[1..], b, ka, kb)
  }

  /** The right rows with no partner. */
  function RightUnmatched(a: seq<Row>, b: seq<Row>, ka: seq<nat>, kb: seq<nat>): (r: seq<Merged>)
  {
    if b == [] then []
    else (if Matched(b[0], a, ka, kb) then [] else [RightOnly(b[0])]) + RightUnmatched(a, b[1..], ka, kb)
  }

  /** `how='outer'`: each left row with its partners, or alone when it has
      none, then the right rows that have no partner. */
  function OuterLeft(a: seq<Row>, b: seq<Row>, ka: seq<nat>, kb: seq<nat>): seq<Merged>
  {
    if a == [] then [] else OuterRows(a[0], b, ka, kb) + OuterLeft(a[1..], b, ka, kb)
  }

  /** The outer-merge rows of one left row. */
  function OuterRows(x: Row, b: seq<Row>, ka: seq<nat>, kb: seq<nat>): seq<Merged>
  {
    var ms := Matches(x, b, ka, kb);
    if ms == [] then [LeftOnly(x)] else PairWith(x, ms)
  }

  function Outer(a: seq<Row>, b: seq<Row>, ka: seq<nat>, kb: seq<nat>): seq<Merged>
  {
    OuterLeft(a, b, ka, kb) + RightUnmatched(a, b, ka, kb)
  }

  /** `.query('_merge == "left_only"')` */
  function LeftOnlyRows(ms: seq<Merged>): (r: seq<Merged>)
  {
    if ms == [] then [] else (if ms[0].LeftOnly? then [ms[0]] else []) + LeftOnlyRows(ms[1..])
  }

  /** `drop_duplicates(keep=False)`: the rows that occur exactly once, in
      order. */
  function DropAllDuplicates(ms: seq<Merged>): (r: seq<Merged>)
  {
    Unique(ms, ms)
  }

  function Unique(ms: seq<Merged>, all: seq<Merged>): (r: seq<Merged>)
  {
    if ms == [] then [] else (if multiset(all)[ms[0]] == 1 then [ms[0]] else []) + Unique(ms[1..], all)
  }

  // ---------------------------------------------------------------------------
  // The operations

  /** `SetIntersection(adf, bdf, **kwargs)` */
  function SetIntersection(a: Frame, b: Frame, kwargs: map<string, seq<string>>): (r: Result<seq<Merged>>)
    ensures Dispatch(kwargs).Err? ==> r == Err(ValueError(KwargsMessage))
  {
    var sel :- Dispatch(kwargs);
    var ks :- Resolve(a, b, sel);
    Ok(Inner(a.rows, b.rows, ks.0, ks.1))
  }

  /** `SetUnion(adf, bdf, **kwargs)` */
  function SetUnion(a: Frame, b: Frame, kwargs: map<string, seq<string>>): (r: Result<seq<Merged>>)
    ensures Dispatch(kwargs).Err? ==> r == Err(ValueError(KwargsMessage))
  {
    var sel :- Dispatch(kwargs);
    var ks :- Resolve(a, b, sel);
    Ok(Outer(a.rows, b.rows, ks.0, ks.1))
  }

  /** `SetDifference(adf, bdf, **kwargs)`: the left-only rows of the outer
      merge. */
  function SetDifference(a: Frame, b: Frame, kwargs: map<string, seq<string>>): (r: Result<seq<Merged>>)
    ensures Dispatch(kwargs).Err? ==> r == Err(ValueError(KwargsMessage))
  {
    var sel :- Dispatch(kwargs);
    var ks :- Resolve(a, b, sel);
    Ok(LeftOnlyRows(Outer(a.rows, b.rows, ks.0, ks.1)))
  }

  /** `SetSymmetricDifference(adf, bdf, **kwargs)`: the union and the
      intersection put together, keeping only rows that occur once. */
  function SetSymmetricDifference(a: Frame, b: Frame, kwargs: map<string, seq<string>>): (r: Result<seq<Merged>>)
    ensures Dispatch(kwargs).Err? ==> r == Err(ValueError(KwargsMessage))
  {
    var outer :- SetUnion(a, b, kwargs);
    var inner :- SetIntersection(a, b, kwargs);
    Ok(DropAllDuplicates(outer + inner))
  }

  /** `FilterToInclude(adf, bdf, on)`: the rows of `adf` whose `on` cell is
      among `bdf`'s, in order. */
  function FilterToInclude(a: Frame, b: Frame, on: string): (r: Result<seq<Row>>)
  {
    if on !in a.columns then Err(KeyError(on))
    else if on !in b.columns then Err(KeyError(on))
    else Ok(Included(a.rows, KeyColumn(b.rows, IndexOf(b.columns, on)), IndexOf(a.columns, on), true))
  }

  /** `FilterToExclude(adf, bdf, on)`: the other rows of `adf`. */
  function FilterToExclude(a: Frame, b: Frame, on: string): (r: Result<seq<Row>>)
  {
    if on !in a.columns then Err(KeyError(on))
    else if on !in b.columns then Err(KeyError(on))
    else Ok(Included(a.rows, KeyColumn(b.rows, IndexOf(b.columns, on)), IndexOf(a.columns, on), false))
  }

  /** The cells of one column. */
  function KeyColumn(rows: seq<Row>, i: nat): (ks: seq<seq<string>>)
    ensures |ks| == |rows|
    ensures forall k :: 0 <= k < |rows| ==> ks[k] == KeyOf(rows[k], [i])
  {
    if rows == [] then [] else [KeyOf(rows[0], [i])] + KeyColumn(rows[1..], i)
  }

  /** The rows whose key is (`keep`) or is not (`!keep`) among `keys`. */
  function Included(rows: seq<Row>, keys: seq<seq<string>>, i: nat, keep: bool): seq<Row>
  {
    if rows == [] then []
    else (if (KeyOf(rows[0], [i]) in keys) == keep then [rows[0]] else []) + Included(rows[1..], keys, i, keep)
  }

  // ---------------------------------------------------------------------------
  // Properties

  /** Kwargs that are neither `on` nor both `left_on` and `right_on` make
      every operation raise ValueError. */
  lemma BadKwargsRaise(a: Frame, b: Frame, kwargs: map<string, seq<string>>)
    requires kwargs != map[] && "on" !in kwargs && !("left_on" in kwargs && "right_on" in kwargs)
    ensures SetIntersection(a, b, kwargs) == Err(ValueError(KwargsMessage))
    ensures SetUnion(a, b, kwargs) == Err(ValueError(KwargsMessage))
    ensures SetDifference(a, b, kwargs) == Err(ValueError(KwargsMessage))
    ensures SetSymmetricDifference(a, b, kwargs) == Err(ValueError(KwargsMessage))
  {
  }

  /** The partners of a row are the right rows with its key. */
  lemma {:induction false} MatchesMembers(x: Row, b: seq<Row>, ka: seq<nat>, kb: seq<nat>)
    ensures forall y :: y in Matches(x, b, ka, kb) <==> y in b && KeyOf(y, kb) == KeyOf(x, ka)
  {
    if b != [] {
      MatchesMembers(x, b[1..], ka, kb);
      assert forall y :: y in b <==> y == b[0] || y in b[1..];
    }
  }

  /** The unmatched left rows are the left rows without partners. */
  lemma {:induction false} LeftUnmatchedMembers(a: seq<Row>, b: seq<Row>, ka: seq<nat>, kb: seq<nat>)
    ensures forall x :: LeftOnly(x) in LeftUnmatched(a, b, ka, kb) <==> x in a && Matches(x, b, ka, kb) == []
    ensures forall m :: m in LeftUnmatched(a, b, ka, kb) ==> m.LeftOnly?
  {
    if a != [] {
      LeftUnmatchedMembers(a[1..], b, ka, kb);
      assert forall x :: x in a <==> x == a[0] || x in a[1..];
    }
  }

  /** The unmatched right rows are the right rows that no left row
      matches. */
  lemma {:induction false} RightUnmatchedMembers(a: seq<Row>, b: seq<Row>, ka: seq<nat>, kb: seq<nat>)
    ensures forall y :: RightOnly(y) in RightUnmatched(a, b, ka, kb) <==> y in b && !Matched(y, a, ka, kb)
    ensures forall m :: m in RightUnmatched(a, b, ka, kb) ==> m.RightOnly?
  {
    if b != [] {
      RightUnmatchedMembers(a, b[1..], ka, kb);
      assert forall y :: y in b <==> y == b[0] || y in b[1..];
    }
  }

  /** `drop_duplicates(keep=False)` keeps exactly the rows that occur once. */
  lemma {:induction false} UniqueMembers(ms: seq<Merged>, all: seq<Merged>)
    ensures forall m :: m in Unique(ms, all) <==> m in ms && multiset(all)[m] == 1
  {
    if ms != [] {
      UniqueMembers(ms[1..], all);
      assert forall m :: m in ms <==> m == ms[0] || m in ms[1..];
    }
  }

  /** The inner merge holds exactly the pairs of a left and a right row
      with the same key. */
  lemma {:induction false} InnerMembers(a: seq<Row>, b: seq<Row>, ka: seq<nat>, kb: seq<nat>)
    ensures forall m :: m in Inner(a, b, ka, kb) <==> m.Both? && m.left in a && m.right in b && KeyOf(m.left, ka) == KeyOf(m.right, kb)
  {
    if a != [] {
      InnerMembers(a[1..], b, ka, kb);
      MatchesMembers(a[0], b, ka, kb);
      var p := PairWith(a[0], Matches(a[0], b, ka, kb));
      assert forall m :: m in p <==> m.Both? && m.left == a[0] && m.right in Matches(a[0], b, ka, kb) by {
        forall m: Merged | m in p ensures m.Both? && m.left == a[0] && m.right in Matches(a[0], b, ka, kb) {
          var i :| 0 <= i < |p| && p[i] == m;
        }
        forall m: Merged | m.Both? && m.left == a[0] && m.right in Matches(a[0], b, ka, kb) ensures m in p {
          var ms := Matches(a[0], b, ka, kb);
          var i :| 0 <= i < |ms| && ms[i] == m.right;
          assert p[i] == m;
        }
      }
      assert forall x :: x in a <==> x == a[0] || x in a[1..];
    }
  }

  /** The outer merge keeps each left row, with its partners or alone, and
      adds each right row that has no partner; its paired rows are exactly
      those of the inner merge. */
  lemma {:induction false} OuterLeftMembers(a: seq<Row>, b: seq<Row>, ka: seq<nat>, kb: seq<nat>)
    ensures forall m :: m in OuterLeft(a, b, ka, kb) && m.Both? <==> m in Inner(a, b, ka, kb)
    ensures forall m :: m in OuterLeft(a, b, ka, kb) && !m.Both? <==> m in LeftUnmatched(a, b, ka, kb)
  {
    if a != [] {
      OuterLeftMembers(a[1..], b, ka, kb);
      var ms := Matches(a[0], b, ka, kb);
      var p := PairWith(a[0], ms);
      assert forall m :: m in p ==> m.Both? by {
        forall m | m in p ensures m.Both? {
          var i :| 0 <= i < |p| && p[i] == m;
        }
      }
      assert ms != [] ==> LeftUnmatched(a, b, ka, kb) == LeftUnmatched(a[1..], b, ka, kb);
    }
  }

  /** The paired rows of the outer merge are those of the inner merge, and
      the others are the unmatched rows of either side. */
  lemma OuterMembers(a: seq<Row>, b: seq<Row>, ka: seq<nat>, kb: seq<nat>)
    ensures forall m :: m in Outer(a, b, ka, kb) && m.Both? <==> m in Inner(a, b, ka, kb)
    ensures forall x :: LeftOnly(x) in Outer(a, b, ka, kb) <==> x in a && Matches(x, b, ka, kb) == []
    ensures forall y :: RightOnly(y) in Outer(a, b, ka, kb) <==> y in b && !Matched(y, a, ka, kb)
  {
    OuterLeftMembers(a, b, ka, kb);
    LeftUnmatchedMembers(a, b, ka, kb);
    RightUnmatchedMembers(a, b, ka, kb);
    assert forall m :: m in Outer(a, b, ka, kb) <==> m in OuterLeft(a, b, ka, kb) || m in RightUnmatched(a, b, ka, kb);
  }

  /** A paired row occurs as often in the outer merge as in the inner one. */
  lemma {:induction false} OuterLeftCount(a: seq<Row>, b: seq<Row>, ka: seq<nat>, kb: seq<nat>, m: Merged)
    requires m.Both?
    ensures multiset(OuterLeft(a, b, ka, kb))[m] == multiset(Inner(a, b, ka, kb))[m]
  {
    if a != [] {
      OuterLeftCount(a[1..], b, ka, kb, m);
      var ms := Matches(a[0], b, ka, kb);
      if ms == [] {
        assert PairWith(a[0], ms) == [];
      }
    }
  }

  lemma RightUnmatchedNoPairs(a: seq<Row>, b: seq<Row>, ka: seq<nat>, kb: seq<nat>, m: Merged)
    requires m.Both?
    ensures multiset(RightUnmatched(a, b, ka, kb))[m] == 0
  {
    RightUnmatchedMembers(a, b, ka, kb);
  }

  /** The symmetric difference is the union without the intersection: no
      paired row survives, and an unmatched row survives when it occurs
      once in the union. */
  lemma SymmetricDifferenceMembers(a: Frame, b: Frame, kwargs: map<string, seq<string>>)
    requires SetSymmetricDifference(a, b, kwargs).Ok?
    ensures var outer := SetUnion(a, b, kwargs).value;
            forall m :: m in SetSymmetricDifference(a, b, kwargs).value <==> m in outer && !m.Both? && multiset(outer)[m] == 1
  {
    var sel := Dispatch(kwargs).value;
    var ks := Resolve(a, b, sel).value;
    var outer := Outer(a.rows, b.rows, ks.0, ks.1);
    var inner := Inner(a.rows, b.rows, ks.0, ks.1);
    assert SetUnion(a, b, kwargs) == Ok(outer);
    assert SetIntersection(a, b, kwargs) == Ok(inner);
    InnerMembers(a.rows, b.rows, ks.0, ks.1);
    UniqueMembers(outer + inner, outer + inner);
    forall m ensures multiset(outer + inner)[m] == 1 <==> m in outer && !m.Both? && multiset(outer)[m] == 1 {
      if m.Both? {
        OuterLeftCount(a.rows, b.rows, ks.0, ks.1, m);
        RightUnmatchedNoPairs(a.rows, b.rows, ks.0, ks.1, m);
        assert multiset(outer)[m] == multiset(inner)[m];
      } else {
        assert m !in inner;
      }
    }
  }

  /** `FilterToInclude` and `FilterToExclude` split the rows of `adf`: each
      row goes to exactly one of them, and both keep the original order. */
  lemma {:induction false} IncludedPartition(rows: seq<Row>, keys: seq<seq<string>>, i: nat)
    ensures |Included(rows, keys, i, true)| + |Included(rows, keys, i, false)| == |rows|
    ensures multiset(Included(rows, keys, i, true)) + multiset(Included(rows, keys, i, false)) == multiset(rows)
    ensures forall x :: x in Included(rows, keys, i, true) <==> x in rows && KeyOf(x, [i]) in keys
    ensures forall x :: x in Included(rows, keys, i, false) <==> x in rows && KeyOf(x, [i]) !in keys
  {
    if rows != [] {
      IncludedPartition(rows[1..], keys, i);
      assert rows == [rows[0]] + rows[1..];
    }
  }

  lemma FilterPartition(a: Frame, b: Frame, on: string)
    requires on in a.columns && on in b.columns
    ensures FilterToInclude(a, b, on).Ok? && FilterToExclude(a, b, on).Ok?
    ensures multiset(FilterToInclude(a, b, on).value) + multiset(FilterToExclude(a, b, on).value) == multiset(a.rows)
    ensures forall x :: x in FilterToInclude(a, b, on).value <==>
              x in a.rows && exists y :: y in b.rows && KeyOf(x, [IndexOf(a.columns, on)]) == KeyOf(y, [IndexOf(b.columns, on)])
  {
    var ks := KeyColumn(b.rows, IndexOf(b.columns, on));
    IncludedPartition(a.rows, ks, IndexOf(a.columns, on));
    forall x | x in a.rows
      ensures KeyOf(x, [IndexOf(a.columns, on)]) in ks <==>
              exists y :: y in b.rows && KeyOf(x, [IndexOf(a.columns, on)]) == KeyOf(y, [IndexOf(b.columns, on)])
    {
      var kx := KeyOf(x, [IndexOf(a.columns, on)]);
      if kx in ks {
        var k :| 0 <= k < |ks| && ks[k] == kx;
        assert b.rows[k] in b.rows;
      }
    }
  }

  /** The difference holds exactly the left rows that have no partner, in
      order: the left-only rows of the outer merge are those of its left
      part. */
  lemma {:induction false} LeftOnlyOfOuterLeft(a: seq<Row>, b: seq<Row>, ka: seq<nat>, kb: seq<nat>)
    ensures LeftOnlyRows(OuterLeft(a, b, ka, kb)) == LeftUnmatched(a, b, ka, kb)
  {
    if a != [] {
      LeftOnlyOfOuterLeft(a[1..], b, ka, kb);
      var ms := Matches(a[0], b, ka, kb);
      LeftOnlyConcat(OuterRows(a[0], b, ka, kb), OuterLeft(a[1..], b, ka, kb));
      if ms != [] {
        NoLeftOnly(PairWith(a[0], ms));
      }
    }
  }

  lemma {:induction false} LeftOnlyConcat(s: seq<Merged>, t: seq<Merged>)
    ensures LeftOnlyRows(s + t) == LeftOnlyRows(s) + LeftOnlyRows(t)
  {
    if s != [] {
      LeftOnlyConcat(s[1..], t);
      assert s + t == [s[0]] + (s[1..] + t);
      assert LeftOnlyRows(s + t) == (if s[0].LeftOnly? then [s[0]] else []) + LeftOnlyRows(s[1..] + t);
    } else {
      assert s + t == t;
    }
  }

  lemma {:induction false} NoLeftOnly(s: seq<Merged>)
    requires forall m :: m in s ==> !m.LeftOnly?
    ensures LeftOnlyRows(s) == []
  {
    if s != [] {
      NoLeftOnly(s[1..]);
    }
  }

  lemma OuterLeftOnly(a: seq<Row>, b: seq<Row>, ka: seq<nat>, kb: seq<nat>)
    ensures LeftOnlyRows(Outer(a, b, ka, kb)) == LeftUnmatched(a, b, ka, kb)
  {
    LeftOnlyConcat(OuterLeft(a, b, ka, kb), RightUnmatched(a, b, ka, kb));
    LeftOnlyOfOuterLeft(a, b, ka, kb);
    RightUnmatchedMembers(a, b, ka, kb);
    NoLeftOnly(RightUnmatched(a, b, ka, kb));
  }

  lemma DifferenceIsUnmatched(a: Frame, b: Frame, kwargs: map<string, seq<string>>)
    requires SetDifference(a, b, kwargs).Ok?
    ensures Dispatch(kwargs).Ok? && Resolve(a, b, Dispatch(kwargs).value).Ok?
    ensures var ks := Resolve(a, b, Dispatch(kwargs).value).value;
            SetDifference(a, b, kwargs).value == LeftUnmatched(a.rows, b.rows, ks.0, ks.1)
  {
    var ks := Resolve(a, b, Dispatch(kwargs).value).value;
    OuterLeftOnly(a.rows, b.rows, ks.0, ks.1);
    assert SetDifference(a, b, kwargs).value == LeftUnmatched(a.rows, b.rows, ks.0, ks.1);
  }

  // ---------------------------------------------------------------------------
  // The test frames

  /** `ydf` has the rows A1, B2, C3 and `zdf` the rows B2, C3, D4, both
      over the columns `x1`, `x2`. */
  predicate TestFrames(y: Frame, z: Frame, rA: Row, rB: Row, rC: Row, rD: Row)
  {
    |rA| == |rB| == |rC| == |rD| == 2 &&
    rA[0] == "A" && rB[0] == "B" && rC[0] == "C" && rD[0] == "D" &&
    y.columns == ["x1", "x2"] && z.columns == y.columns &&
    y.rows == [rA, rB, rC] && z.rows == [rB, rC, rD]
  }

  /** Without keywords both test frames are merged on both columns, so a
      row is its own key. */
  lemma TestKeys(y: Frame, z: Frame, rA: Row, rB: Row, rC: Row, rD: Row)
    requires TestFrames(y, z, rA, rB, rC, rD)
    ensures Resolve(y, z, WholeRows) == Ok(([0, 1], [0, 1])) && Resolve(z, y, WholeRows) == Ok(([0, 1], [0, 1]))
    ensures DistinctKeys(rA, rB, rC, rD, [0, 1])
  {
    TwoColumns(y.columns);
    WholeKey(rA); WholeKey(rB); WholeKey(rC); WholeKey(rD);
  }

  predicate DistinctKeys(rA: Row, rB: Row, rC: Row, rD: Row, k: seq<nat>)
  {
    KeyOf(rA, k) != KeyOf(rB, k) && KeyOf(rA, k) != KeyOf(rC, k) && KeyOf(rA, k) != KeyOf(rD, k) &&
    KeyOf(rB, k) != KeyOf(rC, k) && KeyOf(rB, k) != KeyOf(rD, k) && KeyOf(rC, k) != KeyOf(rD, k)
  }

  /** `test_SetIntersection0`, `test_SetUnion` and the first difference. */
  lemma TestIntersectionUnion(y: Frame, z: Frame, rA: Row, rB: Row, rC: Row, rD: Row)
    requires TestFrames(y, z, rA, rB, rC, rD)
    ensures SetIntersection(y, z, map[]) == Ok([Both(rB, rB), Both(rC, rC)])
    ensures SetUnion(y, z, map[]) == Ok([LeftOnly(rA), Both(rB, rB), Both(rC, rC), RightOnly(rD)])
  {
    TestKeys(y, z, rA, rB, rC, rD);
    ExampleMerges(rA, rB, rC, rD, [0, 1]);
  }

  /** `test_SetDifference0` and `test_SetDifference1`: the difference is
      not symmetric. */
  lemma TestDifferences(y: Frame, z: Frame, rA: Row, rB: Row, rC: Row, rD: Row)
    requires TestFrames(y, z, rA, rB, rC, rD)
    ensures SetDifference(y, z, map[]) == Ok([LeftOnly(rA)])
    ensures SetDifference(z, y, map[]) == Ok([LeftOnly(rD)])
  {
    TestKeys(y, z, rA, rB, rC, rD);
    var k := [0, 1];
    OuterLeftOnly(y.rows, z.rows, k, k);
    OuterLeftOnly(z.rows, y.rows, k, k);
    ExampleUnmatched(rA, rB, rC, rD, k);
  }

  /** `test_SetSymmetricDifference` */
  lemma TestSymmetricDifference(y: Frame, z: Frame, rA: Row, rB: Row, rC: Row, rD: Row)
    requires TestFrames(y, z, rA, rB, rC, rD)
    ensures SetSymmetricDifference(y, z, map[]) == Ok([LeftOnly(rA), RightOnly(rD)])
  {
    TestIntersectionUnion(y, z, rA, rB, rC, rD);
    var outer := [LeftOnly(rA), Both(rB, rB), Both(rC, rC), RightOnly(rD)];
    var inner := [Both(rB, rB), Both(rC, rC)];
    assert rB != rC by {
      assert rB[0] != rC[0];
    }
    ExampleDrop(outer + inner, rA, rB, rC, rD);
  }

  /** `test_SetIntersectionThrows` */
  lemma TestThrows(y: Frame, z: Frame, foo: string)
    requires foo == "foo"
    ensures SetIntersection(y, z, map[foo := ["x1"]]) == Err(ValueError(KwargsMessage))
  {
    var kwargs := map[foo := ["x1"]];
    assert |foo| == 3 && foo in kwargs && kwargs.Keys == {foo};
  }

  // ---------------------------------------------------------------------------
  // Proof scaffolding for the `Test*` lemmas above: the `Example*` lemmas
  // evaluate the merges on the four test rows, and the `*3` lemmas unfold the
  // recursive definitions over a three-row frame. They model nothing of their
  // own.

  /** The merges of the test frames, for rows whose keys differ. */
  lemma ExampleMerges(rA: Row, rB: Row, rC: Row, rD: Row, k: seq<nat>)
    requires DistinctKeys(rA, rB, rC, rD, k)
    ensures Inner([rA, rB, rC], [rB, rC, rD], k, k) == [Both(rB, rB), Both(rC, rC)]
    ensures Outer([rA, rB, rC], [rB, rC, rD], k, k) == [LeftOnly(rA), Both(rB, rB), Both(rC, rC), RightOnly(rD)]
  {
    ExampleInner(rA, rB, rC, rD, k);
    ExampleOuterLeft(rA, rB, rC, rD, k);
    ExampleRightUnmatched(rA, rB, rC, rD, k);
  }

  lemma ExampleInner(rA: Row, rB: Row, rC: Row, rD: Row, k: seq<nat>)
    requires DistinctKeys(rA, rB, rC, rD, k)
    ensures Inner([rA, rB, rC], [rB, rC, rD], k, k) == [Both(rB, rB), Both(rC, rC)]
  {
    var b := [rB, rC, rD];
    assert Matches(rA, b, k, k) == [] && Matches(rB, b, k, k) == [rB] && Matches(rC, b, k, k) == [rC] by {
      ExampleMatches(rA, rB, rC, rD, k);
    }
    assert PairWith(rB, [rB]) == [Both(rB, rB)] && PairWith(rC, [rC]) == [Both(rC, rC)];
    Inner3(rA, rB, rC, b, k, k);
  }

  lemma ExampleOuterLeft(rA: Row, rB: Row, rC: Row, rD: Row, k: seq<nat>)
    requires DistinctKeys(rA, rB, rC, rD, k)
    ensures OuterLeft([rA, rB, rC], [rB, rC, rD], k, k) == [LeftOnly(rA), Both(rB, rB), Both(rC, rC)]
  {
    var b := [rB, rC, rD];
    assert Matches(rA, b, k, k) == [] && Matches(rB, b, k, k) == [rB] && Matches(rC, b, k, k) == [rC] by {
      ExampleMatches(rA, rB, rC, rD, k);
    }
    assert PairWith(rB, [rB]) == [Both(rB, rB)] && PairWith(rC, [rC]) == [Both(rC, rC)];
    OuterLeft3(rA, rB, rC, b, k, k);
  }

  lemma ExampleRightUnmatched(rA: Row, rB: Row, rC: Row, rD: Row, k: seq<nat>)
    requires DistinctKeys(rA, rB, rC, rD, k)
    ensures RightUnmatched([rA, rB, rC], [rB, rC, rD], k, k) == [RightOnly(rD)]
  {
    var a := [rA, rB, rC];
    assert Matched(rB, a, k, k) && Matched(rC, a, k, k) by {
      assert rB in a && rC in a;
    }
    RightUnmatched3(a, rB, rC, rD, k, k);
  }

  lemma ExampleMatches(rA: Row, rB: Row, rC: Row, rD: Row, k: seq<nat>)
    requires DistinctKeys(rA, rB, rC, rD, k)
    ensures Matches(rA, [rB, rC, rD], k, k) == []
    ensures Matches(rB, [rB, rC, rD], k, k) == [rB]
    ensures Matches(rC, [rB, rC, rD], k, k) == [rC]
    ensures Matches(rB, [rA, rB, rC], k, k) == [rB]
    ensures Matches(rC, [rA, rB, rC], k, k) == [rC]
    ensures Matches(rD, [rA, rB, rC], k, k) == []
  {
    Matches3(rA, rB, rC, rD, k, k);
    Matches3(rB, rB, rC, rD, k, k);
    Matches3(rC, rB, rC, rD, k, k);
    Matches3(rB, rA, rB, rC, k, k);
    Matches3(rC, rA, rB, rC, k, k);
    Matches3(rD, rA, rB, rC, k, k);
  }

  lemma ExampleUnmatched(rA: Row, rB: Row, rC: Row, rD: Row, k: seq<nat>)
    requires DistinctKeys(rA, rB, rC, rD, k)
    ensures LeftUnmatched([rA, rB, rC], [rB, rC, rD], k, k) == [LeftOnly(rA)]
    ensures LeftUnmatched([rB, rC, rD], [rA, rB, rC], k, k) == [LeftOnly(rD)]
  {
    ExampleMatches(rA, rB, rC, rD, k);
    LeftUnmatched3(rA, rB, rC, [rB, rC, rD], k, k);
    LeftUnmatched3(rB, rC, rD, [rA, rB, rC], k, k);
  }

  lemma Matches3(x: Row, y1: Row, y2: Row, y3: Row, ka: seq<nat>, kb: seq<nat>)
    ensures Matches(x, [y1, y2, y3], ka, kb) ==
              (if KeyOf(y1, kb) == KeyOf(x, ka) then [y1] else []) +
              (if KeyOf(y2, kb) == KeyOf(x, ka) then [y2] else []) +
              (if KeyOf(y3, kb) == KeyOf(x, ka) then [y3] else [])
  {
    assert Matches(x, [y1, y2, y3], ka, kb) == (if KeyOf(y1, kb) == KeyOf(x, ka) then [y1] else []) + Matches(x, [y2, y3], ka, kb) by {
      Split3(y1, y2, y3);
    }
    assert Matches(x, [y2, y3], ka, kb) == (if KeyOf(y2, kb) == KeyOf(x, ka) then [y2] else []) + Matches(x, [y3], ka, kb) by {
      Split3(y1, y2, y3);
    }
    assert Matches(x, [y3], ka, kb) == (if KeyOf(y3, kb) == KeyOf(x, ka) then [y3] else []) by {
      Split3(y1, y2, y3);
    }
  }

  /** A three-element sequence literal taken apart from the front. */
  lemma Split3<T>(x1: T, x2: T, x3: T)
    ensures [x1, x2, x3][1..] == [x2, x3] && [x2, x3][1..] == [x3] && [x3][1..] == []
  {
  }

  lemma Inner3(x1: Row, x2: Row, x3: Row, b: seq<Row>, ka: seq<nat>, kb: seq<nat>)
    ensures Inner([x1, x2, x3], b, ka, kb) ==
              PairWith(x1, Matches(x1, b, ka, kb)) + PairWith(x2, Matches(x2, b, ka, kb)) + PairWith(x3, Matches(x3, b, ka, kb))
  {
    assert Inner([x1, x2, x3], b, ka, kb) == PairWith(x1, Matches(x1, b, ka, kb)) + Inner([x2, x3], b, ka, kb) by {
      Split3(x1, x2, x3);
    }
    assert Inner([x2, x3], b, ka, kb) == PairWith(x2, Matches(x2, b, ka, kb)) + Inner([x3], b, ka, kb) by {
      Split3(x1, x2, x3);
    }
    assert Inner([x3], b, ka, kb) == PairWith(x3, Matches(x3, b, ka, kb)) by {
      Split3(x1, x2, x3);
    }
  }

  lemma OuterLeft3(x1: Row, x2: Row, x3: Row, b: seq<Row>, ka: seq<nat>, kb: seq<nat>)
    ensures OuterLeft([x1, x2, x3], b, ka, kb) == OuterRows(x1, b, ka, kb) + OuterRows(x2, b, ka, kb) + OuterRows(x3, b, ka, kb)
  {
    assert OuterLeft([x1, x2, x3], b, ka, kb) == OuterRows(x1, b, ka, kb) + OuterLeft([x2, x3], b, ka, kb) by {
      Split3(x1, x2, x3);
    }
    assert OuterLeft([x2, x3], b, ka, kb) == OuterRows(x2, b, ka, kb) + OuterLeft([x3], b, ka, kb) by {
      Split3(x1, x2, x3);
    }
    assert OuterLeft([x3], b, ka, kb) == OuterRows(x3, b, ka, kb) by {
      Split3(x1, x2, x3);
    }
  }

  lemma LeftUnmatched3(x1: Row, x2: Row, x3: Row, b: seq<Row>, ka: seq<nat>, kb: seq<nat>)
    ensures LeftUnmatched([x1, x2, x3], b, ka, kb) ==
              (if Matches(x1, b, ka, kb) == [] then [LeftOnly(x1)] else []) +
              (if Matches(x2, b, ka, kb) == [] then [LeftOnly(x2)] else []) +
              (if Matches(x3, b, ka, kb) == [] then [LeftOnly(x3)] else [])
  {
    assert LeftUnmatched([x1, x2, x3], b, ka, kb) ==
      (if Matches(x1, b, ka, kb) == [] then [LeftOnly(x1)] else []) + LeftUnmatched([x2, x3], b, ka, kb) by {
      Split3(x1, x2, x3);
    }
    assert LeftUnmatched([x2, x3], b, ka, kb) ==
      (if Matches(x2, b, ka, kb) == [] then [LeftOnly(x2)] else []) + LeftUnmatched([x3], b, ka, kb) by {
      Split3(x1, x2, x3);
    }
    assert LeftUnmatched([x3], b, ka, kb) == (if Matches(x3, b, ka, kb) == [] then [LeftOnly(x3)] else []) by {
      Split3(x1, x2, x3);
    }
  }

  lemma RightUnmatched3(a: seq<Row>, y1: Row, y2: Row, y3: Row, ka: seq<nat>, kb: seq<nat>)
    ensures RightUnmatched(a, [y1, y2, y3], ka, kb) ==
              (if Matched(y1, a, ka, kb) then [] else [RightOnly(y1)]) +
              (if Matched(y2, a, ka, kb) then [] else [RightOnly(y2)]) +
              (if Matched(y3, a, ka, kb) then [] else [RightOnly(y3)])
  {
    assert RightUnmatched(a, [y1, y2, y3], ka, kb) ==
      (if Matched(y1, a, ka, kb) then [] else [RightOnly(y1)]) + RightUnmatched(a, [y2, y3], ka, kb) by {
      Split3(y1, y2, y3);
    }
    assert RightUnmatched(a, [y2, y3], ka, kb) ==
      (if Matched(y2, a, ka, kb) then [] else [RightOnly(y2)]) + RightUnmatched(a, [y3], ka, kb) by {
      Split3(y1, y2, y3);
    }
    assert RightUnmatched(a, [y3], ka, kb) == (if Matched(y3, a, ka, kb) then [] else [RightOnly(y3)]) by {
      Split3(y1, y2, y3);
    }
  }

  lemma ExampleDrop(s: seq<Merged>, rA: Row, rB: Row, rC: Row, rD: Row)
    requires s == [LeftOnly(rA), Both(rB, rB), Both(rC, rC), RightOnly(rD), Both(rB, rB), Both(rC, rC)]
    requires rB != rC
    ensures DropAllDuplicates(s) == [LeftOnly(rA), RightOnly(rD)]
  {
    DropCounts(s, rA, rB, rC, rD);
    DropMiddle(s, rA, rB, rC, rD);
    assert s[0] == LeftOnly(rA);
    assert Unique(s, s) == [LeftOnly(rA)] + [RightOnly(rD)];
  }

  lemma DropMiddle(s: seq<Merged>, rA: Row, rB: Row, rC: Row, rD: Row)
    requires s == [LeftOnly(rA), Both(rB, rB), Both(rC, rC), RightOnly(rD), Both(rB, rB), Both(rC, rC)]
    requires rB != rC
    ensures Unique(s[1..], s) == [RightOnly(rD)]
  {
    DropCounts(s, rA, rB, rC, rD);
    DropTail(s, rA, rB, rC, rD);
    assert Unique(s[2..], s) == [RightOnly(rD)];
  }

  lemma DropTail(s: seq<Merged>, rA: Row, rB: Row, rC: Row, rD: Row)
    requires s == [LeftOnly(rA), Both(rB, rB), Both(rC, rC), RightOnly(rD), Both(rB, rB), Both(rC, rC)]
    requires rB != rC
    ensures Unique(s[3..], s) == [RightOnly(rD)]
  {
    DropCounts(s, rA, rB, rC, rD);
    assert Unique(s[5..], s) == [];
    assert Unique(s[4..], s) == [];
  }

  lemma DropCounts(s: seq<Merged>, rA: Row, rB: Row, rC: Row, rD: Row)
    requires s == [LeftOnly(rA), Both(rB, rB), Both(rC, rC), RightOnly(rD), Both(rB, rB), Both(rC, rC)]
    requires rB != rC
    ensures multiset(s)[LeftOnly(rA)] == 1 && multiset(s)[RightOnly(rD)] == 1
    ensures multiset(s)[Both(rB, rB)] == 2 && multiset(s)[Both(rC, rC)] == 2
  {
    var m := multiset{LeftOnly(rA), RightOnly(rD)} + multiset{Both(rB, rB), Both(rB, rB)} + multiset{Both(rC, rC), Both(rC, rC)};
    assert multiset(s) == m;
  }

  /** Two frames with the columns `x1`, `x2` are merged on both. */
  lemma TwoColumns(c: seq<string>)
    requires c == ["x1", "x2"]
    ensures Common(c, c) == c && Positions(c, c) == [0, 1]
  {
    assert Common(c[1..], c) == ["x2"];
  }

  lemma WholeKey(r: Row)
    requires |r| == 2
    ensures KeyOf(r, [0, 1]) == r
  {
  }

  /** `adf` has the rows A1, B2, C3 over `x1`, `x2`; `bdf` has rows keyed
      A, B, D over `x1`, `x3`. */
  predicate FilterFrames(a: Frame, b: Frame, rA: Row, rB: Row, rC: Row, sA: Row, sB: Row, sD: Row)
  {
    |rA| == |rB| == |rC| == |sA| == |sB| == |sD| == 2 &&
    rA[0] == "A" && rB[0] == "B" && rC[0] == "C" && sA[0] == "A" && sB[0] == "B" && sD[0] == "D" &&
    a.columns == ["x1", "x2"] && b.columns == ["x1", "x3"] &&
    a.rows == [rA, rB, rC] && b.rows == [sA, sB, sD]
  }

  /** `test_FilterToInclude` and `test_FilterToExclude` */
  lemma TestFilters(a: Frame, b: Frame, on: string, rA: Row, rB: Row, rC: Row, sA: Row, sB: Row, sD: Row)
    requires FilterFrames(a, b, rA, rB, rC, sA, sB, sD) && on == "x1"
    ensures FilterToInclude(a, b, on) == Ok([rA, rB])
    ensures FilterToExclude(a, b, on) == Ok([rC])
  {
    assert on in a.columns && IndexOf(a.columns, on) == 0 by {
      assert a.columns[0] == on;
    }
    assert on in b.columns && IndexOf(b.columns, on) == 0 by {
      assert b.columns[0] == on;
    }
    var keys := KeyColumn(b.rows, 0);
    assert keys == [["A"], ["B"], ["D"]] by {
      assert keys[0] == [sA[0]] && keys[1] == [sB[0]] && keys[2] == [sD[0]];
    }
    assert KeyOf(rA, [0]) == ["A"] && KeyOf(rB, [0]) == ["B"] && KeyOf(rC, [0]) == ["C"];
    ExampleInclude(rA, rB, rC, keys);
    ExampleExclude(rA, rB, rC, keys);
  }

  lemma ExampleInclude(rA: Row, rB: Row, rC: Row, keys: seq<seq<string>>)
    requires KeyOf(rA, [0]) in keys && KeyOf(rB, [0]) in keys && KeyOf(rC, [0]) !in keys
    ensures Included([rA, rB, rC], keys, 0, true) == [rA, rB]
  {
    assert Included([rA, rB, rC], keys, 0, true) == [rA] + Included([rB, rC], keys, 0, true) by {
      Split3(rA, rB, rC);
    }
    assert Included([rB, rC], keys, 0, true) == [rB] + Included([rC], keys, 0, true) by {
      Split3(rA, rB, rC);
    }
    assert Included([rC], keys, 0, true) == [] by {
      Split3(rA, rB, rC);
    }
  }

  lemma ExampleExclude(rA: Row, rB: Row, rC: Row, keys: seq<seq<string>>)
    requires KeyOf(rA, [0]) in keys && KeyOf(rB, [0]) in keys && KeyOf(rC, [0]) !in keys
    ensures Included([rA, rB, rC], keys, 0, false) == [rC]
  {
    assert Included([rA, rB, rC], keys, 0, false) == Included([rB, rC], keys, 0, false) by {
      Split3(rA, rB, rC);
    }
    assert Included([rB, rC], keys, 0, false) == Included([rC], keys, 0, false) by {
      Split3(rA, rB, rC);
    }
    assert Included([rC], keys, 0, false) == [rC] by {
      Split3(rA, rB, rC);
    }
  }
}
