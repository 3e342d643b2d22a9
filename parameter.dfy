/**
 * The parameter-expression algebra of the benchmark harness: rows of key/value
 * pairs, expressions that append, cross and filter sets of rows, and their
 * evaluator.  Rows are kept exactly as the evaluator builds them: it neither
 * sorts nor deduplicates them.
 */
module Parameter {
  import opened Wrappers

  /** A JSON scalar as Python holds it once loaded: str, int, float or bool. */
  datatype Scalar = Str(s: string) | Int(i: int) | Float(x: real) | Bool(b: bool)

  /** One `{'key': k, 'val': v}` dictionary of a row. */
  datatype Kvp = Kvp(key: string, val: Scalar)

  type Row = seq<Kvp>
  type Rows = seq<Row>

  /** The expression tree; the first key of the JSON dictionary selects the variant. */
  datatype Expr =
    | Value(rows: Rows)
    | Append(e1: Expr, e2: Expr)
    | Cross(e1: Expr, e2: Expr)
    | TakeKvp(e1: Expr, e2: Expr)
    | DropKvp(e1: Expr, e2: Expr)
    | TakeKtp(e1: Expr, e2: Expr)
    | DropKtp(e1: Expr, e2: Expr)

  /** The AssertionError raised when a crossed row would repeat a key. */
  datatype EvalError = KeyCollision

  // Python equality on scalars
  // ==========================

  /** The number a non-string scalar stands for; Python's bool is an int (True == 1). */
  function NumericValue(v: Scalar): real
    requires !v.Str?
  {
    match v
    case Int(i) => i as real
    case Float(x) => x
    case Bool(b) => if b then 1.0 else 0.0
  }

  /** Python's `==` on two scalars: strings equal only strings, numbers compare by value. */
  predicate ScalarEq(a: Scalar, b: Scalar)
  {
    if a.Str? || b.Str? then a == b else NumericValue(a) == NumericValue(b)
  }

  /** Python's `==` on two key/value dictionaries. */
  predicate KvpEq(a: Kvp, b: Kvp)
  {
    a.key == b.key && ScalarEq(a.val, b.val)
  }

  /** `is_number`: the type is int or float; a bool is neither. */
  predicate IsNumber(v: Scalar)
  {
    v.Int? || v.Float?
  }

  // Queries
  // =======

  predicate ContainsKvp(r: Row, kvp: Kvp)
  {
    exists j :: 0 <= j < |r| && KvpEq(kvp, r[j])
  }

  /** A pair of the row has the pattern's key and a value of the type class the
      pattern names, the string "string" or the string "number". */
  predicate KtpHolds(kvpr: Kvp, ktp: Kvp)
  {
    kvpr.key == ktp.key &&
    ((kvpr.val.Str? && ktp.val == Str("string")) ||
     (IsNumber(kvpr.val) && ktp.val == Str("number")))
  }

  predicate ContainsKtp(r: Row, ktp: Kvp)
  {
    exists j :: 0 <= j < |r| && KtpHolds(r[j], ktp)
  }

  predicate HasKey(r: Row, key: string)
  {
    exists j :: 0 <= j < |r| && r[j].key == key
  }

  /** Which `does_row_contain` function a filter passes down. */
  datatype MatchKind = ByKvp | ByKtp

  predicate RowContains(kind: MatchKind, r: Row, p: Kvp)
  {
    match kind
    case ByKvp => ContainsKvp(r, p)
    case ByKtp => ContainsKtp(r, p)
  }

  /** Every pair of the pattern row is contained in the row. */
  predicate RowMatches(r: Row, rm: Row, kind: MatchKind)
  {
    forall t :: 0 <= t < |rm| ==> RowContains(kind, r, rm[t])
  }

  /** The row matches at least one of the pattern rows. */
  predicate MatchesAny(r: Row, rms: Rows, kind: MatchKind)
  {
    exists t :: 0 <= t < |rms| && RowMatches(r, rms[t], kind)
  }

  method DoesRowContainKvp(r: Row, kvp: Kvp) returns (b: bool)
    ensures b == ContainsKvp(r, kvp)
  {
    for j := 0 to |r|
      invariant forall t :: 0 <= t < j ==> !KvpEq(kvp, r[t])
    {
      if KvpEq(kvp, r[j]) {
        return true;
      }
    }
    return false;
  }

  method DoesRowContainKtp(r: Row, ktp: Kvp) returns (b: bool)
    ensures b == ContainsKtp(r, ktp)
  {
    for j := 0 to |r|
      invariant forall t :: 0 <= t < j ==> !KtpHolds(r[t], ktp)
    {
      var kvpr := r[j];
      if kvpr.key == ktp.key {
        if kvpr.val.Str? && ktp.val == Str("string") {
          return true;
        }
        if IsNumber(kvpr.val) && ktp.val == Str("number") {
          return true;
        }
      }
    }
    return false;
  }

  method DoesRowContainKey(r: Row, key: string) returns (b: bool)
    ensures b == HasKey(r, key)
  {
    for j := 0 to |r|
      invariant forall t :: 0 <= t < j ==> r[t].key != key
    {
      if r[j].key == key {
        return true;
      }
    }
    return false;
  }

  method DoesRowContain(kind: MatchKind, r: Row, p: Kvp) returns (b: bool)
    ensures b == RowContains(kind, r, p)
  {
    match kind
    case ByKvp => b := DoesRowContainKvp(r, p);
    case ByKtp => b := DoesRowContainKtp(r, p);
  }

  method DoRowsMatch(r: Row, rm: Row, kind: MatchKind) returns (b: bool)
    ensures b == RowMatches(r, rm, kind)
  {
    for t := 0 to |rm|
      invariant forall u :: 0 <= u < t ==> RowContains(kind, r, rm[u])
    {
      var c := DoesRowContain(kind, r, rm[t]);
      if !c {
        return false;
      }
    }
    return true;
  }

  method DoesRowMatchAny(r: Row, rms: Rows, kind: MatchKind) returns (b: bool)
    ensures b == MatchesAny(r, rms, kind)
  {
    for t := 0 to |rms|
      invariant forall u :: 0 <= u < t ==> !RowMatches(r, rms[u], kind)
    {
      var m := DoRowsMatch(r, rms[t], kind);
      if m {
        return true;
      }
    }
    return false;
  }

  /** The values of key `k` in a row, in row order. */
  function ValuesInRow(r: Row, k: string): seq<Scalar>
  {
    if r == [] then []
    else ValuesInRow(r[..|r| - 1], k) + (if r[|r| - 1].key == k then [r[|r| - 1].val] else [])
  }

  /** The values of key `k` in all rows, rows in order. */
  function ValuesOfKey(rows: Rows, k: string): seq<Scalar>
  {
    if rows == [] then []
    else ValuesOfKey(rows[..|rows| - 1], k) + ValuesInRow(rows[|rows| - 1], k)
  }

  lemma {:induction false} ValuesInRowMember(r: Row, k: string, v: Scalar)
    ensures v in ValuesInRow(r, k) <==> Kvp(k, v) in r
  {
    if r != [] {
      var init := r[..|r| - 1];
      ValuesInRowMember(init, k, v);
      assert r == init + [r[|r| - 1]];
    }
  }

  /** A value is selected exactly when some row holds it under key `k`. */
  lemma {:induction false} ValuesOfKeyMember(rows: Rows, k: string, v: Scalar)
    ensures v in ValuesOfKey(rows, k) <==> exists i :: 0 <= i < |rows| && Kvp(k, v) in rows[i]
  {
    if rows != [] {
      var init, last := rows[..|rows| - 1], rows[|rows| - 1];
      ValuesOfKeyMember(init, k, v);
      ValuesInRowMember(last, k, v);
      assert ValuesOfKey(rows, k) == ValuesOfKey(init, k) + ValuesInRow(last, k);
      if v in ValuesOfKey(rows, k) {
        if v in ValuesOfKey(init, k) {
          var i :| 0 <= i < |init| && Kvp(k, v) in init[i];
          assert rows[i] == init[i];
        } else {
          assert Kvp(k, v) in rows[|rows| - 1];
        }
      } else {
        assert v !in ValuesOfKey(init, k) && Kvp(k, v) !in last;
        forall i | 0 <= i < |rows| ensures Kvp(k, v) !in rows[i] {
          if i < |init| {
            assert rows[i] == init[i];
          }
        }
      }
    }
  }

  /** `select_from_expr_by_key`: evaluates the expression and collects, row by row,
      the values stored under key `k`. */
  method SelectFromExprByKey(expr: Expr, k: string) returns (vals: Result<seq<Scalar>, EvalError>)
    ensures Eval(expr).Failure? ==> vals.Failure?
    ensures Eval(expr).Success? ==> vals == Success(ValuesOfKey(Eval(expr).value, k))
  {
    var ev := Eval(expr);
    if ev.Failure? {
      return Failure(ev.error);
    }
    var rows := ev.value;
    var acc: seq<Scalar> := [];
    for i := 0 to |rows|
      invariant acc == ValuesOfKey(rows[..i], k)
    {
      var r := rows[i];
      for j := 0 to |r|
        invariant acc == ValuesOfKey(rows[..i], k) + ValuesInRow(r[..j], k)
      {
        assert r[..j + 1][..j] == r[..j];
        if r[j].key == k {
          acc := acc + [r[j].val];
        }
      }
      assert r[..|r|] == r;
      assert rows[..i + 1][..i] == rows[..i];
    }
    assert rows[..|rows|] == rows;
    return Success(acc);
  }

  // Evaluation
  // ==========

  /** No key of `r2` occurs in `r1`. */
  predicate Apart(r1: Row, r2: Row)
  {
    forall k :: 0 <= k < |r2| ==> !HasKey(r1, r2[k].key)
  }

  /** No key of any row of `v2` occurs in any row of `v1`. */
  predicate NoSharedKeys(v1: Rows, v2: Rows)
  {
    forall j, i :: 0 <= j < |v2| && 0 <= i < |v1| ==> Apart(v1[i], v2[j])
  }

  /** `check_for_duplicate_keys`: `ok` is false exactly when its assertion fails. */
  method CheckForDuplicateKeys(v1: Rows, v2: Rows) returns (ok: bool)
    ensures ok == NoSharedKeys(v1, v2)
  {
    for j := 0 to |v2|
      invariant forall j', i :: 0 <= j' < j && 0 <= i < |v1| ==> Apart(v1[i], v2[j'])
    {
      var r2 := v2[j];
      for k := 0 to |r2|
        invariant forall k', i :: 0 <= k' < k && 0 <= i < |v1| ==> !HasKey(v1[i], r2[k'].key)
      {
        for i := 0 to |v1|
          invariant forall i' :: 0 <= i' < i ==> !HasKey(v1[i'], r2[k].key)
        {
          var has := DoesRowContainKey(v1[i], r2[k].key);
          if has {
            return false;
          }
        }
      }
    }
    return true;
  }

  /** The rows `r1 + r2` for `r1` in `v1`, in order. */
  function WithSuffix(v1: Rows, r2: Row): (w: Rows)
    ensures |w| == |v1|
    ensures forall i :: 0 <= i < |v1| ==> w[i] == v1[i] + r2
  {
    if v1 == [] then [] else [v1[0] + r2] + WithSuffix(v1[1..], r2)
  }

  /** `[r1 + r2 for r2 in v2 for r1 in v1]`: the outer loop runs over `v2`. */
  function CrossRows(v1: Rows, v2: Rows): Rows
  {
    if v2 == [] then [] else WithSuffix(v1, v2[0]) + CrossRows(v1, v2[1..])
  }

  /** `[r for r in rows if match(r) == keep]`, for take (`keep`) and drop (`!keep`). */
  function Select(rows: Rows, pats: Rows, kind: MatchKind, keep: bool): Rows
  {
    if rows == [] then []
    else (if MatchesAny(rows[0], pats, kind) == keep then [rows[0]] else []) + Select(rows[1..], pats, kind, keep)
  }

  /** `eval`: the JSON-schema validation around `eval_rec` is not modelled. */
  function Eval(e: Expr): Result<Rows, EvalError>
  {
    match e
    case Value(rows) => Success(rows)
    case _ =>
      var v1 :- Eval(e.e1);
      var v2 :- Eval(e.e2);
      Combine(e, v1, v2)
  }

  /** The step `eval_rec` takes once both operands are evaluated. */
  function Combine(e: Expr, v1: Rows, v2: Rows): Result<Rows, EvalError>
    requires !e.Value?
  {
    match e
    case Append(_, _) => Success(v1 + v2)
    case Cross(_, _) => if NoSharedKeys(v1, v2) then Success(CrossRows(v1, v2)) else Failure(KeyCollision)
    case TakeKvp(_, _) => Success(Select(v1, v2, ByKvp, true))
    case DropKvp(_, _) => Success(Select(v1, v2, ByKvp, false))
    case TakeKtp(_, _) => Success(Select(v1, v2, ByKtp, true))
    case DropKtp(_, _) => Success(Select(v1, v2, ByKtp, false))
  }

  // Smart constructors
  // ==================

  /** `mk_unit` is the empty row set (not the one empty row). */
  function MkUnit(): (e: Expr)
    ensures Eval(e) == Success([])
  {
    Value([])
  }

  function MkParameter(key: string, val: Scalar): (e: Expr)
    ensures Eval(e) == Success([[Kvp(key, val)]])
  {
    Value([[Kvp(key, val)]])
  }

  /** One singleton row per value, in the order of `vals`. */
  function MkParameters(key: string, vals: seq<Scalar>): (e: Expr)
    ensures Eval(e).Success? && |Eval(e).value| == |vals|
    ensures forall i :: 0 <= i < |vals| ==> Eval(e).value[i] == [Kvp(key, vals[i])]
  {
    Value(seq(|vals|, i requires 0 <= i < |vals| => [Kvp(key, vals[i])]))
  }

  /** Append: the rows of `e1` followed by the rows of `e2`, nothing removed. */
  function MkAppend(e1: Expr, e2: Expr): (e: Expr)
    ensures Eval(e).Success? <==> Eval(e1).Success? && Eval(e2).Success?
    ensures Eval(e).Success? ==> Eval(e).value == Eval(e1).value + Eval(e2).value
    ensures Eval(e).Success? ==> |Eval(e).value| == |Eval(e1).value| + |Eval(e2).value|
  {
    Append(e1, e2)
  }

  /** `w` is the cross of `v1` and `v2`: it has `|v1| * |v2|` rows and row
      `j * |v1| + i` is `v1[i] + v2[j]`. */
  predicate IsCross(w: Rows, v1: Rows, v2: Rows)
  {
    |w| == |v1| * |v2| &&
    forall i, j :: 0 <= i < |v1| && 0 <= j < |v2| ==> CrossAt(w, v1, v2, i, j)
  }

  /** Row `j * |v1| + i` of `w` exists and is `v1[i] + v2[j]`. */
  predicate CrossAt(w: Rows, v1: Rows, v2: Rows, i: nat, j: nat)
    requires i < |v1| && j < |v2|
  {
    j * |v1| + i < |w| && w[j * |v1| + i] == v1[i] + v2[j]
  }

  /** Cross: fails when a key of a right row occurs in a left row; otherwise the
      rows are those of every left row joined with every right row. */
  function MkCross(e1: Expr, e2: Expr): (e: Expr)
    ensures Eval(e).Success? <==>
      Eval(e1).Success? && Eval(e2).Success? && NoSharedKeys(Eval(e1).value, Eval(e2).value)
    ensures Eval(e).Success? ==> IsCross(Eval(e).value, Eval(e1).value, Eval(e2).value)
  {
    CrossEvalIsCross(e1, e2);
    Cross(e1, e2)
  }

  lemma CrossEvalIsCross(e1: Expr, e2: Expr)
    ensures Eval(Cross(e1, e2)).Success? ==> IsCross(Eval(Cross(e1, e2)).value, Eval(e1).value, Eval(e2).value)
  {
    if Eval(Cross(e1, e2)).Success? {
      CrossRowsIsCross(Eval(e1).value, Eval(e2).value);
    }
  }

  function MkTakeKvp(e1: Expr, e2: Expr): (e: Expr)
    ensures Eval(e).Success? <==> Eval(e1).Success? && Eval(e2).Success?
    ensures Eval(e).Success? ==> Eval(e).value == Select(Eval(e1).value, Eval(e2).value, ByKvp, true)
  {
    TakeKvp(e1, e2)
  }

  function MkDropKvp(e1: Expr, e2: Expr): (e: Expr)
    ensures Eval(e).Success? <==> Eval(e1).Success? && Eval(e2).Success?
    ensures Eval(e).Success? ==> Eval(e).value == Select(Eval(e1).value, Eval(e2).value, ByKvp, false)
  {
    DropKvp(e1, e2)
  }

  function MkTakeKtp(e1: Expr, e2: Expr): (e: Expr)
    ensures Eval(e).Success? <==> Eval(e1).Success? && Eval(e2).Success?
    ensures Eval(e).Success? ==> Eval(e).value == Select(Eval(e1).value, Eval(e2).value, ByKtp, true)
  {
    TakeKtp(e1, e2)
  }

  function MkDropKtp(e1: Expr, e2: Expr): (e: Expr)
    ensures Eval(e).Success? <==> Eval(e1).Success? && Eval(e2).Success?
    ensures Eval(e).Success? ==> Eval(e).value == Select(Eval(e1).value, Eval(e2).value, ByKtp, false)
  {
    DropKtp(e1, e2)
  }

  /** The rows of all expressions, concatenated left to right, or the error. */
  function EvalAll(es: seq<Expr>): Result<Rows, EvalError>
  {
    if es == [] then Success([])
    else
      var prev :- EvalAll(es[..|es| - 1]);
      var last :- Eval(es[|es| - 1]);
      Success(prev + last)
  }

  predicate AllEvaluate(es: seq<Expr>)
  {
    forall i :: 0 <= i < |es| ==> Eval(es[i]).Success?
  }

  /** `mk_append_sequence`: a left fold of append from `mk_unit`; since the unit has
      no rows, the result holds every row of every expression. */
  method MkAppendSequence(es: seq<Expr>) returns (r: Expr)
    ensures Eval(r) == EvalAll(es)
  {
    r := MkUnit();
    for i := 0 to |es|
      invariant Eval(r) == EvalAll(es[..i])
    {
      assert es[..i + 1][..i] == es[..i];
      r := MkAppend(r, es[i]);
    }
    assert es[..|es|] == es;
  }

  /** `mk_cross_sequence`: a left fold of cross from `mk_unit`; since the unit has
      no rows, the result has no rows whenever every expression evaluates. */
  method MkCrossSequence(es: seq<Expr>) returns (r: Expr)
    ensures Eval(r) == if AllEvaluate(es) then Success([]) else Failure(KeyCollision)
  {
    r := MkUnit();
    for i := 0 to |es|
      invariant Eval(r) == if AllEvaluate(es[..i]) then Success([]) else Failure(KeyCollision)
    {
      assert es[..i + 1][i] == es[i];
      assert forall t :: 0 <= t < i ==> es[..i + 1][t] == es[..i][t];
      assert AllEvaluate(es[..i + 1]) <==> AllEvaluate(es[..i]) && Eval(es[i]).Success?;
      var ev := Eval(es[i]);
      if Eval(r).Success? && ev.Success? {
        assert Eval(r).value == [];
        assert NoSharedKeys([], ev.value);
        assert Eval(MkCross(r, es[i])).value == CrossRows([], ev.value);
        CrossRowsEmptyLeft(ev.value);
      } else {
        assert !Eval(MkCross(r, es[i])).Success?;
        assert Eval(MkCross(r, es[i])).error == KeyCollision;
      }
      r := MkCross(r, es[i]);
    }
    assert es[..|es|] == es;
  }

  // Laws of cross
  // =============

  lemma MulStep(j: nat, n: nat)
    requires j > 0
    ensures j * n == (j - 1) * n + n
  {
  }

  lemma MulBound(i: nat, j: nat, n: nat, m: nat)
    requires i < n && j < m
    ensures j * n + i < n * m
  {
    assert j * n + n <= m * n by {
      assert (j + 1) * n <= m * n;
    }
  }

  lemma {:induction false} CrossRowsLength(v1: Rows, v2: Rows)
    ensures |CrossRows(v1, v2)| == |v1| * |v2|
  {
    if v2 != [] {
      CrossRowsLength(v1, v2[1..]);
      MulStep(|v2|, |v1|);
      assert |v2| * |v1| == |v1| * |v2|;
      assert |v2[1..]| * |v1| == |v1| * |v2[1..]|;
    }
  }

  /** Row `j * |v1| + i` of the cross is `v1[i] + v2[j]`. */
  lemma {:induction false} CrossRowsAt(v1: Rows, v2: Rows, i: nat, j: nat)
    requires i < |v1| && j < |v2|
    ensures CrossAt(CrossRows(v1, v2), v1, v2, i, j)
  {
    CrossRowsLength(v1, v2);
    MulBound(i, j, |v1|, |v2|);
    if j > 0 {
      var rest := v2[1..];
      CrossRowsAt(v1, rest, i, j - 1);
      MulStep(j, |v1|);
      assert v2[j] == rest[j - 1];
    }
  }

  lemma CrossRowsIsCross(v1: Rows, v2: Rows)
    ensures IsCross(CrossRows(v1, v2), v1, v2)
  {
    CrossRowsLength(v1, v2);
    forall i, j | 0 <= i < |v1| && 0 <= j < |v2|
      ensures CrossAt(CrossRows(v1, v2), v1, v2, i, j)
    {
      CrossRowsAt(v1, v2, i, j);
    }
  }

  lemma {:induction false} CrossRowsEmptyLeft(v2: Rows)
    ensures CrossRows([], v2) == []
  {
    if v2 != [] {
      CrossRowsEmptyLeft(v2[1..]);
    }
  }

  lemma {:induction false} CrossRowsAppendRight(v: Rows, a: Rows, b: Rows)
    ensures CrossRows(v, a + b) == CrossRows(v, a) + CrossRows(v, b)
  {
    if a == [] {
      assert a + b == b;
    } else {
      assert (a + b)[0] == a[0];
      assert (a + b)[1..] == a[1..] + b;
      CrossRowsAppendRight(v, a[1..], b);
    }
  }

  lemma WithSuffixAppend(a: Rows, b: Rows, r: Row)
    ensures WithSuffix(a + b, r) == WithSuffix(a, r) + WithSuffix(b, r)
  {
    var lhs, wa, wb := WithSuffix(a + b, r), WithSuffix(a, r), WithSuffix(b, r);
    forall i | 0 <= i < |lhs| ensures lhs[i] == (wa + wb)[i] {
      if i < |a| {
        assert (a + b)[i] == a[i];
        assert (wa + wb)[i] == wa[i];
      } else {
        assert (a + b)[i] == b[i - |a|];
        assert (wa + wb)[i] == wb[i - |a|];
      }
    }
    assert |lhs| == |wa + wb|;
  }

  lemma {:induction false} CrossRowsAppendLeft(a: Rows, b: Rows, v: Rows)
    ensures multiset(CrossRows(a + b, v)) == multiset(CrossRows(a, v) + CrossRows(b, v))
  {
    if v != [] {
      CrossRowsAppendLeft(a, b, v[1..]);
      WithSuffixAppend(a, b, v[0]);
    }
  }

  lemma NoSharedKeysAppendRight(v: Rows, a: Rows, b: Rows)
    ensures NoSharedKeys(v, a + b) <==> NoSharedKeys(v, a) && NoSharedKeys(v, b)
  {
    if NoSharedKeys(v, a + b) {
      forall j, i | 0 <= j < |a| && 0 <= i < |v| ensures Apart(v[i], a[j]) {
        assert (a + b)[j] == a[j];
      }
      forall j, i | 0 <= j < |b| && 0 <= i < |v| ensures Apart(v[i], b[j]) {
        assert (a + b)[|a| + j] == b[j];
      }
    }
    if NoSharedKeys(v, a) && NoSharedKeys(v, b) {
      forall j, i | 0 <= j < |a + b| && 0 <= i < |v| ensures Apart(v[i], (a + b)[j]) {
        if j < |a| {
          assert (a + b)[j] == a[j];
        } else {
          assert (a + b)[j] == b[j - |a|];
        }
      }
    }
  }

  lemma NoSharedKeysAppendLeft(a: Rows, b: Rows, v: Rows)
    ensures NoSharedKeys(a + b, v) <==> NoSharedKeys(a, v) && NoSharedKeys(b, v)
  {
    if NoSharedKeys(a + b, v) {
      forall j, i | 0 <= j < |v| && 0 <= i < |a| ensures Apart(a[i], v[j]) {
        assert (a + b)[i] == a[i];
      }
      forall j, i | 0 <= j < |v| && 0 <= i < |b| ensures Apart(b[i], v[j]) {
        assert (a + b)[|a| + i] == b[i];
      }
    }
    if NoSharedKeys(a, v) && NoSharedKeys(b, v) {
      forall j, i | 0 <= j < |v| && 0 <= i < |a + b| ensures Apart((a + b)[i], v[j]) {
        if i < |a| {
          assert (a + b)[i] == a[i];
        } else {
          assert (a + b)[i] == b[i - |a|];
        }
      }
    }
  }

  /** Evaluation fails in one way only. */
  lemma OnlyKeyCollision(r: Result<Rows, EvalError>)
    requires r.Failure?
    ensures r == Failure(KeyCollision)
  {
    assert r.error.KeyCollision?;
    assert r == Failure(r.error);
  }

  /** Cross distributes over an appended right operand, row order included. */
  lemma CrossDistributesRight(c: Expr, a: Expr, b: Expr)
    ensures Eval(Cross(c, Append(a, b))) == Eval(Append(Cross(c, a), Cross(c, b)))
  {
    if Eval(c).Success? && Eval(a).Success? && Eval(b).Success? {
      var vc, va, vb := Eval(c).value, Eval(a).value, Eval(b).value;
      assert Eval(Append(a, b)) == Success(va + vb);
      NoSharedKeysAppendRight(vc, va, vb);
      CrossRowsAppendRight(vc, va, vb);
    } else {
      if Eval(c).Success? && Eval(a).Success? {
        assert Eval(Append(a, b)).Failure?;
        assert Eval(Cross(c, Append(a, b))).Failure?;
        assert Eval(Cross(c, b)).Failure?;
        assert Eval(Append(Cross(c, a), Cross(c, b))).Failure?;
        OnlyKeyCollision(Eval(Cross(c, Append(a, b))));
        OnlyKeyCollision(Eval(Append(Cross(c, a), Cross(c, b))));
      } else {
        assert Eval(Cross(c, a)).Failure?;
        assert Eval(c).Failure? || Eval(Append(a, b)).Failure?;
      }
    }
  }

  /** Cross distributes over an appended left operand, up to the order of the rows. */
  lemma CrossDistributesLeft(a: Expr, b: Expr, c: Expr)
    ensures Eval(Cross(Append(a, b), c)).Success? <==> Eval(Append(Cross(a, c), Cross(b, c))).Success?
    ensures Eval(Cross(Append(a, b), c)).Success? ==>
      multiset(Eval(Cross(Append(a, b), c)).value) == multiset(Eval(Append(Cross(a, c), Cross(b, c))).value)
  {
    if Eval(a).Success? && Eval(b).Success? && Eval(c).Success? {
      var va, vb, vc := Eval(a).value, Eval(b).value, Eval(c).value;
      assert Eval(Append(a, b)) == Success(va + vb);
      NoSharedKeysAppendLeft(va, vb, vc);
      if NoSharedKeys(va + vb, vc) {
        assert Eval(Cross(Append(a, b), c)).value == CrossRows(va + vb, vc);
        assert Eval(Cross(a, c)).value == CrossRows(va, vc);
        assert Eval(Cross(b, c)).value == CrossRows(vb, vc);
        assert Eval(Append(Cross(a, c), Cross(b, c))).value == CrossRows(va, vc) + CrossRows(vb, vc);
        CrossRowsAppendLeft(va, vb, vc);
      } else {
        assert !NoSharedKeys(va, vc) || !NoSharedKeys(vb, vc);
      }
    } else {
      assert Eval(Append(a, b)).Failure? || Eval(c).Failure?;
      assert Eval(Cross(Append(a, b), c)).Failure?;
      assert Eval(Cross(a, c)).Failure? || Eval(Cross(b, c)).Failure?;
      assert Eval(Append(Cross(a, c), Cross(b, c))).Failure?;
    }
  }

  /** Crossing two expressions that both set key `k` fails. */
  lemma CrossFailsOnSharedKey(a: Expr, b: Expr, i: nat, j: nat, k: nat)
    requires Eval(a).Success? && Eval(b).Success?
    requires i < |Eval(a).value| && j < |Eval(b).value| && k < |Eval(b).value[j]|
    requires HasKey(Eval(a).value[i], Eval(b).value[j][k].key)
    ensures Eval(Cross(a, b)) == Failure(KeyCollision)
  {
    var va, vb := Eval(a).value, Eval(b).value;
    assert !Apart(va[i], vb[j]);
    assert Eval(Cross(a, b)) == Combine(Cross(a, b), va, vb);
  }

  lemma CrossCollisionExample()
    ensures Eval(Cross(MkParameter("k", Str("a")), MkParameter("k", Str("b")))) == Failure(KeyCollision)
  {
    var e1, e2 := MkParameter("k", Str("a")), MkParameter("k", Str("b"));
    var v1: Rows, v2: Rows := [[Kvp("k", Str("a"))]], [[Kvp("k", Str("b"))]];
    assert Eval(e1).value == v1 && Eval(e2).value == v2;
    assert HasKey(v1[0], v2[0][0].key) by {
      assert v1[0][0].key == v2[0][0].key;
    }
    CrossFailsOnSharedKey(e1, e2, 0, 0, 0);
  }

  /** Crossing one benchmark with two worker counts gives the benchmark row extended by each count. */
  lemma CrossExample()
    ensures Eval(Cross(MkParameter("benchmark", Str("fft")), MkParameters("workers", [Int(1), Int(2)])))
         == Success([[Kvp("benchmark", Str("fft")), Kvp("workers", Int(1))],
                     [Kvp("benchmark", Str("fft")), Kvp("workers", Int(2))]])
  {
    var v1: Rows := [[Kvp("benchmark", Str("fft"))]];
    var v2: Rows := [[Kvp("workers", Int(1))], [Kvp("workers", Int(2))]];
    var w := Eval(MkParameters("workers", [Int(1), Int(2)])).value;
    assert w[0] == v2[0] && w[1] == v2[1];
    assert w == v2;
    forall j, i | 0 <= j < |v2| && 0 <= i < |v1| ensures Apart(v1[i], v2[j]) {
      assert v2[j][0].key == "workers";
      assert v1[i] == [Kvp("benchmark", Str("fft"))];
    }
    assert v2[1..][1..] == [];
    var s0, s1 := WithSuffix(v1, v2[0]), WithSuffix(v1, v2[1]);
    assert s0[0] == v1[0] + v2[0] && s1[0] == v1[0] + v2[1];
    assert s0 == [v1[0] + v2[0]] && s1 == [v1[0] + v2[1]];
    assert CrossRows(v1, v2[1..]) == s1;
    assert CrossRows(v1, v2) == s0 + s1;
    assert NoSharedKeys(v1, v2);
    var e1, e2 := MkParameter("benchmark", Str("fft")), MkParameters("workers", [Int(1), Int(2)]);
    assert Eval(e1) == Success(v1) && Eval(e2) == Success(v2);
    assert Eval(Cross(e1, e2)) == Success(CrossRows(v1, v2));
    assert v1[0] + v2[0] == [Kvp("benchmark", Str("fft")), Kvp("workers", Int(1))];
    assert v1[0] + v2[1] == [Kvp("benchmark", Str("fft")), Kvp("workers", Int(2))];
    assert s0 + s1 == [v1[0] + v2[0], v1[0] + v2[1]];
  }

  // Laws of the filters
  // ===================

  /** A non-empty sequence is its head before its tail, also when something follows. */
  lemma HeadTail<T>(a: seq<T>, b: seq<T>)
    requires a != []
    ensures a == [a[0]] + a[1..]
    ensures a + b == [a[0]] + (a[1..] + b)
  {
  }

  /** Filtering commutes with concatenation: order is kept. */
  lemma {:induction false} SelectAppend(a: Rows, b: Rows, pats: Rows, kind: MatchKind, keep: bool)
    ensures Select(a + b, pats, kind, keep) == Select(a, pats, kind, keep) + Select(b, pats, kind, keep)
  {
    if a == [] {
      assert a + b == b;
    } else {
      var x, tail := a[0], a[1..];
      HeadTail(a, b);
      SelectCons(x, tail + b, pats, kind, keep);
      SelectCons(x, tail, pats, kind, keep);
      SelectAppend(tail, b, pats, kind, keep);
      var h, st, sb := if MatchesAny(x, pats, kind) == keep then [x] else [], Select(tail, pats, kind, keep), Select(b, pats, kind, keep);
      assert h + (st + sb) == (h + st) + sb;
    }
  }

  lemma SelectCons(x: Row, rest: Rows, pats: Rows, kind: MatchKind, keep: bool)
    ensures Select([x] + rest, pats, kind, keep)
         == (if MatchesAny(x, pats, kind) == keep then [x] else []) + Select(rest, pats, kind, keep)
  {
    assert ([x] + rest)[1..] == rest;
  }

  lemma {:induction false} SelectMember(rows: Rows, pats: Rows, kind: MatchKind, keep: bool, r: Row)
    ensures r in Select(rows, pats, kind, keep) <==> r in rows && MatchesAny(r, pats, kind) == keep
  {
    if rows != [] {
      SelectMember(rows[1..], pats, kind, keep, r);
      assert rows == [rows[0]] + rows[1..];
    }
  }

  /** Take and drop split the rows: together they hold each row as often as the input,
      and no row value is in both. */
  lemma {:induction false} TakeDropPartition(rows: Rows, pats: Rows, kind: MatchKind)
    ensures multiset(Select(rows, pats, kind, true)) + multiset(Select(rows, pats, kind, false)) == multiset(rows)
    ensures forall r :: r in Select(rows, pats, kind, true) ==> r !in Select(rows, pats, kind, false)
  {
    if rows != [] {
      TakeDropPartition(rows[1..], pats, kind);
      assert rows == [rows[0]] + rows[1..];
    }
    forall r | r in Select(rows, pats, kind, true) ensures r !in Select(rows, pats, kind, false) {
      SelectMember(rows, pats, kind, true, r);
      SelectMember(rows, pats, kind, false, r);
    }
  }

  /** An empty pattern row matches every row. */
  lemma EmptyPatternMatchesAll(rows: Rows, pats: Rows, kind: MatchKind)
    requires [] in pats
    ensures Select(rows, pats, kind, true) == rows
    ensures Select(rows, pats, kind, false) == []
  {
    var t :| 0 <= t < |pats| && pats[t] == [];
    if rows != [] {
      assert RowMatches(rows[0], pats[t], kind);
      EmptyPatternMatchesAll(rows[1..], pats, kind);
    }
  }

  /** With no pattern rows, take keeps nothing and drop keeps everything. */
  lemma {:induction false} NoPatternsMatchNothing(rows: Rows, kind: MatchKind)
    ensures Select(rows, [], kind, true) == []
    ensures Select(rows, [], kind, false) == rows
  {
    if rows != [] {
      NoPatternsMatchNothing(rows[1..], kind);
    }
  }

  /** A boolean value never satisfies a type pattern: bools are neither "string" nor "number". */
  lemma BoolMatchesNoType(r: Row, k: string, tag: Scalar)
    requires forall j :: 0 <= j < |r| && r[j].key == k ==> r[j].val.Bool?
    ensures !ContainsKtp(r, Kvp(k, tag))
  {
  }

  /** Type patterns: a row matches `[{key: k, val: "number"}]` exactly when it holds
      an int or float under `k`. */
  lemma KtpNumberPattern(r: Row, k: string)
    ensures MatchesAny(r, [[Kvp(k, Str("number"))]], ByKtp) <==>
      exists j :: 0 <= j < |r| && r[j].key == k && (r[j].val.Int? || r[j].val.Float?)
  {
    var pats: Rows := [[Kvp(k, Str("number"))]];
    if exists j :: 0 <= j < |r| && r[j].key == k && (r[j].val.Int? || r[j].val.Float?) {
      var j :| 0 <= j < |r| && r[j].key == k && (r[j].val.Int? || r[j].val.Float?);
      assert KtpHolds(r[j], pats[0][0]);
      assert RowMatches(r, pats[0], ByKtp);
    }
    if MatchesAny(r, pats, ByKtp) {
      assert RowContains(ByKtp, r, pats[0][0]);
    }
  }

  /** Python equality across numeric types: a value pattern `1` matches `1.0` and `True`. */
  lemma KvpMatchIsPythonEquality(k: string)
    ensures MatchesAny([Kvp(k, Float(1.0))], [[Kvp(k, Int(1))]], ByKvp)
    ensures MatchesAny([Kvp(k, Bool(true))], [[Kvp(k, Int(1))]], ByKvp)
    ensures !MatchesAny([Kvp(k, Str("1"))], [[Kvp(k, Int(1))]], ByKvp)
  {
    var one, pats: Rows := Kvp(k, Int(1)), [[Kvp(k, Int(1))]];
    var rf: Row, rb: Row, rs: Row := [Kvp(k, Float(1.0))], [Kvp(k, Bool(true))], [Kvp(k, Str("1"))];
    assert KvpEq(one, rf[0]) && KvpEq(one, rb[0]) && !KvpEq(one, rs[0]);
    assert RowMatches(rf, pats[0], ByKvp) && RowMatches(rb, pats[0], ByKvp);
    assert !RowContains(ByKvp, rs, pats[0][0]);
  }

  /** An evaluated value evaluates to itself. */
  lemma EvalValueIdempotent(e: Expr)
    requires Eval(e).Success?
    ensures Eval(Value(Eval(e).value)) == Eval(e)
  {
  }

  // Well-formed rows
  // ================

  predicate UniqueKeys(r: Row)
  {
    forall a, b :: 0 <= a < b < |r| ==> r[a].key != r[b].key
  }

  predicate AllUnique(rows: Rows)
  {
    forall i :: 0 <= i < |rows| ==> UniqueKeys(rows[i])
  }

  /** Every `value` leaf of the expression has rows without repeated keys. */
  predicate LeavesUnique(e: Expr)
  {
    match e
    case Value(rows) => AllUnique(rows)
    case _ => LeavesUnique(e.e1) && LeavesUnique(e.e2)
  }

  lemma {:induction false} SelectAllUnique(rows: Rows, pats: Rows, kind: MatchKind, keep: bool)
    requires AllUnique(rows)
    ensures AllUnique(Select(rows, pats, kind, keep))
  {
    forall i | 0 <= i < |Select(rows, pats, kind, keep)|
      ensures UniqueKeys(Select(rows, pats, kind, keep)[i])
    {
      SelectMember(rows, pats, kind, keep, Select(rows, pats, kind, keep)[i]);
    }
  }

  lemma JoinUnique(v1: Rows, v2: Rows, i: nat, j: nat)
    requires i < |v1| && j < |v2|
    requires UniqueKeys(v1[i]) && UniqueKeys(v2[j]) && NoSharedKeys(v1, v2)
    ensures UniqueKeys(v1[i] + v2[j])
  {
    var r1: Row, r2: Row := v1[i], v2[j];
    forall a, b | 0 <= a < b < |r1 + r2| ensures (r1 + r2)[a].key != (r1 + r2)[b].key {
      if b >= |r1| {
        assert (r1 + r2)[b] == r2[b - |r1|];
        if a < |r1| {
          assert (r1 + r2)[a] == r1[a];
          assert !HasKey(v1[i], v2[j][b - |r1|].key);
        } else {
          assert (r1 + r2)[a] == r2[a - |r1|];
        }
      } else {
        assert (r1 + r2)[a] == r1[a] && (r1 + r2)[b] == r1[b];
      }
    }
  }

  lemma {:induction false} CrossRowsAllUnique(v1: Rows, v2: Rows)
    requires AllUnique(v1) && AllUnique(v2) && NoSharedKeys(v1, v2)
    ensures AllUnique(CrossRows(v1, v2))
  {
    if v2 != [] {
      var rest := v2[1..];
      assert v2 == [v2[0]] + rest;
      NoSharedKeysAppendRight(v1, [v2[0]], rest);
      CrossRowsAllUnique(v1, rest);
      var w, c := WithSuffix(v1, v2[0]), CrossRows(v1, rest);
      forall t | 0 <= t < |w + c| ensures UniqueKeys((w + c)[t]) {
        if t < |w| {
          assert (w + c)[t] == v1[t] + v2[0];
          JoinUnique(v1, v2, t, 0);
        } else {
          assert (w + c)[t] == c[t - |w|];
        }
      }
    }
  }

  /** Evaluation keeps keys unique within each row when the leaves do: cross is the
      only operation that builds new rows, and its guard rejects repeated keys. */
  lemma {:induction false} EvalKeepsKeysUnique(e: Expr)
    requires LeavesUnique(e)
    requires Eval(e).Success?
    ensures AllUnique(Eval(e).value)
  {
    if !e.Value? {
      EvalKeepsKeysUnique(e.e1);
      EvalKeepsKeysUnique(e.e2);
      var v1, v2 := Eval(e.e1).value, Eval(e.e2).value;
      match e
      case Append(_, _) =>
        assert Eval(e).value == v1 + v2;
        forall i | 0 <= i < |v1 + v2| ensures UniqueKeys((v1 + v2)[i]) {
          if i >= |v1| { assert (v1 + v2)[i] == v2[i - |v1|]; }
        }
      case Cross(_, _) => CrossRowsAllUnique(v1, v2);
      case TakeKvp(_, _) => SelectAllUnique(v1, v2, ByKvp, true);
      case DropKvp(_, _) => SelectAllUnique(v1, v2, ByKvp, false);
      case TakeKtp(_, _) => SelectAllUnique(v1, v2, ByKtp, true);
      case DropKtp(_, _) => SelectAllUnique(v1, v2, ByKtp, false);
    }
  }

  // Rows and dictionaries
  // =====================

  /** `d[k] = v` on an insertion-ordered Python dict held as its list of items:
      a present key keeps its place and takes the new value, a new key goes last. */
  function Put(items: seq<Kvp>, k: string, v: Scalar): seq<Kvp>
  {
    if items == [] then [Kvp(k, v)]
    else if items[0].key == k then [Kvp(k, v)] + items[1..]
    else [items[0]] + Put(items[1..], k, v)
  }

  /** `d[k]`, or None for the KeyError. */
  function Get(items: seq<Kvp>, k: string): Option<Scalar>
  {
    if items == [] then None
    else if items[0].key == k then Some(items[0].val)
    else Get(items[1..], k)
  }

  /** `row_to_dictionary`: `dict(zip(keys, vals))` stores the pairs one after the other. */
  function RowToDictionary(row: Row): seq<Kvp>
  {
    if row == [] then [] else Put(RowToDictionary(row[..|row| - 1]), row[|row| - 1].key, row[|row| - 1].val)
  }

  /** `dictionary_to_row`: the items in insertion order. */
  function DictionaryToRow(d: seq<Kvp>): Row
  {
    d
  }

  /** The value the last pair with key `k` carries, as a dict built from the row keeps it. */
  function LastValue(row: Row, k: string): Option<Scalar>
  {
    if row == [] then None
    else if row[|row| - 1].key == k then Some(row[|row| - 1].val)
    else LastValue(row[..|row| - 1], k)
  }

  lemma {:induction false} PutAbsent(items: seq<Kvp>, k: string, v: Scalar)
    requires forall t :: 0 <= t < |items| ==> items[t].key != k
    ensures Put(items, k, v) == items + [Kvp(k, v)]
  {
    if items != [] {
      PutAbsent(items[1..], k, v);
    }
  }

  lemma {:induction false} GetPut(items: seq<Kvp>, k: string, v: Scalar, k': string)
    ensures Get(Put(items, k, v), k') == if k' == k then Some(v) else Get(items, k')
  {
    if items != [] && items[0].key != k {
      GetPut(items[1..], k, v, k');
    }
  }

  /** Looking a key up in the dictionary of a row gives its last value in the row. */
  lemma {:induction false} RowToDictionaryGet(row: Row, k: string)
    ensures Get(RowToDictionary(row), k) == LastValue(row, k)
  {
    if row != [] {
      RowToDictionaryGet(row[..|row| - 1], k);
      GetPut(RowToDictionary(row[..|row| - 1]), row[|row| - 1].key, row[|row| - 1].val, k);
    }
  }

  /** A row without repeated keys survives the trip through a dictionary unchanged. */
  lemma {:induction false} RowDictionaryRoundTrip(row: Row)
    requires UniqueKeys(row)
    ensures DictionaryToRow(RowToDictionary(row)) == row
  {
    if row != [] {
      var init := row[..|row| - 1];
      RowDictionaryRoundTrip(init);
      PutAbsent(init, row[|row| - 1].key, row[|row| - 1].val);
      assert row == init + [row[|row| - 1]];
    }
  }
}
