/** The constraint program that `PuzzleSolver` and `PuzzleModeler` hand to
    the CP-SAT solver, written as data. Variable (p, r, c) is
    `occupancies[p][r][c]`: person p stands on cell (r, c). A variable whose
    cell is unavailable is the constant 0 (`NewConstant(0)`), every other
    one a 0/1 Boolean. The solver itself is not modelled: an `Assignment`
    of the Boolean variables stands for a solution it could return, and
    `Satisfies` says when that assignment meets every constraint. */
module Constraints {
  import opened Puzzle
  import opened BoardModel

  datatype Var = Var(person: int, row: int, column: int)

  datatype Relation = Equal | AtLeast

  /** `model.Add(sum(terms) == bound)`, or `>= bound`. */
  datatype LinearConstraint = LinearConstraint(terms: seq<Var>, relation: Relation, bound: int)

  /** The value a solution gives each Boolean variable. */
  type Assignment = Var -> bool

  /** The value of a variable under an assignment: a constant-0 variable
      (its cell is unavailable) is 0 whatever the assignment says. */
  function Value(a: Assignment, unavailable: set<Coordinate>, v: Var): (x: int)
    ensures x == 0 || x == 1
    ensures x == 1 <==> Coordinate(v.row, v.column) !in unavailable && a(v)
  {
    if Coordinate(v.row, v.column) in unavailable || !a(v) then 0 else 1
  }

  /** Person v.person stands on cell (v.row, v.column). */
  predicate Occupied(a: Assignment, unavailable: set<Coordinate>, v: Var) {
    Value(a, unavailable, v) == 1
  }

  /** The left-hand side of a constraint: the sum of its terms' values. */
  function Sum(a: Assignment, unavailable: set<Coordinate>, terms: seq<Var>): (total: int)
    ensures 0 <= total <= |terms|
  {
    if terms == [] then 0 else Value(a, unavailable, terms[0]) + Sum(a, unavailable, terms[1..])
  }

  predicate Holds(a: Assignment, unavailable: set<Coordinate>, lc: LinearConstraint) {
    match lc.relation
    case Equal => Sum(a, unavailable, lc.terms) == lc.bound
    case AtLeast => Sum(a, unavailable, lc.terms) >= lc.bound
  }

  predicate Satisfies(a: Assignment, unavailable: set<Coordinate>, lcs: seq<LinearConstraint>) {
    forall i :: 0 <= i < |lcs| ==> Holds(a, unavailable, lcs[i])
  }

  ghost predicate NoDup<T>(s: seq<T>) {
    forall i, j :: 0 <= i < j < |s| ==> s[i] != s[j]
  }

  /** Exactly one of the (distinct) terms is 1. */
  ghost predicate ExactlyOne(a: Assignment, unavailable: set<Coordinate>, terms: seq<Var>) {
    && (exists v :: v in terms && Occupied(a, unavailable, v))
    && (forall v, w :: v in terms && w in terms && Occupied(a, unavailable, v) && Occupied(a, unavailable, w) ==> v == w)
  }

  /** A sum is 0 exactly when every term is 0. */
  lemma {:induction false} SumZeroMeans(a: Assignment, unavailable: set<Coordinate>, terms: seq<Var>)
    ensures Sum(a, unavailable, terms) == 0 <==> forall v :: v in terms ==> !Occupied(a, unavailable, v)
  {
    if terms != [] {
      var x, rest := terms[0], terms[1..];
      SumZeroMeans(a, unavailable, rest);
      assert Sum(a, unavailable, terms) == Value(a, unavailable, x) + Sum(a, unavailable, rest);
      if Occupied(a, unavailable, x) {
        assert x in terms;
      } else {
        assert forall v :: v in terms ==> v == x || v in rest;
        assert forall v :: v in rest ==> v in terms;
      }
    }
  }

  /** A sum is at least 1 exactly when some term is 1. */
  lemma SumPositiveMeans(a: Assignment, unavailable: set<Coordinate>, terms: seq<Var>)
    ensures Sum(a, unavailable, terms) >= 1 <==> exists v :: v in terms && Occupied(a, unavailable, v)
  {
    SumZeroMeans(a, unavailable, terms);
  }

  /** Over distinct terms, a sum is 1 exactly when one term is 1. */
  lemma {:induction false} SumOneMeans(a: Assignment, unavailable: set<Coordinate>, terms: seq<Var>)
    requires NoDup(terms)
    ensures Sum(a, unavailable, terms) == 1 <==> ExactlyOne(a, unavailable, terms)
  {
    if terms != [] {
      var x, rest := terms[0], terms[1..];
      assert NoDup(rest);
      assert x !in rest;
      assert forall v :: v in terms <==> v == x || v in rest;
      SumZeroMeans(a, unavailable, rest);
      SumOneMeans(a, unavailable, rest);
      if Occupied(a, unavailable, x) {
        if ExactlyOne(a, unavailable, terms) {
          forall v | v in rest
            ensures !Occupied(a, unavailable, v)
          {
            assert v != x;
          }
        }
      } else {
        if ExactlyOne(a, unavailable, terms) {
          var v :| v in terms && Occupied(a, unavailable, v);
          assert v in rest;
        }
      }
    }
  }

  function Concat<T>(ss: seq<seq<T>>): (s: seq<T>)
    ensures |ss| == 0 ==> s == []
  {
    if ss == [] then [] else ss[0] + Concat(ss[1..])
  }

  lemma {:induction false} ConcatMembership<T>(ss: seq<seq<T>>, x: T)
    ensures x in Concat(ss) <==> exists i :: 0 <= i < |ss| && x in ss[i]
  {
    if ss != [] {
      ConcatMembership(ss[1..], x);
      if x in Concat(ss[1..]) {
        var i :| 0 <= i < |ss[1..]| && x in ss[1..][i];
        assert x in ss[i + 1];
      }
      if exists i :: 0 <= i < |ss| && x in ss[i] {
        var i :| 0 <= i < |ss| && x in ss[i];
        if i > 0 {
          assert x in ss[1..][i - 1];
        }
      }
    }
  }

  lemma NoDupAppend<T>(s: seq<T>, t: seq<T>)
    requires NoDup(s) && NoDup(t)
    requires forall x :: x in s ==> x !in t
    ensures NoDup(s + t)
  {
    forall i, j | 0 <= i < j < |s + t|
      ensures (s + t)[i] != (s + t)[j]
    {
      if i < |s| && j >= |s| {
        assert (s + t)[i] in s && (s + t)[j] in t;
      }
    }
  }

  /** Concatenating distinct lines with no element in common gives a sequence
      without duplicates. */
  lemma {:induction false} ConcatNoDup<T>(ss: seq<seq<T>>)
    requires forall i :: 0 <= i < |ss| ==> NoDup(ss[i])
    requires forall i, j, x :: 0 <= i < |ss| && 0 <= j < |ss| && x in ss[i] && x in ss[j] ==> i == j
    ensures NoDup(Concat(ss))
  {
    if ss != [] {
      ConcatNoDup(ss[1..]);
      forall x | x in ss[0]
        ensures x !in Concat(ss[1..])
      {
        ConcatMembership(ss[1..], x);
        forall i | 0 <= i < |ss[1..]|
          ensures x !in ss[1..][i]
        {
          assert ss[1..][i] == ss[i + 1];
        }
      }
      NoDupAppend(ss[0], Concat(ss[1..]));
    }
  }

  /** The sum of `occupancies` over an n-by-n block, in the source's
      comprehension order: outer index i, inner index j. */
  function Block(n: nat, f: (int, int) -> Var): seq<Var> {
    Concat(seq(n, i => seq(n, j => f(i, j))))
  }

  lemma BlockMembership(n: nat, f: (int, int) -> Var, v: Var)
    ensures v in Block(n, f) <==> exists i, j :: 0 <= i < n && 0 <= j < n && v == f(i, j)
  {
    var ss := seq(n, i => seq(n, j => f(i, j)));
    ConcatMembership(ss, v);
    if exists i :: 0 <= i < n && v in ss[i] {
      var i :| 0 <= i < n && v in ss[i];
      var j :| 0 <= j < n && ss[i][j] == v;
    }
    if exists i, j :: 0 <= i < n && 0 <= j < n && v == f(i, j) {
      var i, j :| 0 <= i < n && 0 <= j < n && v == f(i, j);
      assert ss[i][j] == v;
    }
  }

  lemma BlockNoDup(n: nat, f: (int, int) -> Var)
    requires forall i1, j1, i2, j2 :: 0 <= i1 < n && 0 <= j1 < n && 0 <= i2 < n && 0 <= j2 < n && f(i1, j1) == f(i2, j2) ==> i1 == i2 && j1 == j2
    ensures NoDup(Block(n, f))
  {
    var ss := seq(n, i => seq(n, j => f(i, j)));
    forall i, k, x | 0 <= i < n && 0 <= k < n && x in ss[i] && x in ss[k]
      ensures i == k
    {
      var j1 :| 0 <= j1 < n && ss[i][j1] == x;
      var j2 :| 0 <= j2 < n && ss[k][j2] == x;
    }
    ConcatNoDup(ss);
  }

  /** A variable of one of the n people and a cell of the n-by-n board. */
  predicate InPlay(n: int, v: Var) {
    0 <= v.person < n && InGrid(n, v.row, v.column)
  }

  /** The three kinds of sum `_set_uniqueness_constraints` builds: over one
      person's cells, over one row, and over one column. */
  datatype Axis = PersonAxis | RowAxis | ColumnAxis

  /** The coordinate of a variable along an axis. */
  function Along(axis: Axis, v: Var): int {
    match axis
    case PersonAxis => v.person
    case RowAxis => v.row
    case ColumnAxis => v.column
  }

  /** Person p's variables, rows outer and columns inner. */
  function PersonTerms(n: nat, p: int): (terms: seq<Var>)
    ensures NoDup(terms)
    ensures forall v :: v in terms <==> v.person == p && InGrid(n, v.row, v.column)
  {
    var f := (r, c) => Var(p, r, c);
    BlockNoDup(n, f);
    forall v ensures v in Block(n, f) <==> v.person == p && InGrid(n, v.row, v.column) {
      BlockMembership(n, f, v);
      if v.person == p && InGrid(n, v.row, v.column) {
        assert v == f(v.row, v.column);
      }
    }
    Block(n, f)
  }

  /** Row r's variables, people outer and columns inner. */
  function RowTerms(n: nat, r: int): (terms: seq<Var>)
    ensures NoDup(terms)
    ensures forall v :: v in terms <==> v.row == r && 0 <= v.person < n && 0 <= v.column < n
  {
    var f := (p, c) => Var(p, r, c);
    BlockNoDup(n, f);
    forall v ensures v in Block(n, f) <==> v.row == r && 0 <= v.person < n && 0 <= v.column < n {
      BlockMembership(n, f, v);
      if v.row == r && 0 <= v.person < n && 0 <= v.column < n {
        assert v == f(v.person, v.column);
      }
    }
    Block(n, f)
  }

  /** Column c's variables, people outer and rows inner. */
  function ColumnTerms(n: nat, c: int): (terms: seq<Var>)
    ensures NoDup(terms)
    ensures forall v :: v in terms <==> v.column == c && 0 <= v.person < n && 0 <= v.row < n
  {
    var f := (p, r) => Var(p, r, c);
    BlockNoDup(n, f);
    forall v ensures v in Block(n, f) <==> v.column == c && 0 <= v.person < n && 0 <= v.row < n {
      BlockMembership(n, f, v);
      if v.column == c && 0 <= v.person < n && 0 <= v.row < n {
        assert v == f(v.person, v.row);
      }
    }
    Block(n, f)
  }

  /** The terms of the k-th sum along an axis: for 0 <= k < n, exactly the
      variables in play whose coordinate along the axis is k. */
  function AxisTerms(n: nat, axis: Axis, k: int): (terms: seq<Var>)
    ensures NoDup(terms)
    ensures 0 <= k < n ==> forall v :: v in terms <==> InPlay(n, v) && Along(axis, v) == k
  {
    match axis
    case PersonAxis => PersonTerms(n, k)
    case RowAxis => RowTerms(n, k)
    case ColumnAxis => ColumnTerms(n, k)
  }

  /** One `sum(...) == 1` per person, row or column. */
  function AxisConstraints(n: nat, axis: Axis): seq<LinearConstraint> {
    seq(n, k => LinearConstraint(AxisTerms(n, axis, k), Equal, 1))
  }

  /** The constraints `_set_uniqueness_constraints` adds, in order. */
  function UniquenessConstraints(n: nat): seq<LinearConstraint> {
    AxisConstraints(n, PersonAxis) + AxisConstraints(n, RowAxis) + AxisConstraints(n, ColumnAxis)
  }

  /** Some variable in play with coordinate k along the axis is occupied. */
  ghost predicate Filled(a: Assignment, unavailable: set<Coordinate>, n: nat, axis: Axis, k: int) {
    exists v :: InPlay(n, v) && Along(axis, v) == k && Occupied(a, unavailable, v)
  }

  /** No two occupied variables in play share a coordinate along the axis. */
  ghost predicate Apart(a: Assignment, unavailable: set<Coordinate>, n: nat, axis: Axis) {
    forall v, w ::
      (InPlay(n, v) && InPlay(n, w) && Occupied(a, unavailable, v) && Occupied(a, unavailable, w) &&
       Along(axis, v) == Along(axis, w)) ==> v == w
  }

  ghost predicate FilledApart(a: Assignment, unavailable: set<Coordinate>, n: nat, axis: Axis) {
    (forall k :: 0 <= k < n ==> Filled(a, unavailable, n, axis, k)) && Apart(a, unavailable, n, axis)
  }

  /** What a solution of the uniqueness constraints is: every person, every
      row and every column has an occupied cell, and no two occupied
      variables share a person, a row or a column. So the n people stand on
      n distinct cells, one in each row and one in each column. */
  ghost predicate Placement(a: Assignment, unavailable: set<Coordinate>, n: nat) {
    && FilledApart(a, unavailable, n, PersonAxis)
    && FilledApart(a, unavailable, n, RowAxis)
    && FilledApart(a, unavailable, n, ColumnAxis)
  }

  /** The sums along one axis all equal 1 exactly when every line of the
      axis is filled and no two occupied variables share a line. */
  lemma AxisConstraintsMean(a: Assignment, unavailable: set<Coordinate>, n: nat, axis: Axis)
    ensures Satisfies(a, unavailable, AxisConstraints(n, axis)) <==> FilledApart(a, unavailable, n, axis)
  {
    if Satisfies(a, unavailable, AxisConstraints(n, axis)) {
      AxisConstraintsApart(a, unavailable, n, axis);
      AxisConstraintsFilled(a, unavailable, n, axis);
    }
    if FilledApart(a, unavailable, n, axis) {
      FilledApartSatisfies(a, unavailable, n, axis);
    }
  }

  /** The k-th sum along an axis is 1 exactly when one of its terms is. */
  lemma AxisLineMeans(a: Assignment, unavailable: set<Coordinate>, n: nat, axis: Axis, k: int)
    requires 0 <= k < n
    ensures Holds(a, unavailable, AxisConstraints(n, axis)[k]) <==> ExactlyOne(a, unavailable, AxisTerms(n, axis, k))
  {
    SumOneMeans(a, unavailable, AxisTerms(n, axis, k));
  }

  lemma AxisConstraintsApart(a: Assignment, unavailable: set<Coordinate>, n: nat, axis: Axis)
    requires Satisfies(a, unavailable, AxisConstraints(n, axis))
    ensures Apart(a, unavailable, n, axis)
  {
    forall v, w | InPlay(n, v) && InPlay(n, w) && Occupied(a, unavailable, v) && Occupied(a, unavailable, w) && Along(axis, v) == Along(axis, w)
      ensures v == w
    {
      var k := Along(axis, v);
      AxisLineMeans(a, unavailable, n, axis, k);
      assert v in AxisTerms(n, axis, k) && w in AxisTerms(n, axis, k);
    }
  }

  lemma AxisConstraintsFilled(a: Assignment, unavailable: set<Coordinate>, n: nat, axis: Axis)
    requires Satisfies(a, unavailable, AxisConstraints(n, axis))
    ensures forall k :: 0 <= k < n ==> Filled(a, unavailable, n, axis, k)
  {
    forall k | 0 <= k < n
      ensures Filled(a, unavailable, n, axis, k)
    {
      AxisLineMeans(a, unavailable, n, axis, k);
      var v :| v in AxisTerms(n, axis, k) && Occupied(a, unavailable, v);
    }
  }

  lemma FilledApartSatisfies(a: Assignment, unavailable: set<Coordinate>, n: nat, axis: Axis)
    requires FilledApart(a, unavailable, n, axis)
    ensures Satisfies(a, unavailable, AxisConstraints(n, axis))
  {
    forall k | 0 <= k < n
      ensures Holds(a, unavailable, AxisConstraints(n, axis)[k])
    {
      assert Filled(a, unavailable, n, axis, k);
      var v :| InPlay(n, v) && Along(axis, v) == k && Occupied(a, unavailable, v);
      assert v in AxisTerms(n, axis, k);
      AxisLineMeans(a, unavailable, n, axis, k);
    }
  }

  lemma SatisfiesSingle(a: Assignment, unavailable: set<Coordinate>, c: LinearConstraint)
    ensures Satisfies(a, unavailable, [c]) <==> Holds(a, unavailable, c)
  {
    if Satisfies(a, unavailable, [c]) {
      assert Holds(a, unavailable, [c][0]);
    }
  }

  /** A model that starts empty and gains `first`, then `rest`, holds
      exactly `first + rest`. */
  lemma FromEmpty(start: seq<LinearConstraint>, first: seq<LinearConstraint>, mid: seq<LinearConstraint>,
                  rest: seq<LinearConstraint>, after: seq<LinearConstraint>)
    requires start == [] && mid == start + first && after == mid + rest
    ensures after == first + rest
  {
  }

  lemma SatisfiesAppend(a: Assignment, unavailable: set<Coordinate>, s: seq<LinearConstraint>, t: seq<LinearConstraint>)
    ensures Satisfies(a, unavailable, s + t) <==> Satisfies(a, unavailable, s) && Satisfies(a, unavailable, t)
  {
    if Satisfies(a, unavailable, s) && Satisfies(a, unavailable, t) {
      forall i | 0 <= i < |s + t|
        ensures Holds(a, unavailable, (s + t)[i])
      {
        if i < |s| {
          assert (s + t)[i] == s[i];
        } else {
          assert (s + t)[i] == t[i - |s|];
        }
      }
    }
    if Satisfies(a, unavailable, s + t) {
      forall i | 0 <= i < |s|
        ensures Holds(a, unavailable, s[i])
      {
        assert (s + t)[i] == s[i];
      }
      forall i | 0 <= i < |t|
        ensures Holds(a, unavailable, t[i])
      {
        assert (s + t)[|s| + i] == t[i];
      }
    }
  }

  /** A solution meets the uniqueness constraints exactly when it places
      the n people on distinct rows and columns, one cell each. */
  lemma UniquenessMeans(a: Assignment, unavailable: set<Coordinate>, n: nat)
    ensures Satisfies(a, unavailable, UniquenessConstraints(n)) <==> Placement(a, unavailable, n)
  {
    var ps, rs, cs := AxisConstraints(n, PersonAxis), AxisConstraints(n, RowAxis), AxisConstraints(n, ColumnAxis);
    SatisfiesAppend(a, unavailable, ps + rs, cs);
    SatisfiesAppend(a, unavailable, ps, rs);
    AxisConstraintsMean(a, unavailable, n, PersonAxis);
    AxisConstraintsMean(a, unavailable, n, RowAxis);
    AxisConstraintsMean(a, unavailable, n, ColumnAxis);
  }

  /** The `cp_model.CpModel` the constraints are added to. */
  class CpModel {
    var constraints: seq<LinearConstraint>

    constructor ()
      ensures constraints == []
    {
      constraints := [];
    }

    /** `CpModel.Add`. */
    method Add(lc: LinearConstraint)
      modifies this
      ensures constraints == old(constraints) + [lc]
    {
      constraints := constraints + [lc];
    }

    /** `_set_uniqueness_constraints`: each person stands on exactly one
        cell, and each row and each column holds exactly one person. */
    method AddUniquenessConstraints(n: nat)
      modifies this
      ensures constraints == old(constraints) + UniquenessConstraints(n)
    {
      AddAxisConstraints(n, PersonAxis);
      AddAxisConstraints(n, RowAxis);
      AddAxisConstraints(n, ColumnAxis);
    }

    /** One of `_set_uniqueness_constraints`'s three loops. */
    method AddAxisConstraints(n: nat, axis: Axis)
      modifies this
      ensures constraints == old(constraints) + AxisConstraints(n, axis)
    {
      var k := 0;
      while k < n
        invariant 0 <= k <= n
        invariant constraints == old(constraints) + AxisConstraints(n, axis)[..k]
      {
        Add(LinearConstraint(AxisTerms(n, axis, k), Equal, 1));
        assert AxisConstraints(n, axis)[..k + 1] == AxisConstraints(n, axis)[..k] + [AxisConstraints(n, axis)[k]];
        k := k + 1;
      }
      assert AxisConstraints(n, axis)[..n] == AxisConstraints(n, axis);
    }
  }
}
