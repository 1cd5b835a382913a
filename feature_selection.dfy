/**
 * Fast Correlation-Based Filter (FCBF) feature selection.
 *
 * The selector receives a p x p matrix of absolute feature-feature correlations
 * and a p x k matrix of absolute feature-target correlations. It reduces the
 * second one to one relevance score per feature (the product over the
 * targets), then greedily picks the most relevant remaining feature while that
 * relevance is strictly above `levelXy`, retiring every unselected positive
 * feature that correlates with the pick strictly above `levelXX`.
 *
 * The greedy loop is specified by a functional trace (`Round`, `Picks`,
 * `Final`) and implemented by `Select` over arrays, as the source does it.
 */
module FeatureSelection {

  type Matrix = seq<seq<real>>

  datatype Option<T> = None | Some(value: T)

  /** A named column of a data frame: its label and its values, one per row. */
  datatype Column = Column(name: string, values: seq<real>)

  /** Every row of `X` has |X| entries: X is p x p. */
  predicate IsSquare(X: Matrix)
  {
    forall i :: 0 <= i < |X| ==> |X[i]| == |X|
  }

  predicate IsSymmetric(X: Matrix)
    requires IsSquare(X)
  {
    forall i, j :: 0 <= i < |X| && 0 <= j < |X| ==> X[i][j] == X[j][i]
  }

  predicate InUnit(row: seq<real>)
  {
    forall t :: 0 <= t < |row| ==> 0.0 <= row[t] <= 1.0
  }

  predicate NonNegative(w: seq<real>)
  {
    forall i :: 0 <= i < |w| ==> 0.0 <= w[i]
  }

  // ---------------------------------------------------------------------------
  // Relevance: the product across targets
  // ---------------------------------------------------------------------------

  /** Product of one row of the feature-target matrix (1 for an empty row). */
  function Product(row: seq<real>): (r: real)
    ensures InUnit(row) ==> 0.0 <= r <= 1.0
  {
    if |row| == 0 then 1.0
    else
      var rest := Product(row[1..]);
      assert forall t :: 1 <= t < |row| ==> row[t] == row[1..][t - 1];
      if InUnit(row) then
        assert InUnit(row[1..]);
        UnitProduct(row[0], rest);
        row[0] * rest
      else
        row[0] * rest
  }

  lemma MulNonNeg(x: real, y: real)
    requires 0.0 <= x && 0.0 <= y
    ensures 0.0 <= x * y
  {
  }

  lemma MulAtMost(a: real, b: real)
    requires 0.0 <= a && b <= 1.0
    ensures a * b <= a
  {
    MulNonNeg(a, 1.0 - b);
    assert a * (1.0 - b) == a - a * b;
  }

  lemma UnitProduct(a: real, b: real)
    requires 0.0 <= a <= 1.0 && 0.0 <= b <= 1.0
    ensures 0.0 <= a * b && a * b <= a && a * b <= b
  {
    MulNonNeg(a, b);
    MulAtMost(a, b);
    MulAtMost(b, a);
    assert a * b == b * a;
  }

  /** A zero correlation with any one target makes the product zero. */
  lemma {:induction false} ProductZeroFactor(row: seq<real>, t: nat)
    requires t < |row| && row[t] == 0.0
    ensures Product(row) == 0.0
  {
    if t > 0 {
      assert row[1..][t - 1] == row[t];
      ProductZeroFactor(row[1..], t - 1);
    }
  }

  /** One relevance score per feature (`corr_Xy.prod(axis=1)`). */
  function Relevance(Y: Matrix): (rel: seq<real>)
    ensures |rel| == |Y|
    ensures forall i :: 0 <= i < |Y| ==> rel[i] == Product(Y[i])
    ensures forall i :: 0 <= i < |Y| && InUnit(Y[i]) ==> 0.0 <= rel[i] <= 1.0
  {
    seq(|Y|, i requires 0 <= i < |Y| => Product(Y[i]))
  }

  // ---------------------------------------------------------------------------
  // Counting helpers
  // ---------------------------------------------------------------------------

  /** Number of strictly positive entries of the working vector. */
  function CountPositive(w: seq<real>): (n: nat)
    ensures n <= |w|
  {
    if |w| == 0 then 0
    else CountPositive(w[..|w| - 1]) + (if w[|w| - 1] > 0.0 then 1 else 0)
  }

  /** Number of selected features in a mask. */
  function CountTrue(m: seq<bool>): (n: nat)
    ensures n <= |m|
  {
    if |m| == 0 then 0
    else CountTrue(m[..|m| - 1]) + (if m[|m| - 1] then 1 else 0)
  }

  /** Entries of `t` are those of `s`, some of them set to 0. */
  predicate OnlyZeroed(s: seq<real>, t: seq<real>)
  {
    |s| == |t| && forall i :: 0 <= i < |s| ==> t[i] == s[i] || t[i] == 0.0
  }

  lemma {:induction false} CountPositiveMono(s: seq<real>, t: seq<real>)
    requires OnlyZeroed(s, t)
    ensures CountPositive(t) <= CountPositive(s)
  {
    if |s| > 0 {
      var n := |s| - 1;
      CountPositiveMono(s[..n], t[..n]);
    }
  }

  lemma {:induction false} CountPositiveShrinks(s: seq<real>, t: seq<real>, b: nat)
    requires OnlyZeroed(s, t) && b < |s|
    requires s[b] > 0.0 && t[b] == 0.0
    ensures CountPositive(t) < CountPositive(s)
  {
    var n := |s| - 1;
    if b < n {
      CountPositiveShrinks(s[..n], t[..n], b);
    } else {
      CountPositiveMono(s[..n], t[..n]);
    }
  }

  /** Counting the true entries splits over concatenation. */
  lemma {:induction false} CountTrueAppend(a: seq<bool>, b: seq<bool>)
    ensures CountTrue(a + b) == CountTrue(a) + CountTrue(b)
    decreases |b|
  {
    if |b| > 0 {
      var n := |b| - 1;
      assert (a + b)[..|a + b| - 1] == a + b[..n];
      CountTrueAppend(a, b[..n]);
    } else {
      assert a + b == a;
    }
  }

  /** A one-entry mask counts 1 when its entry is true and 0 otherwise. */
  lemma CountTrueSingle(x: bool)
    ensures CountTrue([x]) == if x then 1 else 0
  {
    assert [x][..0] == [];
  }

  lemma {:induction false} CountTrueSet(m: seq<bool>, b: nat)
    requires b < |m| && !m[b]
    ensures CountTrue(m[b := true]) == CountTrue(m) + 1
  {
    var n := |m| - 1;
    assert m[b := true][..n] == if b < n then m[..n][b := true] else m[..n];
    if b < n {
      CountTrueSet(m[..n], b);
    }
  }

  // ---------------------------------------------------------------------------
  // Argmax with the first-occurrence tie-break
  // ---------------------------------------------------------------------------

  /** `k` is the lowest index at which `s` attains its maximum. */
  predicate IsFirstMax(s: seq<real>, k: nat)
  {
    k < |s|
    && (forall j :: 0 <= j < |s| ==> s[j] <= s[k])
    && (forall j :: 0 <= j < k ==> s[j] < s[k])
  }

  /** The index `np.argmax` returns: the first occurrence of the maximum. */
  function FirstMax(s: seq<real>): (k: nat)
    requires |s| > 0
    ensures IsFirstMax(s, k)
  {
    if |s| == 1 then 0
    else
      var k := FirstMax(s[..|s| - 1]);
      if s[|s| - 1] > s[k] then |s| - 1 else k
  }

  lemma FirstMaxUnique(s: seq<real>, k: nat)
    requires IsFirstMax(s, k)
    ensures k == FirstMax(s)
  {
  }

  /** Linear scan for the first maximum of the working vector. */
  method ArgMax(a: array<real>) returns (k: nat)
    requires a.Length > 0
    ensures IsFirstMax(a[..], k)
  {
    k := 0;
    var i := 1;
    while i < a.Length
      invariant 1 <= i <= a.Length && k < i
      invariant forall j :: 0 <= j < i ==> a[j] <= a[k]
      invariant forall j :: 0 <= j < k ==> a[j] < a[k]
    {
      if a[i] > a[k] {
        k := i;
      }
      i := i + 1;
    }
  }

  // ---------------------------------------------------------------------------
  // The greedy loop as a trace of rounds
  // ---------------------------------------------------------------------------

  /** The loop's state: the working relevance vector and the mask. */
  datatype State = State(work: seq<real>, mask: seq<bool>)

  predicate Shaped(X: Matrix, s: State)
  {
    IsSquare(X) && |s.work| == |X| && |s.mask| == |X|
  }

  /** A selected feature has working relevance 0. */
  predicate Consistent(s: State)
  {
    |s.work| == |s.mask| && forall i :: 0 <= i < |s.mask| && s.mask[i] ==> s.work[i] == 0.0
  }

  /** The loop guard `np.max(work) > levelXy`; false on an empty vector. */
  predicate Continue(w: seq<real>, levelXy: real)
  {
    |w| > 0 && w[FirstMax(w)] > levelXy
  }

  lemma ContinueIff(w: seq<real>, levelXy: real)
    ensures Continue(w, levelXy) <==> exists i :: 0 <= i < |w| && w[i] > levelXy
  {
    if i :| 0 <= i < |w| && w[i] > levelXy {
      assert w[i] <= w[FirstMax(w)];
    }
  }

  /** The inner `for` loop: retire every unselected positive feature that
      correlates with the pick strictly above `levelXX`. */
  function Prune(row: seq<real>, levelXX: real, w: seq<real>, m: seq<bool>): (r: seq<real>)
    requires |row| == |w| == |m|
    ensures OnlyZeroed(w, r)
  {
    seq(|w|, i requires 0 <= i < |w| => if !m[i] && w[i] > 0.0 && row[i] > levelXX then 0.0 else w[i])
  }

  /** One round of the loop body once `best` has been picked. */
  function Round(X: Matrix, levelXX: real, s: State, best: nat): (t: State)
    requires Shaped(X, s) && best < |X|
    ensures Shaped(X, t)
    ensures t.mask == s.mask[best := true]
    ensures t.work[best] == 0.0
    ensures OnlyZeroed(s.work, t.work)
    ensures forall i :: 0 <= i < |X| && i != best && !s.mask[i] && s.work[i] > 0.0 && X[best][i] > levelXX
              ==> t.work[i] == 0.0
    ensures forall i :: 0 <= i < |X| && i != best && t.work[i] != s.work[i]
              ==> !s.mask[i] && s.work[i] > 0.0 && X[best][i] > levelXX
    ensures Consistent(s) ==> Consistent(t)
    ensures s.work[best] > 0.0 ==> CountPositive(t.work) < CountPositive(s.work)
  {
    var m := s.mask[best := true];
    var w0 := s.work[best := 0.0];
    var w := Prune(X[best], levelXX, w0, m);
    assert OnlyZeroed(s.work, w0);
    assert OnlyZeroed(s.work, w);
    if s.work[best] > 0.0 then
      CountPositiveShrinks(s.work, w, best);
      State(w, m)
    else
      State(w, m)
  }

  /** The indices picked by the remaining rounds, in order. */
  function Picks(X: Matrix, levelXX: real, levelXy: real, s: State): (P: seq<nat>)
    requires Shaped(X, s) && 0.0 <= levelXy
    ensures |P| <= CountPositive(s.work)
    ensures forall j :: 0 <= j < |P| ==> P[j] < |X|
    decreases CountPositive(s.work)
  {
    if !Continue(s.work, levelXy) then []
    else
      var b := FirstMax(s.work);
      [b] + Picks(X, levelXX, levelXy, Round(X, levelXX, s, b))
  }

  /** The state in which the loop exits. */
  function Final(X: Matrix, levelXX: real, levelXy: real, s: State): (t: State)
    requires Shaped(X, s) && 0.0 <= levelXy
    ensures Shaped(X, t)
    ensures forall i :: 0 <= i < |t.work| ==> t.work[i] <= levelXy
    decreases CountPositive(s.work)
  {
    if !Continue(s.work, levelXy) then
      ContinueIff(s.work, levelXy);
      s
    else
      Final(X, levelXX, levelXy, Round(X, levelXX, s, FirstMax(s.work)))
  }

  /** A round taken while the guard holds leads to the same exit state and
      strictly lowers the number of positive working entries. */
  lemma RoundProgress(X: Matrix, levelXX: real, levelXy: real, s: State, best: nat)
    requires Shaped(X, s) && 0.0 <= levelXy && Continue(s.work, levelXy) && best == FirstMax(s.work)
    ensures Final(X, levelXX, levelXy, Round(X, levelXX, s, best)) == Final(X, levelXX, levelXy, s)
    ensures CountPositive(Round(X, levelXX, s, best).work) < CountPositive(s.work)
  {
  }

  lemma FinalStop(X: Matrix, levelXX: real, levelXy: real, s: State)
    requires Shaped(X, s) && 0.0 <= levelXy && !Continue(s.work, levelXy)
    ensures Final(X, levelXX, levelXy, s) == s
  {
  }

  /** The state before the first round: the relevance scores and an all-false mask. */
  function Initial(X: Matrix, Y: Matrix): (s: State)
    requires IsSquare(X) && |Y| == |X|
    ensures Shaped(X, s) && Consistent(s)
    ensures s.work == Relevance(Y)
    ensures forall i :: 0 <= i < |X| ==> !s.mask[i]
  {
    State(Relevance(Y), seq(|X|, _ => false))
  }

  /** The mask `fcbf` stores in `self.mask`. */
  function FcbfMask(X: Matrix, Y: Matrix, levelXX: real, levelXy: real): (mask: seq<bool>)
    requires IsSquare(X) && |Y| == |X| && 0.0 <= levelXy
    ensures |mask| == |X|
  {
    Final(X, levelXX, levelXy, Initial(X, Y)).mask
  }

  /** The order in which `fcbf` selects features. */
  function SelectionOrder(X: Matrix, Y: Matrix, levelXX: real, levelXy: real): (P: seq<nat>)
    requires IsSquare(X) && |Y| == |X| && 0.0 <= levelXy
    ensures |P| <= |X|
    ensures forall j :: 0 <= j < |P| ==> P[j] < |X|
  {
    Picks(X, levelXX, levelXy, Initial(X, Y))
  }

  // ---------------------------------------------------------------------------
  // The imperative loop
  // ---------------------------------------------------------------------------

  /** The inner `for` loop of `fcbf`, run in place on the working vector. */
  method RetireRedundant(work: array<real>, mask: array<bool>, row: seq<real>, levelXX: real)
    requires mask.Length == work.Length == |row|
    modifies work
    ensures work[..] == Prune(row, levelXX, old(work[..]), mask[..])
  {
    ghost var w0 := work[..];
    var i := 0;
    while i < work.Length
      invariant 0 <= i <= work.Length
      invariant forall j :: 0 <= j < i ==> work[j] == Prune(row, levelXX, w0, mask[..])[j]
      invariant forall j :: i <= j < work.Length ==> work[j] == w0[j]
    {
      var redundant := row[i] > levelXX;
      if !mask[i] && work[i] > 0.0 && redundant {
        work[i] := 0.0;
      }
      i := i + 1;
    }
  }

  /** One pass of the `while` body: select `best`, retire it, retire the
      features redundant with it. */
  method ApplyRound(X: Matrix, levelXX: real, work: array<real>, mask: array<bool>, best: nat)
    requires IsSquare(X) && work.Length == |X| && mask.Length == |X| && best < |X|
    modifies work, mask
    ensures State(work[..], mask[..]) == Round(X, levelXX, old(State(work[..], mask[..])), best)
  {
    ghost var s := State(work[..], mask[..]);
    mask[best] := true;
    work[best] := 0.0;
    RetireRedundant(work, mask, X[best], levelXX);
    assert work[..] == Round(X, levelXX, s, best).work;
  }

  /** Evaluates the loop guard `np.max(work) > levelXy` and, when it holds,
      the `np.argmax` pick. */
  method Guard(work: array<real>, levelXy: real) returns (go: bool, best: nat)
    ensures go <==> Continue(work[..], levelXy)
    ensures go ==> best == FirstMax(work[..])
  {
    go, best := false, 0;
    if work.Length > 0 {
      best := ArgMax(work);
      FirstMaxUnique(work[..], best);
      go := work[best] > levelXy;
    }
  }

  /** The copy of the relevance scores and the all-false mask `fcbf` starts from. */
  method StartArrays(X: Matrix, Y: Matrix) returns (work: array<real>, mask: array<bool>)
    requires IsSquare(X) && |Y| == |X|
    ensures fresh(work) && fresh(mask)
    ensures work.Length == |X| && mask.Length == |X|
    ensures State(work[..], mask[..]) == Initial(X, Y)
  {
    var p := |X|;
    var rel := Relevance(Y);
    work := new real[p](i requires 0 <= i < p => rel[i]);
    mask := new bool[p](_ => false);
  }

  /** One iteration of the `while` loop followed by the next guard test. */
  method Step(X: Matrix, levelXX: real, levelXy: real, work: array<real>, mask: array<bool>, best: nat)
    returns (go: bool, next: nat)
    requires IsSquare(X) && work.Length == |X| && mask.Length == |X| && 0.0 <= levelXy
    requires Continue(work[..], levelXy) && best == FirstMax(work[..])
    modifies work, mask
    ensures Final(X, levelXX, levelXy, State(work[..], mask[..]))
         == Final(X, levelXX, levelXy, old(State(work[..], mask[..])))
    ensures CountPositive(work[..]) < old(CountPositive(work[..]))
    ensures go <==> Continue(work[..], levelXy)
    ensures go ==> next == FirstMax(work[..])
  {
    RoundProgress(X, levelXX, levelXy, State(work[..], mask[..]), best);
    ApplyRound(X, levelXX, work, mask, best);
    go, next := Guard(work, levelXy);
  }

  /** The body of `fcbf`: works on its own copy of the relevance scores and
      builds the mask in place; `X` and `Y` are only read. */
  method Select(X: Matrix, Y: Matrix, levelXX: real, levelXy: real) returns (result: seq<bool>)
    requires IsSquare(X) && |Y| == |X| && 0.0 <= levelXy
    ensures result == FcbfMask(X, Y, levelXX, levelXy)
  {
    var work, mask := StartArrays(X, Y);
    ghost var init := Initial(X, Y);
    var go, best := Guard(work, levelXy);
    while go
      invariant work.Length == |X| && mask.Length == |X|
      invariant go <==> Continue(work[..], levelXy)
      invariant go ==> best == FirstMax(work[..])
      invariant Final(X, levelXX, levelXy, State(work[..], mask[..])) == Final(X, levelXX, levelXy, init)
      decreases CountPositive(work[..])
    {
      go, best := Step(X, levelXX, levelXy, work, mask, best);
    }
    FinalStop(X, levelXX, levelXy, State(work[..], mask[..]));
    result := mask[..];
  }

  // ---------------------------------------------------------------------------
  // Transform: the mask as an ordered column filter
  // ---------------------------------------------------------------------------

  /** The positions whose mask entry is true, in increasing order. */
  function KeptIndices(mask: seq<bool>): (idx: seq<nat>)
    ensures |idx| == CountTrue(mask)
    ensures forall j :: 0 <= j < |idx| ==> idx[j] < |mask| && mask[idx[j]]
    ensures forall j, k :: 0 <= j < k < |idx| ==> idx[j] < idx[k]
    ensures forall i :: 0 <= i < |mask| && mask[i] ==> i in idx
  {
    if |mask| == 0 then []
    else
      var n := |mask| - 1;
      var prev := KeptIndices(mask[..n]);
      assert forall i :: 0 <= i < n ==> mask[..n][i] == mask[i];
      prev + (if mask[n] then [n] else [])
  }

  /** `df.loc[:, mask]`: the columns whose mask entry is true, in order. */
  function Keep<T>(cols: seq<T>, mask: seq<bool>): (r: seq<T>)
    requires |cols| == |mask|
    ensures |r| == |KeptIndices(mask)|
    ensures forall j :: 0 <= j < |r| ==> r[j] == cols[KeptIndices(mask)[j]]
  {
    if |cols| == 0 then []
    else
      var n := |cols| - 1;
      Keep(cols[..n], mask[..n]) + (if mask[n] then [cols[n]] else [])
  }

  // ---------------------------------------------------------------------------
  // The selector object
  // ---------------------------------------------------------------------------

  class FeatureSelector {
    var dfX: seq<Column>
    var corrXX: Matrix
    var corrXy: Matrix
    var mask: Option<seq<bool>>

    /** The shapes the correlation step guarantees and that `fcbf` relies
        on: `corrXX` is square, `corrXy` has one row per row of `corrXX`, and
        a stored mask has one entry per row of `corrXX`. The feature table
        matches `corrXX` until `transform` narrows it, and `fcbf` does not
        read it, so it is not part of the invariant. */
    predicate Valid()
      reads this
    {
      IsSquare(corrXX) && |corrXy| == |corrXX|
      && (mask.Some? ==> |mask.value| == |corrXX|)
    }

    /** The selector with its feature table and the two correlation matrices
        the correlation step produced. */
    constructor (dfX: seq<Column>, corrXX: Matrix, corrXy: Matrix)
      requires IsSquare(corrXX) && |corrXX| == |dfX| && |corrXy| == |corrXX|
      ensures Valid() && |this.dfX| == |this.corrXX|
      ensures this.dfX == dfX && this.corrXX == corrXX && this.corrXy == corrXy
      ensures mask == None
    {
      this.dfX := dfX;
      this.corrXX := corrXX;
      this.corrXy := corrXy;
      mask := None;
    }

    /** Runs the selection and stores its mask. */
    method Fcbf(levelXX: real, levelXy: real)
      requires Valid() && 0.0 <= levelXy
      modifies this`mask
      ensures Valid()
      ensures mask == Some(FcbfMask(corrXX, corrXy, levelXX, levelXy))
    {
      var m := Select(corrXX, corrXy, levelXX, levelXy);
      mask := Some(m);
    }

    /** Replaces the feature table by its selected columns and returns it. */
    method Transform() returns (r: seq<Column>)
      requires Valid() && mask.Some? && |dfX| == |corrXX|
      modifies this`dfX
      ensures Valid()
      ensures dfX == Keep(old(dfX), mask.value) && r == dfX
    {
      dfX := Keep(dfX, mask.value);
      r := dfX;
    }
  }

  // ---------------------------------------------------------------------------
  // Properties of the trace
  // ---------------------------------------------------------------------------

  /** The final mask marks exactly the initially marked features and the picks. */
  lemma {:induction false} FinalMaskIsPicks(X: Matrix, levelXX: real, levelXy: real, s: State, i: nat)
    requires Shaped(X, s) && 0.0 <= levelXy && i < |X|
    ensures Final(X, levelXX, levelXy, s).mask[i] <==> s.mask[i] || i in Picks(X, levelXX, levelXy, s)
    decreases CountPositive(s.work)
  {
    if Continue(s.work, levelXy) {
      FinalMaskIsPicks(X, levelXX, levelXy, Round(X, levelXX, s, FirstMax(s.work)), i);
    }
  }

  /** A feature is picked only while its working relevance is above `levelXy`;
      since entries are only ever zeroed, that is its value now. */
  lemma {:induction false} PickedWasAbove(X: Matrix, levelXX: real, levelXy: real, s: State, i: nat)
    requires Shaped(X, s) && 0.0 <= levelXy
    requires i in Picks(X, levelXX, levelXy, s)
    ensures i < |X| && s.work[i] > levelXy
    decreases CountPositive(s.work)
  {
    var b := FirstMax(s.work);
    if i != b {
      var t := Round(X, levelXX, s, b);
      PickedWasAbove(X, levelXX, levelXy, t, i);
    }
  }

  /** No index occurs twice. */
  predicate NoRepeats(P: seq<nat>)
  {
    forall a, c :: 0 <= a < c < |P| ==> P[a] != P[c]
  }

  /** Every index is a feature, and each one correlates at most `levelXX`
      with every feature that comes after it. */
  predicate NonRedundantOrder(X: Matrix, levelXX: real, P: seq<nat>)
    requires IsSquare(X)
  {
    (forall a :: 0 <= a < |P| ==> P[a] < |X|)
    && forall a, c :: 0 <= a < c < |P| ==> X[P[a]][P[c]] <= levelXX
  }

  lemma ConsNoRepeats(b: nat, rest: seq<nat>)
    requires NoRepeats(rest) && b !in rest
    ensures NoRepeats([b] + rest)
  {
    var P := [b] + rest;
    forall a, c | 0 <= a < c < |P| ensures P[a] != P[c] {
      assert P[c] == rest[c - 1];
      if a > 0 {
        assert P[a] == rest[a - 1];
      }
    }
  }

  lemma ConsNonRedundant(X: Matrix, levelXX: real, b: nat, rest: seq<nat>)
    requires IsSquare(X) && b < |X| && NonRedundantOrder(X, levelXX, rest)
    requires forall j :: j in rest ==> X[b][j] <= levelXX
    ensures NonRedundantOrder(X, levelXX, [b] + rest)
  {
    var P := [b] + rest;
    forall a, c | 0 <= a < c < |P| ensures X[P[a]][P[c]] <= levelXX {
      assert P[c] == rest[c - 1];
      if a > 0 {
        assert P[a] == rest[a - 1];
      }
    }
  }

  /** No feature is picked twice. */
  lemma {:induction false} PicksDistinct(X: Matrix, levelXX: real, levelXy: real, s: State)
    requires Shaped(X, s) && 0.0 <= levelXy
    ensures NoRepeats(Picks(X, levelXX, levelXy, s))
    decreases CountPositive(s.work)
  {
    if Continue(s.work, levelXy) {
      var b := FirstMax(s.work);
      var t := Round(X, levelXX, s, b);
      PicksDistinct(X, levelXX, levelXy, t);
      var rest := Picks(X, levelXX, levelXy, t);
      if b in rest {
        PickedWasAbove(X, levelXX, levelXy, t, b);
      }
      ConsNoRepeats(b, rest);
    }
  }

  /** Redundancy: a feature picked in an earlier round than another correlates
      with it at most `levelXX`. */
  lemma {:induction false} PicksNonRedundant(X: Matrix, levelXX: real, levelXy: real, s: State)
    requires Shaped(X, s) && Consistent(s) && 0.0 <= levelXy
    ensures NonRedundantOrder(X, levelXX, Picks(X, levelXX, levelXy, s))
    decreases CountPositive(s.work)
  {
    if Continue(s.work, levelXy) {
      var b := FirstMax(s.work);
      var t := Round(X, levelXX, s, b);
      PicksNonRedundant(X, levelXX, levelXy, t);
      var rest := Picks(X, levelXX, levelXy, t);
      forall j | j in rest ensures X[b][j] <= levelXX {
        PickedWasAbove(X, levelXX, levelXy, t, j);
        // j was unselected and positive when b was picked, and survived
        assert t.work[j] != 0.0;
        assert j != b && !s.mask[j] && t.work[j] == s.work[j];
      }
      ConsNonRedundant(X, levelXX, b, rest);
    } else {
      assert Picks(X, levelXX, levelXy, s) == [];
    }
  }

  /** The number of features marked at exit is the number marked at the start
      plus the number of rounds. */
  lemma {:induction false} SelectedCountIsRounds(X: Matrix, levelXX: real, levelXy: real, s: State)
    requires Shaped(X, s) && Consistent(s) && 0.0 <= levelXy
    ensures CountTrue(Final(X, levelXX, levelXy, s).mask) == CountTrue(s.mask) + |Picks(X, levelXX, levelXy, s)|
    decreases CountPositive(s.work)
  {
    if Continue(s.work, levelXy) {
      var b := FirstMax(s.work);
      CountTrueSet(s.mask, b);
      SelectedCountIsRounds(X, levelXX, levelXy, Round(X, levelXX, s, b));
    }
  }

  /** `levelXy` only decides when to stop: a higher level runs a prefix of the
      rounds of a lower one. */
  lemma {:induction false} PicksPrefix(X: Matrix, levelXX: real, lo: real, hi: real, s: State)
    requires Shaped(X, s) && 0.0 <= lo <= hi
    ensures Picks(X, levelXX, hi, s) <= Picks(X, levelXX, lo, s)
    decreases CountPositive(s.work)
  {
    if Continue(s.work, hi) {
      var b := FirstMax(s.work);
      PicksPrefix(X, levelXX, lo, hi, Round(X, levelXX, s, b));
    }
  }

  /** With a negative `levelXy` the guard stays true in every round: entries
      stay non-negative and the retired pick itself is 0 > levelXy. */
  lemma NegativeLevelNeverExits(X: Matrix, levelXX: real, levelXy: real, s: State)
    requires Shaped(X, s) && |X| > 0 && NonNegative(s.work) && levelXy < 0.0
    ensures Continue(s.work, levelXy)
    ensures var t := Round(X, levelXX, s, FirstMax(s.work));
      NonNegative(t.work) && Continue(t.work, levelXy)
  {
    ContinueIff(s.work, levelXy);
    var b := FirstMax(s.work);
    var t := Round(X, levelXX, s, b);
    ContinueIff(t.work, levelXy);
  }

  // ---------------------------------------------------------------------------
  // Properties of the mask `fcbf` produces
  // ---------------------------------------------------------------------------

  /** A feature is selected exactly when it is one of the picks. */
  lemma SelectedIffPicked(X: Matrix, Y: Matrix, levelXX: real, levelXy: real, i: nat)
    requires IsSquare(X) && |Y| == |X| && 0.0 <= levelXy && i < |X|
    ensures FcbfMask(X, Y, levelXX, levelXy)[i] <==> i in SelectionOrder(X, Y, levelXX, levelXy)
  {
    FinalMaskIsPicks(X, levelXX, levelXy, Initial(X, Y), i);
  }

  /** A feature whose product relevance is at most `levelXy` is never selected. */
  lemma IrrelevantNeverSelected(X: Matrix, Y: Matrix, levelXX: real, levelXy: real, i: nat)
    requires IsSquare(X) && |Y| == |X| && 0.0 <= levelXy && i < |X|
    requires Product(Y[i]) <= levelXy
    ensures !FcbfMask(X, Y, levelXX, levelXy)[i]
  {
    SelectedIffPicked(X, Y, levelXX, levelXy, i);
    if i in SelectionOrder(X, Y, levelXX, levelXy) {
      PickedWasAbove(X, levelXX, levelXy, Initial(X, Y), i);
    }
  }

  /** A feature with zero correlation to any one target is never selected. */
  lemma UncorrelatedTargetNeverSelected(X: Matrix, Y: Matrix, levelXX: real, levelXy: real, i: nat, t: nat)
    requires IsSquare(X) && |Y| == |X| && 0.0 <= levelXy && i < |X|
    requires t < |Y[i]| && Y[i][t] == 0.0
    ensures !FcbfMask(X, Y, levelXX, levelXy)[i]
  {
    ProductZeroFactor(Y[i], t);
    IrrelevantNeverSelected(X, Y, levelXX, levelXy, i);
  }

  /** Every selected feature had relevance strictly above `levelXy`. */
  lemma SelectedAreRelevant(X: Matrix, Y: Matrix, levelXX: real, levelXy: real, i: nat)
    requires IsSquare(X) && |Y| == |X| && 0.0 <= levelXy && i < |X|
    requires FcbfMask(X, Y, levelXX, levelXy)[i]
    ensures Product(Y[i]) > levelXy
  {
    if Product(Y[i]) <= levelXy {
      IrrelevantNeverSelected(X, Y, levelXX, levelXy, i);
    }
  }

  /** With a symmetric correlation matrix, two distinct selected features
      correlate with each other at most `levelXX`. */
  lemma SelectedNonRedundant(X: Matrix, Y: Matrix, levelXX: real, levelXy: real, i: nat, j: nat)
    requires IsSquare(X) && IsSymmetric(X) && |Y| == |X| && 0.0 <= levelXy
    requires i < |X| && j < |X| && i != j
    requires FcbfMask(X, Y, levelXX, levelXy)[i] && FcbfMask(X, Y, levelXX, levelXy)[j]
    ensures X[i][j] <= levelXX
  {
    var s := Initial(X, Y);
    var P := SelectionOrder(X, Y, levelXX, levelXy);
    SelectedIffPicked(X, Y, levelXX, levelXy, i);
    SelectedIffPicked(X, Y, levelXX, levelXy, j);
    PicksNonRedundant(X, levelXX, levelXy, s);
    var a :| 0 <= a < |P| && P[a] == i;
    var c :| 0 <= c < |P| && P[c] == j;
    if a > c {
      assert X[j][i] <= levelXX;
    }
  }

  /** The number of selected features equals the number of rounds. */
  lemma SelectedCount(X: Matrix, Y: Matrix, levelXX: real, levelXy: real)
    requires IsSquare(X) && |Y| == |X| && 0.0 <= levelXy
    ensures CountTrue(FcbfMask(X, Y, levelXX, levelXy)) == |SelectionOrder(X, Y, levelXX, levelXy)|
  {
    var s := Initial(X, Y);
    SelectedCountIsRounds(X, levelXX, levelXy, s);
    assert CountTrue(s.mask) == 0 by {
      AllFalseCount(s.mask);
    }
  }

  lemma {:induction false} AllFalseCount(m: seq<bool>)
    requires forall i :: 0 <= i < |m| ==> !m[i]
    ensures CountTrue(m) == 0
  {
    if |m| > 0 {
      AllFalseCount(m[..|m| - 1]);
    }
  }

  /** Raising `levelXy` selects a prefix of the same picks: the selected set
      can only shrink, and so can its size. */
  lemma RaisingRelevanceLevelShrinks(X: Matrix, Y: Matrix, levelXX: real, lo: real, hi: real)
    requires IsSquare(X) && |Y| == |X| && 0.0 <= lo <= hi
    ensures SelectionOrder(X, Y, levelXX, hi) <= SelectionOrder(X, Y, levelXX, lo)
    ensures forall i :: 0 <= i < |X| && FcbfMask(X, Y, levelXX, hi)[i] ==> FcbfMask(X, Y, levelXX, lo)[i]
    ensures CountTrue(FcbfMask(X, Y, levelXX, hi)) <= CountTrue(FcbfMask(X, Y, levelXX, lo))
  {
    var s := Initial(X, Y);
    PicksPrefix(X, levelXX, lo, hi, s);
    forall i | 0 <= i < |X| && FcbfMask(X, Y, levelXX, hi)[i]
      ensures FcbfMask(X, Y, levelXX, lo)[i]
    {
      SelectedIffPicked(X, Y, levelXX, hi, i);
      SelectedIffPicked(X, Y, levelXX, lo, i);
    }
    SelectedCount(X, Y, levelXX, lo);
    SelectedCount(X, Y, levelXX, hi);
  }

  /** `transform` keeps exactly the columns whose mask entry is true, in their
      original order. */
  lemma KeepExactlySelected<T>(cols: seq<T>, mask: seq<bool>)
    requires |cols| == |mask|
    ensures var r := Keep(cols, mask); var idx := KeptIndices(mask);
      |r| == CountTrue(mask)
      && (forall j :: 0 <= j < |r| ==> idx[j] < |cols| && mask[idx[j]] && r[j] == cols[idx[j]])
      && (forall j, k :: 0 <= j < k < |r| ==> idx[j] < idx[k])
      && (forall i :: 0 <= i < |mask| && mask[i] ==> exists j :: 0 <= j < |r| && idx[j] == i)
  {
    var idx := KeptIndices(mask);
    forall i | 0 <= i < |mask| && mask[i]
      ensures exists j :: 0 <= j < |idx| && idx[j] == i
    {
      assert i in idx;
    }
  }
}
