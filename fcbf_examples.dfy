/**
 * Concrete runs of the selection loop on small inputs, and a run showing
 * that the selection count is not monotone in the redundancy threshold.
 */
module FcbfExamples {
  import opened FeatureSelection

  /** Identity correlations: only feature 0 clears the relevance bar. */
  lemma OnlyRelevantFeatureSelected(X: Matrix, Y: Matrix)
    requires X == [[1.0, 0.0, 0.0], [0.0, 1.0, 0.0], [0.0, 0.0, 1.0]]
    requires Y == [[0.9], [0.1], [0.05]]
    ensures FcbfMask(X, Y, 0.8, 0.5) == [true, false, false]
  {
    var s0 := Initial(X, Y);
    assert s0.work == [0.9, 0.1, 0.05];
    assert FirstMax(s0.work) == 0;
    var s1 := Round(X, 0.8, s0, 0);
    assert s1.work == [0.0, 0.1, 0.05];
    assert s1.mask == [true, false, false];
    assert !Continue(s1.work, 0.5) by {
      ContinueIff(s1.work, 0.5);
    }
    FinalStop(X, 0.8, 0.5, s1);
    RoundProgress(X, 0.8, 0.5, s0, 0);
  }

  /** Two highly correlated features: the second is retired as redundant. */
  lemma RedundantFeatureRetired(X: Matrix, Y: Matrix)
    requires X == [[1.0, 0.95], [0.95, 1.0]] && Y == [[0.9], [0.85]]
    ensures FcbfMask(X, Y, 0.8, 0.5) == [true, false]
  {
    var s0 := Initial(X, Y);
    assert s0.work == [0.9, 0.85];
    assert FirstMax(s0.work) == 0;
    var s1 := Round(X, 0.8, s0, 0);
    assert s1.work == [0.0, 0.0];
    assert !Continue(s1.work, 0.5) by {
      ContinueIff(s1.work, 0.5);
    }
    FinalStop(X, 0.8, 0.5, s1);
    RoundProgress(X, 0.8, 0.5, s0, 0);
  }

  /** A zero correlation with one of two targets gives relevance 0. */
  lemma ZeroTargetGivesZeroRelevance()
    ensures Relevance([[0.9, 0.0]]) == [0.0]
  {
  }

  /** Relevance A 0.9 > B 0.8 > C 0.7 > D 0.6, with corr(A,B) = 0.5 and
      corr(B,C) = corr(B,D) = 0.9, everything else off the diagonal 0. */
  function Features(): Matrix
  {
    [[1.0, 0.5, 0.0, 0.0],
     [0.5, 1.0, 0.9, 0.9],
     [0.0, 0.9, 1.0, 0.0],
     [0.0, 0.9, 0.0, 1.0]]
  }

  function Targets(): Matrix
  {
    [[0.9], [0.8], [0.7], [0.6]]
  }

  /** One round on the four-feature example, checked entry by entry: a
      round taken from `s` that leads to `t` does not change the exit state. */
  lemma StepOn(X: Matrix, levelXX: real, levelXy: real, s: State, best: nat, t: State)
    requires X == Features() && 0.0 <= levelXy
    requires |s.work| == 4 && |s.mask| == 4 && |t.work| == 4 && best < 4
    requires IsFirstMax(s.work, best) && s.work[best] > levelXy
    requires t.mask == s.mask[best := true]
    requires forall i :: 0 <= i < 4 ==>
      t.work[i] == (if i == best then 0.0
                    else if !s.mask[i] && s.work[i] > 0.0 && X[best][i] > levelXX then 0.0
                    else s.work[i])
    ensures Final(X, levelXX, levelXy, s) == Final(X, levelXX, levelXy, t)
  {
    var r := Round(X, levelXX, s, best);
    forall i | 0 <= i < 4 ensures r.work[i] == t.work[i] {
      if i != best && r.work[i] != s.work[i] {
        assert r.work[i] == 0.0;
      }
    }
    assert r == t;
    FirstMaxUnique(s.work, best);
    RoundProgress(X, levelXX, levelXy, s, best);
  }

  /** The loop does not start on an all-zero working vector. */
  lemma StopAtZero(X: Matrix, levelXX: real, levelXy: real, s: State)
    requires X == Features() && 0.0 <= levelXy && |s.work| == 4 && |s.mask| == 4
    requires forall i :: 0 <= i < 4 ==> s.work[i] == 0.0
    ensures Final(X, levelXX, levelXy, s) == s
  {
    ContinueIff(s.work, levelXy);
    FinalStop(X, levelXX, levelXy, s);
  }

  lemma InitialOfExample(X: Matrix, Y: Matrix)
    requires X == Features() && Y == Targets()
    ensures Initial(X, Y) == Start()
  {
  }

  /** The states the loop passes through on the four-feature example. */
  function Start(): State
  {
    State([0.9, 0.8, 0.7, 0.6], [false, false, false, false])
  }

  function LowAfterA(): State { State([0.0, 0.0, 0.7, 0.6], [true, false, false, false]) }
  function LowAfterC(): State { State([0.0, 0.0, 0.0, 0.6], [true, false, true, false]) }
  function LowAfterD(): State { State([0.0, 0.0, 0.0, 0.0], [true, false, true, true]) }
  function HighAfterA(): State { State([0.0, 0.8, 0.7, 0.6], [true, false, false, false]) }
  function HighAfterB(): State { State([0.0, 0.0, 0.0, 0.0], [true, true, false, false]) }

  /** With `levelXX` 0.4: A is picked and retires B (0.5 > 0.4). */
  lemma LowPickA(X: Matrix)
    requires X == Features()
    ensures Final(X, 0.4, 0.0, Start()) == Final(X, 0.4, 0.0, LowAfterA())
  {
    StepOn(X, 0.4, 0.0, Start(), 0, LowAfterA());
  }

  /** With `levelXX` 0.4: C is picked; corr(C, D) = 0 leaves D. */
  lemma LowPickC(X: Matrix)
    requires X == Features()
    ensures Final(X, 0.4, 0.0, LowAfterA()) == Final(X, 0.4, 0.0, LowAfterC())
  {
    StepOn(X, 0.4, 0.0, LowAfterA(), 2, LowAfterC());
  }

  /** With `levelXX` 0.4: D is picked last. */
  lemma LowPickD(X: Matrix)
    requires X == Features()
    ensures Final(X, 0.4, 0.0, LowAfterC()) == Final(X, 0.4, 0.0, LowAfterD())
  {
    StepOn(X, 0.4, 0.0, LowAfterC(), 3, LowAfterD());
  }

  /** With `levelXX` 0.4: nothing is left above the relevance level. */
  lemma LowStop(X: Matrix)
    requires X == Features()
    ensures Final(X, 0.4, 0.0, LowAfterD()) == LowAfterD()
  {
    StopAtZero(X, 0.4, 0.0, LowAfterD());
  }

  /** With `levelXX` 0.4, A retires B, then C and D are both picked. */
  lemma LowRedundancyLevelSelectsThree(X: Matrix, Y: Matrix)
    requires X == Features() && Y == Targets()
    ensures FcbfMask(X, Y, 0.4, 0.0) == [true, false, true, true]
  {
    InitialOfExample(X, Y);
    LowPickA(X);
    LowPickC(X);
    LowPickD(X);
    LowStop(X);
  }

  /** With `levelXX` 0.6: A is picked and B survives (0.5 <= 0.6). */
  lemma HighPickA(X: Matrix)
    requires X == Features()
    ensures Final(X, 0.6, 0.0, Start()) == Final(X, 0.6, 0.0, HighAfterA())
  {
    StepOn(X, 0.6, 0.0, Start(), 0, HighAfterA());
  }

  /** With `levelXX` 0.6: B is picked and retires C and D (0.9 > 0.6). */
  lemma HighPickB(X: Matrix)
    requires X == Features()
    ensures Final(X, 0.6, 0.0, HighAfterA()) == Final(X, 0.6, 0.0, HighAfterB())
  {
    StepOn(X, 0.6, 0.0, HighAfterA(), 1, HighAfterB());
  }

  /** With `levelXX` 0.6: nothing is left above the relevance level. */
  lemma HighStop(X: Matrix)
    requires X == Features()
    ensures Final(X, 0.6, 0.0, HighAfterB()) == HighAfterB()
  {
    StopAtZero(X, 0.6, 0.0, HighAfterB());
  }

  /** With `levelXX` 0.6, B survives A, is picked, and retires C and D. */
  lemma HighRedundancyLevelSelectsTwo(X: Matrix, Y: Matrix)
    requires X == Features() && Y == Targets()
    ensures FcbfMask(X, Y, 0.6, 0.0) == [true, true, false, false]
  {
    InitialOfExample(X, Y);
    HighPickA(X);
    HighPickB(X);
    HighStop(X);
  }

  /** A four-entry mask counts its entries one by one. */
  lemma CountFour(m: seq<bool>)
    requires |m| == 4
    ensures CountTrue(m) == CountTrue([m[0]]) + CountTrue([m[1]]) + CountTrue([m[2]]) + CountTrue([m[3]])
  {
    assert m == [m[0]] + [m[1]] + [m[2]] + [m[3]];
    CountTrueAppend([m[0]] + [m[1]] + [m[2]], [m[3]]);
    CountTrueAppend([m[0]] + [m[1]], [m[2]]);
    CountTrueAppend([m[0]], [m[1]]);
  }

  lemma CountThree(m: seq<bool>)
    requires m == [true, false, true, true]
    ensures CountTrue(m) == 3
  {
    CountFour(m);
    CountTrueSingle(true);
    CountTrueSingle(false);
  }

  lemma CountTwo(m: seq<bool>)
    requires m == [true, true, false, false]
    ensures CountTrue(m) == 2
  {
    CountFour(m);
    CountTrueSingle(true);
    CountTrueSingle(false);
  }

  /** Raising `levelXX` from 0.4 to 0.6 lowers the number of selected
      features from 3 to 2. */
  lemma RedundancyLevelNotMonotone(X: Matrix, Y: Matrix)
    requires X == Features() && Y == Targets()
    ensures CountTrue(FcbfMask(X, Y, 0.4, 0.0)) == 3
    ensures CountTrue(FcbfMask(X, Y, 0.6, 0.0)) == 2
  {
    LowRedundancyLevelSelectsThree(X, Y);
    HighRedundancyLevelSelectsTwo(X, Y);
    CountThree(FcbfMask(X, Y, 0.4, 0.0));
    CountTwo(FcbfMask(X, Y, 0.6, 0.0));
  }

  /** `fcbf`, `transform`, then `fcbf` again with other thresholds: the
      second selection runs on the unchanged correlation matrices. */
  method ReselectAfterTransform(fs: FeatureSelector) returns (kept: seq<Column>)
    requires fs.Valid() && |fs.dfX| == |fs.corrXX|
    modifies fs
    ensures fs.Valid()
    ensures kept == Keep(old(fs.dfX), FcbfMask(old(fs.corrXX), old(fs.corrXy), 0.8, 0.5))
    ensures fs.mask == Some(FcbfMask(old(fs.corrXX), old(fs.corrXy), 0.6, 0.4))
  {
    fs.Fcbf(0.8, 0.5);
    kept := fs.Transform();
    fs.Fcbf(0.6, 0.4);
  }
}
