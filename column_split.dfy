/**
 * The column partition of `DataProcessor.load_data`: the raw table's columns
 * are cut into Raman spectra `[0, r)`, absorption spectra `[r, r + a)` and
 * ion concentrations `[r + a, n)`, with Python's clamping slice semantics.
 * A table is its sequence of columns; every part keeps whole columns, so it
 * keeps every row.
 */
module ColumnSplit {

  function Min(a: int, b: int): int
  {
    if a <= b then a else b
  }

  /** Python's `s[lo:hi]` for non-negative bounds: both bounds are clamped to
      the length, and a slice whose clamped start is past its clamped end is
      empty. */
  function Slice<T>(s: seq<T>, lo: nat, hi: nat): (r: seq<T>)
    ensures |r| == if Min(lo, |s|) <= Min(hi, |s|) then Min(hi, |s|) - Min(lo, |s|) else 0
    ensures forall j :: 0 <= j < |r| ==> lo + j < |s| && r[j] == s[lo + j]
  {
    var a := Min(lo, |s|);
    var b := Min(hi, |s|);
    if a <= b then s[a..b] else []
  }

  /** The three tables `load_data` writes out. */
  datatype Parts<T> = Parts(raman: seq<T>, absorption: seq<T>, ions: seq<T>)

  /** `df.iloc[:, :r]`, `df.iloc[:, r:r+a]` and `df.iloc[:, r+a:]`. */
  function Split<T>(cols: seq<T>, ramanLen: nat, absorptionLen: nat): (p: Parts<T>)
    ensures |p.raman| == Min(ramanLen, |cols|)
    ensures |p.absorption| == Min(ramanLen + absorptionLen, |cols|) - Min(ramanLen, |cols|)
    ensures |p.ions| == |cols| - Min(ramanLen + absorptionLen, |cols|)
    ensures p.raman + p.absorption + p.ions == cols
  {
    var r := Slice(cols, 0, ramanLen);
    var a := Slice(cols, ramanLen, ramanLen + absorptionLen);
    var i := Slice(cols, ramanLen + absorptionLen, |cols|);
    assert r + a + i == cols by {
      var n := |cols|;
      var k1, k2 := Min(ramanLen, n), Min(ramanLen + absorptionLen, n);
      assert r == cols[..k1];
      assert a == cols[k1..k2];
      assert i == cols[k2..];
      assert cols == cols[..k1] + cols[k1..k2] + cols[k2..];
    }
    Parts(r, a, i)
  }

  /** The Raman part is the first `r` columns (all of them when the table is
      narrower). */
  lemma RamanIsPrefix<T>(cols: seq<T>, ramanLen: nat, absorptionLen: nat)
    ensures Split(cols, ramanLen, absorptionLen).raman == cols[..Min(ramanLen, |cols|)]
  {
    var p := Split(cols, ramanLen, absorptionLen);
    assert p.raman == (p.raman + p.absorption + p.ions)[..|p.raman|];
  }

  /** The absorption part is the columns at positions `[r, r + a)` that exist. */
  lemma AbsorptionIsMiddle<T>(cols: seq<T>, ramanLen: nat, absorptionLen: nat)
    ensures var n := |cols|;
      Split(cols, ramanLen, absorptionLen).absorption
        == cols[Min(ramanLen, n)..Min(ramanLen + absorptionLen, n)]
  {
    var p := Split(cols, ramanLen, absorptionLen);
    var k := |p.raman|;
    assert p.absorption == (p.raman + p.absorption + p.ions)[k..k + |p.absorption|];
  }

  /** The ions part is every column from position `r + a` to the end. */
  lemma IonsIsSuffix<T>(cols: seq<T>, ramanLen: nat, absorptionLen: nat)
    ensures Split(cols, ramanLen, absorptionLen).ions == cols[Min(ramanLen + absorptionLen, |cols|)..]
  {
    var p := Split(cols, ramanLen, absorptionLen);
    var k := |p.raman| + |p.absorption|;
    assert p.ions == (p.raman + p.absorption + p.ions)[k..];
  }

  /** Every column position of the table lands in exactly one part, at the
      offset of that part's start. */
  lemma PartitionExact<T>(cols: seq<T>, ramanLen: nat, absorptionLen: nat, i: nat)
    requires i < |cols|
    ensures var p := Split(cols, ramanLen, absorptionLen);
      var k1 := Min(ramanLen, |cols|);
      var k2 := Min(ramanLen + absorptionLen, |cols|);
      (i < k1 && p.raman[i] == cols[i])
      || (k1 <= i < k2 && p.absorption[i - k1] == cols[i])
      || (k2 <= i && p.ions[i - k2] == cols[i])
  {
    RamanIsPrefix(cols, ramanLen, absorptionLen);
    AbsorptionIsMiddle(cols, ramanLen, absorptionLen);
    IonsIsSuffix(cols, ramanLen, absorptionLen);
  }
}
