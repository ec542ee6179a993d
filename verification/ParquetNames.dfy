/** File names of committed Parquet batches (`parquet_file_name` in src/sinks/parquet.rs). */
module ParquetNames {
  import opened Bytes
  import opened ReplayPlan

  type Name = seq<byte>

  const ZERO: byte := 48
  const DASH: byte := 45
  const NODE: Name := [110, 111, 100, 101, DASH]                     // "node-"
  const LSN: Name := [DASH, 108, 115, 110]                           // "-lsn"
  const PARQUET: Name := [46, 112, 97, 114, 113, 117, 101, 116]      // ".parquet"
  const TMP: Name := [46, 116, 109, 112]                             // ".tmp"

  function Decimal(n: nat): (d: Name)
    ensures |d| >= 1
    ensures forall i :: 0 <= i < |d| ==> ZERO <= d[i] <= ZERO + 9
  {
    if n < 10 then [ZERO + n] else Decimal(n / 10) + [ZERO + n % 10]
  }

  function Zeros(n: nat): (d: Name)
    ensures |d| == n && forall i :: 0 <= i < |d| ==> d[i] == ZERO
  {
    seq(n, _ => ZERO)
  }

  /** The format `{:016}`: at least sixteen digits. */
  function Padded(n: nat): (d: Name)
    ensures forall i :: 0 <= i < |d| ==> ZERO <= d[i] <= ZERO + 9
  {
    var d := Decimal(n);
    if |d| < 16 then Zeros(16 - |d|) + d else d
  }

  /** `parquet_file_name` of a batch with metadata. */
  function FileName(m: Metadata): Name {
    NODE + m.nodeId + LSN + [DASH] + Padded(m.lsnStart) + [DASH] + Padded(m.lsnEnd) + PARQUET
  }

  function TempName(name: Name): Name {
    name + TMP
  }

  /** The number a run of digits stands for. */
  function Value(d: Name): int {
    if d == [] then 0 else Value(d[..|d| - 1]) * 10 + (d[|d| - 1] - ZERO)
  }

  lemma {:induction false} ValueOfDecimal(n: nat)
    ensures Value(Decimal(n)) == n
  {
    if n >= 10 {
      ValueOfDecimal(n / 10);
      assert Decimal(n)[..|Decimal(n)| - 1] == Decimal(n / 10);
    }
  }

  lemma {:induction false} LeadingZeros(k: nat, d: Name)
    ensures Value(Zeros(k) + d) == Value(d)
    decreases k + |d|
  {
    if d != [] {
      LeadingZeros(k, d[..|d| - 1]);
      assert (Zeros(k) + d)[..k + |d| - 1] == Zeros(k) + d[..|d| - 1];
    } else if k > 0 {
      LeadingZeros(k - 1, []);
      assert (Zeros(k) + [])[..k - 1] == Zeros(k - 1) + [];
    }
  }

  /** The number in decimal, with leading zeros up to sixteen digits and no more. */
  lemma PaddedReads(n: nat)
    ensures Value(Padded(n)) == n && |Padded(n)| >= 16 && (|Padded(n)| > 16 ==> Padded(n)[0] != ZERO)
  {
    ValueOfDecimal(n);
    NoLeadingZero(n);
    var d := Decimal(n);
    if |d| < 16 { LeadingZeros(16 - |d|, d); }
  }

  lemma {:induction false} NoLeadingZero(n: nat)
    ensures n > 0 ==> Decimal(n)[0] != ZERO
    ensures n == 0 ==> |Decimal(n)| == 1
  {
    if n >= 10 { NoLeadingZero(n / 10); }
  }

  /** A file's name tells node id, first and last LSN, in this order. */
  lemma FileNameReads(m: Metadata)
    ensures exists a, b ::
              && FileName(m) == NODE + m.nodeId + LSN + [DASH] + a + [DASH] + b + PARQUET
              && Value(a) == m.lsnStart && |a| >= 16 && Value(b) == m.lsnEnd && |b| >= 16
  {
    PaddedReads(m.lsnStart);
    PaddedReads(m.lsnEnd);
  }

  lemma PaddedIsInjective(a: nat, b: nat)
    requires Padded(a) == Padded(b)
    ensures a == b
  {
    ValueOfDecimal(a);
    ValueOfDecimal(b);
    if |Decimal(a)| < 16 { LeadingZeros(16 - |Decimal(a)|, Decimal(a)); }
    if |Decimal(b)| < 16 { LeadingZeros(16 - |Decimal(b)|, Decimal(b)); }
  }

  lemma NoLaterDash(u: Name, x: Name, k: nat)
    requires DASH !in x
    ensures |u| < k <= |u| + |x| ==> (u + [DASH] + x)[k] != DASH
  {
    if |u| < k <= |u| + |x| { assert (u + [DASH] + x)[k] == x[k - |u| - 1]; }
  }

  /** What stands behind the last dash is the longest dash-free end. */
  lemma LastDashSplits(u: Name, x: Name, v: Name, y: Name)
    requires u + [DASH] + x == v + [DASH] + y
    requires DASH !in x && DASH !in y
    ensures u == v && x == y
  {
    var s := u + [DASH] + x;
    assert s[|u|] == DASH && s[|v|] == DASH;
    NoLaterDash(u, x, |v|);
    NoLaterDash(v, y, |u|);
    assert u == s[..|u|] && v == s[..|v|];
    assert x == s[|u| + 1..] && y == s[|v| + 1..];
  }

  lemma SameEnd(u: Name, v: Name, end: Name)
    requires u + end == v + end
    ensures u == v
  {
    assert u == (u + end)[..|u + end| - |end|];
    assert v == (v + end)[..|v + end| - |end|];
  }

  /** Different node ids or LSN ranges have different names, whatever dashes and digits the node ids hold. */
  lemma NamesAreInjective(m: Metadata, n: Metadata)
    ensures FileName(m) == FileName(n) <==> m == n
  {
    if FileName(m) == FileName(n) {
      var a, b := NODE + m.nodeId + LSN, NODE + n.nodeId + LSN;
      SameEnd(a + [DASH] + Padded(m.lsnStart) + [DASH] + Padded(m.lsnEnd),
              b + [DASH] + Padded(n.lsnStart) + [DASH] + Padded(n.lsnEnd), PARQUET);
      LastDashSplits(a + [DASH] + Padded(m.lsnStart), Padded(m.lsnEnd), b + [DASH] + Padded(n.lsnStart),
                     Padded(n.lsnEnd));
      LastDashSplits(a, Padded(m.lsnStart), b, Padded(n.lsnStart));
      PaddedIsInjective(m.lsnStart, n.lsnStart);
      PaddedIsInjective(m.lsnEnd, n.lsnEnd);
      SameEnd(NODE + m.nodeId, NODE + n.nodeId, LSN);
      assert m.nodeId == (NODE + m.nodeId)[5..] && n.nodeId == (NODE + n.nodeId)[5..];
    }
  }

  /** No temporary file is ever taken for a committed one. */
  lemma TempIsNoFile(name: Name, m: Metadata)
    ensures TempName(name) != FileName(m)
  {
    var t, f := TempName(name), FileName(m);
    assert t[|t| - 1] == TMP[3] && f[|f| - 1] == PARQUET[7];
  }
}
