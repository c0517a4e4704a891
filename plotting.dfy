/** The re-centring transform applied to every (chemical, density) snapshot
    before it is plotted: the density peak is moved to the middle index of
    the periodic grid by a cyclic shift of both fields, and the last sample
    is then made a copy of the first, so that the two ends of the periodic
    interval show the same value. */
module Plotting {

  /** Python's built-in `max` on a non-empty sequence. */
  function Max(s: seq<real>): (m: real)
    requires |s| > 0
    ensures m in s
    ensures forall i :: 0 <= i < |s| ==> s[i] <= m
  {
    if |s| == 1 then s[0]
    else
      var rest := Max(s[1..]);
      if s[0] >= rest then s[0] else rest
  }

  /** The highest index at which `v` occurs in `s`. */
  function LastIndexOf(s: seq<real>, v: real): (k: nat)
    requires v in s
    ensures k < |s| && s[k] == v
    ensures forall j :: k < j < |s| ==> s[j] != v
  {
    if s[|s| - 1] == v then |s| - 1
    else
      assert s == s[..|s| - 1] + [s[|s| - 1]];
      LastIndexOf(s[..|s| - 1], v)
  }

  /** The index K that the scan of the density chooses: a maximum of `p`,
      and the last one when the maximum is attained several times. */
  function PeakIndex(p: seq<real>): (k: nat)
    requires |p| > 0
    ensures k < |p|
    ensures forall j :: 0 <= j < |p| ==> p[j] <= p[k]
    ensures forall j :: k < j < |p| ==> p[j] < p[k]
  {
    LastIndexOf(p, Max(p))
  }

  /** The peak index is the only index holding the maximum with nothing
      equal to it further on. */
  lemma PeakIndexUnique(p: seq<real>, k: int)
    requires 0 <= k < |p| && p[k] == Max(p)
    requires forall j :: k < j < |p| ==> p[j] != Max(p)
    ensures k == PeakIndex(p)
  {
    var pk := PeakIndex(p);
    assert p[pk] == Max(p) by {
      var i :| 0 <= i < |p| && p[i] == Max(p);
      assert p[i] <= p[pk];
    }
  }

  /** The middle index Ha of a grid of `n` points: it has Ha points before
      it and, from it on, the same number or one fewer. */
  function Midpoint(n: nat): (ha: nat)
    ensures 0 <= 2 * ha - n <= 1
  {
    (n + 1) / 2
  }

  /** The remainder x mod n for an x at most one period outside [0, n),
      computed with at most one correction. */
  function Wrap(x: int, n: int): (r: int)
    requires n > 0 && -n <= x < 2 * n
    ensures 0 <= r < n && r == x % n
  {
    if x < 0 then ModShift(x + n, n, -1); x + n
    else if x >= n then ModShift(x - n, n, 1); x - n
    else ModShift(x, n, 0); x
  }

  /** r + q * n leaves the remainder r, for 0 <= r < n. */
  lemma ModShift(r: int, n: int, q: int)
    requires n > 0 && 0 <= r < n
    ensures (r + q * n) % n == r
  {
    var x := r + q * n;
    var d, m := x / n, x % n;
    assert x == d * n + m;
    assert (d - q) * n == r - m;
    if d - q >= 1 {
      MulAtLeast(d - q, n);
      assert false;
    }
    if q - d >= 1 {
      MulAtLeast(q - d, n);
      assert false;
    }
  }

  /** A positive multiple of a positive n is at least n. */
  lemma MulAtLeast(a: int, n: int)
    requires a >= 1 && n > 0
    ensures a * n >= n
  {
    assert a * n - n == (a - 1) * n;
  }

  /** The cyclic shift of `s` by `shift` places towards higher indices: the
      sample at index i moves to index (i + shift) mod |s| (see RotateAt). */
  function Rotate(s: seq<real>, shift: int): (r: seq<real>)
    requires |s| > 0 && -|s| <= shift <= |s|
    ensures |r| == |s|
  {
    var k := Wrap(shift, |s|);
    s[|s| - k..] + s[..|s| - k]
  }

  /** `s` with its last sample replaced by its first. */
  function CloseEnds(s: seq<real>): (r: seq<real>)
    requires |s| > 0
    ensures |r| == |s| && r[|s| - 1] == r[0] == s[0]
    ensures r[..|s| - 1] == s[..|s| - 1]
  {
    s[|s| - 1 := s[0]]
  }

  /** One field re-centred given the peak index `k` and the midpoint `ha`:
      shifted forward by |k - ha| when the peak lies before the midpoint,
      backward when it lies after, then closed at the ends; untouched when
      the peak already sits at the midpoint. */
  function Shifted(s: seq<real>, k: nat, ha: nat): (r: seq<real>)
    requires |s| > 0 && k < |s| && ha <= |s|
    ensures |r| == |s|
    ensures k == ha ==> r == s
    ensures k != ha ==> r[|s| - 1] == r[0]
  {
    var dist := if k < ha then ha - k else k - ha;
    if k < ha then CloseEnds(Rotate(s, dist))
    else if k > ha then CloseEnds(Rotate(s, -dist))
    else s
  }

  /** The pair (chemical, density) that CenterData returns, on values. */
  function Recentred(c: seq<real>, p: seq<real>): (r: (seq<real>, seq<real>))
    requires |p| > 0 && |c| == |p|
    ensures |r.0| == |c| && |r.1| == |p|
    ensures PeakIndex(p) == Midpoint(|p|) ==> r == (c, p)
    ensures PeakIndex(p) != Midpoint(|p|) ==> r.0[|c| - 1] == r.0[0] && r.1[|p| - 1] == r.1[0]
  {
    var k := PeakIndex(p);
    var ha := Midpoint(|p|);
    (Shifted(c, k, ha), Shifted(p, k, ha))
  }

  // ---------------------------------------------------------------------
  // Shifts on a periodic grid

  /** The sample at index j of Rotate(s, shift) is s[(j - shift) mod |s|]. */
  lemma RotateAt(s: seq<real>, shift: int, j: int)
    requires |s| > 0 && -|s| <= shift <= |s| && 0 <= j < |s|
    ensures Rotate(s, shift)[j] == s[Wrap(j - shift, |s|)]
  {
  }

  /** A sequence whose every sample is taken from (j - shift) mod |s| is
      the shift of `s`. */
  lemma RotateFromIndices(a: seq<real>, s: seq<real>, shift: int)
    requires |a| == |s| > 0 && -|s| <= shift <= |s|
    requires forall j :: 0 <= j < |s| ==> a[j] == s[Wrap(j - shift, |s|)]
    ensures a == Rotate(s, shift)
  {
    forall j | 0 <= j < |s| ensures a[j] == Rotate(s, shift)[j] {
      RotateAt(s, shift, j);
    }
  }

  /** A cyclic shift is a permutation. */
  lemma RotatePermutes(s: seq<real>, shift: int)
    requires |s| > 0 && -|s| <= shift <= |s|
    ensures multiset(Rotate(s, shift)) == multiset(s)
  {
    var m := |s| - Wrap(shift, |s|);
    assert s == s[..m] + s[m..];
  }

  /** Shifted unfolded in its two rotated branches. */
  lemma ShiftedIsRotation(s: seq<real>, k: nat, ha: nat)
    requires |s| > 0 && k < |s| && ha <= |s|
    ensures k < ha ==> Shifted(s, k, ha) == CloseEnds(Rotate(s, ha - k))
    ensures k > ha ==> Shifted(s, k, ha) == CloseEnds(Rotate(s, -(k - ha)))
  {
  }

  // ---------------------------------------------------------------------
  // What CenterData guarantees

  /** Index mapping of one field shifted forward, for every slot but the last. */
  lemma ShiftedForwardAt(s: seq<real>, k: nat, ha: nat, j: int)
    requires |s| > 0 && k < ha <= |s| && 0 <= j < |s| - 1
    ensures Shifted(s, k, ha)[j] == s[(j - (ha - k)) % |s|]
  {
    var r := Rotate(s, ha - k);
    ShiftedIsRotation(s, k, ha);
    assert Shifted(s, k, ha)[j] == r[j];
    RotateAt(s, ha - k, j);
    assert Wrap(j - (ha - k), |s|) == (j - (ha - k)) % |s|;
  }

  /** Index mapping of one field shifted backward, for every slot but the last. */
  lemma ShiftedBackwardAt(s: seq<real>, k: nat, ha: nat, j: int)
    requires |s| > 0 && ha < k < |s| && 0 <= j < |s| - 1
    ensures Shifted(s, k, ha)[j] == s[(j + (k - ha)) % |s|]
  {
    var r := Rotate(s, -(k - ha));
    ShiftedIsRotation(s, k, ha);
    assert Shifted(s, k, ha)[j] == r[j];
    RotateAt(s, -(k - ha), j);
    assert j - -(k - ha) == j + (k - ha);
    assert Wrap(j + (k - ha), |s|) == (j + (k - ha)) % |s|;
  }

  /** Index mapping of the two rotated branches, for every output slot but
      the last: forward by dist when K < Ha, backward when K > Ha, and the
      same shift for both fields. */
  lemma RecentredAt(c: seq<real>, p: seq<real>, j: int)
    requires |p| > 0 && |c| == |p| && 0 <= j < |p| - 1
    ensures var k, ha, n := PeakIndex(p), Midpoint(|p|), |p|;
      k < ha ==> Recentred(c, p).1[j] == p[(j - (ha - k)) % n] && Recentred(c, p).0[j] == c[(j - (ha - k)) % n]
    ensures var k, ha, n := PeakIndex(p), Midpoint(|p|), |p|;
      k > ha ==> Recentred(c, p).1[j] == p[(j + (k - ha)) % n] && Recentred(c, p).0[j] == c[(j + (k - ha)) % n]
  {
    var k, ha := PeakIndex(p), Midpoint(|p|);
    if k < ha {
      ShiftedForwardAt(p, k, ha, j);
      ShiftedForwardAt(c, k, ha, j);
    } else if k > ha {
      ShiftedBackwardAt(p, k, ha, j);
      ShiftedBackwardAt(c, k, ha, j);
    }
  }

  /** On a grid of at least four points the density maximum ends up at the
      middle index Ha. */
  lemma PeakAtMidpoint(c: seq<real>, p: seq<real>)
    requires |p| >= 4 && |c| == |p|
    ensures Recentred(c, p).1[Midpoint(|p|)] == Max(p)
  {
    var k, ha, n := PeakIndex(p), Midpoint(|p|), |p|;
    assert Wrap(k, n) == k;
    if k != ha {
      RecentredAt(c, p, ha);
    }
  }

  /** On grids of two and three points Ha is the last index, so whenever
      the peak is not already there the copy of the first slot into the
      last one replaces the peak with the sample that followed it. */
  lemma PeakLostOnSmallGrids(c: seq<real>, p: seq<real>)
    requires 2 <= |p| <= 3 && |c| == |p| && PeakIndex(p) != Midpoint(|p|)
    ensures Recentred(c, p).1[Midpoint(|p|)] < Max(p)
  {
    var k, ha, n := PeakIndex(p), Midpoint(|p|), |p|;
    assert ha == n - 1 && k < ha;
    PeakIsMax(p);
    var r := Shifted(p, k, ha);
    assert Recentred(c, p).1 == r;
    ShiftedForwardAt(p, k, ha, 0);
    var w: int := Wrap(k + 1 - n, n);
    assert w == k + 1;
    assert r[ha] == r[0] == p[w];
  }

  /** The sample at the peak index is the maximum. */
  lemma PeakIsMax(p: seq<real>)
    requires |p| > 0
    ensures p[PeakIndex(p)] == Max(p)
  {
    var i :| 0 <= i < |p| && p[i] == Max(p);
    assert p[i] <= p[PeakIndex(p)];
  }

  /** PeakLostOnSmallGrids on two concrete densities. */
  lemma SmallGridExamples()
    ensures Recentred([0.0, 0.0], [5.0, 0.0]).1 == [0.0, 0.0]
    ensures Recentred([0.0, 0.0, 0.0], [5.0, 0.0, 1.0]).1 == [0.0, 1.0, 0.0]
  {
    assert PeakIndex([5.0, 0.0]) == 0;
    assert Rotate([5.0, 0.0], 1) == [0.0, 5.0];
    assert PeakIndex([5.0, 0.0, 1.0]) == 0;
    assert Rotate([5.0, 0.0, 1.0], 2) == [0.0, 1.0, 5.0];
  }

  /** On a one-point grid Ha == 1 lies past the only index; the forward
      branch runs with dist == 1, which mod 1 sends the sample back to
      index 0, so both fields come out unchanged. */
  lemma SinglePointUnchanged(c: seq<real>, p: seq<real>)
    requires |p| == 1 && |c| == 1
    ensures Recentred(c, p) == (c, p)
  {
    assert PeakIndex(p) == 0 && Midpoint(1) == 1;
    ShiftedIsRotation(p, 0, 1);
    ShiftedIsRotation(c, 0, 1);
    assert Rotate(p, 1) == p && CloseEnds(p) == p;
    assert Rotate(c, 1) == c && CloseEnds(c) == c;
  }

  /** Apart from its last slot, which repeats the first, a field shifted by
      CenterData holds the samples of the input field: all but the one
      sample the shift sends to the last slot, s[(N - 1 + K - Ha) mod N]. */
  lemma ShiftedKeepsSamples(s: seq<real>, k: nat, ha: nat)
    requires |s| > 0 && k < |s| && ha <= |s| && k != ha
    ensures multiset(Shifted(s, k, ha)[..|s| - 1]) + multiset{s[(|s| - 1 + k - ha) % |s|]} == multiset(s)
  {
    var n := |s|;
    var shift := if k < ha then ha - k else -(k - ha);
    var t := Shifted(s, k, ha);
    assert t == CloseEnds(Rotate(s, shift)) by {
      ShiftedIsRotation(s, k, ha);
    }
    var w := Wrap(n - 1 - shift, n);
    assert w == (n - 1 + k - ha) % n;
    assert multiset(t[..n - 1]) + multiset{s[w]} == multiset(s) by {
      RotationKeepsSamples(s, shift);
    }
  }

  /** A shifted field closed at the ends keeps every sample of the field
      except the one the shift sends to the last slot. */
  lemma RotationKeepsSamples(s: seq<real>, shift: int)
    requires |s| > 0 && -|s| <= shift <= |s|
    ensures multiset(CloseEnds(Rotate(s, shift))[..|s| - 1]) + multiset{s[Wrap(|s| - 1 - shift, |s|)]} == multiset(s)
  {
    var r := Rotate(s, shift);
    RotatePermutes(s, shift);
    RotateAt(s, shift, |s| - 1);
    SplitLast(r);
  }

  /** A non-empty sequence is its samples but the last, plus the last. */
  lemma SplitLast(r: seq<real>)
    requires |r| > 0
    ensures multiset(r[..|r| - 1]) + multiset{r[|r| - 1]} == multiset(r)
  {
    assert r == r[..|r| - 1] + [r[|r| - 1]];
  }

  /** The worked example: N = 4, density [1, 5, 2, 2] has its peak at
      K = 1 < Ha = 2 and is shifted forward by one to [2, 1, 5, 2]. */
  lemma ForwardExample()
    ensures Recentred([10.0, 50.0, 20.0, 30.0], [1.0, 5.0, 2.0, 2.0])
      == ([30.0, 10.0, 50.0, 30.0], [2.0, 1.0, 5.0, 2.0])
  {
    var p := [1.0, 5.0, 2.0, 2.0];
    var c := [10.0, 50.0, 20.0, 30.0];
    assert Max(p) == 5.0;
    assert PeakIndex(p) == 1;
    assert Rotate(p, 1) == [2.0, 1.0, 5.0, 2.0];
    assert Rotate(c, 1) == [30.0, 10.0, 50.0, 20.0];
    ShiftedIsRotation(p, 1, 2);
    ShiftedIsRotation(c, 1, 2);
    assert CloseEnds([2.0, 1.0, 5.0, 2.0]) == [2.0, 1.0, 5.0, 2.0];
    assert CloseEnds([30.0, 10.0, 50.0, 20.0]) == [30.0, 10.0, 50.0, 30.0];
    assert Midpoint(4) == 2;
    assert Recentred(c, p) == (Shifted(c, 1, 2), Shifted(p, 1, 2));
  }

  /** A tie between two maxima goes to the later one: with density
      [5, 1, 5, 1, 1] the peak taken is K = 2, not 0. */
  lemma TieGoesToLastPeak()
    ensures PeakIndex([5.0, 1.0, 5.0, 1.0, 1.0]) == 2
    ensures Recentred([0.0, 1.0, 2.0, 3.0, 4.0], [5.0, 1.0, 5.0, 1.0, 1.0]).1 == [1.0, 5.0, 1.0, 5.0, 1.0]
  {
    var p := [5.0, 1.0, 5.0, 1.0, 1.0];
    assert Max(p) == 5.0;
    assert Rotate(p, 1) == [1.0, 5.0, 1.0, 5.0, 1.0];
  }

  // ---------------------------------------------------------------------
  // The routine itself

  /** Re-centres one snapshot: finds the last index K of the density
      maximum, then shifts both fields into new buffers so that the peak
      moves to Ha and copies the first sample into the last slot; when the
      peak already sits at Ha the input arrays themselves are returned. */
  method CenterData(c: array<real>, p: array<real>) returns (cNew: array<real>, rhoNew: array<real>)
    requires p.Length >= 1 && c.Length == p.Length
    ensures (cNew[..], rhoNew[..]) == Recentred(c[..], p[..])
    ensures PeakIndex(p[..]) == Midpoint(p.Length) ==> cNew == c && rhoNew == p
    ensures PeakIndex(p[..]) != Midpoint(p.Length) ==> fresh(cNew) && fresh(rhoNew) && cNew != rhoNew
  {
    var n := p.Length;
    rhoNew := new real[n](_ => 0.0);
    cNew := new real[n](_ => 0.0);

    var k := LastPeak(p);

    var ha := (n + 1) / 2;
    assert ha == Midpoint(n);
    if k != ha {
      ShiftInto(c, p, cNew, rhoNew, k, ha);
    } else {
      rhoNew := p;
      cNew := c;
    }
  }

  /** The two rotated branches of CenterData: K < Ha shifts forward by
      |K - Ha|, K > Ha backward, and both then copy the first slot of each
      buffer into its last. */
  method ShiftInto(c: array<real>, p: array<real>, cNew: array<real>, rhoNew: array<real>, k: nat, ha: nat)
    requires p.Length >= 1 && c.Length == p.Length && cNew.Length == p.Length && rhoNew.Length == p.Length
    requires k < p.Length && ha <= p.Length && k != ha
    requires rhoNew != cNew && rhoNew != p && rhoNew != c && cNew != p && cNew != c
    modifies cNew, rhoNew
    ensures rhoNew[..] == Shifted(p[..], k, ha) && cNew[..] == Shifted(c[..], k, ha)
  {
    var dist := if k < ha then ha - k else k - ha;
    if k < ha {
      ScatterShifted(c, p, cNew, rhoNew, dist);
    } else {
      ScatterShifted(c, p, cNew, rhoNew, -dist);
    }
    CopyFirstToLast(rhoNew);
    CopyFirstToLast(cNew);
    ShiftedIsRotation(p[..], k, ha);
    ShiftedIsRotation(c[..], k, ha);
  }

  /** The scan for the density peak: compares every sample with the maximum
      and keeps the index of the latest match. */
  method LastPeak(p: array<real>) returns (k: nat)
    requires p.Length >= 1
    ensures k == PeakIndex(p[..])
    ensures p[k] == Max(p[..]) && forall j :: k < j < p.Length ==> p[j] < p[k]
  {
    var a := Max(p[..]);
    var found: int := -1;
    for i := 0 to p.Length
      invariant found == -1 ==> forall j :: 0 <= j < i ==> p[j] != a
      invariant found != -1 ==> 0 <= found < i && p[found] == a && forall j :: found < j < i ==> p[j] != a
    {
      if p[i] == a {
        found := i;
      }
    }
    assert a in p[..];
    assert found != -1;
    k := found;
    PeakIndexUnique(p[..], k);
  }

  /** The closing step of the two rotated branches: the last slot of the
      buffer receives a copy of the first. */
  method CopyFirstToLast(a: array<real>)
    requires a.Length >= 1
    modifies a
    ensures a[..] == CloseEnds(old(a[..]))
  {
    a[a.Length - 1] := a[0];
  }

  /** The copy loop of the two rotated branches: every sample i of `p` and
      `c` goes to index (i + shift) mod N of the new buffers. */
  method ScatterShifted(c: array<real>, p: array<real>, cNew: array<real>, rhoNew: array<real>, shift: int)
    requires p.Length >= 1 && c.Length == p.Length && cNew.Length == p.Length && rhoNew.Length == p.Length
    requires -p.Length <= shift <= p.Length
    requires rhoNew != cNew && rhoNew != p && rhoNew != c && cNew != p && cNew != c
    modifies cNew, rhoNew
    ensures rhoNew[..] == Rotate(p[..], shift) && cNew[..] == Rotate(c[..], shift)
  {
    var n := p.Length;
    for i := 0 to n
      invariant forall j :: 0 <= j < n && Wrap(j - shift, n) < i ==> rhoNew[j] == p[Wrap(j - shift, n)] && cNew[j] == c[Wrap(j - shift, n)]
    {
      assert (i + shift) % n == Wrap(i + shift, n);
      rhoNew[(i + shift) % n] := p[i];
      cNew[(i + shift) % n] := c[i];
    }
    RotateFromIndices(rhoNew[..], p[..], shift);
    RotateFromIndices(cNew[..], c[..], shift);
  }
}
