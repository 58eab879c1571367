/**
 * Playlist geometry of playlists.py, over a manifold given as one point per
 * song tag. The distance between two points (`euclidean` / `cdist`) is a
 * parameter, so no square roots appear; everything else (the line samples,
 * the nearest-sample selection, the de-duplication, the cone edges and the
 * radius search) is exact.
 */
module Playlists {
  import opened Wrappers

  type Vec = seq<real>

  /** The manifold data frame: column `cols[j]` holds the point `points[j]`. */
  datatype Manifold = Manifold(cols: seq<string>, points: seq<Vec>)

  predicate NoDup<T(==)>(s: seq<T>)
  {
    forall i, j :: 0 <= i < j < |s| ==> s[i] != s[j]
  }

  /** A data frame built from a corpus: distinct tags, one point of one dimension each. */
  predicate ValidManifold(m: Manifold)
  {
    && |m.cols| == |m.points|
    && NoDup(m.cols)
    && forall j :: 0 <= j < |m.points| ==> |m.points[j]| == |m.points[0]|
  }

  /** Position of column `tag` (`manifold_df[tag]`), None when there is no such column. */
  function IndexOf(cols: seq<string>, tag: string): (r: Option<nat>)
    ensures r.None? <==> tag !in cols
    ensures r.Some? ==> r.value < |cols| && cols[r.value] == tag && tag !in cols[..r.value]
  {
    if cols == [] then None
    else if cols[0] == tag then Some(0)
    else
      var r := IndexOf(cols[1..], tag);
      if r.None? then None
      else
        assert cols[..r.value + 1] == [cols[0]] + cols[1..][..r.value];
        Some(r.value + 1)
  }

  // ---------------------------------------------------------------------
  // np.linspace
  // ---------------------------------------------------------------------

  /** `n` values from `start` on, `step` apart. */
  function Ramp(start: real, step: real, n: nat): (r: seq<real>)
    ensures |r| == n
    ensures n > 0 ==> r[0] == start
    decreases n
  {
    if n == 0 then [] else [start] + Ramp(start + step, step, n - 1)
  }

  lemma {:induction false} RampIndex(start: real, step: real, n: nat, k: nat)
    requires k < n
    ensures Ramp(start, step, n)[k] == start + (k as real) * step
    decreases n
  {
    if k > 0 {
      RampIndex(start + step, step, n - 1, k - 1);
      assert (start + step) + ((k - 1) as real) * step == start + (k as real) * step;
    }
  }

  /** `np.linspace(start, stop, num)` on one coordinate, in exact arithmetic. */
  function Linspace(start: real, stop: real, num: nat): (r: seq<real>)
    ensures |r| == num
    ensures num > 0 ==> r[0] == start
  {
    if num == 1 then [start] else Ramp(start, (stop - start) / ((num - 1) as real), num)
  }

  /** The samples run from `start` to `stop` in `num - 1` equal steps. */
  lemma LinspaceSpacing(start: real, stop: real, num: nat)
    requires num >= 2
    ensures Linspace(start, stop, num)[num - 1] == stop
    ensures forall k :: 0 <= k < num - 1 ==>
      Linspace(start, stop, num)[k + 1] - Linspace(start, stop, num)[k] == (stop - start) / ((num - 1) as real)
  {
    var n := (num - 1) as real;
    var step := (stop - start) / n;
    RampIndex(start, step, num, num - 1);
    assert n * step == stop - start;
    forall k | 0 <= k < num - 1
      ensures Linspace(start, stop, num)[k + 1] - Linspace(start, stop, num)[k] == step
    {
      RampIndex(start, step, num, k);
      RampIndex(start, step, num, k + 1);
      assert (start + ((k + 1) as real) * step) - (start + (k as real) * step) == step;
    }
  }

  /** `np.linspace(a, b, num)` on points: sample k is the k-th sample of every coordinate. */
  function LinspaceVec(a: Vec, b: Vec, num: nat): (x: seq<Vec>)
    requires |a| == |b|
    ensures |x| == num
    ensures forall k :: 0 <= k < num ==> |x[k]| == |a|
    ensures num > 0 ==> x[0] == a
  {
    seq(num, k requires 0 <= k < num =>
      seq(|a|, c requires 0 <= c < |a| => Linspace(a[c], b[c], num)[k]))
  }

  /** The last sample of the line is the end point `b`. */
  lemma LinspaceVecEnds(a: Vec, b: Vec, num: nat)
    requires |a| == |b| && num >= 2
    ensures LinspaceVec(a, b, num)[num - 1] == b
  {
    forall c | 0 <= c < |a| ensures Linspace(a[c], b[c], num)[num - 1] == b[c] {
      LinspaceSpacing(a[c], b[c], num);
    }
  }

  // ---------------------------------------------------------------------
  // idxmin / min and pd.unique
  // ---------------------------------------------------------------------

  /** `idxmin`: the first position holding the minimum. */
  function FirstArgMin(v: seq<real>): (i: nat)
    requires |v| > 0
    ensures i < |v|
    ensures forall k :: 0 <= k < |v| ==> v[i] <= v[k]
    ensures forall k :: 0 <= k < i ==> v[i] < v[k]
  {
    if |v| == 1 then 0
    else
      var k := FirstArgMin(v[..|v| - 1]);
      assert forall j :: 0 <= j < |v| - 1 ==> v[..|v| - 1][j] == v[j];
      if v[|v| - 1] < v[k] then |v| - 1 else k
  }

  /** Position of the first occurrence of `x` in `s`. */
  function FirstIndex<T(==)>(s: seq<T>, x: T): (i: nat)
    requires x in s
    ensures i < |s| && s[i] == x && x !in s[..i]
  {
    if s[0] == x then 0
    else
      var i := FirstIndex(s[1..], x) + 1;
      assert s[..i] == [s[0]] + s[1..][..i - 1];
      i
  }

  lemma {:induction false} FirstIndexPrefix<T>(s: seq<T>, t: seq<T>, x: T)
    requires x in s
    ensures FirstIndex(s + t, x) == FirstIndex(s, x)
  {
    if s[0] != x {
      assert (s + t)[1..] == s[1..] + t;
      FirstIndexPrefix(s[1..], t, x);
    }
  }

  /**
   * `pd.unique`: the distinct elements in order of first occurrence, built
   * the way a dict collects keys (an element already present is skipped).
   */
  function Unique(s: seq<string>): (r: seq<string>)
    ensures NoDup(r) && |r| <= |s|
    ensures forall x :: x in r <==> x in s
  {
    if s == [] then []
    else
      var u := Unique(s[..|s| - 1]);
      assert s == s[..|s| - 1] + [s[|s| - 1]];
      if s[|s| - 1] in u then u else u + [s[|s| - 1]]
  }

  /** The elements of `Unique(s)` appear in the order of their first occurrence in `s`. */
  lemma {:induction false} UniqueOrder(s: seq<string>)
    ensures forall i, j :: 0 <= i < j < |Unique(s)| ==> FirstIndex(s, Unique(s)[i]) < FirstIndex(s, Unique(s)[j])
  {
    if s != [] {
      var p := s[..|s| - 1];
      var x := s[|s| - 1];
      assert s == p + [x];
      UniqueOrder(p);
      UniqueSnoc(p, x);
      var u, w := Unique(p), Unique(s);
      forall i, j | 0 <= i < j < |w| ensures FirstIndex(s, w[i]) < FirstIndex(s, w[j]) {
        assert w[i] == u[i] && w[i] in p;
        FirstIndexPrefix(p, [x], w[i]);
        if j < |u| {
          assert w[j] == u[j] && w[j] in p;
          FirstIndexPrefix(p, [x], w[j]);
        } else {
          assert w[j] == x && x !in p;
          assert FirstIndex(s, x) == |s| - 1;
        }
      }
    }
  }

  // ---------------------------------------------------------------------
  // space_maker
  // ---------------------------------------------------------------------

  /**
   * What space_maker returns: the end points, the line samples `x`, the
   * sample-by-column distance matrix `d`, and per column the distance to the
   * line `ldist` (`d.min()`) and the nearest sample `perpdist` (`d.idxmin()`).
   */
  datatype Space = Space(a: Vec, b: Vec, x: seq<Vec>, d: seq<seq<real>>, ldist: seq<real>, perpdist: seq<nat>)

  function Column(d: seq<seq<real>>, j: nat): (c: seq<real>)
    requires forall i :: 0 <= i < |d| ==> j < |d[i]|
    ensures |c| == |d|
  {
    seq(|d|, i requires 0 <= i < |d| => d[i][j])
  }

  /** `ldist[j]` is the smallest distance of column j to any sample and `perpdist[j]` the first sample at it. */
  predicate NearestSamples(sp: Space, lineRes: nat, n: nat)
  {
    && |sp.d| == lineRes
    && (forall i :: 0 <= i < lineRes ==> |sp.d[i]| == n)
    && |sp.ldist| == n && |sp.perpdist| == n
    && forall j :: 0 <= j < n ==>
         && sp.perpdist[j] < lineRes
         && sp.ldist[j] == sp.d[sp.perpdist[j]][j]
         && (forall i :: 0 <= i < lineRes ==> sp.ldist[j] <= sp.d[i][j])
         && (forall i :: 0 <= i < sp.perpdist[j] ==> sp.ldist[j] < sp.d[i][j])
  }

  /** The per-column minimum and first minimising sample of a sample-by-column matrix. */
  function Nearest(a: Vec, b: Vec, x: seq<Vec>, d: seq<seq<real>>, lineRes: nat, n: nat): (sp: Space)
    requires lineRes > 0 && |d| == lineRes
    requires forall i :: 0 <= i < lineRes ==> |d[i]| == n
    ensures sp == Space(a, b, x, d, sp.ldist, sp.perpdist)
    ensures NearestSamples(sp, lineRes, n)
  {
    var perpdist := seq(n, j requires 0 <= j < n => FirstArgMin(Column(d, j)));
    var ldist := seq(n, j requires 0 <= j < n => d[perpdist[j]][j]);
    var sp := Space(a, b, x, d, ldist, perpdist);
    assert forall j :: 0 <= j < n ==> sp.perpdist[j] < lineRes by {
      forall j | 0 <= j < n ensures sp.perpdist[j] < lineRes {
        assert |Column(d, j)| == lineRes;
      }
    }
    assert forall j :: 0 <= j < n ==>
      && (forall i :: 0 <= i < lineRes ==> sp.ldist[j] <= sp.d[i][j])
      && (forall i :: 0 <= i < sp.perpdist[j] ==> sp.ldist[j] < sp.d[i][j]) by {
      forall j | 0 <= j < n
        ensures forall i :: 0 <= i < lineRes ==> sp.ldist[j] <= sp.d[i][j]
        ensures forall i :: 0 <= i < sp.perpdist[j] ==> sp.ldist[j] < sp.d[i][j]
      {
        var c := Column(d, j);
        assert forall i :: 0 <= i < lineRes ==> c[i] == d[i][j];
      }
    }
    sp
  }

  /**
   * space_maker: ValueError for an odd `line_res`, KeyError for a missing
   * tag, and ValueError when there is no sample to take a minimum over.
   */
  function SpaceMaker(lineRes: int, m: Manifold, taga: string, tagb: string, dist: (Vec, Vec) -> real): (r: Result<Space>)
    requires ValidManifold(m)
    ensures lineRes % 2 == 1 ==> r == Err(ValueError)
    ensures lineRes % 2 == 0 && (taga !in m.cols || tagb !in m.cols) ==> r == Err(KeyError)
    ensures r.Ok? <==> lineRes % 2 == 0 && lineRes > 0 && taga in m.cols && tagb in m.cols
    ensures r.Ok? ==>
      && r.value.a == m.points[IndexOf(m.cols, taga).value]
      && r.value.b == m.points[IndexOf(m.cols, tagb).value]
      && r.value.x == LinspaceVec(r.value.a, r.value.b, lineRes)
      && NearestSamples(r.value, lineRes, |m.cols|)
      && forall i, j :: 0 <= i < lineRes && 0 <= j < |m.cols| ==> r.value.d[i][j] == dist(r.value.x[i], m.points[j])
  {
    if lineRes % 2 == 1 then Err(ValueError)
    else
      var ia := IndexOf(m.cols, taga);
      var ib := IndexOf(m.cols, tagb);
      if ia.None? || ib.None? then Err(KeyError)
      else if lineRes <= 0 then Err(ValueError)
      else
        var a := m.points[ia.value];
        var b := m.points[ib.value];
        var x := LinspaceVec(a, b, lineRes);
        var n := |m.cols|;
        var d := seq(lineRes, i requires 0 <= i < lineRes =>
          seq(n, j requires 0 <= j < n => dist(x[i], m.points[j])));
        Ok(Nearest(a, b, x, d, lineRes, n))
  }

  // ---------------------------------------------------------------------
  // line_playlist
  // ---------------------------------------------------------------------

  /** The lowest-numbered column among those closest to the point `y`. */
  predicate NearestColumn(m: Manifold, y: Vec, j: nat, dist: (Vec, Vec) -> real)
  {
    && j < |m.points|
    && (forall k :: 0 <= k < |m.points| ==> dist(y, m.points[j]) <= dist(y, m.points[k]))
    && (forall k :: 0 <= k < j ==> dist(y, m.points[j]) < dist(y, m.points[k]))
  }

  /** The distances from `y` to every column, in column order. */
  function DistRow(m: Manifold, y: Vec, dist: (Vec, Vec) -> real): (v: seq<real>)
    ensures |v| == |m.points|
    ensures forall k :: 0 <= k < |v| ==> v[k] == dist(y, m.points[k])
  {
    seq(|m.points|, k requires 0 <= k < |m.points| => dist(y, m.points[k]))
  }

  /** The first minimum is the only position that is minimal with every earlier value larger. */
  lemma FirstArgMinUnique(v: seq<real>, j: nat)
    requires j < |v|
    requires forall k :: 0 <= k < |v| ==> v[j] <= v[k]
    requires forall k :: 0 <= k < j ==> v[j] < v[k]
    ensures FirstArgMin(v) == j
  {
  }

  /** `p` holds exactly the first nearest columns of the samples `x`. */
  ghost predicate NearestOfSamples(m: Manifold, x: seq<Vec>, dist: (Vec, Vec) -> real, p: seq<string>)
  {
    forall s :: s in p <==>
      exists i, j :: 0 <= i < |x| && 0 <= j < |m.cols| && m.cols[j] == s && NearestColumn(m, x[i], j, dist)
  }

  /** `s` is the label of the first column nearest to the point `y`. */
  ghost predicate SampleLabel(m: Manifold, y: Vec, dist: (Vec, Vec) -> real, s: string)
  {
    exists j :: 0 <= j < |m.cols| && m.cols[j] == s && NearestColumn(m, y, j, dist)
  }

  /** `d.transpose().idxmin()`: for each sample, the label of its first nearest column. */
  function MinList(m: Manifold, x: seq<Vec>, dist: (Vec, Vec) -> real): (ml: seq<string>)
    requires ValidManifold(m) && |m.cols| > 0
    ensures |ml| == |x|
    ensures forall i :: 0 <= i < |x| ==> SampleLabel(m, x[i], dist, ml[i])
    ensures NearestOfSamples(m, x, dist, ml)
  {
    var ml := seq(|x|, i requires 0 <= i < |x| => m.cols[FirstArgMin(DistRow(m, x[i], dist))]);
    MinListNearest(m, x, dist, ml);
    ml
  }

  /** Labelling every sample by its first nearest column collects exactly the nearest columns. */
  lemma MinListNearest(m: Manifold, x: seq<Vec>, dist: (Vec, Vec) -> real, ml: seq<string>)
    requires ValidManifold(m) && |m.cols| > 0 && |ml| == |x|
    requires forall i :: 0 <= i < |x| ==> ml[i] == m.cols[FirstArgMin(DistRow(m, x[i], dist))]
    ensures forall i :: 0 <= i < |x| ==> SampleLabel(m, x[i], dist, ml[i])
    ensures NearestOfSamples(m, x, dist, ml)
  {
    forall i | 0 <= i < |x| ensures SampleLabel(m, x[i], dist, ml[i]) {
      FirstNearest(m, x[i], dist);
    }
    forall i, j | 0 <= i < |x| && 0 <= j < |m.cols| && NearestColumn(m, x[i], j, dist)
      ensures m.cols[j] in ml
    {
      FirstArgMinUnique(DistRow(m, x[i], dist), j);
      assert ml[i] == m.cols[j];
    }
    forall s | s in ml
      ensures exists i, j :: 0 <= i < |x| && 0 <= j < |m.cols| && m.cols[j] == s && NearestColumn(m, x[i], j, dist)
    {
      var i :| 0 <= i < |x| && ml[i] == s;
      FirstNearest(m, x[i], dist);
    }
  }

  /** The first arg-min of the distance row is the first nearest column. */
  lemma FirstNearest(m: Manifold, y: Vec, dist: (Vec, Vec) -> real)
    requires ValidManifold(m) && |m.cols| > 0
    ensures NearestColumn(m, y, FirstArgMin(DistRow(m, y, dist)), dist)
    ensures SampleLabel(m, y, dist, m.cols[FirstArgMin(DistRow(m, y, dist))])
  {
    var j := FirstArgMin(DistRow(m, y, dist));
    assert NearestColumn(m, y, j, dist);
  }

  /** The line samples of line_playlist and space_maker. */
  function Line(m: Manifold, ia: nat, ib: nat, lineRes: nat): (x: seq<Vec>)
    requires ValidManifold(m) && ia < |m.cols| && ib < |m.cols|
    ensures |x| == lineRes
  {
    LinspaceVec(m.points[ia], m.points[ib], lineRes)
  }

  /**
   * line_playlist: for each of the `line_res` samples of the line from
   * `taga` to `tagb`, the first column nearest to it, without repeats.
   * A tag that is no column is a KeyError and a negative `line_res` a
   * ValueError (np.linspace); an odd `line_res` is accepted here.
   */
  function LinePlaylist(lineRes: int, m: Manifold, taga: string, tagb: string, dist: (Vec, Vec) -> real): (r: Result<seq<string>>)
    requires ValidManifold(m)
    ensures (taga !in m.cols || tagb !in m.cols) ==> r == Err(KeyError)
    ensures taga in m.cols && tagb in m.cols && lineRes < 0 ==> r == Err(ValueError)
    ensures r.Ok? <==> taga in m.cols && tagb in m.cols && lineRes >= 0
    ensures r.Ok? ==> NoDup(r.value) && |r.value| <= lineRes
    ensures r.Ok? ==> NearestOfSamples(m, Line(m, IndexOf(m.cols, taga).value, IndexOf(m.cols, tagb).value, lineRes), dist, r.value)
    ensures r.Ok? ==>
      var ml := MinList(m, Line(m, IndexOf(m.cols, taga).value, IndexOf(m.cols, tagb).value, lineRes), dist);
      && (forall s :: s in r.value <==> s in ml)
      && forall i, j :: 0 <= i < j < |r.value| ==> FirstIndex(ml, r.value[i]) < FirstIndex(ml, r.value[j])
  {
    var ia := IndexOf(m.cols, taga);
    var ib := IndexOf(m.cols, tagb);
    if ia.None? || ib.None? then Err(KeyError)
    else if lineRes < 0 then Err(ValueError)
    else
      var x := Line(m, ia.value, ib.value, lineRes);
      var ml := MinList(m, x, dist);
      var u := Unique(ml);
      assert |u| <= |ml| == lineRes;
      assert forall s :: s in u <==> s in ml;
      UniqueOrder(ml);
      Ok(u)
  }

  // ---------------------------------------------------------------------
  // abs_dist_playlist
  // ---------------------------------------------------------------------

  /**
   * Column `t` of `squareform(pdist(points))`: zero on the diagonal and the
   * distance of each pair, taken in ascending column order, elsewhere.
   */
  function DistColumn(m: Manifold, t: nat, dist: (Vec, Vec) -> real): (v: seq<real>)
    requires t < |m.points|
    ensures |v| == |m.points| && v[t] == 0.0
  {
    seq(|m.points|, i requires 0 <= i < |m.points| =>
      if i == t then 0.0
      else if i < t then dist(m.points[i], m.points[t])
      else dist(m.points[t], m.points[i]))
  }

  /** `nsmallest(keep='first')` order: by value, ties by position. */
  predicate Before(v: seq<real>, p: nat, q: nat)
    requires p < |v| && q < |v|
  {
    v[p] < v[q] || (v[p] == v[q] && p < q)
  }

  predicate SortedBy(v: seq<real>, s: seq<nat>)
  {
    && (forall i :: 0 <= i < |s| ==> s[i] < |v|)
    && forall i, j :: 0 <= i < j < |s| ==> Before(v, s[i], s[j])
  }

  /** Insert a position into a list of positions ordered by value. */
  function InsertIdx(v: seq<real>, s: seq<nat>, x: nat): (r: seq<nat>)
    requires SortedBy(v, s) && x < |v| && x !in s
    ensures SortedBy(v, r) && |r| == |s| + 1
    ensures forall y :: y in r <==> y in s || y == x
  {
    if s == [] then [x]
    else if Before(v, x, s[0]) then [x] + s
    else
      var t := InsertIdx(v, s[1..], x);
      assert forall y :: y in s[1..] ==> Before(v, s[0], y);
      [s[0]] + t
  }

  /** The positions 0 .. n-1 ordered by value, ties by position. */
  function SortIdx(v: seq<real>, n: nat): (r: seq<nat>)
    requires n <= |v|
    ensures SortedBy(v, r) && |r| == n
    ensures forall y :: y in r <==> 0 <= y < n
  {
    if n == 0 then [] else InsertIdx(v, SortIdx(v, n - 1), n - 1)
  }

  /** Positions listed in strict `Before` order are distinct. */
  lemma SortedDistinct(v: seq<real>, s: seq<nat>)
    requires SortedBy(v, s)
    ensures NoDup(s)
  {
  }

  /** The number of neighbours nsmallest(length) returns out of `n`. */
  function Take(length: int, n: nat): (k: nat)
    ensures k <= n
  {
    if length <= 0 then 0 else if length < n then length else n
  }

  /** `idx` lists `k` positions of `v` nearest first, and every position left out comes after all of them. */
  predicate NearestFirst(v: seq<real>, idx: seq<nat>, k: nat)
  {
    && |idx| == k
    && SortedBy(v, idx)
    && forall j :: 0 <= j < |v| && j !in idx ==> forall q :: 0 <= q < |idx| ==> Before(v, idx[q], j)
  }

  /** `nsmallest(k)` on positions: the first `k` of the stable ascending order. */
  function NSmallest(v: seq<real>, k: nat): (idx: seq<nat>)
    requires k <= |v|
    ensures NearestFirst(v, idx, k) && NoDup(idx)
  {
    var all := SortIdx(v, |v|);
    var idx := all[..k];
    SortedDistinct(v, idx);
    forall j, q | 0 <= j < |v| && j !in idx && 0 <= q < |idx| ensures Before(v, idx[q], j) {
      assert j in all;
      var p :| 0 <= p < |all| && all[p] == j;
      assert all[q] == idx[q];
    }
    idx
  }

  /**
   * abs_dist_playlist: the `length` columns closest to `tag` (itself at
   * distance 0 included), nearest first, ties in column order. With no
   * columns, `squareform` of the empty distance vector is the 1x1 matrix
   * `[[0.]]`, which the DataFrame built on zero labels refuses with a
   * ValueError before any lookup; otherwise a tag that is no column is a
   * KeyError.
   */
  function AbsDistPlaylist(tag: string, m: Manifold, length: int, dist: (Vec, Vec) -> real): (r: Result<seq<string>>)
    requires ValidManifold(m)
    ensures r.Err? <==> m.cols == [] || tag !in m.cols
    ensures m.cols == [] ==> r == Err(ValueError)
    ensures m.cols != [] && tag !in m.cols ==> r == Err(KeyError)
    ensures r.Ok? ==> |r.value| == Take(length, |m.cols|) && NoDup(r.value)
    ensures r.Ok? ==>
      exists idx: seq<nat> ::
        && NearestFirst(DistColumn(m, IndexOf(m.cols, tag).value, dist), idx, |r.value|)
        && forall q :: 0 <= q < |idx| ==> idx[q] < |m.cols| && m.cols[idx[q]] == r.value[q]
  {
    var t := IndexOf(m.cols, tag);
    if m.cols == [] then Err(ValueError)
    else if t.None? then Err(KeyError)
    else
      var v := DistColumn(m, t.value, dist);
      var idx := NSmallest(v, Take(length, |v|));
      var plist := seq(|idx|, q requires 0 <= q < |idx| => m.cols[idx[q]]);
      assert NoDup(plist) by {
        forall p, q | 0 <= p < q < |plist| ensures plist[p] != plist[q] {
          assert idx[p] != idx[q];
        }
      }
      assert NearestFirst(v, idx, |plist|);
      Ok(plist)
  }

  /**
   * When no earlier column lies at distance 0 from `tag` and distances are
   * never negative, the playlist starts with `tag` itself.
   */
  lemma AbsDistStartsWithTag(tag: string, m: Manifold, length: int, dist: (Vec, Vec) -> real)
    requires ValidManifold(m) && tag in m.cols && length >= 1
    requires forall p, q :: dist(p, q) >= 0.0
    requires forall j :: 0 <= j < IndexOf(m.cols, tag).value ==> DistColumn(m, IndexOf(m.cols, tag).value, dist)[j] > 0.0
    ensures AbsDistPlaylist(tag, m, length, dist).Ok?
    ensures AbsDistPlaylist(tag, m, length, dist).value[0] == tag
  {
    var t := IndexOf(m.cols, tag).value;
    var v := DistColumn(m, t, dist);
    var r := AbsDistPlaylist(tag, m, length, dist).value;
    var idx: seq<nat> :| NearestFirst(v, idx, |r|)
      && forall q :: 0 <= q < |idx| ==> idx[q] < |m.cols| && m.cols[idx[q]] == r[q];
    TagBeforeAll(m, t, dist);
    assert idx[0] == t || Before(v, idx[0], t) by {
      if t in idx {
        var q :| 0 <= q < |idx| && idx[q] == t;
      }
    }
  }

  /** With non-negative distances and no earlier column at distance 0, column `t` comes first in its own column. */
  lemma TagBeforeAll(m: Manifold, t: nat, dist: (Vec, Vec) -> real)
    requires t < |m.points|
    requires forall p, q :: dist(p, q) >= 0.0
    requires forall j :: 0 <= j < t ==> DistColumn(m, t, dist)[j] > 0.0
    ensures forall j :: 0 <= j < |m.points| && j != t ==> Before(DistColumn(m, t, dist), t, j)
  {
  }

  // ---------------------------------------------------------------------
  // cone_plist, cyl_plist, icone_plist
  // ---------------------------------------------------------------------

  /** The three region searches differ only in their radius profile and their break rule. */
  datatype Region = Cone | Cylinder | InverseCone

  function Reverse(h: seq<real>): (r: seq<real>)
    ensures |r| == |h| && forall k :: 0 <= k < |h| ==> r[k] == h[|h| - 1 - k]
  {
    seq(|h|, k requires 0 <= k < |h| => h[|h| - 1 - k])
  }

  /** `np.pad(h, (0, len(h)), 'symmetric')`: `h` followed by its mirror image. */
  function Mirror(h: seq<real>): (e: seq<real>)
    ensures |e| == 2 * |h| && e[..|h|] == h && e[|h|..] == Reverse(h)
  {
    h + Reverse(h)
  }

  /** The padded edge reads the same from either end. */
  lemma MirrorSymmetric(h: seq<real>)
    ensures forall k :: 0 <= k < 2 * |h| ==> Mirror(h)[2 * |h| - 1 - k] == Mirror(h)[k]
  {
    var e := Mirror(h);
    forall k | 0 <= k < 2 * |h| ensures e[2 * |h| - 1 - k] == e[k] {
      if k < |h| {
        assert e[2 * |h| - 1 - k] == e[|h|..][|h| - 1 - k];
      } else {
        assert e[k] == e[|h|..][k - |h|];
      }
    }
  }

  /** The first half of the cone edge, `np.linspace(0, r, line_res // 2)`, or of the inverse cone edge. */
  function Half(region: Region, r: real, lineRes: nat): (h: seq<real>)
    ensures |h| == lineRes / 2
  {
    if region == InverseCone then Linspace(r, 0.0, lineRes / 2) else Linspace(0.0, r, lineRes / 2)
  }

  /**
   * The distance threshold of each sample at radius `r`: the cone edge
   * rises from 0 to r over the first half and falls back, the inverse cone
   * edge falls from r to 0 and rises back, the cylinder holds r throughout.
   */
  function Thresholds(region: Region, r: real, lineRes: nat): (e: seq<real>)
    requires lineRes % 2 == 0
    ensures |e| == lineRes
    ensures region == Cylinder ==> forall k :: 0 <= k < lineRes ==> e[k] == r
  {
    if region == Cylinder then seq(lineRes, k requires 0 <= k < lineRes => r)
    else Mirror(Half(region, r, lineRes))
  }

  /** The cone edges are the linspace followed by its mirror image, symmetric end to end. */
  lemma EdgeShape(region: Region, r: real, lineRes: nat)
    requires lineRes % 2 == 0 && region != Cylinder
    ensures Thresholds(region, r, lineRes)[..lineRes / 2] ==
      (if region == Cone then Linspace(0.0, r, lineRes / 2) else Linspace(r, 0.0, lineRes / 2))
    ensures forall k :: 0 <= k < lineRes ==>
      Thresholds(region, r, lineRes)[lineRes - 1 - k] == Thresholds(region, r, lineRes)[k]
  {
    MirrorSymmetric(Half(region, r, lineRes));
  }

  /** The cone edge starts and ends at 0 and peaks at r in the middle; the inverse cone the other way round. */
  lemma EdgeEnds(region: Region, r: real, lineRes: nat)
    requires lineRes % 2 == 0 && lineRes >= 4 && region != Cylinder
    ensures var e := Thresholds(region, r, lineRes);
      && e[0] == e[lineRes - 1] == (if region == Cone then 0.0 else r)
      && e[lineRes / 2 - 1] == e[lineRes / 2] == (if region == Cone then r else 0.0)
  {
    var e := Thresholds(region, r, lineRes);
    var h := lineRes / 2;
    EdgeShape(region, r, lineRes);
    assert e[..h][0] == e[0] && e[..h][h - 1] == e[h - 1];
    assert e[lineRes - 1 - (h - 1)] == e[h - 1];
    assert e[lineRes - 1 - 0] == e[0];
    if region == Cone {
      LinspaceSpacing(0.0, r, h);
    } else {
      LinspaceSpacing(r, 0.0, h);
    }
  }

  /** A scan of one sample stops after adding one of these tags. */
  function Stops(region: Region, taga: string, tagb: string): set<string>
  {
    match region
    case Cone => {}
    case Cylinder => {taga, tagb}
    case InverseCone => {tagb}
  }

  /** `ldist[perpdist == i][ldist <= t].index` over the first `n` columns, in column order. */
  function QSongs(cols: seq<string>, sp: Space, i: nat, t: real, n: nat): (q: seq<string>)
    requires n <= |cols| && |sp.ldist| == |cols| && |sp.perpdist| == |cols|
    ensures |q| <= n
    ensures forall s :: s in q <==>
      exists j :: 0 <= j < n && cols[j] == s && sp.perpdist[j] == i && sp.ldist[j] <= t
  {
    if n == 0 then []
    else
      QSongs(cols, sp, i, t, n - 1)
        + (if sp.perpdist[n - 1] == i && sp.ldist[n - 1] <= t then [cols[n - 1]] else [])
  }

  /** The songs a scan visits: everything up to and including the first stop tag. */
  function TakeThrough(q: seq<string>, stops: set<string>): (p: seq<string>)
    ensures |p| <= |q| && p == q[..|p|]
    ensures forall k :: 0 <= k < |p| - 1 ==> p[k] !in stops
    ensures |p| < |q| ==> |p| > 0 && p[|p| - 1] in stops
    ensures (forall k :: 0 <= k < |q| ==> q[k] !in stops) ==> p == q
  {
    if q == [] then []
    else if q[0] in stops then [q[0]]
    else
      var p := [q[0]] + TakeThrough(q[1..], stops);
      assert q == [q[0]] + q[1..];
      p
  }

  /** All songs the scans of samples 0 .. i-1 add, in the order they are added. */
  function Scanned(cols: seq<string>, sp: Space, thr: seq<real>, stops: set<string>, i: nat): (s: seq<string>)
    requires i <= |thr| && |sp.ldist| == |cols| && |sp.perpdist| == |cols|
  {
    if i == 0 then []
    else
      var q := QSongs(cols, sp, i - 1, thr[i - 1], |cols|);
      Scanned(cols, sp, thr, stops, i - 1) + TakeThrough(q, stops)
  }

  /** The playlist of one round: the keys of `songlist`, in insertion order. */
  function RoundList(region: Region, m: Manifold, sp: Space, r: real, lineRes: nat, taga: string, tagb: string): (p: seq<string>)
    requires lineRes % 2 == 0 && NearestSamples(sp, lineRes, |m.cols|)
    ensures NoDup(p)
  {
    Unique(Scanned(m.cols, sp, Thresholds(region, r, lineRes), Stops(region, taga, tagb), lineRes))
  }

  /** Column `j` lies within the threshold of its nearest sample, which is one of the first `i`. */
  predicate Within(cols: seq<string>, sp: Space, thr: seq<real>, i: nat, j: nat)
    requires i <= |thr| && |sp.ldist| == |cols| && |sp.perpdist| == |cols|
  {
    j < |cols| && sp.perpdist[j] < i && sp.ldist[j] <= thr[sp.perpdist[j]]
  }

  /** A scanned song lies within the threshold of its nearest sample. */
  lemma {:induction false} ScannedWithin(cols: seq<string>, sp: Space, thr: seq<real>, stops: set<string>, i: nat, x: string)
    requires i <= |thr| && |sp.ldist| == |cols| && |sp.perpdist| == |cols|
    requires x in Scanned(cols, sp, thr, stops, i)
    ensures exists j :: 0 <= j < |cols| && cols[j] == x && Within(cols, sp, thr, i, j)
  {
    var q := QSongs(cols, sp, i - 1, thr[i - 1], |cols|);
    var p := TakeThrough(q, stops);
    if x in Scanned(cols, sp, thr, stops, i - 1) {
      ScannedWithin(cols, sp, thr, stops, i - 1, x);
      var j :| 0 <= j < |cols| && cols[j] == x && Within(cols, sp, thr, i - 1, j);
      assert Within(cols, sp, thr, i, j);
    } else {
      assert x in p;
      assert x in q;
      var j :| 0 <= j < |cols| && cols[j] == x && sp.perpdist[j] == i - 1 && sp.ldist[j] <= thr[i - 1];
      assert Within(cols, sp, thr, i, j);
    }
  }

  /** Every song of a round lies within the threshold of its nearest sample. */
  lemma RoundWithinThreshold(region: Region, m: Manifold, sp: Space, r: real, lineRes: nat, taga: string, tagb: string, s: string)
    requires lineRes % 2 == 0 && NearestSamples(sp, lineRes, |m.cols|)
    requires s in RoundList(region, m, sp, r, lineRes, taga, tagb)
    ensures exists j :: 0 <= j < |m.cols| && m.cols[j] == s && sp.ldist[j] <= Thresholds(region, r, lineRes)[sp.perpdist[j]]
  {
    var thr := Thresholds(region, r, lineRes);
    ScannedWithin(m.cols, sp, thr, Stops(region, taga, tagb), lineRes, s);
    var j :| 0 <= j < |m.cols| && m.cols[j] == s && Within(m.cols, sp, thr, lineRes, j);
  }

  /** Without a break rule every column within the threshold of its nearest sample is scanned. */
  lemma ConeScanned(cols: seq<string>, sp: Space, thr: seq<real>, i: nat, j: nat)
    requires i <= |thr| && |sp.ldist| == |cols| && |sp.perpdist| == |cols|
    requires Within(cols, sp, thr, i, j)
    ensures cols[j] in Scanned(cols, sp, thr, {}, i)
  {
    ConeScanIs(cols, sp, thr, i);
    ConeScanHas(cols, sp, thr, i, j);
  }

  /** The scans without stop tags: every qualifying song of every sample, one sample after the other. */
  ghost function ConeScan(cols: seq<string>, sp: Space, thr: seq<real>, i: nat): seq<string>
    requires i <= |thr| && |sp.ldist| == |cols| && |sp.perpdist| == |cols|
  {
    if i == 0 then [] else ConeScan(cols, sp, thr, i - 1) + QSongs(cols, sp, i - 1, thr[i - 1], |cols|)
  }

  lemma {:induction false} ConeScanIs(cols: seq<string>, sp: Space, thr: seq<real>, i: nat)
    requires i <= |thr| && |sp.ldist| == |cols| && |sp.perpdist| == |cols|
    ensures Scanned(cols, sp, thr, {}, i) == ConeScan(cols, sp, thr, i)
  {
    if i > 0 {
      var q := QSongs(cols, sp, i - 1, thr[i - 1], |cols|);
      ConeScanIs(cols, sp, thr, i - 1);
      TakeAll(q);
      assert Scanned(cols, sp, thr, {}, i) == Scanned(cols, sp, thr, {}, i - 1) + q;
    }
  }

  lemma {:induction false} ConeScanHas(cols: seq<string>, sp: Space, thr: seq<real>, i: nat, j: nat)
    requires i <= |thr| && |sp.ldist| == |cols| && |sp.perpdist| == |cols|
    requires Within(cols, sp, thr, i, j)
    ensures cols[j] in ConeScan(cols, sp, thr, i)
  {
    var a, q := ConeScan(cols, sp, thr, i - 1), QSongs(cols, sp, i - 1, thr[i - 1], |cols|);
    if sp.perpdist[j] == i - 1 {
      QSongsHas(cols, sp, i - 1, thr[i - 1], |cols|, j);
      InConcat(cols[j], a, q);
    } else {
      assert Within(cols, sp, thr, i - 1, j);
      ConeScanHas(cols, sp, thr, i - 1, j);
      InConcat(cols[j], a, q);
    }
  }

  lemma InConcat(x: string, a: seq<string>, b: seq<string>)
    ensures x in a + b <==> x in a || x in b
  {
  }

  /** Without stop tags a scan visits every qualifying song. */
  lemma TakeAll(q: seq<string>)
    ensures TakeThrough(q, {}) == q
  {
  }

  /** A column of sample `i` within the threshold `t` is among that sample's qualifying songs. */
  lemma {:induction false} QSongsHas(cols: seq<string>, sp: Space, i: nat, t: real, n: nat, j: nat)
    requires n <= |cols| && |sp.ldist| == |cols| && |sp.perpdist| == |cols|
    requires j < n && sp.perpdist[j] == i && sp.ldist[j] <= t
    ensures cols[j] in QSongs(cols, sp, i, t, n)
  {
    if j < n - 1 {
      QSongsHas(cols, sp, i, t, n - 1, j);
    }
  }

  /** The cone round holds exactly the columns within the cone edge at their nearest sample. */
  lemma ConeRound(m: Manifold, sp: Space, r: real, lineRes: nat, taga: string, tagb: string, j: nat)
    requires lineRes % 2 == 0 && NearestSamples(sp, lineRes, |m.cols|) && j < |m.cols|
    requires NoDup(m.cols)
    ensures m.cols[j] in RoundList(Cone, m, sp, r, lineRes, taga, tagb) <==>
      sp.ldist[j] <= Thresholds(Cone, r, lineRes)[sp.perpdist[j]]
  {
    var thr := Thresholds(Cone, r, lineRes);
    var sc := Scanned(m.cols, sp, thr, {}, lineRes);
    assert Stops(Cone, taga, tagb) == {};
    if sp.ldist[j] <= thr[sp.perpdist[j]] {
      ConeScanned(m.cols, sp, thr, lineRes, j);
    }
    if m.cols[j] in sc {
      ScannedWithin(m.cols, sp, thr, {}, lineRes, m.cols[j]);
      var k :| 0 <= k < |m.cols| && m.cols[k] == m.cols[j] && Within(m.cols, sp, thr, lineRes, k);
      assert k == j;
    }
  }

  lemma UniqueSnoc(s: seq<string>, x: string)
    ensures Unique(s + [x]) == if x in Unique(s) then Unique(s) else Unique(s) + [x]
  {
    assert (s + [x])[..|s|] == s;
  }

  /** A scan that reaches its first stop tag at position k visits exactly q[..k + 1]. */
  lemma {:induction false} TakeThroughStop(q: seq<string>, stops: set<string>, k: nat)
    requires k < |q| && q[k] in stops
    requires forall j :: 0 <= j < k ==> q[j] !in stops
    ensures TakeThrough(q, stops) == q[..k + 1]
  {
    if k > 0 {
      TakeThroughStop(q[1..], stops, k - 1);
      assert q[..k + 1] == [q[0]] + q[1..][..k];
    }
  }

  /** The break rule of the three scans, as written in each. */
  predicate StopsAt(region: Region, taga: string, tagb: string, s: string)
    ensures StopsAt(region, taga, tagb, s) <==> s in Stops(region, taga, tagb)
  {
    (region == Cylinder && (s == tagb || s == taga)) || (region == InverseCone && s == tagb)
  }

  /**
   * The scan of one sample: `songlist[s] = 0` for each qualifying song in
   * turn, stopping after a stop tag. The keys collected so far are the
   * distinct songs of `before`; afterwards they are those of `before`
   * followed by the visited songs.
   */
  method ScanSample(region: Region, taga: string, tagb: string, songlist: seq<string>, ghost before: seq<string>, qSongs: seq<string>)
    returns (out: seq<string>)
    requires songlist == Unique(before)
    ensures out == Unique(before + TakeThrough(qSongs, Stops(region, taga, tagb)))
  {
    ghost var stops := Stops(region, taga, tagb);
    out := songlist;
    var k := 0;
    assert before + qSongs[..0] == before;
    while k < |qSongs|
      invariant 0 <= k <= |qSongs|
      invariant forall j :: 0 <= j < k ==> qSongs[j] !in stops
      invariant out == Unique(before + qSongs[..k])
    {
      var s := qSongs[k];
      ghost var prev := out;
      if s !in out {
        out := out + [s];
      }
      ScanOne(before, qSongs, k, prev, out);
      if StopsAt(region, taga, tagb, s) {
        ScanStops(region, taga, tagb, before, qSongs, k, out);
        return;
      }
      ScanOn(region, taga, tagb, qSongs, k);
      k := k + 1;
    }
    assert qSongs[..k] == qSongs;
    ScanEnds(before, qSongs, stops, out);
  }

  /** Adding the song at position k keeps the collected keys those of the songs so far. */
  lemma ScanOne(before: seq<string>, q: seq<string>, k: nat, prev: seq<string>, out: seq<string>)
    requires k < |q| && prev == Unique(before + q[..k])
    requires out == if q[k] in prev then prev else prev + [q[k]]
    ensures out == Unique(before + q[..k + 1])
  {
    assert before + q[..k + 1] == (before + q[..k]) + [q[k]];
    UniqueSnoc(before + q[..k], q[k]);
  }

  /** A scan that stops at position k has visited the songs up to k. */
  lemma ScanStops(region: Region, taga: string, tagb: string, before: seq<string>, q: seq<string>, k: nat, out: seq<string>)
    requires k < |q| && StopsAt(region, taga, tagb, q[k])
    requires forall j :: 0 <= j < k ==> q[j] !in Stops(region, taga, tagb)
    requires out == Unique(before + q[..k + 1])
    ensures out == Unique(before + TakeThrough(q, Stops(region, taga, tagb)))
  {
    TakeThroughStop(q, Stops(region, taga, tagb), k);
  }

  /** A song that is not a stop tag lets the scan go on. */
  lemma ScanOn(region: Region, taga: string, tagb: string, q: seq<string>, k: nat)
    requires k < |q| && !StopsAt(region, taga, tagb, q[k])
    requires forall j :: 0 <= j < k ==> q[j] !in Stops(region, taga, tagb)
    ensures forall j :: 0 <= j < k + 1 ==> q[j] !in Stops(region, taga, tagb)
  {
  }

  /** A scan that meets no stop tag visits all its songs. */
  lemma ScanEnds(before: seq<string>, q: seq<string>, stops: set<string>, out: seq<string>)
    requires forall j :: 0 <= j < |q| ==> q[j] !in stops
    requires out == Unique(before + q)
    ensures out == Unique(before + TakeThrough(q, stops))
  {
  }

  /**
   * The body of make_list at radius `r`: for every sample, scan its
   * qualifying songs in column order, add each one not yet in `songlist`,
   * and stop the sample's scan after a stop tag.
   */
  method Round(region: Region, m: Manifold, sp: Space, r: real, lineRes: nat, taga: string, tagb: string)
    returns (plist: seq<string>)
    requires lineRes % 2 == 0 && NearestSamples(sp, lineRes, |m.cols|)
    ensures plist == RoundList(region, m, sp, r, lineRes, taga, tagb)
  {
    var edge := Thresholds(region, r, lineRes);
    ghost var stops := Stops(region, taga, tagb);
    var songlist: seq<string> := [];
    for i := 0 to |edge|
      invariant songlist == Unique(Scanned(m.cols, sp, edge, stops, i))
    {
      var qSongs := QSongs(m.cols, sp, i, edge[i], |m.cols|);
      ghost var before := Scanned(m.cols, sp, edge, stops, i);
      assert Scanned(m.cols, sp, edge, stops, i + 1) == before + TakeThrough(qSongs, stops);
      songlist := ScanSample(region, taga, tagb, songlist, before, qSongs);
    }
    plist := songlist;
  }

  /** The round playlist as a function of the radius. */
  function Rounds(region: Region, m: Manifold, sp: Space, lineRes: int, taga: string, tagb: string): (round: real -> seq<string>)
    ensures forall t :: NoDup(round(t))
  {
    if lineRes >= 0 && lineRes % 2 == 0 && NearestSamples(sp, lineRes, |m.cols|) then
      r => RoundList(region, m, sp, r, lineRes, taga, tagb)
    else
      r => []
  }

  /** The outcome of the radius search: the playlist, the radius it was found at, the radii tried before. */
  datatype Found = Found(plist: seq<string>, radius: real, tried: seq<real>)

  /** Rounds left before the radius passes `ab`. */
  function Measure(r: real, ab: real, resolution: real): nat
    requires resolution > 0.0
  {
    if r > ab then 0 else ((ab - r) / resolution).Floor + 1
  }

  lemma MeasureStep(r: real, ab: real, resolution: real)
    requires resolution > 0.0 && r <= ab
    ensures Measure(r + resolution, ab, resolution) < Measure(r, ab, resolution)
  {
    var x := (ab - r) / resolution;
    var y := (ab - (r + resolution)) / resolution;
    assert (ab - (r + resolution)) / resolution == (ab - r) / resolution - resolution / resolution;
    assert resolution / resolution == 1.0;
    assert y == x - 1.0;
    assert (x - 1.0).Floor == x.Floor - 1;
  }

  /** The radii r, r + step, ... (n of them). */
  function Steps(r: real, step: real, n: nat): seq<real>
    decreases n
  {
    if n == 0 then [] else [r] + Steps(r + step, step, n - 1)
  }

  /** The radius after n steps from r. */
  function Advance(r: real, step: real, n: nat): real
    decreases n
  {
    if n == 0 then r else Advance(r + step, step, n - 1)
  }

  /**
   * make_list: one round at radius `r`; the result is returned once the
   * radius exceeds `ab` or the list holds `minLen` songs, otherwise the
   * round is repeated at `r + resolution`.
   */
  function Search(round: real -> seq<string>, ab: real, minLen: int, resolution: real, r: real): (o: Found)
    requires resolution > 0.0
    ensures o.plist == round(o.radius) && o.radius >= r
    decreases Measure(r, ab, resolution)
  {
    var p := round(r);
    if r > ab then Found(p, r, [])
    else if |p| < minLen then
      MeasureStep(r, ab, resolution);
      var o := Search(round, ab, minLen, resolution, r + resolution);
      Found(o.plist, o.radius, [r] + o.tried)
    else Found(p, r, [])
  }

  /**
   * The result is the round at the final radius, and it is short only when
   * that radius passed the endpoint distance; every radius tried before was
   * at most `ab` and gave a short list, the radii go up by `resolution`,
   * and the number of retries is bounded.
   */
  lemma {:induction false} SearchFacts(round: real -> seq<string>, ab: real, minLen: int, resolution: real, r: real)
    requires resolution > 0.0
    ensures var o := Search(round, ab, minLen, resolution, r);
      && o.plist == round(o.radius)
      && (o.radius > ab || |o.plist| >= minLen)
      && o.radius >= r && |o.tried| <= Measure(r, ab, resolution)
      && (forall t :: t in o.tried ==> t <= ab && |round(t)| < minLen)
      && o.tried == Steps(r, resolution, |o.tried|)
      && o.radius == Advance(r, resolution, |o.tried|)
    decreases Measure(r, ab, resolution)
  {
    if r <= ab && |round(r)| < minLen {
      MeasureStep(r, ab, resolution);
      SearchFacts(round, ab, minLen, resolution, r + resolution);
    }
  }

  lemma RoundsApply(region: Region, m: Manifold, sp: Space, lineRes: nat, taga: string, tagb: string, r: real)
    requires lineRes % 2 == 0 && NearestSamples(sp, lineRes, |m.cols|)
    ensures Rounds(region, m, sp, lineRes, taga, tagb)(r) == RoundList(region, m, sp, r, lineRes, taga, tagb)
  {
  }

  /** make_list returns the round as soon as the radius passes `ab` or the list is long enough. */
  lemma SearchStops(round: real -> seq<string>, ab: real, minLen: int, resolution: real, r: real)
    requires resolution > 0.0 && (r > ab || |round(r)| >= minLen)
    ensures Search(round, ab, minLen, resolution, r).plist == round(r)
  {
  }

  /** Otherwise it retries at the next radius, which is closer to the end of the search. */
  lemma SearchContinues(round: real -> seq<string>, ab: real, minLen: int, resolution: real, r: real)
    requires resolution > 0.0 && r <= ab && |round(r)| < minLen
    ensures Measure(r + resolution, ab, resolution) < Measure(r, ab, resolution)
    ensures Search(round, ab, minLen, resolution, r).plist == Search(round, ab, minLen, resolution, r + resolution).plist
  {
    MeasureStep(r, ab, resolution);
  }

  /**
   * cone_plist, cyl_plist and icone_plist: build the space, then grow the
   * radius from 1 by `resolution` until the round is long enough or the
   * radius exceeds the endpoint distance `dist(a, b)`. Errors are those of
   * space_maker.
   */
  method RegionPlaylist(region: Region, lineRes: int, m: Manifold, taga: string, tagb: string,
                        dist: (Vec, Vec) -> real, minLen: int, resolution: real)
    returns (res: Result<seq<string>>)
    requires ValidManifold(m) && resolution > 0.0
    ensures var sp := SpaceMaker(lineRes, m, taga, tagb, dist);
      && (res.Err? <==> sp.Err?)
      && (res.Err? ==> res.error == sp.error)
      && (res.Ok? ==> res.value == Search(Rounds(region, m, sp.value, lineRes, taga, tagb),
                                          dist(sp.value.a, sp.value.b), minLen, resolution, 1.0).plist)
  {
    var spr := SpaceMaker(lineRes, m, taga, tagb, dist);
    if spr.Err? {
      return Err(spr.error);
    }
    ghost var round := Rounds(region, m, spr.value, lineRes, taga, tagb);
    forall t ensures round(t) == RoundList(region, m, spr.value, t, lineRes, taga, tagb) {
      RoundsApply(region, m, spr.value, lineRes, taga, tagb, t);
    }
    var plist := GrowRadius(region, m, spr.value, lineRes, taga, tagb, round, dist(spr.value.a, spr.value.b), minLen, resolution);
    return Ok(plist);
  }

  /** `round` gives the round playlist at every radius. */
  ghost predicate RoundsAre(round: real -> seq<string>, region: Region, m: Manifold, sp: Space, lineRes: nat, taga: string, tagb: string)
  {
    && lineRes % 2 == 0 && NearestSamples(sp, lineRes, |m.cols|)
    && forall t {:trigger RoundList(region, m, sp, t, lineRes, taga, tagb)} ::
      round(t) == RoundList(region, m, sp, t, lineRes, taga, tagb)
  }

  /** One round, as the value of `round` at radius `r`. */
  method RoundOf(region: Region, m: Manifold, sp: Space, r: real, lineRes: nat, taga: string, tagb: string,
                 ghost round: real -> seq<string>)
    returns (plist: seq<string>)
    requires RoundsAre(round, region, m, sp, lineRes, taga, tagb)
    ensures plist == round(r)
  {
    plist := Round(region, m, sp, r, lineRes, taga, tagb);
  }

  /** The radius loop of make_list, from radius 1. */
  method GrowRadius(region: Region, m: Manifold, sp: Space, lineRes: nat, taga: string, tagb: string,
                    ghost round: real -> seq<string>, ab: real, minLen: int, resolution: real)
    returns (plist: seq<string>)
    requires RoundsAre(round, region, m, sp, lineRes, taga, tagb) && resolution > 0.0
    ensures plist == Search(round, ab, minLen, resolution, 1.0).plist
  {
    ghost var goal := Search(round, ab, minLen, resolution, 1.0);
    var r := 1.0;
    while true
      invariant Search(round, ab, minLen, resolution, r).plist == goal.plist
      decreases Measure(r, ab, resolution)
    {
      plist := RoundOf(region, m, sp, r, lineRes, taga, tagb, round);
      if r > ab || |plist| >= minLen {
        SearchStops(round, ab, minLen, resolution, r);
        break;
      }
      SearchContinues(round, ab, minLen, resolution, r);
      r := r + resolution;
    }
  }
}
