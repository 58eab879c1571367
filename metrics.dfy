/**
 * metrics.py (and its copy source/metrics.py): grouping a manifold by
 * artist or album and the wiring of the scores built on the groups. A
 * manifold is a data frame whose columns are named by corpus tags
 * `'{artist} - {album} - {title}'` and hold one song's coordinates. The
 * statistics themselves (standard deviations, pairwise distances, logs and
 * means) are given as functions.
 */
module Metrics {
  import opened Wrappers
  import opened Text
  import opened Dicts

  /** One song's coordinates in the manifold. */
  type Column = seq<real>

  /** A manifold data frame: columns in order, keyed by tag. */
  type Frame = Dict<Column>

  /** A grouping: for each key, the matrix (`np.array(songs)`) of its songs' columns. */
  type Groups = Dict<seq<Column>>

  // ---------------------------------------------------------------------
  // group_artists and group_albums
  // ---------------------------------------------------------------------

  /**
   * `[code.split(' - ')[k] for code in mdf]`: the `k`-th piece of every
   * column name, or IndexError when some name has too few pieces.
   */
  function Labels(mdf: Frame, k: nat): (r: Result<seq<string>>)
    ensures r.Ok? <==> forall i :: 0 <= i < |mdf| ==> k < |Split(mdf[i].0)|
    ensures r.Ok? ==> |r.value| == |mdf| && forall i :: 0 <= i < |mdf| ==> r.value[i] == Split(mdf[i].0)[k]
    ensures r.Err? ==> r.error == IndexError
  {
    if mdf == [] then Ok([])
    else
      var rest := Labels(mdf[1..], k);
      assert forall i :: 0 < i < |mdf| ==> mdf[1..][i - 1] == mdf[i];
      match Segment(mdf[0].0, k)
      case Err(e) => Err(e)
      case Ok(s) => if rest.Err? then rest else Ok([s] + rest.value)
  }

  /** The indices `i < n` whose label is `key`, in increasing order. */
  function Indices(labels: seq<string>, key: string, n: nat): (ix: seq<nat>)
    requires n <= |labels|
    ensures forall i: nat :: i in ix <==> i < n && labels[i] == key
    ensures forall a :: 0 <= a < |ix| ==> ix[a] < n
    ensures forall a, b :: 0 <= a < b < |ix| ==> ix[a] < ix[b]
  {
    if n == 0 then []
    else
      var ix := Indices(labels, key, n - 1);
      if labels[n - 1] == key then ix + [n - 1] else ix
  }

  /** The songs the inner loop appends for `key` after scanning the first `n` columns. */
  function Members(mdf: Frame, labels: seq<string>, key: string, n: nat): seq<Column>
    requires |labels| == |mdf| && n <= |mdf|
  {
    if n == 0 then []
    else Members(mdf, labels, key, n - 1) + (if labels[n - 1] == key then [mdf[n - 1].1] else [])
  }

  /** A group is exactly the columns whose label is its key, taken in column order. */
  lemma {:induction false} MembersAreIndices(mdf: Frame, labels: seq<string>, key: string, n: nat)
    requires |labels| == |mdf| && n <= |mdf|
    ensures var ix := Indices(labels, key, n);
      && |Members(mdf, labels, key, n)| == |ix|
      && forall j :: 0 <= j < |ix| ==> Members(mdf, labels, key, n)[j] == mdf[ix[j]].1
  {
    if n > 0 {
      MembersAreIndices(mdf, labels, key, n - 1);
    }
  }

  /**
   * group_artists (`k == 0`) and group_albums (`k == 1`): one entry per
   * distinct label in ascending order (`np.unique`), each holding the
   * columns with that label.
   */
  function Grouping(mdf: Frame, k: nat): (r: Result<Groups>)
    ensures r.Ok? <==> Labels(mdf, k).Ok?
  {
    match Labels(mdf, k)
    case Err(e) => Err(e)
    case Ok(labels) =>
      var names := SortedUnique(labels);
      Ok(seq(|names|, j requires 0 <= j < |names| => (names[j], Members(mdf, labels, names[j], |mdf|))))
  }

  /** The grouping fails exactly when a column name has too few pieces, and then with IndexError. */
  lemma GroupingFails(mdf: Frame, k: nat)
    ensures Grouping(mdf, k).Err? <==> exists i :: 0 <= i < |mdf| && |Split(mdf[i].0)| <= k
    ensures Grouping(mdf, k).Err? ==> Grouping(mdf, k).error == IndexError
  {
  }

  /** The keys are the distinct labels, strictly ascending, so no key is repeated. */
  lemma GroupKeys(mdf: Frame, k: nat)
    requires Grouping(mdf, k).Ok?
    ensures var g := Grouping(mdf, k).value;
      && StrictlySorted(Keys(g))
      && DistinctKeys(g)
      && forall key :: key in Keys(g) <==> exists i :: 0 <= i < |mdf| && Split(mdf[i].0)[k] == key
  {
    var labels := Labels(mdf, k).value;
    var g := Grouping(mdf, k).value;
    var names := SortedUnique(labels);
    assert Keys(g) == names;
    forall a, b | 0 <= a < b < |g| ensures g[a].0 != g[b].0 {
      LexIrreflexive(names[a]);
    }
    forall key ensures key in names <==> exists i :: 0 <= i < |mdf| && Split(mdf[i].0)[k] == key {
      if key in labels {
        var i :| 0 <= i < |labels| && labels[i] == key;
        assert Split(mdf[i].0)[k] == key;
      }
      if exists i :: 0 <= i < |mdf| && Split(mdf[i].0)[k] == key {
        var i :| 0 <= i < |mdf| && Split(mdf[i].0)[k] == key;
        assert labels[i] == key;
      }
    }
  }

  /**
   * Each group holds exactly the columns whose `k`-th piece is its key, in
   * column order: the `j`-th member is column `Indices(...)[j]`.
   */
  lemma GroupMembers(mdf: Frame, k: nat, j: nat)
    requires Grouping(mdf, k).Ok? && j < |Grouping(mdf, k).value|
    ensures var g := Grouping(mdf, k).value; var labels := Labels(mdf, k).value;
      var ix := Indices(labels, g[j].0, |mdf|);
      && (forall i: nat :: i in ix <==> i < |mdf| && Split(mdf[i].0)[k] == g[j].0)
      && |g[j].1| == |ix|
      && forall m :: 0 <= m < |ix| ==> g[j].1[m] == mdf[ix[m]].1
  {
    var g := Grouping(mdf, k).value;
    MembersAreIndices(mdf, Labels(mdf, k).value, g[j].0, |mdf|);
  }

  /** The groups partition the columns: every column lies in the group of its label and in no other. */
  lemma Partition(mdf: Frame, k: nat, i: nat)
    requires Grouping(mdf, k).Ok? && i < |mdf|
    ensures var g := Grouping(mdf, k).value; var labels := Labels(mdf, k).value;
      exists j :: 0 <= j < |g| && i in Indices(labels, g[j].0, |mdf|)
        && forall j' :: 0 <= j' < |g| && i in Indices(labels, g[j'].0, |mdf|) ==> j' == j
  {
    var g := Grouping(mdf, k).value;
    var labels := Labels(mdf, k).value;
    var names := SortedUnique(labels);
    assert labels[i] in labels;
    var j :| 0 <= j < |names| && names[j] == labels[i];
    assert g[j].0 == labels[i];
    forall j' | 0 <= j' < |g| && i in Indices(labels, g[j'].0, |mdf|) ensures j' == j {
      assert names[j'] == names[j];
      if j' < j {
        LexIrreflexive(names[j]);
      } else if j < j' {
        LexIrreflexive(names[j]);
      }
    }
  }

  /** The first piece always exists, so grouping by artist never fails. */
  lemma ArtistsNeverFail(mdf: Frame)
    ensures Grouping(mdf, 0).Ok?
  {
    forall i | 0 <= i < |mdf| ensures 0 < |Split(mdf[i].0)| {
      FirstSegment(mdf[i].0);
    }
  }

  /** A column name without `' - '` has a single piece, so grouping by album fails on it. */
  lemma AlbumsNeedSeparator(mdf: Frame, i: nat)
    requires i < |mdf| && FindSep(mdf[i].0).None?
    ensures Grouping(mdf, 1) == Err(IndexError)
  {
    assert |Split(mdf[i].0)| == 1;
  }

  /** The inner loop of the grouping: the columns labelled `key`, in column order. */
  method CollectSongs(mdf: Frame, k: nat, labels: seq<string>, key: string) returns (songs: seq<Column>)
    requires Labels(mdf, k) == Ok(labels)
    ensures songs == Members(mdf, labels, key, |mdf|)
  {
    songs := [];
    for i := 0 to |mdf|
      invariant songs == Members(mdf, labels, key, i)
    {
      var piece := Segment(mdf[i].0, k);
      if piece.value == key {
        songs := songs + [mdf[i].1];
      }
    }
  }

  /** The list comprehension of the grouping: the `k`-th piece of each column name, in column order. */
  method ComputeLabels(mdf: Frame, k: nat) returns (r: Result<seq<string>>)
    ensures r == Labels(mdf, k)
  {
    var labels: seq<string> := [];
    for i := 0 to |mdf|
      invariant |labels| == i
      invariant forall i' :: 0 <= i' < i ==> k < |Split(mdf[i'].0)| && labels[i'] == Split(mdf[i'].0)[k]
    {
      var piece := Segment(mdf[i].0, k);
      if piece.Err? {
        return Err(piece.error);
      }
      labels := labels + [piece.value];
    }
    assert Labels(mdf, k).Ok?;
    assert Labels(mdf, k).value == labels;
    r := Ok(labels);
  }

  /** Storing the value of the next sorted name extends the entries of the names before it. */
  lemma StoreNext<V>(names: seq<string>, vals: seq<V>, d: Dict<V>, j: nat)
    requires StrictlySorted(names) && j < |names| && |vals| == |names| && |d| == j
    requires forall a :: 0 <= a < j ==> d[a] == (names[a], vals[a])
    ensures DistinctKeys(d)
    ensures var e := Store(d, names[j], vals[j]);
      |e| == j + 1 && forall a :: 0 <= a <= j ==> e[a] == (names[a], vals[a])
  {
    forall a, b | 0 <= a < b < j ensures d[a].0 != d[b].0 {
      LexIrreflexive(names[a]);
    }
    forall a | 0 <= a < j ensures Keys(d)[a] != names[j] {
      LexIrreflexive(names[j]);
    }
  }

  /**
   * The shared body of group_artists and group_albums: the labels, their
   * sorted distinct values, and for each of them the scan over the columns.
   */
  method GroupBy(mdf: Frame, k: nat) returns (r: Result<Groups>)
    ensures r == Grouping(mdf, k)
  {
    var pieces := ComputeLabels(mdf, k);
    if pieces.Err? {
      return Err(pieces.error);
    }
    var labels := pieces.value;
    var names := SortedUnique(labels);
    var newDf: Groups := [];
    ghost var groups := seq(|names|, j requires 0 <= j < |names| => Members(mdf, labels, names[j], |mdf|));
    for j := 0 to |names|
      invariant |newDf| == j
      invariant forall a :: 0 <= a < j ==> newDf[a] == (names[a], groups[a])
    {
      var songs := CollectSongs(mdf, k, labels, names[j]);
      StoreNext(names, groups, newDf, j);
      newDf := Store(newDf, names[j], songs);
    }
    assert newDf == Grouping(mdf, k).value;
    r := Ok(newDf);
  }

  /** group_artists: grouping by the first piece of the tag, which never fails. */
  method GroupArtists(mdf: Frame) returns (g: Groups)
    ensures Grouping(mdf, 0) == Ok(g)
  {
    ArtistsNeverFail(mdf);
    var r := GroupBy(mdf, 0);
    g := r.value;
  }

  /** group_albums: grouping by the second piece, IndexError for a name without `' - '`. */
  method GroupAlbums(mdf: Frame) returns (r: Result<Groups>)
    ensures r == Grouping(mdf, 1)
    ensures r.Err? <==> exists i :: 0 <= i < |mdf| && FindSep(mdf[i].0).None?
  {
    r := GroupBy(mdf, 1);
    forall i | 0 <= i < |mdf| ensures |Split(mdf[i].0)| <= 1 <==> FindSep(mdf[i].0).None? {
      SplitOnePiece(mdf[i].0);
    }
  }

  /** A name splits into a single piece exactly when it has no separator. */
  lemma SplitOnePiece(s: string)
    ensures |Split(s)| == 1 <==> FindSep(s).None?
  {
    match FindSep(s)
    case None =>
    case Some(p) =>
      assert Split(s) == [s[..p]] + Split(s[p + 3..]);
  }

  // ---------------------------------------------------------------------
  // The per-group metrics and their averages
  // ---------------------------------------------------------------------

  /**
   * `album_xdsd`, `artist_xdsd`, `album_metric` and `artist_metric`: the
   * statistic `stat` of every group, under the group's key.
   */
  function PerGroup(g: Groups, stat: seq<Column> -> real): (d: Dict<real>)
    ensures |d| == |g| && Keys(d) == Keys(g)
    ensures forall j :: 0 <= j < |g| ==> d[j].1 == stat(g[j].1)
  {
    seq(|g|, j requires 0 <= j < |g| => (g[j].0, stat(g[j].1)))
  }

  /** `np.nanmean(list(metrics.values()))` of the per-group statistic of grouping `k`. */
  function Average(mdf: Frame, k: nat, stat: seq<Column> -> real, mean: seq<real> -> real): (r: Result<real>)
    ensures r.Ok? <==> Grouping(mdf, k).Ok?
  {
    match Grouping(mdf, k)
    case Err(e) => Err(e)
    case Ok(g) =>
      var d := PerGroup(g, stat);
      Ok(mean(seq(|d|, j requires 0 <= j < |d| => d[j].1)))
  }

  /** avg_album_xdsd: the mean of the album groups' cross-dimensional deviations. */
  function AvgAlbumXdsd(mdf: Frame, sd: seq<Column> -> real, mean: seq<real> -> real): (r: Result<real>)
    ensures r.Err? <==> NoAlbum(mdf)
    ensures r.Err? ==> r.error == IndexError
  {
    AlbumAverageFails(mdf, sd, mean);
    Average(mdf, 1, sd, mean)
  }

  /** avg_artist_xdsd as written: it calls album_xdsd, so it averages over albums and fails like them. */
  function AvgArtistXdsdAsWritten(mdf: Frame, sd: seq<Column> -> real, mean: seq<real> -> real): (r: Result<real>)
    ensures r.Err? <==> NoAlbum(mdf)
    ensures r.Err? ==> r.error == IndexError
  {
    AlbumAverageFails(mdf, sd, mean);
    Average(mdf, 1, sd, mean)
  }

  /** avg_artist_xdsd as its name and docstring intend: the mean over the artist groups of artist_xdsd, which never fails. */
  function AvgArtistXdsd(mdf: Frame, sd: seq<Column> -> real, mean: seq<real> -> real): (r: Result<real>)
    ensures r.Ok?
  {
    ArtistsNeverFail(mdf);
    Average(mdf, 0, sd, mean)
  }

  /**
   * avg_album_metric and avg_artist_metric: the mean of the per-group
   * distance metric. The artist one never fails; the album one fails with
   * IndexError exactly when a column name has no album piece.
   */
  function AvgMetric(mdf: Frame, byArtist: bool, metric: seq<Column> -> real, mean: seq<real> -> real): (r: Result<real>)
    ensures byArtist ==> r.Ok?
    ensures !byArtist ==> (r.Err? <==> NoAlbum(mdf))
    ensures r.Err? ==> r.error == IndexError
  {
    ArtistsNeverFail(mdf);
    AlbumAverageFails(mdf, metric, mean);
    Average(mdf, if byArtist then 0 else 1, metric, mean)
  }

  /** Some column name has no `' - '`, so it has no album piece. */
  predicate NoAlbum(mdf: Frame)
  {
    exists i :: 0 <= i < |mdf| && FindSep(mdf[i].0).None?
  }

  /** The album average fails exactly when some column name has no separator, and then with IndexError. */
  lemma AlbumAverageFails(mdf: Frame, stat: seq<Column> -> real, mean: seq<real> -> real)
    ensures Average(mdf, 1, stat, mean).Err? <==> NoAlbum(mdf)
    ensures Average(mdf, 1, stat, mean).Err? ==> Average(mdf, 1, stat, mean).error == IndexError
  {
    GroupingFails(mdf, 1);
    forall i | 0 <= i < |mdf| ensures |Split(mdf[i].0)| <= 1 <==> FindSep(mdf[i].0).None? {
      SplitOnePiece(mdf[i].0);
    }
  }

  /** As written, the artist average is the album average on every input, whatever the statistics. */
  lemma ArtistXdsdIsAlbumXdsd(mdf: Frame, sd: seq<Column> -> real, mean: seq<real> -> real)
    ensures AvgArtistXdsdAsWritten(mdf, sd, mean) == AvgAlbumXdsd(mdf, sd, mean)
  {
  }

  /**
   * The discrepancy: a manifold with a column named without `' - '` has
   * well-defined artist groups, yet the artist average as written raises IndexError.
   */
  lemma ArtistXdsdAsWrittenFails(mdf: Frame, i: nat, sd: seq<Column> -> real, mean: seq<real> -> real)
    requires i < |mdf| && FindSep(mdf[i].0).None?
    ensures Grouping(mdf, 0).Ok?
    ensures AvgArtistXdsdAsWritten(mdf, sd, mean) == Err(IndexError)
  {
    ArtistsNeverFail(mdf);
    AlbumsNeedSeparator(mdf, i);
  }

  /**
   * The corrected artist average never fails and is the mean of one value
   * per artist group, in the order of the sorted artist names.
   */
  lemma ArtistXdsdOverArtists(mdf: Frame, sd: seq<Column> -> real, mean: seq<real> -> real)
    ensures AvgArtistXdsd(mdf, sd, mean).Ok?
    ensures var g := Grouping(mdf, 0).value;
      AvgArtistXdsd(mdf, sd, mean).value == mean(seq(|g|, j requires 0 <= j < |g| => sd(g[j].1)))
  {
    ArtistsNeverFail(mdf);
    PerGroupValues(Grouping(mdf, 0).value, sd);
  }

  /** The values of the per-group dictionary are the statistic of each group, in group order. */
  lemma PerGroupValues(g: Groups, stat: seq<Column> -> real)
    ensures var d := PerGroup(g, stat);
      seq(|d|, j requires 0 <= j < |d| => d[j].1) == seq(|g|, j requires 0 <= j < |g| => stat(g[j].1))
  {
  }

  /**
   * The distance metrics are wired as named: avg_artist_metric is the mean of
   * the metric over the artist groups, and avg_album_metric, when the album
   * grouping succeeds, the mean over the album groups.
   */
  lemma MetricWiring(mdf: Frame, metric: seq<Column> -> real, mean: seq<real> -> real)
    ensures AvgMetric(mdf, true, metric, mean).Ok?
    ensures var g := Grouping(mdf, 0).value;
      AvgMetric(mdf, true, metric, mean).value == mean(seq(|g|, j requires 0 <= j < |g| => metric(g[j].1)))
    ensures Grouping(mdf, 1).Ok? ==> var g := Grouping(mdf, 1).value;
      AvgMetric(mdf, false, metric, mean) == Ok(mean(seq(|g|, j requires 0 <= j < |g| => metric(g[j].1))))
  {
    ArtistsNeverFail(mdf);
    PerGroupValues(Grouping(mdf, 0).value, metric);
    if Grouping(mdf, 1).Ok? {
      PerGroupValues(Grouping(mdf, 1).value, metric);
    }
  }

  // ---------------------------------------------------------------------
  // The *_score helpers
  // ---------------------------------------------------------------------

  /** `dict(zip(keys, rows))` for distinct keys: the i-th key with the i-th row, up to the shorter list. */
  function Pairs(keys: seq<string>, rows: seq<Column>): (f: Frame)
    ensures |f| <= |keys| && |f| <= |rows|
    ensures forall i :: 0 <= i < |f| ==> f[i].0 == keys[i]
  {
    if keys == [] || rows == [] then [] else [(keys[0], rows[0])] + Pairs(keys[1..], rows[1..])
  }

  /** zip pairs positionally and stops at the shorter argument. */
  lemma {:induction false} PairsPositional(keys: seq<string>, rows: seq<Column>)
    ensures |Pairs(keys, rows)| == if |keys| < |rows| then |keys| else |rows|
    ensures forall i :: 0 <= i < |Pairs(keys, rows)| ==> Pairs(keys, rows)[i] == (keys[i], rows[i])
  {
    if keys != [] && rows != [] {
      PairsPositional(keys[1..], rows[1..]);
    }
  }

  /**
   * The loop of every *_score helper: `manifold[title] = song` over
   * `zip(corp, xformd_songlist)`. The corpus is a dictionary, so its keys
   * are distinct and every assignment adds a new column.
   */
  method Manifold<V>(corp: Dict<V>, rows: seq<Column>) returns (m: Frame)
    requires DistinctKeys(corp)
    ensures m == Pairs(Keys(corp), rows)
    ensures DistinctKeys(m)
  {
    PairsPositional(Keys(corp), rows);
    var n := if |corp| < |rows| then |corp| else |rows|;
    m := [];
    for i := 0 to n
      invariant |m| == i
      invariant forall i' :: 0 <= i' < i ==> m[i'] == (corp[i'].0, rows[i'])
    {
      assert DistinctKeys(m);
      assert corp[i].0 !in Keys(m) by {
        forall i' | 0 <= i' < i ensures Keys(m)[i'] != corp[i].0 {
          assert m[i'].0 == corp[i'].0;
        }
      }
      m := Store(m, corp[i].0, rows[i]);
    }
  }

  /** artist_xdsd_score as written: the album average of the paired manifold. */
  function ArtistXdsdScore<V>(corp: Dict<V>, rows: seq<Column>, sd: seq<Column> -> real, mean: seq<real> -> real): (r: Result<real>)
    ensures r.Err? <==> PairedNoAlbum(corp, rows)
    ensures r.Err? ==> r.error == IndexError
  {
    PairedFails(corp, rows);
    AvgArtistXdsdAsWritten(Pairs(Keys(corp), rows), sd, mean)
  }

  /** album_xdsd_score: the album average of the paired manifold. */
  function AlbumXdsdScore<V>(corp: Dict<V>, rows: seq<Column>, sd: seq<Column> -> real, mean: seq<real> -> real): (r: Result<real>)
    ensures r.Err? <==> PairedNoAlbum(corp, rows)
    ensures r.Err? ==> r.error == IndexError
  {
    PairedFails(corp, rows);
    AvgAlbumXdsd(Pairs(Keys(corp), rows), sd, mean)
  }

  /** One of the tags that zip pairs with a row has no `' - '`; the tags past the last row do not matter. */
  predicate PairedNoAlbum<V>(corp: Dict<V>, rows: seq<Column>)
  {
    exists i :: 0 <= i < |corp| && i < |rows| && FindSep(corp[i].0).None?
  }

  lemma PairedFails<V>(corp: Dict<V>, rows: seq<Column>)
    ensures NoAlbum(Pairs(Keys(corp), rows)) <==> PairedNoAlbum(corp, rows)
  {
    var f := Pairs(Keys(corp), rows);
    PairsPositional(Keys(corp), rows);
    if PairedNoAlbum(corp, rows) {
      var i :| 0 <= i < |corp| && i < |rows| && FindSep(corp[i].0).None?;
      assert f[i].0 == Keys(corp)[i] == corp[i].0;
    }
    if NoAlbum(f) {
      var i :| 0 <= i < |f| && FindSep(f[i].0).None?;
      assert f[i].0 == Keys(corp)[i] == corp[i].0;
    }
  }

  /** The two xdsd scores coincide as written, and both see only the tags of the first `min(|corp|, |rows|)` songs. */
  lemma ScoresCoincide<V>(corp: Dict<V>, rows: seq<Column>, sd: seq<Column> -> real, mean: seq<real> -> real)
    ensures ArtistXdsdScore(corp, rows, sd, mean) == AlbumXdsdScore(corp, rows, sd, mean)
    ensures |Pairs(Keys(corp), rows)| <= |corp|
  {
    PairsPositional(Keys(corp), rows);
  }
}
