/**
 * The corpus normalisers of learning.py: a corpus maps a track tag to a 2-D
 * decibel matrix (frequency bins x time bins) and each normaliser reshapes the
 * matrices along the time axis, the column count.
 */
module Learning {
  import opened Wrappers
  import opened Dicts
  import Text

  /** A float cell of a decibel matrix; `10*log10(0)` is the exact value NegInf. */
  datatype Cell = Fin(v: real) | NegInf | PosInf | NaN

  /** `np.log(0)`, the padding sentinel. */
  const LogZero: Cell := NegInf

  /** A 2-D array: `cols` is `shape[1]`, kept even when there are no rows. */
  datatype Matrix = Matrix(cols: nat, rows: seq<seq<Cell>>)

  /** Every row has `cols` cells, as in any 2-D NumPy array. */
  predicate WellFormed(m: Matrix)
  {
    forall i :: 0 <= i < |m.rows| ==> |m.rows[i]| == m.cols
  }

  /** A corpus: distinct tags, each with a rectangular matrix. */
  predicate ValidCorpus(c: Dict<Matrix>)
  {
    DistinctKeys(c) && forall i :: 0 <= i < |c| ==> WellFormed(c[i].1)
  }

  function Fill(n: nat): (r: seq<Cell>)
    ensures |r| == n && forall k :: 0 <= k < n ==> r[k] == LogZero
  {
    seq(n, _ => LogZero)
  }

  /** `np.pad(m, ((0, 0), (0, extra)), constant_values=np.log(0))`. */
  function Pad(m: Matrix, extra: nat): (r: Matrix)
    requires WellFormed(m)
    ensures WellFormed(r) && r.cols == m.cols + extra && |r.rows| == |m.rows|
    ensures forall i :: 0 <= i < |m.rows| ==> r.rows[i][..m.cols] == m.rows[i]
    ensures forall i, j :: 0 <= i < |m.rows| && m.cols <= j < r.cols ==> r.rows[i][j] == LogZero
  {
    var rows := seq(|m.rows|, i requires 0 <= i < |m.rows| => m.rows[i] + Fill(extra));
    assert forall i :: 0 <= i < |m.rows| ==> |m.rows[i]| == m.cols && rows[i] == m.rows[i] + Fill(extra);
    Matrix(m.cols + extra, rows)
  }

  /** `m[:, st:end]`. */
  function Columns(m: Matrix, st: nat, end: nat): (r: Matrix)
    requires WellFormed(m) && st <= end <= m.cols
    ensures WellFormed(r) && r.cols == end - st && |r.rows| == |m.rows|
    ensures forall i, j :: 0 <= i < |m.rows| && 0 <= j < end - st ==> r.rows[i][j] == m.rows[i][st + j]
  {
    Matrix(end - st, seq(|m.rows|, i requires 0 <= i < |m.rows| => m.rows[i][st..end]))
  }

  /** Cutting the padding off again gives back the original matrix. */
  lemma PadRoundTrip(m: Matrix, extra: nat)
    requires WellFormed(m)
    ensures Columns(Pad(m, extra), 0, m.cols) == m
  {
    var p := Pad(m, extra);
    var c := Columns(p, 0, m.cols);
    assert |c.rows| == |m.rows|;
    forall i | 0 <= i < |m.rows| ensures c.rows[i] == m.rows[i] {
      assert c.rows[i] == p.rows[i][..m.cols];
    }
  }

  /** `p` is `m` right-padded with LogZero to `width` columns. */
  predicate PaddedFrom(p: Matrix, m: Matrix, width: nat)
  {
    && WellFormed(p) && p.cols == width && |p.rows| == |m.rows| && m.cols <= width
    && (forall i :: 0 <= i < |m.rows| ==> p.rows[i][..m.cols] == m.rows[i])
    && (forall i, j :: 0 <= i < |m.rows| && m.cols <= j < width ==> p.rows[i][j] == LogZero)
  }

  /** `np.max([song.shape[1] for song in corp.values()])`. */
  function MaxCols(c: Dict<Matrix>): (r: nat)
    requires |c| > 0
    ensures forall i :: 0 <= i < |c| ==> c[i].1.cols <= r
    ensures exists i :: 0 <= i < |c| && c[i].1.cols == r
  {
    if |c| == 1 then c[0].1.cols
    else
      var m := MaxCols(c[..|c| - 1]);
      assert forall i :: 0 <= i < |c| - 1 ==> c[..|c| - 1][i] == c[i];
      if c[|c| - 1].1.cols > m then c[|c| - 1].1.cols else m
  }

  /** In a corpus, the tag at position `i` differs from the tags before it. */
  lemma FreshKey<V, W>(c: Dict<V>, d: Dict<W>, i: nat)
    requires DistinctKeys(c) && i < |c| && |d| == i
    requires forall k :: 0 <= k < i ==> d[k].0 == c[k].0
    ensures c[i].0 !in Keys(d)
  {
    forall k | 0 <= k < |d| ensures Keys(d)[k] != c[i].0 {
      assert d[k].0 == c[k].0;
    }
  }

  /** The first `i` entries of `out` are those of `corp`, padded to `width`. */
  predicate PaddedUpTo(out: Dict<Matrix>, corp: Dict<Matrix>, width: nat, i: nat)
    requires i <= |corp|
  {
    && |out| == i && DistinctKeys(out)
    && (forall k :: 0 <= k < i ==> out[k].0 == corp[k].0)
    && (forall k :: 0 <= k < i ==> PaddedFrom(out[k].1, corp[k].1, width))
    && (forall k :: 0 <= k < i && corp[k].1.cols == width ==> out[k].1 == corp[k].1)
  }

  lemma PaddedStep(out: Dict<Matrix>, corp: Dict<Matrix>, width: nat, i: nat, v: Matrix)
    requires DistinctKeys(corp) && i < |corp| && PaddedUpTo(out, corp, width, i)
    requires PaddedFrom(v, corp[i].1, width)
    requires corp[i].1.cols == width ==> v == corp[i].1
    ensures corp[i].0 !in Keys(out)
    ensures PaddedUpTo(out + [(corp[i].0, v)], corp, width, i + 1)
  {
    FreshKey(corp, out, i);
    var out' := out + [(corp[i].0, v)];
    assert forall k :: 0 <= k < i ==> out'[k] == out[k];
  }

  /** A well-formed matrix at the target width is padded from itself. */
  lemma PaddedFromSelf(m: Matrix)
    requires WellFormed(m)
    ensures PaddedFrom(m, m, m.cols)
  {
    forall i | 0 <= i < |m.rows| ensures m.rows[i][..m.cols] == m.rows[i] {
      assert |m.rows[i]| == m.cols;
    }
  }

  /**
   * padded_corpus: every matrix is right-padded with LogZero to the width of
   * the widest one; an empty corpus makes `np.max` raise ValueError.
   */
  method PaddedCorpus(corp: Dict<Matrix>) returns (r: Result<Dict<Matrix>>)
    requires ValidCorpus(corp)
    ensures r.Err? <==> corp == []
    ensures r.Err? ==> r.error == ValueError
    ensures r.Ok? ==> ValidCorpus(r.value) && Keys(r.value) == Keys(corp)
    ensures r.Ok? ==> forall i :: 0 <= i < |corp| ==> PaddedFrom(r.value[i].1, corp[i].1, MaxCols(corp))
    ensures r.Ok? ==> forall i :: 0 <= i < |corp| && corp[i].1.cols == MaxCols(corp) ==> r.value[i].1 == corp[i].1
  {
    if |corp| == 0 {
      return Err(ValueError);
    }
    var longest := MaxCols(corp);
    var newCorp: Dict<Matrix> := [];
    for i := 0 to |corp|
      invariant PaddedUpTo(newCorp, corp, longest, i)
    {
      var (title, song) := corp[i];
      var songSize := longest - song.cols;
      if songSize == 0 {
        PaddedFromSelf(song);
        PaddedStep(newCorp, corp, longest, i, song);
        newCorp := Store(newCorp, title, song);
      } else {
        PaddedStep(newCorp, corp, longest, i, Pad(song, songSize));
        newCorp := Store(newCorp, title, Pad(song, songSize));
      }
    }
    assert forall i :: 0 <= i < |corp| ==> WellFormed(newCorp[i].1);
    r := Ok(newCorp);
  }

  /**
   * What cropped_corpus stores for one song: the centred window of
   * `tarLen` columns of a longer song, the song right-padded to `tarLen`
   * columns when `padShorts` holds, and nothing otherwise.
   */
  function CropOne(m: Matrix, tarLen: nat, padShorts: bool): (r: Option<Matrix>)
    requires WellFormed(m)
    ensures r.None? <==> m.cols <= tarLen && !padShorts
    ensures r.Some? ==> WellFormed(r.value) && |r.value.rows| == |m.rows|
    ensures r.Some? && tarLen % 2 == 0 ==> r.value.cols == tarLen
    ensures m.cols > tarLen ==> r.Some? && r.value.cols == 2 * (tarLen / 2)
    ensures m.cols > tarLen ==> forall i, j :: 0 <= i < |m.rows| && 0 <= j < 2 * (tarLen / 2) ==>
      r.value.rows[i][j] == m.rows[i][m.cols / 2 - tarLen / 2 + j]
    ensures m.cols <= tarLen && padShorts ==> PaddedFrom(r.value, m, tarLen)
  {
    var sLen := m.cols;
    if sLen > tarLen then Some(Columns(m, sLen / 2 - tarLen / 2, sLen / 2 + tarLen / 2))
    else if padShorts then Some(Pad(m, tarLen - sLen))
    else None
  }

  /** The entries cropped_corpus keeps, in corpus order. */
  function CropKept(c: Dict<Matrix>, tarLen: nat, padShorts: bool): (r: Dict<Matrix>)
    requires forall i :: 0 <= i < |c| ==> WellFormed(c[i].1)
    ensures |r| <= |c|
  {
    if c == [] then []
    else
      var last := c[|c| - 1];
      var kept := CropKept(c[..|c| - 1], tarLen, padShorts);
      match CropOne(last.1, tarLen, padShorts)
      case Some(v) => kept + [(last.0, v)]
      case None => kept
  }

  /** With `pad_shorts` every song is kept. */
  lemma {:induction false} CropKeptAll(c: Dict<Matrix>, tarLen: nat)
    requires forall i :: 0 <= i < |c| ==> WellFormed(c[i].1)
    ensures |CropKept(c, tarLen, true)| == |c|
  {
    if c != [] {
      CropKeptAll(c[..|c| - 1], tarLen);
    }
  }

  /** The tags CropKept keeps are tags of the corpus, in corpus order. */
  lemma {:induction false} CropKeptKeys(c: Dict<Matrix>, tarLen: nat, padShorts: bool)
    requires forall i :: 0 <= i < |c| ==> WellFormed(c[i].1)
    ensures forall k :: 0 <= k < |CropKept(c, tarLen, padShorts)| ==> CropKept(c, tarLen, padShorts)[k].0 in Keys(c)
  {
    if c != [] {
      var p := c[..|c| - 1];
      CropKeptKeys(p, tarLen, padShorts);
      assert forall k :: 0 <= k < |p| ==> Keys(p)[k] == Keys(c)[k];
      assert Keys(c)[|c| - 1] == c[|c| - 1].0;
    }
  }

  /** One more song of the corpus extends CropKept by at most that song, under a new tag. */
  lemma CropStep(corp: Dict<Matrix>, tarLen: nat, padShorts: bool, i: nat)
    requires ValidCorpus(corp) && i < |corp|
    ensures corp[i].0 !in Keys(CropKept(corp[..i], tarLen, padShorts))
    ensures CropKept(corp[..i + 1], tarLen, padShorts) ==
      match CropOne(corp[i].1, tarLen, padShorts)
      case Some(v) => CropKept(corp[..i], tarLen, padShorts) + [(corp[i].0, v)]
      case None => CropKept(corp[..i], tarLen, padShorts)
  {
    assert corp[..i + 1][..i] == corp[..i];
    assert corp[..i + 1][i] == corp[i];
    var kept := CropKept(corp[..i], tarLen, padShorts);
    CropKeptKeys(corp[..i], tarLen, padShorts);
    forall k | 0 <= k < |kept| ensures Keys(kept)[k] != corp[i].0 {
      var j :| 0 <= j < i && Keys(corp[..i])[j] == kept[k].0;
      assert corp[j].0 != corp[i].0;
    }
  }

  /**
   * cropped_corpus: with an odd `tarLen` the window is one column short and the
   * `assert` fails as soon as a song longer than `tarLen` is met; otherwise the
   * result is CropKept.
   */
  method CroppedCorpus(corp: Dict<Matrix>, tarLen: nat, padShorts: bool) returns (r: Result<Dict<Matrix>>)
    requires ValidCorpus(corp)
    ensures r.Err? <==> tarLen % 2 == 1 && exists i :: 0 <= i < |corp| && corp[i].1.cols > tarLen
    ensures r.Err? ==> r.error == AssertionError
    ensures r.Ok? ==> r.value == CropKept(corp, tarLen, padShorts)
  {
    var newCorp: Dict<Matrix> := [];
    for i := 0 to |corp|
      invariant newCorp == CropKept(corp[..i], tarLen, padShorts) && DistinctKeys(newCorp)
      invariant tarLen % 2 == 1 ==> forall k :: 0 <= k < i ==> corp[k].1.cols <= tarLen
    {
      var title, song := corp[i].0, corp[i].1;
      var sLen := song.cols;
      if sLen > tarLen {
        var st := sLen / 2 - tarLen / 2;
        var end := sLen / 2 + tarLen / 2;
        if end - st != tarLen {
          return Err(AssertionError);
        }
        CropKeeps(corp, tarLen, padShorts, i, newCorp, Columns(song, st, end));
        newCorp := Store(newCorp, title, Columns(song, st, end));
      } else if padShorts {
        CropKeeps(corp, tarLen, padShorts, i, newCorp, Pad(song, tarLen - sLen));
        newCorp := Store(newCorp, title, Pad(song, tarLen - sLen));
      } else {
        CropDrops(corp, tarLen, padShorts, i);
      }
    }
    assert corp[..|corp|] == corp;
    r := Ok(newCorp);
  }

  /** A song CropOne keeps is stored under its new tag at the end. */
  lemma CropKeeps(corp: Dict<Matrix>, tarLen: nat, padShorts: bool, i: nat, kept: Dict<Matrix>, w: Matrix)
    requires ValidCorpus(corp) && i < |corp|
    requires kept == CropKept(corp[..i], tarLen, padShorts) && DistinctKeys(kept)
    requires CropOne(corp[i].1, tarLen, padShorts) == Some(w)
    ensures Store(kept, corp[i].0, w) == CropKept(corp[..i + 1], tarLen, padShorts)
  {
    CropStep(corp, tarLen, padShorts, i);
  }

  /** A song CropOne drops leaves CropKept as it was. */
  lemma CropDrops(corp: Dict<Matrix>, tarLen: nat, padShorts: bool, i: nat)
    requires ValidCorpus(corp) && i < |corp|
    requires CropOne(corp[i].1, tarLen, padShorts) == None
    ensures CropKept(corp[..i], tarLen, padShorts) == CropKept(corp[..i + 1], tarLen, padShorts)
  {
    CropStep(corp, tarLen, padShorts, i);
  }

  /** Row-major `flatten()`: the rows one after another. */
  function Flatten(rows: seq<seq<Cell>>): (r: seq<Cell>)
    ensures forall c :: c in r <==> exists i :: 0 <= i < |rows| && c in rows[i]
  {
    if rows == [] then [] else rows[0] + Flatten(rows[1..])
  }

  /** Cell (a, b) of a matrix with `cols` columns sits at a * cols + b of the flattened vector. */
  lemma {:induction false} FlattenIndex(rows: seq<seq<Cell>>, cols: nat, a: nat, b: nat)
    requires forall i :: 0 <= i < |rows| ==> |rows[i]| == cols
    requires a < |rows| && b < cols
    ensures |Flatten(rows)| == |rows| * cols
    ensures a * cols + b < |Flatten(rows)|
    ensures Flatten(rows)[a * cols + b] == rows[a][b]
  {
    FlattenLength(rows, cols);
    if a > 0 {
      FlattenIndex(rows[1..], cols, a - 1, b);
      assert a * cols + b == cols + ((a - 1) * cols + b);
    }
  }

  lemma {:induction false} FlattenLength(rows: seq<seq<Cell>>, cols: nat)
    requires forall i :: 0 <= i < |rows| ==> |rows[i]| == cols
    ensures |Flatten(rows)| == |rows| * cols
  {
    if rows != [] {
      FlattenLength(rows[1..], cols);
      assert |rows| * cols == cols + (|rows| - 1) * cols;
    }
  }

  /** The largest finite double, (2 - 2^-52) * 2^1023 = 2^1024 - 2^971. */
  const FloatMax: real := 179769313486231570814527423731704356798070567525844996598917476803157260780028538760589558632766878171540458953514382464234321326889464182768467546703537516986049910576551282076245490090389328944075868508455133942304583236903222948165808559332123348274797826204144723168738177180919299881250404026184124858368.0

  /**
   * `np.nan_to_num` on one cell: a finite value is kept, NaN becomes 0 and
   * the infinities the extreme finite doubles, so the result always lies
   * within the double range.
   */
  function NanToNum(c: Cell): (r: real)
    ensures c.Fin? ==> r == c.v
    ensures !c.Fin? ==> -FloatMax <= r <= FloatMax
    ensures c == PosInf ==> r > 0.0
    ensures c == NegInf ==> r < 0.0
  {
    match c
    case Fin(v) => v
    case NaN => 0.0
    case PosInf => FloatMax
    case NegInf => -FloatMax
  }

  /** `np.nan_to_num(song.flatten())`. */
  function FlatNum(m: Matrix): (v: seq<real>)
    requires WellFormed(m)
    ensures |v| == |m.rows| * m.cols
  {
    FlattenLength(m.rows, m.cols);
    var f := Flatten(m.rows);
    seq(|f|, k requires 0 <= k < |f| => NanToNum(f[k]))
  }

  /** Value (a, b) of the flattened matrix is cell (a, b) with NaN and the infinities replaced. */
  lemma FlatNumIndex(m: Matrix, a: nat, b: nat)
    requires WellFormed(m) && a < |m.rows| && b < m.cols
    ensures a * m.cols + b < |FlatNum(m)|
    ensures FlatNum(m)[a * m.cols + b] == NanToNum(m.rows[a][b])
  {
    FlattenIndex(m.rows, m.cols, a, b);
  }

  /**
   * flattened_corpus: each matrix becomes its row-major vector of
   * `rows * cols` finite values, under the same tag and in the same order.
   */
  method FlattenedCorpus(corp: Dict<Matrix>) returns (r: Dict<seq<real>>)
    requires ValidCorpus(corp)
    ensures DistinctKeys(r) && Keys(r) == Keys(corp)
    ensures forall i :: 0 <= i < |corp| ==> |r[i].1| == |corp[i].1.rows| * corp[i].1.cols
    ensures forall i :: 0 <= i < |corp| ==> r[i].1 == FlatNum(corp[i].1)
  {
    var newCorp: Dict<seq<real>> := [];
    for i := 0 to |corp|
      invariant |newCorp| == i && DistinctKeys(newCorp)
      invariant forall k :: 0 <= k < i ==> newCorp[k] == (corp[k].0, FlatNum(corp[k].1))
    {
      var (title, song) := corp[i];
      FreshKey(corp, newCorp, i);
      newCorp := Store(newCorp, title, FlatNum(song));
    }
    r := newCorp;
  }

  /** `name.replace('.pkl', '')`: every non-overlapping ".pkl", scanning left to right. */
  function StripPkl(name: string): (r: string)
    ensures |r| <= |name|
    ensures |name| < 4 ==> r == name
  {
    if |name| < 4 then name
    else if name[..4] == ".pkl" then StripPkl(name[4..])
    else [name[0]] + StripPkl(name[1..])
  }

  /** Only whole four-character occurrences of ".pkl" are removed. */
  lemma {:induction false} StripPklWhole(name: string)
    ensures (|name| - |StripPkl(name)|) % 4 == 0
  {
    if |name| >= 4 {
      if name[..4] == ".pkl" {
        StripPklWhole(name[4..]);
      } else {
        StripPklWhole(name[1..]);
      }
    }
  }

  /** A tag without ".pkl" in it is recovered from its cache file name `tag + ".pkl"`. */
  lemma {:induction false} StripPklRoundTrip(tag: string)
    requires forall i :: 0 <= i < |tag| ==> !Text.OccursAt(tag, ".pkl", i)
    ensures StripPkl(tag + ".pkl") == tag
  {
    var name := tag + ".pkl";
    if tag == [] {
      assert name == ".pkl";
      assert name[4..] == [];
    } else {
      assert name[..4] != ".pkl" by {
        if |tag| >= 4 {
          assert name[..4] == tag[..4];
          assert !Text.OccursAt(tag, ".pkl", 0);
        } else {
          assert name[|tag|] == '.';
          assert ".pkl"[|tag|] != '.';
        }
      }
      forall i | 0 <= i < |tag[1..]| ensures !Text.OccursAt(tag[1..], ".pkl", i) {
        assert !Text.OccursAt(tag, ".pkl", i + 1);
        if i + 4 <= |tag[1..]| {
          DropFirstSlice(tag, i, i + 4);
        }
      }
      StripPklRoundTrip(tag[1..]);
      assert name[1..] == tag[1..] + ".pkl";
    }
  }

  /** Putting a new key in front: the key maps to its value and every other key keeps its value. */
  lemma ConsGet<V>(k0: string, v: V, rest: Dict<V>)
    requires DistinctKeys(rest) && k0 !in Keys(rest)
    ensures DistinctKeys([(k0, v)] + rest)
    ensures Get([(k0, v)] + rest, k0) == Some(v)
    ensures forall k :: k != k0 ==> Get([(k0, v)] + rest, k) == Get(rest, k)
  {
    var r := [(k0, v)] + rest;
    assert r[1..] == rest;
    assert forall j :: 0 < j < |r| ==> r[j].0 == Keys(rest)[j - 1];
  }

  /** The head key of a dictionary is not among the keys of its tail, which answer every other lookup. */
  lemma TailGet<V>(d: Dict<V>)
    requires DistinctKeys(d) && d != []
    ensures DistinctKeys(d[1..]) && d[0].0 !in Keys(d[1..])
    ensures forall k :: k != d[0].0 ==> Get(d, k) == Get(d[1..], k)
  {
    forall j | 0 <= j < |d[1..]| ensures Keys(d[1..])[j] != d[0].0 {
      assert d[1..][j] == d[j + 1];
    }
  }

  lemma DropFirstSlice<T>(s: seq<T>, i: nat, j: nat)
    requires i <= j < |s|
    ensures s[1..][i..j] == s[i + 1..j + 1]
  {
  }

  /** A dictionary lookup of a loaded value: a present key holding None counts as absent. */
  function Loaded(o: Option<Option<Matrix>>): Option<Matrix>
  {
    if o.Some? && o.value.Some? then o.value else None
  }

  /**
   * The None filter of load_corpus, `{t: s for t, s in corpus.items() if s is not None}`:
   * exactly the entries holding a matrix are kept, in order.
   */
  function DropNone(d: Dict<Option<Matrix>>): (r: Dict<Matrix>)
    requires DistinctKeys(d)
    ensures DistinctKeys(r) && |r| <= |d|
    ensures forall k :: Get(r, k) == Loaded(Get(d, k))
  {
    if d == [] then []
    else
      var rest := DropNone(d[1..]);
      DropNoneStep(d, rest);
      if d[0].1.Some? then [(d[0].0, d[0].1.value)] + rest else rest
  }

  /** The first entry is kept in front of the filtered rest exactly when it holds a matrix. */
  lemma DropNoneStep(d: Dict<Option<Matrix>>, rest: Dict<Matrix>)
    requires DistinctKeys(d) && d != []
    requires DistinctKeys(rest) && |rest| <= |d| - 1
    requires forall k :: Get(rest, k) == Loaded(Get(d[1..], k))
    ensures var r := if d[0].1.Some? then [(d[0].0, d[0].1.value)] + rest else rest;
      DistinctKeys(r) && |r| <= |d| && forall k :: Get(r, k) == Loaded(Get(d, k))
  {
    TailGet(d);
    assert Get(rest, d[0].0) == None;
    if d[0].1.Some? {
      ConsGet(d[0].0, d[0].1.value, rest);
    }
  }

  /** The content of the last listed file whose name gives the tag `k`. */
  function LastLoaded(listing: seq<(string, Option<Matrix>)>, k: string): Option<Option<Matrix>>
  {
    if listing == [] then None
    else if StripPkl(listing[|listing| - 1].0) == k then Some(listing[|listing| - 1].1)
    else LastLoaded(listing[..|listing| - 1], k)
  }

  /**
   * load_corpus, with the directory listing given as (file name, unpickled
   * content) pairs: the tag is the file name without ".pkl", a later file
   * with the same tag overwrites an earlier one, and None contents are dropped.
   */
  method LoadCorpus(listing: seq<(string, Option<Matrix>)>) returns (corpus: Dict<Matrix>)
    ensures DistinctKeys(corpus)
    ensures forall k :: Get(corpus, k) == Loaded(LastLoaded(listing, k))
  {
    var raw: Dict<Option<Matrix>> := [];
    for i := 0 to |listing|
      invariant DistinctKeys(raw)
      invariant forall k :: Get(raw, k) == LastLoaded(listing[..i], k)
    {
      var (song, content) := listing[i];
      assert listing[..i + 1][..i] == listing[..i];
      StoreGet(raw, StripPkl(song), content);
      raw := Store(raw, StripPkl(song), content);
    }
    assert listing[..|listing|] == listing;
    corpus := DropNone(raw);
  }
}
