/** String helpers written out from the Python operations the source uses. */
module Text {
  import opened Wrappers

  /** `re.sub('[...]', '', s)`: delete every character of the class `cs`. */
  function RemoveChars(s: string, cs: set<char>): (r: string)
    ensures |r| <= |s|
    ensures forall c :: c in r <==> c in s && c !in cs
  {
    if s == [] then []
    else if s[0] in cs then RemoveChars(s[1..], cs)
    else [s[0]] + RemoveChars(s[1..], cs)
  }

  /** Deleting characters distributes over concatenation. */
  lemma {:induction false} RemoveCharsConcat(a: string, b: string, cs: set<char>)
    ensures RemoveChars(a + b, cs) == RemoveChars(a, cs) + RemoveChars(b, cs)
  {
    if a == [] {
      assert a + b == b;
    } else {
      assert (a + b)[0] == a[0];
      assert (a + b)[1..] == a[1..] + b;
      RemoveCharsConcat(a[1..], b, cs);
    }
  }

  /** A string with none of the characters is left as it is. */
  lemma {:induction false} RemoveCharsNoop(s: string, cs: set<char>)
    requires forall c :: c in s ==> c !in cs
    ensures RemoveChars(s, cs) == s
  {
    if s != [] {
      assert forall c :: c in s[1..] ==> c in s;
      RemoveCharsNoop(s[1..], cs);
    }
  }

  /** The separator `str.split` is called with in the metrics code and the tag format. */
  const Sep: string := " - "

  /** Does `pat` occur in `s` at position `i`? */
  predicate OccursAt(s: string, pat: string, i: nat)
  {
    i + |pat| <= |s| && s[i..i + |pat|] == pat
  }

  /** `s.find(Sep)`: the first position of the separator, if any. */
  function FindSep(s: string): (r: Option<nat>)
    ensures r.Some? ==> OccursAt(s, Sep, r.value)
    ensures r.Some? ==> forall i :: 0 <= i < r.value ==> !OccursAt(s, Sep, i)
    ensures r.None? ==> forall i :: 0 <= i <= |s| ==> !OccursAt(s, Sep, i)
  {
    if |s| < 3 then None
    else if s[..3] == Sep then Some(0)
    else
      match FindSep(s[1..])
      case None =>
        assert forall i :: 1 <= i <= |s| ==> (OccursAt(s, Sep, i) <==> OccursAt(s[1..], Sep, i - 1));
        None
      case Some(p) =>
        assert forall i :: 1 <= i <= |s| ==> (OccursAt(s, Sep, i) <==> OccursAt(s[1..], Sep, i - 1));
        Some(p + 1)
  }

  /** `s.split(' - ')`. */
  function Split(s: string): (parts: seq<string>)
    ensures |parts| >= 1
    ensures FindSep(s).None? ==> parts == [s]
    ensures FindSep(s).Some? ==> parts[0] == s[..FindSep(s).value]
    decreases |s|
  {
    match FindSep(s)
    case None => [s]
    case Some(p) => [s[..p]] + Split(s[p + 3..])
  }

  /** `' - '.join(parts)`. */
  function Join(parts: seq<string>): string
  {
    if parts == [] then ""
    else if |parts| == 1 then parts[0]
    else parts[0] + Sep + Join(parts[1..])
  }

  /** Splitting loses nothing: joining the pieces gives the string back. */
  lemma {:induction false} JoinSplit(s: string)
    ensures Join(Split(s)) == s
    decreases |s|
  {
    match FindSep(s)
    case None =>
    case Some(p) =>
      JoinSplit(s[p + 3..]);
      assert s == s[..p] + Sep + s[p + 3..];
  }

  /** `s.split(' - ')[k]`, with the IndexError of a missing piece. */
  function Segment(s: string, k: nat): (r: Result<string>)
    ensures r.Err? <==> k >= |Split(s)|
    ensures r.Err? ==> r.error == IndexError
    ensures r.Ok? ==> r.value == Split(s)[k]
  {
    var parts := Split(s);
    if k < |parts| then Ok(parts[k]) else Err(IndexError)
  }

  /** The first piece always exists; it is the text before the first separator. */
  lemma FirstSegment(s: string)
    ensures Segment(s, 0).Ok?
    ensures FindSep(s).None? ==> Segment(s, 0).value == s
    ensures FindSep(s).Some? ==> Segment(s, 0).value == s[..FindSep(s).value]
  {
  }

  /** Python's `<` on `str`: code-point lexicographic order. */
  predicate LexLess(a: string, b: string)
    decreases |a|
  {
    if a == [] then b != []
    else if b == [] then false
    else if a[0] != b[0] then a[0] < b[0]
    else LexLess(a[1..], b[1..])
  }

  lemma {:induction false} LexIrreflexive(a: string)
    ensures !LexLess(a, a)
  {
    if a != [] { LexIrreflexive(a[1..]); }
  }

  lemma {:induction false} LexTransitive(a: string, b: string, c: string)
    requires LexLess(a, b) && LexLess(b, c)
    ensures LexLess(a, c)
    decreases |a|
  {
    if a != [] && b != [] && c != [] && a[0] == b[0] && b[0] == c[0] {
      LexTransitive(a[1..], b[1..], c[1..]);
    }
  }

  lemma {:induction false} LexTotal(a: string, b: string)
    ensures a == b || LexLess(a, b) || LexLess(b, a)
    decreases |a|
  {
    if a != [] && b != [] && a[0] == b[0] {
      LexTotal(a[1..], b[1..]);
      assert a == [a[0]] + a[1..] && b == [b[0]] + b[1..];
    }
  }

  lemma LexAsymmetric(a: string, b: string)
    requires LexLess(a, b)
    ensures !LexLess(b, a)
  {
    if LexLess(b, a) { LexTransitive(a, b, a); LexIrreflexive(a); }
  }

  /** Strictly increasing in the lexicographic order, hence without duplicates. */
  predicate StrictlySorted(s: seq<string>)
  {
    forall i, j :: 0 <= i < j < |s| ==> LexLess(s[i], s[j])
  }

  /** Insert `x` into a strictly sorted list unless it is already there. */
  function InsertSorted(s: seq<string>, x: string): (r: seq<string>)
    requires StrictlySorted(s)
    ensures StrictlySorted(r)
    ensures forall y :: y in r <==> y in s || y == x
    decreases |s|
  {
    if s == [] then [x]
    else if s[0] == x then s
    else if LexLess(x, s[0]) then
      assert forall j :: 0 <= j < |s| ==> LexLess(x, s[j]) by {
        forall j | 0 < j < |s| ensures LexLess(x, s[j]) { LexTransitive(x, s[0], s[j]); }
      }
      [x] + s
    else
      LexTotal(x, s[0]);
      var t := InsertSorted(s[1..], x);
      assert forall y :: y in t ==> LexLess(s[0], y) by {
        forall y | y in t ensures LexLess(s[0], y) {
          if y != x { assert y in s[1..]; }
        }
      }
      [s[0]] + t
  }

  /** `np.unique` on a list of strings: the distinct values, in ascending order. */
  function SortedUnique(s: seq<string>): (r: seq<string>)
    ensures StrictlySorted(r)
    ensures forall y :: y in r <==> y in s
    ensures |r| <= |s|
  {
    if s == [] then []
    else
      var u := SortedUnique(s[..|s| - 1]);
      assert forall y :: y in s <==> y in s[..|s| - 1] || y == s[|s| - 1];
      var r := InsertSorted(u, s[|s| - 1]);
      SortedLength(r, s);
      r
  }

  /** A strictly sorted list drawn from `s` is no longer than `s`. */
  lemma SortedLength(r: seq<string>, s: seq<string>)
    requires StrictlySorted(r)
    requires forall y :: y in r ==> y in s
    ensures |r| <= |s|
  {
    var rs := set y | y in r;
    var ss := set y | y in s;
    assert rs <= ss;
    DistinctCard(r);
    SeqSetCard(s);
    assert ss == rs + (ss - rs);
    assert |ss| == |rs| + |ss - rs|;
  }

  lemma {:induction false} DistinctCard(r: seq<string>)
    requires StrictlySorted(r)
    ensures |set y | y in r| == |r|
  {
    if r != [] {
      var t := r[1..];
      assert StrictlySorted(t);
      DistinctCard(t);
      assert r[0] !in t by {
        if r[0] in t {
          var j :| 0 <= j < |t| && t[j] == r[0];
          assert LexLess(r[0], r[j + 1]);
          LexIrreflexive(r[0]);
        }
      }
      assert (set y | y in r) == (set y | y in t) + {r[0]};
    }
  }

  lemma {:induction false} SeqSetCard(s: seq<string>)
    ensures |set y | y in s| <= |s|
  {
    if s != [] {
      SeqSetCard(s[1..]);
      assert (set y | y in s) == (set y | y in s[1..]) + {s[0]};
    }
  }
}
