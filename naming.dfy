/**
 * The tag and title helpers shared by the extraction scripts: metadata
 * lookups as mutagen exposes them, the character classes the scripts strip,
 * and `song_name_gen`, whose two regular-expression substitutions are
 * written out here as string functions.
 */
module Naming {
  import opened Wrappers
  import opened Text

  /** A file's tags as mutagen reports them: each tag name maps to a list of values. */
  type Metadata = map<string, seq<string>>

  /** `mdata[key][0]`: KeyError for a missing tag, IndexError for an empty value list. */
  function First(md: Metadata, key: string): (r: Result<string>)
    ensures r.Ok? <==> key in md && md[key] != []
    ensures r.Ok? ==> r.value == md[key][0]
    ensures r.Err? ==> r.error == (if key in md then IndexError else KeyError)
  {
    if key !in md then Err(KeyError)
    else if md[key] == [] then Err(IndexError)
    else Ok(md[key][0])
  }

  /**
   * The album artist, falling back to the track artist when the file has no
   * `albumartist` tag; a missing `artist` tag then escapes as a KeyError.
   */
  function AlbumArtist(md: Metadata): (r: Result<string>)
    ensures "albumartist" in md ==> r == First(md, "albumartist")
    ensures "albumartist" !in md ==> r == First(md, "artist")
    ensures r.Err? && r.error == KeyError <==> "albumartist" !in md && "artist" !in md
  {
    var aa := First(md, "albumartist");
    if aa.Err? && aa.error == KeyError then First(md, "artist") else aa
  }

  /** The character class `[?*:"<>/|]` of the tag and file-name clean-up. */
  const Forbidden: set<char> := {'?', '*', ':', '"', '<', '>', '/', '|'}

  /** The character class `[\\/]` stripped from titles. */
  const Slashes: set<char> := {'\\', '/'}

  /** `' - '` keeps its characters through both clean-ups. */
  lemma SepSurvives()
    ensures RemoveChars(Sep, Forbidden) == Sep
    ensures RemoveChars(Sep, Slashes) == Sep
  {
    RemoveCharsNoop(Sep, Forbidden);
    RemoveCharsNoop(Sep, Slashes);
  }

  /** `f'{a} - {b} - {c}'`, the layout of every tag and cache file name. */
  function Fields(a: string, b: string, c: string): (r: string)
    ensures |r| == |a| + |b| + |c| + 2 * |Sep|
    ensures r[..|a|] == a && r[|a|..|a| + |Sep|] == Sep
    ensures r[|a| + |Sep|..|a| + |Sep| + |b|] == b
    ensures r[|r| - |c| - |Sep|..|r| - |c|] == Sep && r[|r| - |c|..] == c
  {
    a + Sep + b + Sep + c
  }

  /** Cleaning the joined fields cleans each field on its own; the separators survive. */
  lemma CleanFields(a: string, b: string, c: string)
    ensures RemoveChars(Fields(a, b, c), Forbidden) ==
      Fields(RemoveChars(a, Forbidden), RemoveChars(b, Forbidden), RemoveChars(c, Forbidden))
  {
    RemoveCharsConcat(a + Sep + b + Sep, c, Forbidden);
    RemoveCharsConcat(a + Sep + b, Sep, Forbidden);
    RemoveCharsConcat(a + Sep, b, Forbidden);
    RemoveCharsConcat(a, Sep, Forbidden);
    SepSurvives();
  }

  /** The clean-up keeps backslashes, and the separator has none. */
  lemma BackslashKept(s: string)
    ensures '\\' in RemoveChars(s, Forbidden) <==> '\\' in s
    ensures '\\' !in Sep
  {
    assert '\\' !in Forbidden;
  }

  /** Two successive one-character deletions delete the union of the classes. */
  lemma {:induction false} RemoveCharsTwice(s: string, a: set<char>, b: set<char>)
    ensures RemoveChars(RemoveChars(s, a), b) == RemoveChars(s, a + b)
  {
    if s != [] {
      RemoveCharsTwice(s[1..], a, b);
      if s[0] !in a {
        assert RemoveChars(s, a) == [s[0]] + RemoveChars(s[1..], a);
        assert RemoveChars(s, a)[1..] == RemoveChars(s[1..], a);
      }
    }
  }

  // ---------------------------------------------------------------------
  // song_name_gen
  // ---------------------------------------------------------------------

  /**
   * `s.rsplit('\\', 1)[-1]`: the suffix after the last backslash, or all of
   * `s` when it has none.
   */
  function AfterLastBackslash(s: string): (r: string)
    ensures |r| <= |s| && r == s[|s| - |r|..]
    ensures '\\' !in r
    ensures |r| < |s| ==> s[|s| - |r| - 1] == '\\'
  {
    if s == [] then []
    else if s[|s| - 1] == '\\' then []
    else
      var t := AfterLastBackslash(s[..|s| - 1]);
      assert s[..|s| - 1][|s| - 1 - |t|..] + [s[|s| - 1]] == s[|s| - 1 - |t|..];
      t + [s[|s| - 1]]
  }

  /** A text without backslashes is its own last piece. */
  lemma AfterLastBackslashNone(s: string)
    requires '\\' !in s
    ensures AfterLastBackslash(s) == s
  {
    assert forall k :: 0 <= k < |s| ==> s[k] != '\\';
    assert |AfterLastBackslash(s)| == |s|;
  }

  /** The class `[a-zA-Z]`. */
  predicate AsciiLetter(c: char)
  {
    'a' <= c <= 'z' || 'A' <= c <= 'Z'
  }

  /**
   * `re.sub('^[^a-zA-Z]*', '', s)`: drop the longest prefix of characters
   * that are not ASCII letters; the rest starts with a letter or is empty.
   */
  function StripLeading(s: string): (r: string)
    ensures |r| <= |s| && r == s[|s| - |r|..]
    ensures forall k :: 0 <= k < |s| - |r| ==> !AsciiLetter(s[k])
    ensures r != [] ==> AsciiLetter(r[0])
  {
    if s == [] || AsciiLetter(s[0]) then s else StripLeading(s[1..])
  }

  /** The class `\w`, restricted to ASCII: letters, digits and the underscore. */
  predicate WordChar(c: char)
  {
    AsciiLetter(c) || '0' <= c <= '9' || c == '_'
  }

  /** `$` holds at the end of `x` and just before a newline that ends `x`. */
  predicate AtEnd(x: string, k: nat)
  {
    k == |x| || (k + 1 == |x| && x[k] == '\n')
  }

  /** The pattern `.\w*$` matches `x[i..k]`: one character other than a newline, then word characters to the end. */
  predicate TailMatch(x: string, i: nat, k: nat)
  {
    i < k <= |x| && x[i] != '\n' && (forall j :: i < j < k ==> WordChar(x[j])) && AtEnd(x, k)
  }

  /** Where `$` matches after a run of word characters: before a final newline, else at the end. */
  function TailEnd(x: string): (e: nat)
    ensures e <= |x| && AtEnd(x, e)
  {
    if |x| > 0 && x[|x| - 1] == '\n' then |x| - 1 else |x|
  }

  /** The start of the longest run of word characters that ends at `e`. */
  function RunStart(x: string, e: nat): (w: nat)
    requires e <= |x|
    ensures w <= e
    ensures forall j :: w <= j < e ==> WordChar(x[j])
    ensures w == 0 || !WordChar(x[w - 1])
  {
    if e == 0 || !WordChar(x[e - 1]) then e else RunStart(x, e - 1)
  }

  /** Every match of `.\w*$` ends where `TailEnd` says. */
  lemma MatchEnd(x: string, i: nat, k: nat)
    ensures TailMatch(x, i, k) ==> k == TailEnd(x)
  {
    if |x| > 0 && x[|x| - 1] == '\n' && k == |x| && i + 1 < k {
      assert !WordChar(x[|x| - 1]);
    }
  }

  /**
   * The leftmost match of `.\w*$` in `x`, if any. Every other match starts
   * at or after it and before its end, so the scan that `re.sub` resumes at
   * the end of the match finds nothing more: at most one substitution is made.
   */
  function FirstMatch(x: string): (m: Option<(nat, nat)>)
    ensures m.Some? ==> TailMatch(x, m.value.0, m.value.1)
    ensures m.Some? ==> forall i: nat, k: nat :: TailMatch(x, i, k) ==> m.value.0 <= i < m.value.1
    ensures m.None? ==> forall i: nat, k: nat :: !TailMatch(x, i, k)
  {
    var e := TailEnd(x);
    var w := RunStart(x, e);
    forall i: nat, k: nat ensures TailMatch(x, i, k) ==> k == e && w <= i + 1 && i < e && x[i] != '\n' {
      MatchEnd(x, i, k);
      if TailMatch(x, i, k) && w > 0 {
        assert !WordChar(x[w - 1]);
        assert w - 1 <= i;
      }
    }
    if w > 0 && x[w - 1] != '\n' then
      Some((w - 1, e))
    else if w < e then
      Some((w, e))
    else
      None
  }

  /** `re.sub('.\\w*$', '', x)`: delete the leftmost match, if there is one. */
  function DropTail(x: string): (r: string)
    ensures FirstMatch(x).None? ==> r == x
    ensures FirstMatch(x).Some? ==> r == x[..FirstMatch(x).value.0] + x[FirstMatch(x).value.1..]
  {
    match FirstMatch(x)
    case None => x
    case Some(m) => x[..m.0] + x[m.1..]
  }

  /**
   * The body shared by `song_name_gen` and `Song.name`: the leading
   * non-letters and then the trailing extension (a run of word characters
   * and the one character before it) are deleted.
   */
  function CleanName(s: string): (r: string)
    ensures |r| <= |s|
    ensures forall c :: c in r ==> c in s
  {
    var x := StripLeading(s);
    SuffixIn(s, x);
    DropTailIn(x);
    DropTail(x)
  }

  /** `song_name_gen(fname)`: the clean name of the last backslash-separated piece. */
  function SongNameGen(fname: string): (r: string)
    ensures |r| <= |fname|
    ensures '\\' !in r
    ensures forall c :: c in r ==> c in fname
  {
    var p := AfterLastBackslash(fname);
    SuffixIn(fname, p);
    CleanName(p)
  }

  /** A suffix holds only characters of the whole. */
  lemma SuffixIn(s: string, t: string)
    requires |t| <= |s| && t == s[|s| - |t|..]
    ensures forall c :: c in t ==> c in s
  {
    forall c | c in t ensures c in s {
      var k :| 0 <= k < |t| && t[k] == c;
      assert s[|s| - |t| + k] == c;
    }
  }

  /** Deleting the match of `.\w*$` keeps only characters of the input. */
  lemma DropTailIn(x: string)
    ensures |DropTail(x)| <= |x|
    ensures forall c :: c in DropTail(x) ==> c in x
  {
    match FirstMatch(x)
    case None =>
    case Some(m) =>
      var a, b := x[..m.0], x[m.1..];
      assert forall c :: c in a ==> c in x;
      assert forall c :: c in b ==> c in x;
  }

  /** The last piece of `dir\name` is `name` when `name` has no backslash. */
  lemma {:induction false} AfterLastBackslashOf(dir: string, name: string)
    requires '\\' !in name
    ensures AfterLastBackslash(dir + "\\" + name) == name
    decreases |name|
  {
    var s := dir + "\\" + name;
    if name == [] {
      assert s[|s| - 1] == '\\';
    } else {
      var n := name[..|name| - 1];
      assert name == n + [name[|name| - 1]];
      assert '\\' !in n by {
        forall k | 0 <= k < |n| ensures n[k] != '\\' {
          assert n[k] == name[k];
        }
      }
      assert s[..|s| - 1] == dir + "\\" + n;
      AfterLastBackslashOf(dir, n);
    }
  }

  /** The leading non-letters go, up to the first letter. */
  lemma {:induction false} StripLeadingOf(lead: string, t: string)
    requires forall c :: c in lead ==> !AsciiLetter(c)
    requires t == [] || AsciiLetter(t[0])
    ensures StripLeading(lead + t) == t
  {
    if lead == [] {
      assert lead + t == t;
    } else {
      assert (lead + t)[0] == lead[0];
      assert (lead + t)[1..] == lead[1..] + t;
      StripLeadingOf(lead[1..], t);
    }
  }

  /** A dot and a word-character extension at the end are deleted, and nothing else. */
  lemma DropTailOf(title: string, ext: string)
    requires forall c :: c in ext ==> WordChar(c)
    ensures DropTail(title + "." + ext) == title
  {
    var x := title + "." + ext;
    assert x[|title|] == '.';
    assert forall j :: |title| < j < |x| ==> x[j] == ext[j - |title| - 1];
    assert TailMatch(x, |title|, |x|);
    var m := FirstMatch(x).value;
    assert m.0 == |title| by {
      assert !WordChar(x[|title|]);
    }
    assert x[..|title|] == title;
  }

  /**
   * A path `dir\lead title.ext` gives back the title: the directories, the
   * track number or other non-letter lead and the extension are dropped.
   */
  lemma SongNameOf(dir: string, lead: string, title: string, ext: string)
    requires forall c :: c in lead ==> !AsciiLetter(c) && c != '\\'
    requires title != [] && AsciiLetter(title[0]) && '\\' !in title
    requires forall c :: c in ext ==> WordChar(c)
    ensures SongNameGen(dir + "\\" + lead + title + "." + ext) == title
  {
    var t := title + "." + ext;
    var name := lead + t;
    forall k | 0 <= k < |t| ensures t[k] != '\\' {
      if k < |title| {
        assert t[k] in title;
      } else if k > |title| {
        assert t[k] in ext;
      }
    }
    forall k | 0 <= k < |name| ensures name[k] != '\\' {
      if k < |lead| {
        assert name[k] in lead;
      } else {
        assert name[k] == t[k - |lead|];
      }
    }
    assert dir + "\\" + lead + title + "." + ext == dir + "\\" + name;
    AfterLastBackslashOf(dir, name);
    StripLeadingOf(lead, t);
    DropTailOf(title, ext);
  }
}
