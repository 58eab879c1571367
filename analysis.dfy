/**
 * analysis.py: the corpus tag of a song, the cached extraction step
 * `gt_and_store`, and the location dictionary that maps tags back to files.
 * The metadata of a song, its audio and the cache directory are given;
 * `make_spect` is the one of module Spectra with this script's defaults.
 */
module Analysis {
  import opened Wrappers
  import opened Text
  import opened Dicts
  import opened Naming
  import opened Spectra
  import opened Cache

  // ---------------------------------------------------------------------
  // corpus_tag_generator
  // ---------------------------------------------------------------------

  /** The album, `'Unknown Album'` when the file has no album tag. */
  function Album(md: Metadata): (r: Result<string>)
    ensures "album" !in md ==> r == Ok("Unknown Album")
    ensures "album" in md ==> r == First(md, "album")
  {
    var al := First(md, "album");
    if al.Err? && al.error == KeyError then Ok("Unknown Album") else al
  }

  /** The title with `\` and `/` deleted, `'Unknown Track'` when the file has no title tag. */
  function Title(md: Metadata): (r: Result<string>)
    ensures "title" !in md ==> r == Ok("Unknown Track")
    ensures "title" in md && md["title"] == [] ==> r == Err(IndexError)
    ensures "title" in md && md["title"] != [] ==> r == Ok(RemoveChars(md["title"][0], Slashes))
  {
    var t := First(md, "title");
    if t.Err? then (if t.error == KeyError then Ok("Unknown Track") else t)
    else Ok(RemoveChars(t.value, Slashes))
  }

  /**
   * corpus_tag_generator: `'{albumartist} - {album} - {name}'` with the
   * characters `?*:"<>/|` deleted. The lookups run in the order album,
   * album artist, title, and the first uncaught error escapes.
   */
  function CorpusTag(md: Metadata): (r: Result<string>)
    ensures r.Ok? <==> Album(md).Ok? && AlbumArtist(md).Ok? && Title(md).Ok?
    ensures r.Err? ==> (r.error ==
      if Album(md).Err? then Album(md).error else if AlbumArtist(md).Err? then AlbumArtist(md).error else Title(md).error)
    ensures r.Ok? ==> forall c :: c in r.value ==> c !in Forbidden
  {
    var album := Album(md);
    if album.Err? then Err(album.error)
    else
      var artist := AlbumArtist(md);
      if artist.Err? then Err(artist.error)
      else
        var name := Title(md);
        if name.Err? then Err(name.error)
        else Ok(RemoveChars(Fields(artist.value, album.value, name.value), Forbidden))
  }

  /**
   * Each field of the tag is cleaned on its own: the artist and the album
   * lose `?*:"<>/|`, the title loses those and `\` as well, and the two
   * separators survive.
   */
  lemma CorpusTagFields(md: Metadata)
    requires CorpusTag(md).Ok?
    ensures CorpusTag(md).value ==
      Fields(RemoveChars(AlbumArtist(md).value, Forbidden), RemoveChars(Album(md).value, Forbidden),
             RemoveChars(Title(md).value, Forbidden))
  {
    CleanFields(AlbumArtist(md).value, Album(md).value, Title(md).value);
  }

  /** A title is cleaned of both character classes at once. */
  lemma TitleCleaned(md: Metadata)
    requires "title" in md && md["title"] != []
    ensures RemoveChars(Title(md).value, Forbidden) == RemoveChars(md["title"][0], Slashes + Forbidden)
  {
    RemoveCharsTwice(md["title"][0], Slashes, Forbidden);
  }

  /** A title never holds a backslash: the tag's lost it, and the fallback has none. */
  lemma TitleNoBackslash(md: Metadata)
    requires Title(md).Ok?
    ensures '\\' !in Title(md).value
  {
    if "title" !in md {
      var c := "Unknown Track";
      assert forall k :: 0 <= k < |c| ==> c[k] != '\\';
    }
  }

  /**
   * A backslash is not in `?*:"<>/|`: one in the artist or the album
   * survives into the tag, while the title never contributes one.
   */
  lemma BackslashSurvives(md: Metadata)
    requires CorpusTag(md).Ok?
    ensures '\\' in CorpusTag(md).value <==> '\\' in AlbumArtist(md).value || '\\' in Album(md).value
  {
    CorpusTagFields(md);
    TitleNoBackslash(md);
    var a, b, c := AlbumArtist(md).value, Album(md).value, Title(md).value;
    BackslashKept(a);
    BackslashKept(b);
    BackslashKept(c);
    assert '\\' !in RemoveChars(c, Forbidden);
  }

  /** With no albumartist and no artist tag the KeyError escapes, unless the album lookup failed first. */
  lemma MissingArtist(md: Metadata)
    requires "albumartist" !in md && "artist" !in md
    requires "album" in md ==> md["album"] != []
    ensures CorpusTag(md) == Err(KeyError)
  {
  }

  // ---------------------------------------------------------------------
  // gt_and_store
  // ---------------------------------------------------------------------

  /** What gt_and_store returns: None for a file already cached, False for a failed extraction, else the tag. */
  datatype Outcome = Cached | Failed | Stored(tag: string)

  /** The cache file of a tag: `locale + tag + '.pkl'` with `?*:"<>/|` deleted. */
  function CacheFile(locale: string, tag: string): (name: string)
    ensures |name| <= |locale| + |tag| + 4
    ensures forall c :: c in name <==> (c in locale || c in tag || c in ".pkl") && c !in Forbidden
  {
    RemoveChars(locale + tag + ".pkl", Forbidden)
  }

  /** The result of one gt_and_store call, the files afterwards, and whether the song was extracted. */
  datatype Step = Step(result: Result<Outcome>, files: Files, extracted: bool)

  /** make_spect as gt_and_store calls it: the gammatone method with 16 bands. */
  function Cepstrum(read: Result<Audio>): (r: Result<Option<Gram>>)
    ensures read.Ok? && r.Err? ==> r.error == ZeroDivisionError || r.error == IndexError
    ensures r.Ok? && r.value.Some? ==> read.Ok? && r.value.value == Gammatone(read.value, 1, 1, 16, GammaFmin)
    ensures read.Ok? && read.value.rate > 0 ==> (r == Ok(None) <==> Seconds(read.value) > AnalysisMaxLen)
  {
    MakeSpect(read, "gamma", 16, 1, AnalysisMaxLen)
  }

  /**
   * gt_and_store on the cache contents `files`: compute the tag and the
   * file name; an existing file is left alone; otherwise the song is
   * extracted and, unless that gave None, its gram is written.
   */
  function StoreStep(files: Files, md: Metadata, read: Result<Audio>, locale: string): (o: Step)
    ensures o.result.Ok? ==> CorpusTag(md).Ok?
    ensures o.result == Ok(Cached) <==> CorpusTag(md).Ok? && CacheFile(locale, CorpusTag(md).value) in files
    ensures o.result.Ok? && o.result.value.Stored? ==> o.result.value.tag == CorpusTag(md).value
    ensures CorpusTag(md).Err? ==> o.result == Err(CorpusTag(md).error) && o.files == files
    ensures CorpusTag(md).Ok? && CacheFile(locale, CorpusTag(md).value) !in files ==>
      && (Cepstrum(read) == Ok(None) ==> o.result == Ok(Failed) && o.files == files)
      && (Cepstrum(read).Ok? && Cepstrum(read).value.Some? ==>
            o.result == Ok(Stored(CorpusTag(md).value))
            && o.files == files[CacheFile(locale, CorpusTag(md).value) := Cepstrum(read).value])
      && (Cepstrum(read).Err? ==> o.result == Err(Cepstrum(read).error) && o.files == files)
  {
    match CorpusTag(md)
    case Err(e) => Step(Err(e), files, false)
    case Ok(tag) =>
      var name := CacheFile(locale, tag);
      if name in files then Step(Ok(Cached), files, false)
      else
        match Cepstrum(read)
        case Err(e) => Step(Err(e), files, true)
        case Ok(None) => Step(Ok(Failed), files, true)
        case Ok(Some(g)) => Step(Ok(Stored(tag)), files[name := Some(g)], true)
  }

  /**
   * The step never removes or rewrites a file; it adds at most the tag's
   * file, holding the gram, and it does so exactly when it returns the tag.
   */
  lemma StoreStepAdds(files: Files, md: Metadata, read: Result<Audio>, locale: string)
    ensures var o := StoreStep(files, md, read, locale);
      && (forall f :: f in files ==> f in o.files && o.files[f] == files[f])
      && (o.result.Ok? && o.result.value.Stored? <==> o.files != files)
      && (o.files != files ==>
            var name := CacheFile(locale, o.result.value.tag);
            && o.files == files[name := Some(Cepstrum(read).value.value)]
            && name !in files)
  {
    var o := StoreStep(files, md, read, locale);
    if o.result.Ok? && o.result.value.Stored? {
      var name := CacheFile(locale, o.result.value.tag);
      assert name in o.files && name !in files;
    }
  }

  /** A song is extracted only when its tag has no cache file yet. */
  lemma StoreStepExtracts(files: Files, md: Metadata, read: Result<Audio>, locale: string)
    ensures StoreStep(files, md, read, locale).extracted <==>
      CorpusTag(md).Ok? && CacheFile(locale, CorpusTag(md).value) !in files
  {
  }

  /**
   * Running the step again after it stored the tag finds the file and does
   * nothing; after a failure nothing was cached, so the song is extracted
   * again with the same outcome.
   */
  lemma StoreStepTwice(files: Files, md: Metadata, read: Result<Audio>, locale: string)
    ensures var o := StoreStep(files, md, read, locale);
      && (o.result.Ok? && o.result.value.Stored? ==>
            StoreStep(o.files, md, read, locale) == Step(Ok(Cached), o.files, false))
      && (o.result == Ok(Failed) ==> StoreStep(o.files, md, read, locale) == o)
  {
  }

  /** gt_and_store: the step above, on the cache directory. */
  method GtAndStore(c: CacheDir, songLoc: string, md: Metadata, read: Result<Audio>, locale: string)
    returns (r: Result<Outcome>)
    modifies c
    ensures var o := StoreStep(old(c.files), md, read, locale);
      && r == o.result && c.files == o.files
      && c.extractions == old(c.extractions) + (if o.extracted then [songLoc] else [])
  {
    var tag := CorpusTag(md);
    if tag.Err? {
      return Err(tag.error);
    }
    var name := CacheFile(locale, tag.value);
    if c.Exists(name) {
      return Ok(Cached);
    }
    c.Extract(songLoc);
    var cepstrum := Cepstrum(read);
    if cepstrum.Err? {
      return Err(cepstrum.error);
    }
    if cepstrum.value.None? {
      return Ok(Failed);
    }
    c.Write(name, cepstrum.value);
    return Ok(Stored(tag.value));
  }

  // ---------------------------------------------------------------------
  // create_location_dictionary
  // ---------------------------------------------------------------------

  /** Python truthiness of a gt_and_store result: None and False are false, a tag is true unless it is empty. */
  function Truthy(t: Outcome): (b: bool)
    ensures t == Cached || t == Failed ==> !b
    ensures t.Stored? ==> (b <==> |t.tag| > 0)
  {
    t.Stored? && t.tag != ""
  }

  /** The key a song is stored under: its tag when that is truthy, else a freshly generated one. */
  function LocationKey(t: Outcome, song: string, meta: string -> Metadata): (r: Result<string>)
    ensures Truthy(t) ==> r == Ok(t.tag)
    ensures !Truthy(t) ==> r == CorpusTag(meta(song))
  {
    if Truthy(t) then Ok(t.tag) else CorpusTag(meta(song))
  }

  /** `tags`, or `[None] * len(lib)` when no tags are given. */
  function TagList(lib: seq<string>, tags: Option<seq<Outcome>>): (ts: seq<Outcome>)
    ensures tags.None? ==> |ts| == |lib| && forall i :: 0 <= i < |lib| ==> ts[i] == Cached
    ensures tags.Some? ==> ts == tags.value
  {
    if tags.None? then seq(|lib|, i => Cached) else tags.value
  }

  /** The dictionary after the first `n` (song, tag) pairs of `zip(lib, tags)`, or the first error. */
  function Locations(d: Dict<string>, lib: seq<string>, ts: seq<Outcome>, meta: string -> Metadata, n: nat): (r: Result<Dict<string>>)
    requires DistinctKeys(d) && n <= |lib| && n <= |ts|
    ensures r.Ok? ==> DistinctKeys(r.value)
    decreases n
  {
    if n == 0 then Ok(d)
    else
      match Locations(d, lib, ts, meta, n - 1)
      case Err(e) => Err(e)
      case Ok(d') =>
        match LocationKey(ts[n - 1], lib[n - 1], meta)
        case Err(e) => Err(e)
        case Ok(k) => Ok(Store(d', k, lib[n - 1]))
  }

  /** Reference reading: the song of the last of the first `n` pairs keyed `k`, else the prior entry. */
  function Latest(d: Dict<string>, lib: seq<string>, ts: seq<Outcome>, meta: string -> Metadata, n: nat, k: string): Option<string>
    requires n <= |lib| && n <= |ts|
    decreases n
  {
    if n == 0 then Get(d, k)
    else if LocationKey(ts[n - 1], lib[n - 1], meta) == Ok(k) then Some(lib[n - 1])
    else Latest(d, lib, ts, meta, n - 1, k)
  }

  /** The merge keeps prior entries unless a pair overwrites them, and a later pair wins over an earlier one. */
  lemma {:induction false} LocationsGet(d: Dict<string>, lib: seq<string>, ts: seq<Outcome>, meta: string -> Metadata, n: nat, k: string)
    requires DistinctKeys(d) && n <= |lib| && n <= |ts|
    requires Locations(d, lib, ts, meta, n).Ok?
    ensures Get(Locations(d, lib, ts, meta, n).value, k) == Latest(d, lib, ts, meta, n, k)
    decreases n
  {
    if n > 0 {
      LocationsGet(d, lib, ts, meta, n - 1, k);
      var d' := Locations(d, lib, ts, meta, n - 1).value;
      StoreGet(d', LocationKey(ts[n - 1], lib[n - 1], meta).value, lib[n - 1]);
    }
  }

  /** The merge fails exactly when generating the key of one of the pairs fails. */
  lemma {:induction false} LocationsErr(d: Dict<string>, lib: seq<string>, ts: seq<Outcome>, meta: string -> Metadata, n: nat)
    requires DistinctKeys(d) && n <= |lib| && n <= |ts|
    ensures Locations(d, lib, ts, meta, n).Err? <==> exists i :: 0 <= i < n && LocationKey(ts[i], lib[i], meta).Err?
    decreases n
  {
    if n > 0 {
      LocationsErr(d, lib, ts, meta, n - 1);
      if LocationKey(ts[n - 1], lib[n - 1], meta).Err? {
        assert 0 <= n - 1 < n && LocationKey(ts[n - 1], lib[n - 1], meta).Err?;
      } else {
        assert (exists i :: 0 <= i < n && LocationKey(ts[i], lib[i], meta).Err?) <==>
               (exists i :: 0 <= i < n - 1 && LocationKey(ts[i], lib[i], meta).Err?);
      }
    }
  }

  /** locations.pkl: the saved dictionary, None when the file is missing or empty. */
  class LocationFile {
    var saved: Option<Dict<string>>

    constructor (initial: Option<Dict<string>>)
      requires initial.Some? ==> DistinctKeys(initial.value)
      ensures saved == initial && Valid()
    {
      saved := initial;
    }

    /** A pickled dictionary has distinct keys. */
    predicate Valid()
      reads this
    {
      saved.Some? ==> DistinctKeys(saved.value)
    }

    /** The dictionary the file holds, empty when there is none. */
    function Prior(): (d: Dict<string>)
      reads this
      requires Valid()
      ensures DistinctKeys(d)
    {
      if saved.Some? then saved.value else []
    }
  }

  function Min(a: nat, b: nat): nat
  {
    if a < b then a else b
  }

  /**
   * create_location_dictionary: load the saved dictionary and delete the
   * file, store every (song, tag) pair of `zip(lib, tags)` under its key,
   * and save the result. The file is deleted before the loop, so an error
   * while generating a tag leaves no dictionary saved at all.
   */
  method CreateLocationDictionary(f: LocationFile, lib: seq<string>, tags: Option<seq<Outcome>>, meta: string -> Metadata)
    returns (r: Result<()>)
    requires f.Valid()
    modifies f
    ensures f.Valid()
    ensures var ts := TagList(lib, tags);
      var res := Locations(old(f.Prior()), lib, ts, meta, Min(|lib|, |ts|));
      && (r.Ok? <==> res.Ok?)
      && (res.Ok? ==> f.saved == Some(res.value))
      && (res.Err? ==> f.saved == None && r.error == res.error)
  {
    var d := f.Prior();
    f.saved := None;
    var ts := TagList(lib, tags);
    var merged := Merge(d, lib, ts, meta, Min(|lib|, |ts|));
    if merged.Err? {
      return Err(merged.error);
    }
    f.saved := Some(merged.value);
    return Ok(());
  }

  /** The loop of create_location_dictionary: `d[key] = song` for each of the first `n` pairs. */
  method Merge(d0: Dict<string>, lib: seq<string>, ts: seq<Outcome>, meta: string -> Metadata, n: nat)
    returns (r: Result<Dict<string>>)
    requires DistinctKeys(d0) && n <= |lib| && n <= |ts|
    ensures r == Locations(d0, lib, ts, meta, n)
  {
    var d := d0;
    for i := 0 to n
      invariant DistinctKeys(d)
      invariant Locations(d0, lib, ts, meta, i) == Ok(d)
    {
      var key := LocationKey(ts[i], lib[i], meta);
      if key.Err? {
        assert Locations(d0, lib, ts, meta, i + 1) == Err(key.error);
        LocationsStayErr(d0, lib, ts, meta, i + 1, n);
        return Err(key.error);
      }
      d := Store(d, key.value, lib[i]);
    }
    return Ok(d);
  }

  /** Once a pair fails, the merge of any longer prefix fails with the same error. */
  lemma {:induction false} LocationsStayErr(d: Dict<string>, lib: seq<string>, ts: seq<Outcome>, meta: string -> Metadata, m: nat, n: nat)
    requires DistinctKeys(d) && m <= n <= |lib| && n <= |ts|
    requires Locations(d, lib, ts, meta, m).Err?
    ensures Locations(d, lib, ts, meta, n) == Locations(d, lib, ts, meta, m)
    decreases n - m
  {
    if m < n {
      LocationsStayErr(d, lib, ts, meta, m, n - 1);
    }
  }
}
