/**
 * preprocessing.py: the earlier extraction script. Its make_spect is the
 * one of module Spectra with a 30-minute default limit, and its
 * song_name_gen is Naming.SongNameGen. Its gt_and_store builds the file
 * name without fallbacks for album and title, cleans the whole path, and
 * pickles whatever make_spect returned, None included.
 */
module Preprocessing {
  import opened Wrappers
  import opened Text
  import opened Naming
  import opened Spectra
  import opened Cache
  import Analysis

  /**
   * `locale + '{albumartist} - {album} - {name}.pkl'`, the title without
   * `\` and `/`, then `?*:"<>/|` deleted from the whole path, locale
   * included. The album and title lookups have no fallback.
   */
  function FileName(md: Metadata, locale: string): (r: Result<string>)
    ensures r.Ok? <==> First(md, "album").Ok? && AlbumArtist(md).Ok? && First(md, "title").Ok?
    ensures r.Err? ==> (r.error ==
      if First(md, "album").Err? then First(md, "album").error
      else if AlbumArtist(md).Err? then AlbumArtist(md).error
      else First(md, "title").error)
    ensures r.Ok? ==> forall c :: c in r.value ==> c !in Forbidden
  {
    var album := First(md, "album");
    if album.Err? then Err(album.error)
    else
      var artist := AlbumArtist(md);
      if artist.Err? then Err(artist.error)
      else
        var title := First(md, "title");
        if title.Err? then Err(title.error)
        else
          var name := RemoveChars(title.value, Slashes);
          Ok(RemoveChars(locale + Fields(artist.value, album.value, name) + ".pkl", Forbidden))
  }

  /** A file without an album or a title tag makes the step fail with KeyError; only the artist falls back. */
  lemma NoFallbacks(md: Metadata, locale: string)
    ensures "album" !in md ==> FileName(md, locale) == Err(KeyError)
    ensures "album" in md && md["album"] != [] && AlbumArtist(md).Ok? && "title" !in md ==>
      FileName(md, locale) == Err(KeyError)
  {
  }

  /**
   * When the file has every tag, the name is the cache file analysis.py
   * computes for the same song: the same tag, suffix and clean-up, so the
   * two scripts share their caches.
   */
  lemma SameCacheFile(md: Metadata, locale: string)
    requires FileName(md, locale).Ok?
    ensures Analysis.CorpusTag(md).Ok?
    ensures FileName(md, locale).value == Analysis.CacheFile(locale, Analysis.CorpusTag(md).value)
  {
    var tag := Analysis.CorpusTag(md).value;
    var title := md["title"][0];
    var A, B, T := RemoveChars(AlbumArtist(md).value, Forbidden), RemoveChars(md["album"][0], Forbidden),
      RemoveChars(title, Slashes + Forbidden);
    assert Analysis.Album(md).value == md["album"][0];
    Analysis.CorpusTagFields(md);
    Analysis.TitleCleaned(md);
    assert tag == Fields(A, B, T);
    FileNameParts(md, locale);
    assert FileName(md, locale).value == RemoveChars(locale, Forbidden) + tag + ".pkl";
    RemoveCharsConcat(locale + tag, ".pkl", Forbidden);
    RemoveCharsConcat(locale, tag, Forbidden);
    RemoveCharsNoop(tag, Forbidden);
    PklSurvives();
  }

  /**
   * Every part of the path is cleaned on its own, the locale included; the
   * title loses `\` and `/` as well, and the separators and the suffix survive.
   */
  lemma FileNameParts(md: Metadata, locale: string)
    requires FileName(md, locale).Ok?
    ensures FileName(md, locale).value ==
      RemoveChars(locale, Forbidden)
      + Fields(RemoveChars(AlbumArtist(md).value, Forbidden), RemoveChars(First(md, "album").value, Forbidden),
               RemoveChars(First(md, "title").value, Slashes + Forbidden))
      + ".pkl"
  {
    var a, b, t := AlbumArtist(md).value, First(md, "album").value, RemoveChars(First(md, "title").value, Slashes);
    RemoveCharsConcat(locale + Fields(a, b, t), ".pkl", Forbidden);
    RemoveCharsConcat(locale, Fields(a, b, t), Forbidden);
    CleanFields(a, b, t);
    PklSurvives();
    RemoveCharsTwice(First(md, "title").value, Slashes, Forbidden);
  }

  lemma PklSurvives()
    ensures RemoveChars(".pkl", Forbidden) == ".pkl"
  {
    var p := ".pkl";
    assert forall k :: 0 <= k < |p| ==> p[k] in {'.', 'p', 'k', 'l'};
    RemoveCharsNoop(p, Forbidden);
  }

  /** The result of one gt_and_store call (it returns None), the files afterwards, and whether the song was extracted. */
  datatype Step = Step(result: Result<()>, files: Files, extracted: bool)

  /** make_spect as gt_and_store calls it: the gammatone method with 16 bands and the 1800-second limit. */
  function Cepstrum(read: Result<Audio>): (r: Result<Option<Gram>>)
    ensures read.Ok? && r.Err? ==> r.error == ZeroDivisionError || r.error == IndexError
    ensures r.Ok? && r.value.Some? ==> read.Ok? && r.value.value == Gammatone(read.value, 1, 1, 16, GammaFmin)
    ensures read.Ok? && read.value.rate > 0 ==> (r == Ok(None) <==> Seconds(read.value) > PreprocessingMaxLen)
  {
    MakeSpect(read, "gamma", 16, 1, PreprocessingMaxLen)
  }

  /**
   * gt_and_store on the cache contents `files`: an existing file is left
   * alone; otherwise the song is extracted and the result is written, a
   * None included; an error of make_spect escapes before the file is opened.
   */
  function StoreStep(files: Files, md: Metadata, read: Result<Audio>, locale: string): (o: Step)
    ensures o.extracted <==> FileName(md, locale).Ok? && FileName(md, locale).value !in files
    ensures o.extracted && Cepstrum(read).Ok? ==>
      o.result.Ok? && o.files == files[FileName(md, locale).value := Cepstrum(read).value]
    ensures o.extracted && Cepstrum(read).Err? ==> o.result == Err(Cepstrum(read).error) && o.files == files
    ensures !o.extracted ==> o.files == files
    ensures FileName(md, locale).Err? ==> o.result == Err(FileName(md, locale).error)
    ensures FileName(md, locale).Ok? && FileName(md, locale).value in files ==> o.result == Ok(())
  {
    match FileName(md, locale)
    case Err(e) => Step(Err(e), files, false)
    case Ok(name) =>
      if name in files then Step(Ok(()), files, false)
      else
        match Cepstrum(read)
        case Err(e) => Step(Err(e), files, true)
        case Ok(g) => Step(Ok(()), files[name := g], true)
    }

  /** A song that is too long gets a pickled None, so it is never retried. */
  lemma FailureCached(files: Files, md: Metadata, read: Result<Audio>, locale: string)
    requires FileName(md, locale).Ok? && FileName(md, locale).value !in files
    requires Cepstrum(read) == Ok(None)
    ensures StoreStep(files, md, read, locale).files[FileName(md, locale).value] == None
    ensures var o := StoreStep(files, md, read, locale); StoreStep(o.files, md, read, locale) == Step(Ok(()), o.files, false)
  {
  }

  /** A second run after the file was written changes nothing and extracts nothing. */
  lemma StoreStepTwice(files: Files, md: Metadata, read: Result<Audio>, locale: string)
    ensures var o := StoreStep(files, md, read, locale);
      o.result.Ok? ==> StoreStep(o.files, md, read, locale) == Step(Ok(()), o.files, false)
  {
  }

  /** gt_and_store: the step above, on the cache directory. */
  method GtAndStore(c: CacheDir, songLoc: string, md: Metadata, read: Result<Audio>, locale: string)
    returns (r: Result<()>)
    modifies c
    ensures var o := StoreStep(old(c.files), md, read, locale);
      && r == o.result && c.files == o.files
      && c.extractions == old(c.extractions) + (if o.extracted then [songLoc] else [])
  {
    var name := FileName(md, locale);
    if name.Err? {
      return Err(name.error);
    }
    if c.Exists(name.value) {
      return Ok(());
    }
    c.Extract(songLoc);
    var cepstrum := Cepstrum(read);
    if cepstrum.Err? {
      return Err(cepstrum.error);
    }
    c.Write(name.value, cepstrum.value);
    return Ok(());
  }
}
