/**
 * ongaku.py: the first version of the extraction script. Its make_spect
 * reads without a duration guard or error handling and dispatches with an
 * `if`/`if`/`else` chain; `Song` wraps a decoded file; gt_and_store builds
 * the file name with only the title's slashes removed.
 */
module Ongaku {
  import opened Wrappers
  import opened Text
  import opened Naming
  import opened Spectra
  import opened Cache
  import Preprocessing

  // ---------------------------------------------------------------------
  // make_spect
  // ---------------------------------------------------------------------

  /**
   * make_spect as written: every reader error escapes and there is no length
   * limit. The `'fourier'` test is followed by a separate `if` on
   * `'gamma'` whose `else` raises, so once the spectrogram of a
   * two-channel file is computed the method is rejected all the same; only
   * `'gamma'` returns a gram. A one-channel file fails in `data[:, 0]`.
   */
  function MakeSpect(read: Result<Audio>, kind: string, height: int, interval: int): (r: Result<Gram>)
    ensures read.Err? ==> r == Err(read.error)
    ensures r.Ok? <==> read.Ok? && kind == "gamma" && HasColumns(read.value)
    ensures r.Ok? ==> r.value == Gammatone(read.value, interval, interval, height, GammaFmin)
    ensures read.Ok? && kind == "gamma" && !HasColumns(read.value) ==> r == Err(IndexError)
    ensures read.Ok? && kind != "gamma" && kind != "fourier" ==> r == Err(ValueError)
  {
    match read
    case Err(e) => Err(e)
    case Ok(a) =>
      if kind == "fourier" && !HasColumns(a) then Err(IndexError)
      else if kind == "gamma" then
        if HasColumns(a) then Ok(Gammatone(a, interval, interval, height, GammaFmin)) else Err(IndexError)
      else Err(ValueError)
  }

  /** The defect: the `'fourier'` method never yields a spectrogram; a two-channel file is rejected as an invalid method. */
  lemma FourierRejected(read: Result<Audio>, height: int, interval: int)
    requires read.Ok?
    ensures MakeSpect(read, "fourier", height, interval).Err?
    ensures HasColumns(read.value) ==> MakeSpect(read, "fourier", height, interval) == Err(ValueError)
    ensures !HasColumns(read.value) ==> MakeSpect(read, "fourier", height, interval) == Err(IndexError)
  {
  }

  /**
   * make_spect with the second test chained by `elif`, as the docstring's
   * two supported methods intend: `'fourier'` gives the spectrogram.
   */
  function MakeSpectElif(read: Result<Audio>, kind: string, height: int, interval: int): (r: Result<Gram>)
    ensures read.Err? ==> r == Err(read.error)
    ensures r.Ok? <==> read.Ok? && (kind == "fourier" || kind == "gamma") && HasColumns(read.value)
    ensures r.Ok? && kind == "fourier" ==> r.value == Spectrogram(read.value)
    ensures r.Ok? && kind == "gamma" ==> r.value == Gammatone(read.value, interval, interval, height, GammaFmin)
    ensures read.Ok? && (kind == "fourier" || kind == "gamma") && !HasColumns(read.value) ==> r == Err(IndexError)
    ensures read.Ok? && kind != "gamma" && kind != "fourier" ==> r == Err(ValueError)
  {
    match read
    case Err(e) => Err(e)
    case Ok(a) =>
      if kind == "fourier" || kind == "gamma" then
        if !HasColumns(a) then Err(IndexError)
        else if kind == "fourier" then Ok(Spectrogram(a))
        else Ok(Gammatone(a, interval, interval, height, GammaFmin))
      else Err(ValueError)
  }

  /** The corrected dispatch changes only the `'fourier'` method; on every other method, `'gamma'` included, the two agree. */
  lemma ElifAgrees(read: Result<Audio>, kind: string, height: int, interval: int)
    requires kind != "fourier"
    ensures MakeSpectElif(read, kind, height, interval) == MakeSpect(read, kind, height, interval)
  {
  }

  /**
   * Past the reader and the duration guard, the corrected dispatch is the
   * one of the later scripts: same transforms, same errors.
   */
  lemma ElifMatchesLater(read: Result<Audio>, kind: string, height: int, interval: int, maxLen: int)
    requires read.Ok? && read.value.rate > 0 && Seconds(read.value) <= maxLen
    ensures var r := MakeSpectElif(read, kind, height, interval);
      Spectra.MakeSpect(read, kind, height, interval, maxLen) == (if r.Ok? then Ok(Some(r.value)) else Err(r.error))
  {
  }

  /**
   * There is no duration guard and no read-failure handling: a song of any
   * length is transformed, and a RuntimeError of the reader escapes.
   */
  lemma NoGuard(a: Audio, height: int, interval: int)
    requires HasColumns(a)
    ensures MakeSpect(Ok(a), "gamma", height, interval) == Ok(Gammatone(a, interval, interval, height, GammaFmin))
    ensures MakeSpect(Err(RuntimeError), "gamma", height, interval) == Err(RuntimeError)
    ensures a.rate > 0 && Seconds(a) > AnalysisMaxLen ==> Spectra.MakeSpect(Ok(a), "gamma", height, interval, AnalysisMaxLen) == Ok(None)
  {
  }

  // ---------------------------------------------------------------------
  // Song and song_name_gen
  // ---------------------------------------------------------------------

  /** A decoded file: its sample rate, its samples and its file name. */
  datatype Song = Song(sr: nat, data: Audio, rawName: string)
  {
    /** The `name` property: both substitutions of song_name_gen, without the backslash split. */
    function Name(): (r: string)
      ensures |r| <= |rawName|
      ensures forall c :: c in r ==> c in rawName
    {
      CleanName(rawName)
    }
  }

  /**
   * song_name_gen is `Song.name` on the last backslash-separated piece, so
   * the two agree on every file name without a backslash.
   */
  lemma NameAgrees(s: Song)
    ensures SongNameGen(s.rawName) == Song(s.sr, s.data, AfterLastBackslash(s.rawName)).Name()
    ensures '\\' !in s.rawName ==> s.Name() == SongNameGen(s.rawName)
  {
    if '\\' !in s.rawName {
      AfterLastBackslashNone(s.rawName);
    }
  }

  /** A song named `lead title.ext` is named `title`: the track-number lead and the extension go. */
  lemma NameOf(sr: nat, data: Audio, lead: string, title: string, ext: string)
    requires forall c :: c in lead ==> !AsciiLetter(c)
    requires title != [] && AsciiLetter(title[0])
    requires forall c :: c in ext ==> WordChar(c)
    ensures Song(sr, data, lead + title + "." + ext).Name() == title
  {
    assert lead + title + "." + ext == lead + (title + "." + ext);
    StripLeadingOf(lead, title + "." + ext);
    DropTailOf(title, ext);
  }

  // ---------------------------------------------------------------------
  // gt_and_store
  // ---------------------------------------------------------------------

  /**
   * `f'{locale}{albumartist} - {album} - {name}.pkl'` with `\` and then `/`
   * deleted from the title and nothing else changed. The album and title
   * lookups have no fallback; the lookups run in the order album, album
   * artist, title.
   */
  function FileName(md: Metadata, locale: string): (r: Result<string>)
    ensures r.Ok? <==> First(md, "album").Ok? && AlbumArtist(md).Ok? && First(md, "title").Ok?
    ensures r.Err? ==> (r.error ==
      if First(md, "album").Err? then First(md, "album").error
      else if AlbumArtist(md).Err? then AlbumArtist(md).error
      else First(md, "title").error)
  {
    var album := First(md, "album");
    if album.Err? then Err(album.error)
    else
      var artist := AlbumArtist(md);
      if artist.Err? then Err(artist.error)
      else
        var title := First(md, "title");
        if title.Err? then Err(title.error)
        else
          var name := RemoveChars(RemoveChars(title.value, {'\\'}), {'/'});
          Ok(locale + Fields(artist.value, album.value, name) + ".pkl")
  }

  /** The two replacements delete both slashes from the title, and the other parts are kept verbatim. */
  lemma FileNameLayout(md: Metadata, locale: string)
    requires FileName(md, locale).Ok?
    ensures FileName(md, locale).value ==
      locale + Fields(AlbumArtist(md).value, md["album"][0], RemoveChars(md["title"][0], Slashes)) + ".pkl"
  {
    RemoveCharsTwice(md["title"][0], {'\\'}, {'/'});
    assert {'\\'} + {'/'} == Slashes;
  }

  /**
   * No other character is stripped: the locale, the artist and the album
   * reach the name unchanged, and so does every title character but the slashes.
   */
  lemma KeepsOtherChars(md: Metadata, locale: string, c: char)
    requires FileName(md, locale).Ok?
    requires c in locale || c in AlbumArtist(md).value || c in md["album"][0] || (c in md["title"][0] && c !in Slashes)
    ensures c in FileName(md, locale).value
  {
    FileNameLayout(md, locale);
  }

  /**
   * The later preprocessing.py name is this one with `?*:"<>/|` deleted, and
   * both fail with the same error on the same metadata.
   */
  lemma LaterNameCleansThis(md: Metadata, locale: string)
    ensures FileName(md, locale).Err? ==> Preprocessing.FileName(md, locale) == FileName(md, locale)
    ensures FileName(md, locale).Ok? ==>
      Preprocessing.FileName(md, locale) == Ok(RemoveChars(FileName(md, locale).value, Forbidden))
  {
    if FileName(md, locale).Ok? {
      FileNameLayout(md, locale);
      RemoveCharsTwice(md["title"][0], {'\\'}, {'/'});
      assert {'\\'} + {'/'} == Slashes;
    }
  }

  /** The result of one gt_and_store call (it returns None), the files afterwards, and whether the song was extracted. */
  datatype Step = Step(result: Result<()>, files: Files, extracted: bool)

  /** make_spect as gt_and_store calls it: the gammatone method with 32 bands. */
  function Cepstrum(read: Result<Audio>): (r: Result<Gram>)
    ensures r.Ok? <==> read.Ok? && HasColumns(read.value)
    ensures r.Ok? ==> r.value == Gammatone(read.value, 1, 1, 32, GammaFmin)
    ensures read.Ok? && !HasColumns(read.value) ==> r == Err(IndexError)
  {
    MakeSpect(read, "gamma", 32, 1)
  }

  /** gt_and_store only asks for `'gamma'`, so the corrected dispatch would not change it. */
  lemma CepstrumAsWritten(read: Result<Audio>)
    ensures Cepstrum(read) == MakeSpectElif(read, "gamma", 32, 1)
  {
    ElifAgrees(read, "gamma", 32, 1);
  }

  /**
   * gt_and_store on the cache contents `files`: an existing file is left
   * alone; otherwise the song is extracted, and the gram is written unless
   * make_spect raised, in which case the error escapes before the file is opened.
   */
  function StoreStep(files: Files, md: Metadata, read: Result<Audio>, locale: string): (o: Step)
    ensures o.extracted <==> FileName(md, locale).Ok? && FileName(md, locale).value !in files
    ensures o.extracted && Cepstrum(read).Ok? ==>
      o.result.Ok? && o.files == files[FileName(md, locale).value := Some(Cepstrum(read).value)]
    ensures o.extracted && Cepstrum(read).Err? ==> o.result == Err(Cepstrum(read).error) && o.files == files
    ensures !o.extracted ==> o.files == files
    ensures FileName(md, locale).Err? ==> o.result == Err(FileName(md, locale).error)
    ensures FileName(md, locale).Ok? && FileName(md, locale).value in files ==> o.result == Ok(())
  {
    match FileName(md, locale)
    case Err(e) => Step(Err(e), files, false)
    case Ok(name) =>
      if name in files then Step(Ok(()), files, false)
      else
        match Cepstrum(read)
        case Err(e) => Step(Err(e), files, true)
        case Ok(g) => Step(Ok(()), files[name := Some(g)], true)
  }

  /** Every file this script writes holds a gram of the song's own audio; a failure is never pickled. */
  lemma StoreStepWritesGram(files: Files, md: Metadata, read: Result<Audio>, locale: string)
    requires StoreStep(files, md, read, locale).extracted
    ensures var o := StoreStep(files, md, read, locale);
      var name := FileName(md, locale).value;
      && (o.result.Ok? <==> read.Ok? && HasColumns(read.value))
      && (o.result.Ok? ==> o.files[name].Some? && o.files[name].value.audio == read.value)
  {
  }

  /** A second run after a successful one changes nothing and extracts nothing. */
  lemma StoreStepTwice(files: Files, md: Metadata, read: Result<Audio>, locale: string)
    ensures var o := StoreStep(files, md, read, locale);
      o.result.Ok? ==> StoreStep(o.files, md, read, locale) == Step(Ok(()), o.files, false)
  {
  }

  /** gt_and_store: the step above, on the cache directory. */
  method GtAndStore(c: CacheDir, songLoc: string, md: Metadata, read: Result<Audio>, locale: string)
    returns (r: Result<()>)
    modifies c
    ensures var o := StoreStep(old(c.files), md, read, locale);
      && r == o.result && c.files == o.files
      && c.extractions == old(c.extractions) + (if o.extracted then [songLoc] else [])
  {
    var name := FileName(md, locale);
    if name.Err? {
      return Err(name.error);
    }
    if c.Exists(name.value) {
      return Ok(());
    }
    c.Extract(songLoc);
    var cepstrum := Cepstrum(read);
    if cepstrum.Err? {
      return Err(cepstrum.error);
    }
    c.Write(name.value, Some(cepstrum.value));
    return Ok(());
  }
}
