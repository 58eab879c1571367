# ongaku in Dafny

ongaku builds music playlists from audio features. A script extracts a
gammatone cepstrum (a decibel matrix, frequency bins by time bins) for
every song of a library and caches it as a pickle named after the song's
tags. The learning code turns the cached matrices into a corpus and brings
them to a common width. A manifold learner (left out, see below) then places
every song at a point. The playlist code picks songs by their geometry
around two songs: the nearest song to each sample of the line between them,
or every song inside a cone, cylinder or inverse cone around that line,
with the radius grown until the list is long enough. The metrics code
groups the songs of a manifold by artist or by album.

This project models that core and proves its properties:

- `wrappers.dfy`: `Option`, and `Result` with the Python exceptions the code raises (`PyError`).
- `dicts.dfy`: a Python `dict` as an insertion-ordered list of (key, value) pairs with distinct keys. `Store` is `d[k] = v`.
- `text.dfy`: deleting a character class (`re.sub('[...]', '', s)`), `str.split(' - ')` and its inverse `join`, code-point order on strings, and `np.unique` on strings.
- `learning.dfy`: `padded_corpus`, `cropped_corpus` and `flattened_corpus` as loop methods over a corpus. It also models the key derivation and the None filter of `load_corpus`. A cell is finite, −inf, +inf or NaN, so the `np.log(0)` padding is the exact value `NegInf`.
- `playlists.dfy`: `space_maker`, `line_playlist`, `abs_dist_playlist` and the three radius searches. The distance function (`euclidean`/`cdist`) is a parameter, and the line samples (`np.linspace`) are exact rationals. `cone_plist`, `cyl_plist` and `icone_plist` are one method, `RegionPlaylist`, parameterised by a `Region`. The three regions differ only in their threshold profile and their break rule.
- `naming.dfy`: the tag lookups (`mdata[key][0]` and the artist fallback) and the `f'{a} - {b} - {c}'` layout. It also holds `song_name_gen`, with both regular expressions written out as string functions.
- `spectra.dfy`: the control flow of `make_spect` in analysis.py and preprocessing.py. The transforms themselves are uninterpreted values.
- `cache.dfy`: the cache directory as a class. Its fields are the files present and the songs whose extraction was started.
- `analysis.dfy`, `preprocessing.dfy`, `ongaku.dfy`: the three near-duplicate extraction scripts, each modelled from its own body. Each one has its tag or file-name construction, its cache step `gt_and_store`, and its own variant of the rest. analysis.py adds `create_location_dictionary`; ongaku.py adds its `make_spect` and `Song.name`.
- `metrics.dfy`: `group_artists` and `group_albums` as nested loops, proved equal to a reference grouping. It also holds the wiring of the averaged statistics and the `zip` pairing of the `*_score` helpers. metrics.py and source/metrics.py have the same code, and the same members model both.

Where the code departs from what its names, docstrings and comments describe, the model follows the code:

- The cone edge rises to the radius and falls back to 0 (it is mirrored, not held flat).
- The cylinder's break ends only the scan of the current sample.
- With an odd `tar_len`, `cropped_corpus` fails only if some song is longer than `tar_len`.
- In ongaku.py the method `'fourier'` raises ValueError on a two-channel file, and IndexError on a one-channel file.
- In analysis.py, `gt_and_store` does not cache a song whose extraction returned None, so later runs retry it.

## Model

| member | source | states |
|---|---|---|
| Dicts.Store | learning.py:102-104 | `d[k] = v` keeps keys distinct: it overwrites in place when k is present, else appends (k, v) |
| Dicts.StoreGet | learning.py:99-104 | after `d[k] = v`, k maps to v and every other key keeps its value |
| Dicts.Get | metrics.py:72-74 | `d[k]`: a value exactly when k is a key; it is the value stored with k, and with distinct keys the value of every entry under k |
| Text.RemoveChars | analysis.py:231 | the result holds exactly the characters of the input outside the class, and is no longer |
| Text.RemoveCharsConcat | analysis.py:150 | deleting characters from a joined string deletes them from each part |
| Text.RemoveCharsNoop | analysis.py:231 | a string with no character of the class is unchanged |
| Text.FindSep | metrics.py:52 | the position of the first `' - '`, or None when there is none |
| Text.Split | metrics.py:52 | at least one piece; no separator gives the whole string; else the first piece is the text before the first separator |
| Text.JoinSplit | metrics.py:52 | joining the pieces with `' - '` gives the string back |
| Text.Segment | metrics.py:122 | piece k, or IndexError exactly when there are at most k pieces |
| Text.FirstSegment | metrics.py:52 | piece 0 always exists and is the text before the first separator |
| Text.SortedUnique | source/metrics.py:34 | `np.unique`: strictly ascending, exactly the values of the input, no longer than it |
| Learning.Fill | learning.py:104 | n cells, all `np.log(0)` |
| Learning.Pad | learning.py:104 | every row keeps its cells as a prefix; the matrix gains `extra` columns, all −inf; the row count is unchanged |
| Learning.Columns | learning.py:138 | `song[:, st:end]`: `end - st` columns; cell (i, j) is the input's cell (i, st + j) |
| Learning.PadRoundTrip | learning.py:104 | cropping a padded matrix to its old width gives the matrix back |
| Learning.MaxCols | learning.py:95-96 | `np.max(lens)`: no matrix is wider, and some matrix has that width |
| Learning.PaddedStep | learning.py:99-104 | adding the padded next song extends the padded prefix of the corpus |
| Learning.PaddedFromSelf | learning.py:101-102 | a matrix at the target width is its own padding |
| Learning.PaddedCorpus | learning.py:88-105 | ValueError exactly for an empty corpus (`np.max` of no widths). Otherwise: the same keys in the same order; every matrix padded with −inf to the widest width, with its rows and columns as a prefix; a matrix already at that width returned as it is |
| Learning.CropOne | learning.py:133-141 | a longer song gives columns `[s_len//2 - tar_len//2, s_len//2 + tar_len//2)`; a shorter or equal one is dropped unless `pad_shorts`, when it is padded with −inf to `tar_len` |
| Learning.CropKept | learning.py:131-141 | the kept crops, in corpus order: never more songs than the corpus |
| Learning.CropKeptAll | learning.py:139-141 | with `pad_shorts` every song is kept |
| Learning.CropKeptKeys | learning.py:131-143 | the cropped corpus has only keys of the input |
| Learning.CropStep | learning.py:132-141 | one iteration appends the next song's crop, if any, under a fresh key |
| Learning.CropKeeps | learning.py:138-141 | storing a kept crop extends the cropped prefix by that song |
| Learning.CropDrops | learning.py:139-141 | a dropped song leaves the cropped prefix as it was |
| Learning.CroppedCorpus | learning.py:121-143 | AssertionError exactly when `tar_len` is odd and some song is longer than it; otherwise the result is every song's crop, in order |
| Learning.Flatten | learning.py:117 | `flatten()`: a cell is in the vector exactly when it is in some row |
| Learning.FlattenIndex | learning.py:117 | `flatten` is row-major: cell (a, b) lands at a·cols + b, and the length is rows·cols |
| Learning.FlattenLength | learning.py:117 | a flattened matrix has rows·cols entries |
| Learning.NanToNum | learning.py:117 | `nan_to_num` of a cell: a finite value is kept; NaN and ±inf become finite values within ±DBL_MAX, +inf positive and −inf negative |
| Learning.FlatNum | learning.py:117 | the flattened vector has rows·cols entries |
| Learning.FlatNumIndex | learning.py:117 | entry a·cols + b is `nan_to_num` of cell (a, b): NaN becomes 0 and ±inf the extreme finite doubles |
| Learning.FlattenedCorpus | learning.py:108-118 | the same keys in order; each vector has rows·cols entries and is the flattened matrix with non-finite cells replaced |
| Learning.StripPkl | learning.py:36 | `replace('.pkl', '')` never lengthens a name, and leaves a name shorter than ".pkl" alone |
| Learning.StripPklWhole | learning.py:36 | it removes whole four-character occurrences only |
| Learning.StripPklRoundTrip | learning.py:36 | a tag without ".pkl" is recovered from its file name `tag + ".pkl"` |
| Learning.DropNone | learning.py:37 | distinct keys; a key maps to a matrix exactly when it mapped to a non-None value |
| Learning.DropNoneStep | learning.py:37 | the filter of a non-empty dictionary is the filter of its tail, with its first entry kept when it holds a matrix |
| Learning.LoadCorpus | learning.py:33-37 | each tag maps to the content of the last listed file whose name gives that tag, with None contents dropped |
| Playlists.IndexOf | playlists.py:54-55 | `manifold_df[tag]`: the first position of the tag, None exactly when it is no column |
| Playlists.Linspace | playlists.py:141 | `num` samples, the first equal to `start` |
| Playlists.LinspaceSpacing | playlists.py:141 | the last sample is `stop`, and consecutive samples are (stop − start)/(num − 1) apart |
| Playlists.LinspaceVec | playlists.py:56 | `num` points of the dimension of a, the first equal to a |
| Playlists.LinspaceVecEnds | playlists.py:56 | the last sample of the line is b |
| Playlists.FirstArgMin | playlists.py:144 | `idxmin`: a position holding the minimum, with every earlier value strictly larger |
| Playlists.FirstArgMinUnique | playlists.py:144 | that position is the only one with both properties |
| Playlists.FirstIndex | playlists.py:61 | the first occurrence of x |
| Playlists.FirstIndexPrefix | playlists.py:61 | appending to a list does not move the first occurrence of a value already in it |
| Playlists.Unique | playlists.py:61 | `pd.unique`: no duplicates; exactly the values of the input; no longer than it |
| Playlists.UniqueOrder | playlists.py:61 | `pd.unique` keeps the values in the order of their first occurrence |
| Playlists.UniqueSnoc | playlists.py:88-89 | adding a key to a dict appends it only if it is new |
| Playlists.Nearest | playlists.py:143-144 | for each column, `ldist` is the smallest distance to any sample and `perpdist` the first sample attaining it |
| Playlists.SpaceMaker | playlists.py:136-145 | ValueError for an odd `line_res`; KeyError for a missing tag; ValueError for `line_res` 0. Otherwise: the end points, the samples from a to b, every distance between a sample and a column, and the nearest-sample facts |
| Playlists.DistRow | playlists.py:58 | the distance from a point to every column, in column order |
| Playlists.MinList | playlists.py:58-60 | one label per sample, in sample order: label i is that of the first column nearest to sample i; together they are exactly the first nearest columns of the samples |
| Playlists.MinListNearest | playlists.py:60 | labelling each sample by its first arg-min column gives the nearest columns |
| Playlists.Line | playlists.py:56 | `line_res` samples of the line between the two tags |
| Playlists.LinePlaylist | playlists.py:52-67 | KeyError for a missing tag; ValueError for a negative `line_res`. Otherwise: no duplicates, at most `line_res` songs, exactly the labels of the per-sample list, ordered by their first occurrence in it (which fixes the list) |
| Playlists.DistColumn | playlists.py:37-39 | the column of `tag` in the distance matrix: one entry per column, 0 at the tag itself |
| Playlists.InsertIdx | playlists.py:42 | inserting a position keeps the order (by distance, ties by column) and adds just that position |
| Playlists.SortIdx | playlists.py:42 | positions 0 .. n−1 in that order |
| Playlists.SortedDistinct | playlists.py:42 | positions in that strict order are distinct |
| Playlists.Take | playlists.py:42 | `nsmallest(length)` returns at most as many songs as there are columns |
| Playlists.NSmallest | playlists.py:42 | the first k positions of that order: nearest first, and no position left out comes before any taken one |
| Playlists.AbsDistPlaylist | playlists.py:26-42 | ValueError for a manifold with no columns: `squareform` of the empty distance vector is `[[0.]]`, which the DataFrame with zero labels refuses before the lookup. Otherwise KeyError exactly for a missing tag. Otherwise: `min(length, n)` distinct songs, ascending by distance from `tag`, ties in column order (see Playlists.NSmallest under Left out) |
| Playlists.AbsDistStartsWithTag | playlists.py:42 | with non-negative distances and no earlier column at distance 0, the list starts with `tag` itself |
| Playlists.TagBeforeAll | playlists.py:42 | under the same conditions the tag comes before every other column |
| Playlists.Mirror | playlists.py:83-84 | `np.pad(h, (0, len(h)), 'symmetric')`: h followed by its reverse |
| Playlists.MirrorSymmetric | playlists.py:83-84 | the padded edge reads the same from either end |
| Playlists.Half | playlists.py:163 | `line_res // 2` samples |
| Playlists.Thresholds | playlists.py:119 | `line_res` thresholds; the cylinder's are all r |
| Playlists.EdgeShape | playlists.py:163-164 | the first half is `linspace(0, r)` (cone) or `linspace(r, 0)` (inverse cone), and the edge is symmetric |
| Playlists.EdgeEnds | playlists.py:83-84 | the cone edge is 0 at both ends and r in the middle; the inverse cone edge the other way round |
| Playlists.QSongs | playlists.py:87 | `ldist[perpdist == i][ldist <= t].index`: exactly the columns nearest to sample i within threshold t, in column order |
| Playlists.TakeThrough | playlists.py:120-123 | a scan visits a prefix of the candidates that reaches the first stop tag, or all of them when there is none |
| Playlists.RoundList | playlists.py:85-90 | a round's playlist has no duplicates |
| Playlists.ScannedWithin | playlists.py:166-171 | every scanned song lies within the threshold of its nearest sample |
| Playlists.RoundWithinThreshold | playlists.py:117-125 | every song of a round lies within the threshold of its nearest sample |
| Playlists.ConeScanned | playlists.py:86-89 | without a break rule, every column within the edge at its nearest sample is scanned |
| Playlists.ConeScanIs | playlists.py:86-89 | without stop tags, the scans are the concatenation of every sample's candidates |
| Playlists.ConeScanHas | playlists.py:86-89 | such a column is among those candidates |
| Playlists.TakeAll | playlists.py:88-89 | without stop tags a scan visits every candidate |
| Playlists.QSongsHas | playlists.py:87 | a column nearest to sample i within the threshold is a candidate of that sample |
| Playlists.ConeRound | playlists.py:77-90 | a column is in the cone round exactly when it lies within the cone edge at its nearest sample |
| Playlists.TakeThroughStop | playlists.py:120-123 | a scan whose first stop tag is at position k visits exactly the first k + 1 candidates |
| Playlists.StopsAt | playlists.py:122-123 | the break test of each region as written: none for the cone, taga or tagb for the cylinder, tagb for the inverse cone |
| Playlists.ScanSample | playlists.py:166-171 | the inner loop leaves the distinct songs of the earlier scans followed by the songs this scan visits |
| Playlists.ScanOne | playlists.py:169 | `songlist[s] = 0` adds s to the keys only if it is new |
| Playlists.ScanStops | playlists.py:170-171 | a scan that meets a stop tag has visited the candidates up to it |
| Playlists.ScanOn | playlists.py:120-123 | a candidate that is not a stop tag lets the scan go on |
| Playlists.ScanEnds | playlists.py:120-121 | a scan that meets no stop tag visits all its candidates |
| Playlists.Round | playlists.py:117-125 | one round's songlist keys equal the round playlist of the reference definition |
| Playlists.MeasureStep | playlists.py:94 | each retry brings the radius closer to passing the endpoint distance |
| Playlists.Rounds | playlists.py:80-90 | the round at any radius is a playlist without repeats |
| Playlists.Search | playlists.py:80-96 | `make_list`: the result is the round at the final radius, which is at least the starting one |
| Playlists.SearchFacts | playlists.py:91-96 | the result is the round at the final radius; a short list only when that radius exceeds `euclidean(a, b)`. Every radius tried before was ≤ that distance and gave a short list. The radii are 1, 1 + resolution, …, and their number is bounded |
| Playlists.RoundsApply | playlists.py:80 | the round function at radius r is the round playlist at r |
| Playlists.SearchStops | playlists.py:126-127 | once the radius exceeds the endpoint distance or the list is long enough, that round is the result |
| Playlists.SearchContinues | playlists.py:128-129 | otherwise the result is that of the next radius, and the search gets closer to its end |
| Playlists.RegionPlaylist | playlists.py:157-180 | the errors are those of space_maker; otherwise the result is the search from radius 1 over the rounds of that region |
| Playlists.RoundOf | playlists.py:160-172 | one round, as the round function's value at r |
| Playlists.GrowRadius | playlists.py:91-96 | the radius loop returns the playlist the search specifies |
| Naming.First | preprocessing.py:107 | `mdata[key][0]`: KeyError for a missing tag, IndexError for an empty list of values |
| Naming.AlbumArtist | analysis.py:221-224 | `albumartist`, else `artist`; KeyError exactly when both are missing |
| Naming.Fields | analysis.py:230 | `f'{a} - {b} - {c}'`: a, the separator, b, the separator and c, in that order and nothing else |
| Naming.SepSurvives | analysis.py:230-231 | `' - '` survives both clean-ups |
| Naming.CleanFields | analysis.py:230-231 | cleaning the joined tag cleans each field on its own |
| Naming.BackslashKept | analysis.py:231 | the clean-up keeps backslashes |
| Naming.RemoveCharsTwice | ongaku.py:97 | two successive deletions delete the union of the two classes |
| Naming.AfterLastBackslash | analysis.py:98 | `rsplit('\\', 1)[-1]`: a suffix without backslash, preceded by a backslash when shorter than the input |
| Naming.AfterLastBackslashNone | analysis.py:98 | a name without backslash is its own last piece |
| Naming.StripLeading | analysis.py:99 | `^[^a-zA-Z]*` deleted: a suffix starting with a letter (or empty), after only non-letters |
| Naming.TailEnd | analysis.py:100 | where `$` matches after a run of word characters |
| Naming.RunStart | analysis.py:100 | the start of the longest run of word characters ending there |
| Naming.MatchEnd | analysis.py:100 | every match of `.\w*$` ends at that position |
| Naming.FirstMatch | analysis.py:100 | the leftmost match of `.\w*$`, or None exactly when there is no match |
| Naming.DropTail | analysis.py:100 | `re.sub('.\\w*$', '', x)`: the leftmost match is deleted, or x is unchanged |
| Naming.CleanName | ongaku.py:61-64 | the two substitutions only delete: no longer than the input, and every character comes from it |
| Naming.SongNameGen | analysis.py:89-101 | song_name_gen: no longer than the file name, its characters taken from it, and no backslash |
| Naming.AfterLastBackslashOf | preprocessing.py:70 | the last piece of `dir\name` is name |
| Naming.StripLeadingOf | preprocessing.py:71 | leading non-letters go, up to the first letter |
| Naming.DropTailOf | preprocessing.py:72 | `title.ext` loses exactly `.ext` |
| Naming.SongNameOf | analysis.py:98-100 | `dir\lead title.ext` gives `title` (`'Title.flac'` gives `'Title'`) |
| Spectra.Seconds | analysis.py:60 | `len(data) // sr`: the whole seconds s with s·sr ≤ frames < (s + 1)·sr |
| Spectra.WholeSeconds | analysis.py:60 | `len(data) // sr > max_len` exactly when there are at least (max_len + 1)·sr frames |
| Spectra.MakeSpect | analysis.py:55-86 | a RuntimeError at read gives None, another read error escapes; a zero rate is ZeroDivisionError; a song longer than `max_len` whole seconds gives None; ValueError exactly for a method other than 'fourier'/'gamma'; otherwise the gram of the chosen transform |
| Spectra.DurationGuardEdge | preprocessing.py:35-36 | a song one frame short of `max_len + 1` seconds is converted; one at exactly that length gives None |
| Analysis.Album | analysis.py:217-220 | the album, `'Unknown Album'` when missing |
| Analysis.Title | analysis.py:225-228 | the title without `\` and `/`, `'Unknown Track'` when missing |
| Analysis.CorpusTag | analysis.py:207-232 | fails exactly when a lookup fails, with the error of the first failing lookup (album, artist, title); the tag holds none of the characters `?*:"<>/` or the vertical bar |
| Analysis.CorpusTagFields | analysis.py:230-231 | the tag is the three cleaned fields joined by `' - '` |
| Analysis.TitleCleaned | analysis.py:226 | the title in the tag has both slash kinds and the forbidden file-name characters removed |
| Analysis.TitleNoBackslash | analysis.py:226 | the title never keeps a backslash |
| Analysis.BackslashSurvives | analysis.py:226-231 | the tag holds a backslash exactly when the artist or the album does |
| Analysis.MissingArtist | analysis.py:221-224 | with neither albumartist nor artist the KeyError escapes |
| Analysis.Cepstrum | analysis.py:152 | `make_spect(song_loc, method='gamma', height=16)`: on a read file only ZeroDivisionError or IndexError, never ValueError; None exactly past 1080 whole seconds; a gram is the 16-band gammatone gram of the song |
| Analysis.CacheFile | analysis.py:149-150 | `f'{locale}{tag}.pkl'` with the forbidden file-name characters (`?*:"<>/` and the vertical bar) deleted: no longer than the joined path; exactly its characters outside that class |
| Analysis.StoreStep | analysis.py:136-157 | a tag error escapes with nothing written; None (`Cached`) exactly when the cache file exists. Otherwise the song is extracted: None gives False with nothing written, a gram writes the file and returns the tag, an error of make_spect escapes with nothing written |
| Analysis.StoreStepAdds | analysis.py:151-157 | no file is removed or rewritten; the tag's file, holding the gram, is added exactly when the tag is returned |
| Analysis.StoreStepExtracts | analysis.py:151-152 | a song is extracted exactly when its cache file does not exist |
| Analysis.StoreStepTwice | analysis.py:151-157 | after storing, a second run does nothing; after a failure (False) a second run repeats it |
| Analysis.GtAndStore | analysis.py:136-157 | the method's result and its new cache state are those of the step |
| Analysis.Truthy | analysis.py:258 | `if tag:` on a gt_and_store result: None and False are false; a tag is true exactly when it is non-empty |
| Analysis.LocationKey | analysis.py:258-261 | a truthy tag is the key; otherwise the tag is generated again |
| Analysis.TagList | analysis.py:254-255 | `[None] * len(lib)` when no tags are given |
| Analysis.Locations | analysis.py:257-261 | the merged dictionary keeps its keys distinct |
| Analysis.LocationsGet | analysis.py:254-261 | a key maps to the song of the last pair stored under it, else to its prior entry |
| Analysis.LocationsErr | analysis.py:257-261 | the merge fails exactly when generating the key of some pair fails |
| Analysis.LocationsStayErr | analysis.py:257-261 | once a pair fails, every longer merge fails with the same error |
| Analysis.LocationFile.constructor | analysis.py:247-252 | the saved dictionary, if any |
| Analysis.LocationFile.Prior | analysis.py:247-252 | the saved dictionary, empty when there is none |
| Analysis.Merge | analysis.py:257-261 | the loop computes the merge of the reference definition |
| Analysis.CreateLocationDictionary | analysis.py:235-264 | on success the file holds the merge of the prior dictionary with the pairs of `zip(lib, tags)`; on failure no dictionary is saved: the file was removed, or it stays empty if it was empty (`saved` is None for a missing or empty file) |
| Cache.CacheDir.constructor | analysis.py:151 | a directory with the given files and no extractions |
| Cache.CacheDir.Exists | analysis.py:151 | `os.path.exists`: the file is present |
| Cache.CacheDir.Extract | analysis.py:152 | records the extraction and changes no file |
| Cache.CacheDir.Write | analysis.py:155-156 | creates or replaces exactly that file |
| Preprocessing.FileName | preprocessing.py:106-114 | fails exactly when the album, artist or title lookup fails (no fallbacks but the artist), with the first error; the path holds none of the characters `?*:"<>/` or the vertical bar |
| Preprocessing.NoFallbacks | preprocessing.py:107-112 | a missing album or title is a KeyError |
| Preprocessing.FileNameParts | preprocessing.py:112-114 | the locale, each field and the suffix are cleaned separately; the title also loses its slashes |
| Preprocessing.PklSurvives | preprocessing.py:113-114 | ".pkl" survives the clean-up |
| Preprocessing.SameCacheFile | preprocessing.py:112-114 | with every tag present, the path is the one analysis.py caches the song under |
| Preprocessing.Cepstrum | preprocessing.py:116 | the same call with the 1800-second limit: on a read file only ZeroDivisionError or IndexError; None exactly past 1800 whole seconds; a gram is the 16-band gammatone gram |
| Preprocessing.StoreStep | preprocessing.py:106-119 | a file-name lookup error escapes; an existing file gives a normal return and nothing else; a song is extracted exactly when its file is missing, and then the result is written, None included, or an error escapes before the write |
| Preprocessing.FailureCached | preprocessing.py:116-119 | a song that is too long is cached as None and never retried |
| Preprocessing.StoreStepTwice | preprocessing.py:115-119 | a second run after a successful one changes nothing |
| Preprocessing.GtAndStore | preprocessing.py:98-119 | the method's result and its new cache state are those of the step |
| Ongaku.MakeSpect | ongaku.py:18-50 | read errors escape; only 'gamma' on a two-channel array gives a gram; 'fourier' raises ValueError on a two-channel file; 'fourier' and 'gamma' raise IndexError on a one-channel file; any other method raises ValueError |
| Ongaku.FourierRejected | ongaku.py:35-49 | the 'fourier' method never gives a spectrogram |
| Ongaku.MakeSpectElif | ongaku.py:35-50 | the corrected dispatch gives the spectrogram for 'fourier' and the gammatone gram for 'gamma' |
| Ongaku.ElifAgrees | ongaku.py:43-49 | the correction changes only the 'fourier' method |
| Ongaku.ElifMatchesLater | analysis.py:66-82 | within the length limit, the corrected dispatch behaves like the later make_spect |
| Ongaku.NoGuard | ongaku.py:31 | no duration guard and no read-failure handling: a read error escapes, and a long song is converted where the later version returns None |
| Ongaku.Song.Name | ongaku.py:60-64 | the `name` property only deletes characters of the stored name |
| Ongaku.NameAgrees | ongaku.py:61-71 | song_name_gen is `Song.name` of the last backslash piece; the two agree on names without backslash |
| Ongaku.NameOf | ongaku.py:61-64 | `lead title.ext` is named `title` |
| Ongaku.FileName | ongaku.py:91-98 | fails exactly when a lookup fails, with the first error; only the artist falls back |
| Ongaku.FileNameLayout | ongaku.py:97-98 | `locale + '{albumartist} - {album} - {name}.pkl'` with only the title's slashes removed |
| Ongaku.KeepsOtherChars | ongaku.py:97-98 | no other character is stripped |
| Ongaku.LaterNameCleansThis | preprocessing.py:113-114 | the later name is this one with the forbidden file-name characters deleted |
| Ongaku.CepstrumAsWritten | ongaku.py:100 | gt_and_store asks only for 'gamma', so the corrected dispatch would give the same result |
| Ongaku.Cepstrum | ongaku.py:100 | `make_spect(song_loc, method='gamma', height=32)`: a gram exactly for a two-channel read, the 32-band gammatone gram; IndexError for a one-channel file |
| Ongaku.StoreStep | ongaku.py:90-102 | a file-name lookup error escapes; an existing file gives a normal return and nothing else; a song is extracted exactly when its file is missing; the gram is written; an error escapes before the write |
| Ongaku.StoreStepWritesGram | ongaku.py:100-102 | every written file holds the song's gram |
| Ongaku.StoreStepTwice | ongaku.py:99-102 | a second run after a successful one changes nothing |
| Ongaku.GtAndStore | ongaku.py:90-102 | the method's result and its new cache state are those of the step |
| Metrics.Labels | metrics.py:52 | piece k of each column name, in column order; IndexError exactly when some name has too few pieces |
| Metrics.Indices | metrics.py:56-58 | exactly the positions labelled with the key, ascending |
| Metrics.MembersAreIndices | metrics.py:54-59 | a group is the columns of exactly those positions, in column order |
| Metrics.Grouping | metrics.py:122-130 | the grouping succeeds exactly when the labels do |
| Metrics.GroupingFails | source/metrics.py:74-81 | it fails exactly when a column name has too few pieces, with IndexError |
| Metrics.GroupKeys | metrics.py:52 | the keys are the distinct labels, strictly ascending |
| Metrics.GroupMembers | source/metrics.py:36-41 | each group holds exactly the columns with its label, in column order |
| Metrics.Partition | metrics.py:54-59 | every column lies in the group of its label and in no other |
| Metrics.ArtistsNeverFail | source/metrics.py:34 | grouping by artist never fails |
| Metrics.AlbumsNeedSeparator | metrics.py:122 | a column name without `' - '` makes grouping by album an IndexError |
| Metrics.CollectSongs | metrics.py:55-58 | the inner loop collects the group of the key |
| Metrics.ComputeLabels | metrics.py:52 | the list comprehension computes the labels |
| Metrics.StoreNext | metrics.py:59 | storing the next sorted key extends the dictionary by that entry |
| Metrics.GroupBy | metrics.py:45-60 | the nested loops compute the reference grouping |
| Metrics.GroupArtists | metrics.py:45-60 | group_artists is the grouping by piece 0, which never fails |
| Metrics.GroupAlbums | metrics.py:115-130 | group_albums is the grouping by piece 1; IndexError exactly when a name has no separator |
| Metrics.SplitOnePiece | source/metrics.py:74 | a name is one piece exactly when it has no separator |
| Metrics.PerGroup | metrics.py:107-112 | one statistic per group, under the group's key, in order |
| Metrics.Average | metrics.py:148-155 | the average exists exactly when the grouping succeeds |
| Metrics.AlbumAverageFails | metrics.py:115-130 | an average over albums fails exactly when some column name has no `' - '`, and then with IndexError |
| Metrics.AvgAlbumXdsd | metrics.py:148-155 | avg_album_xdsd fails exactly when some column name has no `' - '`, with IndexError |
| Metrics.AvgArtistXdsdAsWritten | metrics.py:158-165 | avg_artist_xdsd as written fails exactly like the album average |
| Metrics.AvgArtistXdsd | metrics.py:158-164 | the average across artists its docstring describes never fails |
| Metrics.AvgMetric | metrics.py:78-97 | avg_artist_metric never fails; avg_album_metric fails exactly when some column name has no `' - '`, with IndexError |
| Metrics.ArtistXdsdIsAlbumXdsd | metrics.py:158-165 | as written, avg_artist_xdsd equals avg_album_xdsd on every input |
| Metrics.ArtistXdsdAsWrittenFails | source/metrics.py:98-99 | as written, avg_artist_xdsd fails on a name without separator, though artist grouping cannot fail |
| Metrics.ArtistXdsdOverArtists | metrics.py:133-145 | the corrected average is the mean of artist_xdsd over the artist groups |
| Metrics.MetricWiring | metrics.py:78-97 | avg_artist_metric is the mean of the metric over the artist groups; avg_album_metric, when the album grouping succeeds, the mean over the album groups |
| Metrics.Pairs | metrics.py:238-239 | `zip(corp, xformd_songlist)`: no longer than either list, with the keys in order |
| Metrics.PairsPositional | metrics.py:177-179 | `zip` pairs the i-th key with the i-th row and stops at the shorter list |
| Metrics.Manifold | metrics.py:223-225 | the loop builds the positional pairing, with distinct keys |
| Metrics.PairedFails | metrics.py:238-240 | the paired manifold lacks an album piece exactly when one of the paired tags does |
| Metrics.AlbumXdsdScore | metrics.py:215-227 | album_xdsd_score fails, with IndexError, exactly when one of the tags zip pairs with a row has no `' - '` |
| Metrics.ArtistXdsdScore | metrics.py:230-242 | artist_xdsd_score as written fails exactly the same way |
| Metrics.ScoresCoincide | source/metrics.py:134-147 | the two xdsd scores coincide as written; only the first min(keys, rows) songs are paired |

## Left out

- The audio transforms (`sf.read`, `signal.spectrogram`, `gt.gtgram`, `10 * np.log10`): floating-point library code. A read succeeds, as an `Audio` value, or fails with an error. The grams are uninterpreted values.
- `mutagen.File`: the metadata of a file is a parameter. The model does not cover its returning None for an unknown file type, nor its case handling of tag names.
- The pool in `preprocess`, and `preprocess` itself: the point of both is concurrency. `gt_and_store` is modelled as one sequential step on the cache.
- Directory walking (`library_addition`, `library_from_regex`, `os.listdir`, `TEST_REGEX`): file-system plumbing. `load_corpus` takes the listing as (file name, unpickled content) pairs. That means the model does not capture its reading from `'cepstra\\'` whatever `loc` is, nor its `precompiled` branch.
- Pickle loading and dumping, `os.path.exists` and `os.remove`: the cache files are state of the `CacheDir` class, and `../locations.pkl` is state of the `LocationFile` class.
- Learning.LoadCorpus: the dump of the filtered corpus to `../corpus.pkl` (learning.py:38-39) and the `precompiled` branch that reads it back (learning.py:30-32) are not modelled. No file is written, and the model always builds the corpus from the listed cache files.
- `make_manifold`, `create_tag_dict`, `load_tag_dict`: sklearn fitting and pickle I/O.
- `generate_m3u` and the `make_*_playlist` and `make_*_plist` wrappers: file writing and printing.
- The float statistics (`std`, `pdist`, `log`, `nanmean`), `euclidean` and `cdist`: they are function parameters.
- The scorers (`*_scorer`), which call `estimator.transform` and `load_corpus`: the score helpers take the transformed rows as a parameter.
- Timing, `metrics` and `verbose` printing, plotting, `setup.py`.
- Playlists.RegionPlaylist: takes `resolution > 0`. With `resolution <= 0` the source recurses until Python's recursion limit; the model does not cover that. Nor does it cover the RecursionError when the search needs more rounds than that limit allows (about 1000 nested `make_list` calls, for instance `resolution = 0.001` with the two songs 2 apart and `min_len` never reached): the model returns the round at the final radius. The limit depends on the interpreter's stack at the call, so it is not a constant of the program.
- Playlists.SpaceMaker: treats `line_res == 0` as ValueError. With no samples `d.min()` gives NaN per column, and it is `d.idxmin()` (playlists.py:144) that raises ValueError. A negative even `line_res` is also a ValueError, from `np.linspace`.
- Playlists.NSmallest: a stable selection, ties in column order. pandas keeps that order with `keep='first'` when `length` is smaller than the number of songs; otherwise `nsmallest` sorts with the default quicksort, which does not promise an order among ties.
- Learning.CropOne and Learning.CroppedCorpus: take `tar_len` as a natural number. A negative `tar_len`, which Python accepts and turns into empty or reversed slice bounds, is not modelled. The default is 90, and the one call, at learning.py:171, passes 120.
- Naming.WordChar: `\w` is ASCII letters, digits and `_`. Python's Unicode word characters are not modelled.
- Learning: NumPy's float cells are real numbers plus −inf, +inf and NaN. Rounding is not modelled.
- Spectra.MakeSpect: `data[:, 0]` on a one-channel file is an IndexError. The transforms' own errors are not modelled.

## Findings

| source | as written | input that shows it | evidently intended | confidence | as-written member | corrected member |
|---|---|---|---|---|---|---|
| ongaku.py:43 | the second method test is a plain `if`, so after the 'fourier' branch the `else` raises ValueError | `make_spect(f, method='fourier')` on a readable two-channel file | `elif`, as in analysis.py:75, so that 'fourier' returns the spectrogram | not executed | Ongaku.FourierRejected | Ongaku.MakeSpectElif |
| metrics.py:165 | `avg_artist_xdsd` calls `album_xdsd`, so it averages over albums | a manifold with a column name without `' - '`: it raises IndexError, though grouping by artist cannot fail | `artist_xdsd(mdf)`, the mean over artists its name and docstring describe | not executed | Metrics.ArtistXdsdAsWrittenFails | Metrics.ArtistXdsdOverArtists |
| source/metrics.py:99 | the same call of `album_xdsd` | as above | `artist_xdsd(mdf)` | not executed | Metrics.ArtistXdsdIsAlbumXdsd | Metrics.ArtistXdsdOverArtists |
