/**
 * `make_spect` of the extraction scripts, reduced to its control flow: the
 * audio read, the duration guard and the dispatch on the method name. The
 * transforms themselves (the spectrogram, the gammatone filter bank and the
 * decibel scaling) stay abstract: a `Gram` records which transform was
 * applied to which audio with which arguments.
 */
module Spectra {
  import opened Wrappers

  /**
   * What `soundfile.read` yields: `frames` samples per channel at `rate`
   * samples per second. A single-channel file is read as a one-dimensional
   * array, on which `data[:, 0]` raises IndexError.
   */
  datatype Audio = Audio(path: string, frames: nat, rate: nat, channels: nat)

  /** `10 * log10` of a spectrogram, or of a gammatone gram with its window, hop, channel count and lowest frequency. */
  datatype Gram =
    | Spectrogram(audio: Audio)
    | Gammatone(audio: Audio, window: int, hop: int, bands: int, fmin: int)

  /** The default `max_len` of analysis.py, in seconds. */
  const AnalysisMaxLen: int := 1080

  /** The default `max_len` of preprocessing.py, in seconds. */
  const PreprocessingMaxLen: int := 1800

  /** The lowest gammatone frequency both versions pass to `gtgram`. */
  const GammaFmin: int := 20

  /** `data[:, 0]` needs a two-dimensional array. */
  predicate HasColumns(a: Audio)
  {
    a.channels > 1
  }

  /** `len(data) // sr`: the length in whole seconds, rounded down. */
  function Seconds(a: Audio): (s: nat)
    requires a.rate > 0
    ensures s * a.rate <= a.frames < (s + 1) * a.rate
  {
    a.frames / a.rate
  }

  /** `len(data) // sr > max_len` in whole seconds is `frames >= (max_len + 1) * rate`. */
  lemma WholeSeconds(frames: nat, rate: nat, maxLen: int)
    requires rate > 0
    ensures frames / rate > maxLen <==> frames >= (maxLen + 1) * rate
  {
    var q := frames / rate;
    assert frames == q * rate + frames % rate;
    if q > maxLen {
      MulLe(maxLen + 1, q, rate);
    } else {
      MulLe(q + 1, maxLen + 1, rate);
      assert (q + 1) * rate == q * rate + rate;
    }
  }

  lemma {:induction false} MulLe(a: int, b: int, c: nat)
    requires a <= b
    ensures a * c <= b * c
  {
    if c > 0 {
      MulLe(a, b, c - 1);
      assert a * c == a * (c - 1) + a;
      assert b * c == b * (c - 1) + b;
    }
  }

  /**
   * make_spect of analysis.py and preprocessing.py: a RuntimeError of the
   * reader gives None, other reader errors escape; a song of more than
   * `maxLen` whole seconds gives None; `'fourier'` and `'gamma'` pick the
   * transform, any other method raises ValueError; a one-channel file
   * fails with IndexError once a transform is picked.
   */
  function MakeSpect(read: Result<Audio>, kind: string, height: int, interval: int, maxLen: int): (r: Result<Option<Gram>>)
    ensures read.Err? ==> r == (if read.error == RuntimeError then Ok(None) else Err(read.error))
    ensures read.Ok? && read.value.rate > 0 ==>
      (r == Ok(None) <==> Seconds(read.value) > maxLen)
    ensures read.Ok? && read.value.rate == 0 ==> r == Err(ZeroDivisionError)
    ensures read.Ok? ==> (r == Err(ValueError) <==>
      read.value.rate > 0 && Seconds(read.value) <= maxLen
      && kind != "fourier" && kind != "gamma")
    ensures read.Ok? && read.value.rate > 0 && Seconds(read.value) <= maxLen && (kind == "fourier" || kind == "gamma") ==>
      r.Err? != HasColumns(read.value) && (r.Err? ==> r.error == IndexError)
    ensures r.Ok? && r.value.Some? ==>
      read.Ok? && HasColumns(read.value) && r.value.value.audio == read.value
      && (kind == "fourier" ==> r.value.value == Spectrogram(read.value))
      && (kind == "gamma" ==> r.value.value == Gammatone(read.value, interval, interval, height, GammaFmin))
      && (kind == "fourier" || kind == "gamma")
  {
    match read
    case Err(e) => if e == RuntimeError then Ok(None) else Err(e)
    case Ok(a) =>
      if a.rate == 0 then Err(ZeroDivisionError)
      else if Seconds(a) > maxLen then Ok(None)
        else if kind == "fourier" then
          if HasColumns(a) then Ok(Some(Spectrogram(a))) else Err(IndexError)
        else if kind == "gamma" then
          if HasColumns(a) then Ok(Some(Gammatone(a, interval, interval, height, GammaFmin))) else Err(IndexError)
        else Err(ValueError)
  }

  /** A song just under one second past the limit still passes the guard; one at the limit plus one second does not. */
  lemma DurationGuardEdge(path: string, rate: nat, channels: nat, maxLen: nat)
    requires rate > 0 && channels > 1
    ensures MakeSpect(Ok(Audio(path, (maxLen + 1) * rate - 1, rate, channels)), "gamma", 16, 1, maxLen).Ok?
    ensures MakeSpect(Ok(Audio(path, (maxLen + 1) * rate - 1, rate, channels)), "gamma", 16, 1, maxLen).value.Some?
    ensures MakeSpect(Ok(Audio(path, (maxLen + 1) * rate, rate, channels)), "gamma", 16, 1, maxLen) == Ok(None)
  {
    assert (maxLen + 1) * rate >= rate;
    WholeSeconds((maxLen + 1) * rate - 1, rate, maxLen);
    WholeSeconds((maxLen + 1) * rate, rate, maxLen);
  }
}
