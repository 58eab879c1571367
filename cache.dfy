/**
 * The directory the extraction scripts pickle their grams into. A file
 * holds either a gram or, where a script pickles a failed extraction, None.
 */
module Cache {
  import opened Wrappers
  import opened Spectra

  /** File name to pickled content. */
  type Files = map<string, Option<Gram>>

  class CacheDir {
    /** The files present in the directory. */
    var files: Files
    /** The songs whose extraction has been started, in order. */
    ghost var extractions: seq<string>

    constructor (initial: Files)
      ensures files == initial && extractions == []
    {
      files := initial;
      extractions := [];
    }

    /** `os.path.exists(name)`. */
    function Exists(name: string): (b: bool)
      reads this
      ensures b <==> name in files
    {
      name in files
    }

    /** Record that the song at `songLoc` is being read and transformed. */
    method Extract(songLoc: string)
      modifies this
      ensures files == old(files) && extractions == old(extractions) + [songLoc]
    {
      extractions := extractions + [songLoc];
    }

    /** `open(name, 'wb+')` and `pickle.dump(content, f)`: create or replace the file. */
    method Write(name: string, content: Option<Gram>)
      modifies this
      ensures files == old(files)[name := content] && extractions == old(extractions)
    {
      files := files[name := content];
    }
  }
}
