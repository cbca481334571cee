/**
 * The model downloader (download_models.py): its own catalog `MODELS` of
 * download URLs, the target file name taken from the URL, the download
 * progress percentage, and `download_model`, which changes the model
 * directory.
 *
 * The network fetch is an input (`Fetch`): it succeeds, or it raises after
 * having written a partial file or not. Console output is left out.
 */
module Downloader {
  import opened Common
  import Catalog

  /** The common prefix of every download URL. */
  const Repository := "https://huggingface.co/ggerganov/whisper.cpp/resolve/main/"

  /** One entry of `MODELS`: the model's name and its download URL. */
  datatype DownloadEntry = DownloadEntry(name: string, url: string)

  /** `MODELS`, in declaration order. */
  const Downloads: seq<DownloadEntry> := [
    DownloadEntry("tiny", Repository + "ggml-tiny.bin"),
    DownloadEntry("tiny.en", Repository + "ggml-tiny.en.bin"),
    DownloadEntry("base", Repository + "ggml-base.bin"),
    DownloadEntry("base.en", Repository + "ggml-base.en.bin"),
    DownloadEntry("small", Repository + "ggml-small.bin"),
    DownloadEntry("small.en", Repository + "ggml-small.en.bin"),
    DownloadEntry("medium", Repository + "ggml-medium.bin"),
    DownloadEntry("medium.en", Repository + "ggml-medium.en.bin"),
    DownloadEntry("large-v1", Repository + "ggml-large-v1.bin"),
    DownloadEntry("large-v2", Repository + "ggml-large-v2.bin"),
    DownloadEntry("large-v3", Repository + "ggml-large-v3.bin"),
    DownloadEntry("large-v3-turbo", Repository + "ggml-large-v3-turbo.bin")
  ]

  /**
   * `os.path.basename`: the text after the last "/" (all of it when there
   * is no "/").
   */
  function Basename(path: string): (r: string)
    ensures |r| <= |path| && r == path[|path| - |r|..]
    ensures '/' !in r
    ensures |r| < |path| ==> path[|path| - |r| - 1] == '/'
  {
    if path == [] || path[|path| - 1] == '/' then []
    else Basename(path[..|path| - 1]) + [path[|path| - 1]]
  }

  /** The base name of a file name under a directory prefix ending in "/" is the file name. */
  lemma {:induction false} BasenameUnder(dir: string, file: string)
    requires dir != [] && dir[|dir| - 1] == '/'
    requires '/' !in file
    ensures Basename(dir + file) == file
  {
    if file == [] {
      assert dir + file == dir;
    } else {
      var init := file[..|file| - 1];
      assert (dir + file)[..|dir + file| - 1] == dir + init;
      BasenameUnder(dir, init);
    }
  }

  /** The key check of `download_model` and `MODELS[name]["url"]`: no URL when the name is not a key. */
  function DownloadUrl(entries: seq<DownloadEntry>, name: string): (r: Option<string>)
    ensures r.None? <==> forall i :: 0 <= i < |entries| ==> entries[i].name != name
  {
    if entries == [] then None
    else if entries[0].name == name then Some(entries[0].url)
    else DownloadUrl(entries[1..], name)
  }

  /** The file `download_model` writes for a model: the base name of its URL. */
  function TargetFile(name: string): (r: Option<string>)
    ensures r.None? <==> forall i :: 0 <= i < |Downloads| ==> Downloads[i].name != name
    ensures r.Some? ==> '/' !in r.value
  {
    match DownloadUrl(Downloads, name)
    case None => None
    case Some(url) => Some(Basename(url))
  }

  /**
   * The two catalogs agree: the same names in the same order, and the base
   * name of each download URL is the weight file the server looks for.
   */
  lemma CatalogsAgree()
    ensures |Downloads| == |Catalog.Models|
    ensures forall i :: 0 <= i < |Downloads| ==>
              Downloads[i].name == Catalog.Models[i].name &&
              Basename(Downloads[i].url) == Catalog.Models[i].file
  {
    forall i | 0 <= i < |Downloads|
      ensures Downloads[i].name == Catalog.Models[i].name
      ensures Basename(Downloads[i].url) == Catalog.Models[i].file
    {
      EntryBasename(i);
    }
  }

  /** The names of the two catalogs agree position by position. */
  lemma NamesAgree()
    ensures |Downloads| == |Catalog.Models|
    ensures forall i :: 0 <= i < |Downloads| ==> Downloads[i].name == Catalog.Models[i].name
  {
    forall i | 0 <= i < |Downloads|
      ensures Downloads[i].name == Catalog.Models[i].name
    {
      EntryAgrees(i);
    }
  }

  /** The base name of the i-th download URL is the i-th weight file of the server's catalog. */
  lemma EntryBasename(i: nat)
    requires i < |Catalog.Models|
    ensures i < |Downloads| && Downloads[i].name == Catalog.Models[i].name
    ensures Basename(Downloads[i].url) == Catalog.Models[i].file
  {
    EntryAgrees(i);
    BasenameUnder(Repository, Catalog.Models[i].file);
  }

  /**
   * Entry by entry: the same name, a URL made of the repository prefix and
   * the server's file name, and a file name without "/".
   *
   * The two catalogs are separate literals in app.py and download_models.py,
   * so that they agree is a fact about twelve pairs of string constants.
   * Comparing all of them in one proof makes the solver case-split over the
   * twelve positions and unfold every literal at once, which does not fit
   * the resource limit; the lemmas below check one pair each, and this one
   * picks the lemma for position `i`.
   */
  lemma EntryAgrees(i: nat)
    requires i < |Catalog.Models|
    ensures i < |Downloads| && Downloads[i].name == Catalog.Models[i].name
    ensures Downloads[i].url == Repository + Catalog.Models[i].file
    ensures '/' !in Catalog.Models[i].file
  {
    if i == 0 { TinyAgrees(); }
    else if i == 1 { TinyEnAgrees(); }
    else if i == 2 { BaseAgrees(); }
    else if i == 3 { BaseEnAgrees(); }
    else if i == 4 { SmallAgrees(); }
    else if i == 5 { SmallEnAgrees(); }
    else if i == 6 { MediumAgrees(); }
    else if i == 7 { MediumEnAgrees(); }
    else if i == 8 { LargeV1Agrees(); }
    else if i == 9 { LargeV2Agrees(); }
    else if i == 10 { LargeV3Agrees(); }
    else { LargeV3TurboAgrees(); }
  }

  lemma TinyAgrees()
    ensures Downloads[0].name == Catalog.Models[0].name
    ensures Downloads[0].url == Repository + Catalog.Models[0].file
    ensures '/' !in Catalog.Models[0].file
  {
    assert Catalog.Models[0] == Catalog.ModelInfo("tiny", "ggml-tiny.bin");
    assert Downloads[0] == DownloadEntry("tiny", Repository + "ggml-tiny.bin");
  }

  lemma TinyEnAgrees()
    ensures Downloads[1].name == Catalog.Models[1].name
    ensures Downloads[1].url == Repository + Catalog.Models[1].file
    ensures '/' !in Catalog.Models[1].file
  {
    assert Catalog.Models[1] == Catalog.ModelInfo("tiny.en", "ggml-tiny.en.bin");
    assert Downloads[1] == DownloadEntry("tiny.en", Repository + "ggml-tiny.en.bin");
  }

  lemma BaseAgrees()
    ensures Downloads[2].name == Catalog.Models[2].name
    ensures Downloads[2].url == Repository + Catalog.Models[2].file
    ensures '/' !in Catalog.Models[2].file
  {
    assert Catalog.Models[2] == Catalog.ModelInfo("base", "ggml-base.bin");
    assert Downloads[2] == DownloadEntry("base", Repository + "ggml-base.bin");
  }

  lemma BaseEnAgrees()
    ensures Downloads[3].name == Catalog.Models[3].name
    ensures Downloads[3].url == Repository + Catalog.Models[3].file
    ensures '/' !in Catalog.Models[3].file
  {
    assert Catalog.Models[3] == Catalog.ModelInfo("base.en", "ggml-base.en.bin");
    assert Downloads[3] == DownloadEntry("base.en", Repository + "ggml-base.en.bin");
  }

  lemma SmallAgrees()
    ensures Downloads[4].name == Catalog.Models[4].name
    ensures Downloads[4].url == Repository + Catalog.Models[4].file
    ensures '/' !in Catalog.Models[4].file
  {
    assert Catalog.Models[4] == Catalog.ModelInfo("small", "ggml-small.bin");
    assert Downloads[4] == DownloadEntry("small", Repository + "ggml-small.bin");
  }

  lemma SmallEnAgrees()
    ensures Downloads[5].name == Catalog.Models[5].name
    ensures Downloads[5].url == Repository + Catalog.Models[5].file
    ensures '/' !in Catalog.Models[5].file
  {
    assert Catalog.Models[5] == Catalog.ModelInfo("small.en", "ggml-small.en.bin");
    assert Downloads[5] == DownloadEntry("small.en", Repository + "ggml-small.en.bin");
  }

  lemma MediumAgrees()
    ensures Downloads[6].name == Catalog.Models[6].name
    ensures Downloads[6].url == Repository + Catalog.Models[6].file
    ensures '/' !in Catalog.Models[6].file
  {
    assert Catalog.Models[6] == Catalog.ModelInfo("medium", "ggml-medium.bin");
    assert Downloads[6] == DownloadEntry("medium", Repository + "ggml-medium.bin");
  }

  lemma MediumEnAgrees()
    ensures Downloads[7].name == Catalog.Models[7].name
    ensures Downloads[7].url == Repository + Catalog.Models[7].file
    ensures '/' !in Catalog.Models[7].file
  {
    assert Catalog.Models[7] == Catalog.ModelInfo("medium.en", "ggml-medium.en.bin");
    assert Downloads[7] == DownloadEntry("medium.en", Repository + "ggml-medium.en.bin");
  }

  lemma LargeV1Agrees()
    ensures Downloads[8].name == Catalog.Models[8].name
    ensures Downloads[8].url == Repository + Catalog.Models[8].file
    ensures '/' !in Catalog.Models[8].file
  {
    assert Catalog.Models[8] == Catalog.ModelInfo("large-v1", "ggml-large-v1.bin");
    assert Downloads[8] == DownloadEntry("large-v1", Repository + "ggml-large-v1.bin");
  }

  lemma LargeV2Agrees()
    ensures Downloads[9].name == Catalog.Models[9].name
    ensures Downloads[9].url == Repository + Catalog.Models[9].file
    ensures '/' !in Catalog.Models[9].file
  {
    assert Catalog.Models[9] == Catalog.ModelInfo("large-v2", "ggml-large-v2.bin");
    assert Downloads[9] == DownloadEntry("large-v2", Repository + "ggml-large-v2.bin");
  }

  lemma LargeV3Agrees()
    ensures Downloads[10].name == Catalog.Models[10].name
    ensures Downloads[10].url == Repository + Catalog.Models[10].file
    ensures '/' !in Catalog.Models[10].file
  {
    assert Catalog.Models[10] == Catalog.ModelInfo("large-v3", "ggml-large-v3.bin");
    assert Downloads[10] == DownloadEntry("large-v3", Repository + "ggml-large-v3.bin");
  }

  lemma LargeV3TurboAgrees()
    ensures Downloads[11].name == Catalog.Models[11].name
    ensures Downloads[11].url == Repository + Catalog.Models[11].file
    ensures '/' !in Catalog.Models[11].file
  {
    assert Catalog.Models[11] == Catalog.ModelInfo("large-v3-turbo", "ggml-large-v3-turbo.bin");
    assert Downloads[11] == DownloadEntry("large-v3-turbo", Repository + "ggml-large-v3-turbo.bin");
  }

  /**
   * Over two lists whose names agree position by position, the URL lookup of
   * the downloader and `WHISPER_CPP_MODELS.get` succeed for the same names,
   * and both take the entry at the same position `k`.
   */
  lemma {:induction false} LookupsAligned(entries: seq<DownloadEntry>, models: seq<Catalog.ModelInfo>, name: string)
    returns (k: nat)
    requires |entries| == |models|
    requires forall i :: 0 <= i < |entries| ==> entries[i].name == models[i].name
    ensures DownloadUrl(entries, name).None? <==> Catalog.LookupIn(models, name).None?
    ensures DownloadUrl(entries, name).Some? ==>
              k < |entries| && DownloadUrl(entries, name) == Some(entries[k].url) &&
              Catalog.LookupIn(models, name) == Some(models[k])
  {
    if entries == [] {
      k := 0;
    } else if entries[0].name == name {
      k := 0;
    } else {
      var rest := LookupsAligned(entries[1..], models[1..], name);
      k := rest + 1;
    }
  }

  /**
   * A name is downloadable exactly when the server knows it, and the file
   * downloaded for it is the file the server checks for.
   */
  lemma TargetIsCatalogFile(name: string)
    ensures TargetFile(name).Some? <==> Catalog.Known(name)
    ensures TargetFile(name).Some? ==> TargetFile(name).value == Catalog.Lookup(name).value.file
  {
    NamesAgree();
    var k := LookupsAligned(Downloads, Catalog.Models, name);
    if DownloadUrl(Downloads, name).Some? {
      EntryBasename(k);
    }
  }

  /**
   * The percentage `progress_hook` writes to the console: reported only when the total size
   * is known (positive), then floor(count * blockSize * 100 / totalSize),
   * which is never negative and is not capped at 100.
   */
  function Percent(count: nat, blockSize: nat, totalSize: int): (r: Option<nat>)
    ensures r.Some? <==> totalSize > 0
    ensures r.Some? ==> r.value * totalSize <= count * blockSize * 100 < (r.value + 1) * totalSize
  {
    if totalSize > 0 then Some(count * blockSize * 100 / totalSize) else None
  }

  /** The last block can overshoot the total: the percentage then exceeds 100. */
  lemma PercentNotClamped()
    ensures Percent(11, 10, 100) == Some(110)
  {
  }

  /** What the network fetch does. */
  datatype Fetch =
    | Fetched                         // `urlretrieve` completed
    | FetchFailed(partial: bool)      // it raised an `Exception`, after writing a partial file or not
    | Interrupted(partial: bool)      // `KeyboardInterrupt` or `SystemExit`, which `except Exception` lets through

  /** The model directory, as the set of file names in it. */
  class ModelDirectory {
    var files: set<string>

    constructor (initial: set<string>)
      ensures files == initial
    {
      files := initial;
    }

    /**
     * `download_model`: refuse unknown names; succeed at once when the file
     * is already there; otherwise fetch it, and when the fetch raises an
     * `Exception` remove whatever partial file it left. An interrupt is not
     * an `Exception`: it leaves `download_model` without running the clean-up
     * and without returning anything, which `ok == false` stands for here,
     * and a partial file stays in the directory.
     */
    method DownloadModel(name: string, fetch: Fetch) returns (ok: bool)
      modifies this
      ensures TargetFile(name).None? ==> !ok && files == old(files)
      ensures TargetFile(name).Some? && TargetFile(name).value in old(files) ==> ok && files == old(files)
      ensures TargetFile(name).Some? && TargetFile(name).value !in old(files) ==> ok == fetch.Fetched?
      ensures TargetFile(name).Some? && TargetFile(name).value !in old(files) && fetch.Fetched? ==>
                files == old(files) + {TargetFile(name).value}
      ensures TargetFile(name).Some? && TargetFile(name).value !in old(files) && fetch.FetchFailed? ==>
                files == old(files)
      ensures TargetFile(name).Some? && TargetFile(name).value !in old(files) && fetch.Interrupted? ==>
                (TargetFile(name).value in files <==> fetch.partial) &&
                files - {TargetFile(name).value} == old(files)
      ensures ok ==> TargetFile(name).Some? && TargetFile(name).value in files
    {
      var target := TargetFile(name);
      if target.None? {
        return false;
      }
      ok := Obtain(target.value, fetch);
    }

    /**
     * The steps of `download_model` once the target file is known: succeed at
     * once when it is already there; otherwise fetch it. After an
     * `Exception` no file is left; after an interrupt a partial file stays.
     */
    method Obtain(filename: string, fetch: Fetch) returns (ok: bool)
      modifies this
      ensures filename in old(files) ==> ok && files == old(files)
      ensures filename !in old(files) ==> ok == fetch.Fetched?
      ensures filename !in old(files) && fetch.Fetched? ==> filename in files && files == old(files) + {filename}
      ensures filename !in old(files) && fetch.FetchFailed? ==> filename !in files && files == old(files)
      ensures filename !in old(files) && fetch.Interrupted? ==>
                (filename in files <==> fetch.partial) && files - {filename} == old(files)
    {
      if filename in files {
        return true;
      }
      match fetch {
        case Fetched =>
          files := files + {filename};
          ok := true;
        case FetchFailed(partial) =>
          if partial {
            files := files + {filename};
          }
          if filename in files {
            files := files - {filename};
          }
          ok := false;
        case Interrupted(partial) =>
          if partial {
            files := files + {filename};
          }
          ok := false;
      }
    }
  }

  /**
   * Once `download_model` has put a model's file in the directory, the
   * server lists that model as available. The server checks only that the
   * file exists, so this holds as well for the partial file an interrupted
   * download leaves behind.
   */
  lemma DownloadedIsAvailable(name: string, files: set<string>)
    requires TargetFile(name).Some? && TargetFile(name).value in files
    ensures name in Catalog.Available(files)
  {
    TargetIsCatalogFile(name);
    KnownFilePresentIsAvailable(name, files);
  }

  /** A catalog name whose weight file is in the directory is listed as available. */
  lemma KnownFilePresentIsAvailable(name: string, files: set<string>)
    requires Catalog.Known(name) && Catalog.Lookup(name).value.file in files
    ensures name in Catalog.Available(files)
  {
    var i :| 0 <= i < |Catalog.Models| && Catalog.Models[i].name == name;
    Catalog.CatalogUnique();
    Catalog.LookupInAt(Catalog.Models, i);
    Catalog.AvailableExactly(files, name);
  }
}
