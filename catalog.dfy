/**
 * The model catalog of the transcription server (`WHISPER_CPP_MODELS` in
 * app.py) and the artifact inventory built from it (`get_available_models`).
 *
 * The catalog is a Python dict, whose iteration order is its declaration
 * order, so it is modelled as an ordered sequence of entries. Only the name
 * and the backing file name matter to the server's logic; the size, speed,
 * quality and RAM strings are display text and are not modelled.
 */
module Catalog {
  import opened Common

  /** One catalog entry: the model's name and the weight file that backs it. */
  datatype ModelInfo = ModelInfo(name: string, file: string)

  /** The twelve known models, in declaration order. */
  const Models: seq<ModelInfo> := [
    ModelInfo("tiny", "ggml-tiny.bin"),
    ModelInfo("tiny.en", "ggml-tiny.en.bin"),
    ModelInfo("base", "ggml-base.bin"),
    ModelInfo("base.en", "ggml-base.en.bin"),
    ModelInfo("small", "ggml-small.bin"),
    ModelInfo("small.en", "ggml-small.en.bin"),
    ModelInfo("medium", "ggml-medium.bin"),
    ModelInfo("medium.en", "ggml-medium.en.bin"),
    ModelInfo("large-v1", "ggml-large-v1.bin"),
    ModelInfo("large-v2", "ggml-large-v2.bin"),
    ModelInfo("large-v3", "ggml-large-v3.bin"),
    ModelInfo("large-v3-turbo", "ggml-large-v3-turbo.bin")
  ]

  /** No two entries of a list share a name: a dict has unique keys. */
  predicate UniqueNames(entries: seq<ModelInfo>)
  {
    forall i, j :: 0 <= i < j < |entries| ==> entries[i].name != entries[j].name
  }

  /** `name in WHISPER_CPP_MODELS` */
  predicate Known(name: string)
  {
    exists i :: 0 <= i < |Models| && Models[i].name == name
  }

  /** `WHISPER_CPP_MODELS.get(name)`: the entry with that key, if any. */
  function LookupIn(entries: seq<ModelInfo>, name: string): (r: Option<ModelInfo>)
    ensures r.None? <==> forall i :: 0 <= i < |entries| ==> entries[i].name != name
    ensures r.Some? ==> r.value.name == name
  {
    if entries == [] then None
    else if entries[0].name == name then Some(entries[0])
    else LookupIn(entries[1..], name)
  }

  function Lookup(name: string): (r: Option<ModelInfo>)
    ensures r.None? <==> !Known(name)
    ensures r.Some? ==> r.value.name == name
  {
    LookupIn(Models, name)
  }

  /** In a list with unique names, looking up the name of an entry finds that entry. */
  lemma {:induction false} LookupInAt(entries: seq<ModelInfo>, i: nat)
    requires UniqueNames(entries) && i < |entries|
    ensures LookupIn(entries, entries[i].name) == Some(entries[i])
  {
    if i > 0 {
      assert entries[0].name != entries[i].name;
      LookupInAt(entries[1..], i - 1);
    }
  }

  /** The model's weight file is in the model directory (`os.path.exists`). */
  predicate Present(info: ModelInfo, files: set<string>)
  {
    info.file in files
  }

  /**
   * The specification of `get_available_models` over a list of entries: the
   * names whose file is present, in list order.
   */
  function AvailableIn(entries: seq<ModelInfo>, files: set<string>): (names: seq<string>)
    ensures |names| <= |entries|
    ensures forall n :: n in names ==> exists i :: 0 <= i < |entries| && entries[i].name == n && Present(entries[i], files)
  {
    if entries == [] then []
    else if Present(entries[0], files) then [entries[0].name] + AvailableIn(entries[1..], files)
    else AvailableIn(entries[1..], files)
  }

  /** The specification of `get_available_models` over the catalog: every name it lists is a catalog key. */
  function Available(files: set<string>): (names: seq<string>)
    ensures forall n :: n in names ==> Known(n)
  {
    AvailableIn(Models, files)
  }

  /**
   * `get_available_models`: walk the catalog in order and collect the name
   * of every entry whose weight file exists in the model directory.
   */
  method GetAvailableModels(files: set<string>) returns (available: seq<string>)
    ensures available == Available(files)
  {
    available := CollectAvailable(Models, files);
  }

  /** The loop of `get_available_models`, over a list of entries. */
  method CollectAvailable(entries: seq<ModelInfo>, files: set<string>) returns (available: seq<string>)
    ensures available == AvailableIn(entries, files)
  {
    available := [];
    var i := 0;
    while i < |entries|
      invariant 0 <= i <= |entries|
      invariant available + AvailableIn(entries[i..], files) == AvailableIn(entries, files)
    {
      assert entries[i..][1..] == entries[i + 1..];
      if entries[i].file in files {
        available := available + [entries[i].name];
      }
      i := i + 1;
    }
  }

  /** The catalog, like the dict it models, has unique keys. */
  lemma CatalogUnique()
    ensures UniqueNames(Models)
  {
  }

  /**
   * A name is listed as available exactly when it is a catalog key whose
   * weight file is present.
   */
  lemma {:induction false} AvailableInExactly(entries: seq<ModelInfo>, files: set<string>, name: string)
    ensures name in AvailableIn(entries, files) <==>
            exists i :: 0 <= i < |entries| && entries[i].name == name && Present(entries[i], files)
  {
    if entries != [] {
      AvailableInExactly(entries[1..], files, name);
      if exists i :: 0 <= i < |entries| && entries[i].name == name && Present(entries[i], files) {
        var i :| 0 <= i < |entries| && entries[i].name == name && Present(entries[i], files);
        if i > 0 {
          assert entries[1..][i - 1] == entries[i];
        }
      }
    }
  }

  lemma AvailableExactly(files: set<string>, name: string)
    ensures name in Available(files) <==> exists i :: 0 <= i < |Models| && Models[i].name == name && Models[i].file in files
  {
    AvailableInExactly(Models, files, name);
  }

  /** Name `x` comes strictly before name `y` in the list of entries. */
  predicate Precedes(entries: seq<ModelInfo>, x: string, y: string)
  {
    exists i, j :: 0 <= i < j < |entries| && entries[i].name == x && entries[j].name == y
  }

  /**
   * The available list keeps catalog order: any two of its names appear in
   * the same order in the list of entries, so it is a subsequence of the
   * entries' names.
   */
  lemma {:induction false} AvailableInOrdered(entries: seq<ModelInfo>, files: set<string>)
    ensures forall a, b :: 0 <= a < b < |AvailableIn(entries, files)| ==>
              Precedes(entries, AvailableIn(entries, files)[a], AvailableIn(entries, files)[b])
  {
    if entries != [] {
      var rest := entries[1..];
      var tail := AvailableIn(rest, files);
      AvailableInOrdered(rest, files);
      var all := AvailableIn(entries, files);
      forall a, b | 0 <= a < b < |all|
        ensures Precedes(entries, all[a], all[b])
      {
        if Present(entries[0], files) {
          assert all == [entries[0].name] + tail;
          if a == 0 {
            assert all[b] == tail[b - 1] && all[b] in tail;
            var j :| 0 <= j < |rest| && rest[j].name == all[b] && Present(rest[j], files);
            assert entries[j + 1] == rest[j];
          } else {
            assert all[a] == tail[a - 1] && all[b] == tail[b - 1];
            assert Precedes(rest, tail[a - 1], tail[b - 1]);
            var i, j :| 0 <= i < j < |rest| && rest[i].name == tail[a - 1] && rest[j].name == tail[b - 1];
            assert entries[i + 1] == rest[i] && entries[j + 1] == rest[j];
          }
        } else {
          assert all == tail;
          assert Precedes(rest, tail[a], tail[b]);
          var i, j :| 0 <= i < j < |rest| && rest[i].name == tail[a] && rest[j].name == tail[b];
          assert entries[i + 1] == rest[i] && entries[j + 1] == rest[j];
        }
      }
    }
  }

  /**
   * `get_available_models` lists names in catalog order and, the catalog's
   * keys being unique, never lists a name twice.
   */
  lemma AvailableOrdered(files: set<string>)
    ensures forall a, b :: 0 <= a < b < |Available(files)| ==>
              Precedes(Models, Available(files)[a], Available(files)[b])
    ensures forall a, b :: 0 <= a < b < |Available(files)| ==> Available(files)[a] != Available(files)[b]
  {
    CatalogUnique();
    AvailableInOrdered(Models, files);
    var all := Available(files);
    forall a, b | 0 <= a < b < |all|
      ensures all[a] != all[b]
    {
      PrecedesDistinct(Models, all[a], all[b]);
    }
  }

  /** With unique names, a name never comes before itself. */
  lemma PrecedesDistinct(entries: seq<ModelInfo>, x: string, y: string)
    requires UniqueNames(entries) && Precedes(entries, x, y)
    ensures x != y
  {
  }
}
