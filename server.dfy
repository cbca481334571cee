/**
 * The request-state logic of app.py: loading a recognition engine
 * (`load_whisper_model`), the start-up load with its fallback loop, the
 * `/api/change-model`, `/api/transcribe`, `/api/health` and `/api/models`
 * handlers, and the process-wide progress record.
 *
 * The module globals `current_model`, `current_model_name`,
 * `transcription_progress` and the scratch directory become the fields of
 * one `Server` object. The model directory, the GPU probe and the
 * recognition library are inputs: `files` is the set of file names in the
 * model directory, `hasGpu` what `torch.cuda.is_available()` answers, and
 * `builds` the set of model names for which constructing a `WhisperModel`
 * succeeds (the library is an oracle that may fail).
 */
module Server {
  import opened Common
  import Catalog
  import Recommender
  import Transcript

  datatype Device = Cuda | Cpu
  datatype ComputeType = Float16 | Int8

  /** A constructed recognition engine: the model name it was built for, its device and precision. */
  datatype Engine = Engine(model: string, device: Device, computeType: ComputeType)

  /** Why `load_whisper_model` raised. */
  datatype LoadError =
    | UnknownModel(name: string)          // ValueError: not a catalog key
    | FileNotFound(file: string)          // FileNotFoundError: weight file missing
    | ConstructionFailed(name: string)    // the library raised while constructing

  datatype LoadResult = Loaded(engine: Engine) | LoadFailed(error: LoadError)

  /** `"cuda" if torch.cuda.is_available() else "cpu"` */
  function DeviceFor(hasGpu: bool): (d: Device)
    ensures d == Cuda <==> hasGpu
  {
    if hasGpu then Cuda else Cpu
  }

  /** `"float16" if device == "cuda" else "int8"` */
  function ComputeTypeFor(d: Device): (c: ComputeType)
    ensures c == Float16 <==> d == Cuda
  {
    if d == Cuda then Float16 else Int8
  }

  /** The engine runs on the GPU exactly when one is present, in float16 there and int8 on the CPU. */
  lemma DeviceAndPrecision(hasGpu: bool)
    ensures DeviceFor(hasGpu) == Cuda <==> hasGpu
    ensures ComputeTypeFor(DeviceFor(hasGpu)) == (if hasGpu then Float16 else Int8)
  {
  }

  /**
   * `load_whisper_model`: the name must be a catalog key and its weight file
   * must be in the model directory, both checked before the library is
   * called; then an engine is built on the GPU in float16 or on the CPU in
   * int8. The library loads by model name, so nothing here says which
   * weights it actually reads.
   */
  function LoadWhisperModel(name: string, files: set<string>, hasGpu: bool, builds: set<string>): (r: LoadResult)
    ensures r.Loaded? <==> Catalog.Known(name) && Catalog.Lookup(name).value.file in files && name in builds
    ensures r.Loaded? ==> r.engine == Engine(name, DeviceFor(hasGpu), ComputeTypeFor(DeviceFor(hasGpu)))
    ensures !Catalog.Known(name) ==> r == LoadFailed(UnknownModel(name))
    ensures Catalog.Known(name) && Catalog.Lookup(name).value.file !in files ==>
              r == LoadFailed(FileNotFound(Catalog.Lookup(name).value.file))
  {
    match Catalog.Lookup(name)
    case None => LoadFailed(UnknownModel(name))
    case Some(info) =>
      if info.file !in files then LoadFailed(FileNotFound(info.file))
      else if name !in builds then LoadFailed(ConstructionFailed(name))
      else
        var device := DeviceFor(hasGpu);
        Loaded(Engine(name, device, ComputeTypeFor(device)))
  }

  /** A model can be loaded exactly when it is listed as available and the library builds it. */
  lemma LoadableIffAvailable(name: string, files: set<string>, hasGpu: bool, builds: set<string>)
    ensures LoadWhisperModel(name, files, hasGpu, builds).Loaded? <==>
            name in Catalog.Available(files) && name in builds
  {
    Catalog.AvailableExactly(files, name);
    if Catalog.Known(name) {
      var i :| 0 <= i < |Catalog.Models| && Catalog.Models[i].name == name;
      CatalogLookupAt(i);
      assert Catalog.Lookup(name).value.file == Catalog.Models[i].file;
      if name in Catalog.Available(files) {
        var k :| 0 <= k < |Catalog.Models| && Catalog.Models[k].name == name && Catalog.Models[k].file in files;
        Catalog.CatalogUnique();
        assert k == i;
      }
    }
  }

  /** Looking up the name of the i-th catalog entry finds that entry. */
  lemma CatalogLookupAt(i: nat)
    requires i < |Catalog.Models|
    ensures Catalog.Lookup(Catalog.Models[i].name) == Some(Catalog.Models[i])
  {
    Catalog.CatalogUnique();
    Catalog.LookupInAt(Catalog.Models, i);
  }

  // ---------------------------------------------------------------------
  // Start-up
  // ---------------------------------------------------------------------

  /** The first of `names` that the library builds. */
  function FirstLoadable(names: seq<string>, builds: set<string>): (r: Option<string>)
    ensures r.Some? ==> r.value in names && r.value in builds
    ensures r.None? <==> forall n :: n in names ==> n !in builds
  {
    if names == [] then None
    else if names[0] in builds then Some(names[0])
    else FirstLoadable(names[1..], builds)
  }

  /** The fallback loop stops at the first name that loads: every earlier attempt failed. */
  lemma {:induction false} FirstLoadableAt(names: seq<string>, builds: set<string>, i: nat)
    requires i < |names| && names[i] in builds
    requires forall j :: 0 <= j < i ==> names[j] !in builds
    ensures FirstLoadable(names, builds) == Some(names[i])
  {
    if i > 0 {
      FirstLoadableAt(names[1..], builds, i - 1);
    }
  }

  /**
   * The model the start-up block ends up with: the recommended model if it
   * loads, otherwise the first available model, in catalog order, that
   * loads; none when the directory holds no model or none loads.
   */
  function StartupChoice(files: set<string>, probe: Option<Recommender.Capabilities>, builds: set<string>): (c: Option<string>)
    ensures c.Some? ==> c.value in Catalog.Available(files) && c.value in builds
  {
    var available := Catalog.Available(files);
    if available == [] then None
    else
      var recommended := Recommender.RecommendFor(probe, files).model;
      if recommended.value in builds then recommended
      else FirstLoadable(available, builds)
  }

  /**
   * What start-up achieves: a model is loaded exactly when some available
   * model loads; the loaded model is available and loads; the recommended
   * model is preferred whenever it loads.
   */
  lemma StartupChoiceSound(files: set<string>, probe: Option<Recommender.Capabilities>, builds: set<string>)
    ensures var c := StartupChoice(files, probe, builds);
            c.Some? <==> exists n :: n in Catalog.Available(files) && n in builds
    ensures var c := StartupChoice(files, probe, builds);
            c.Some? ==> c.value in Catalog.Available(files) && c.value in builds
    ensures var rec := Recommender.RecommendFor(probe, files).model;
            rec.Some? && rec.value in builds ==> StartupChoice(files, probe, builds) == rec
  {
  }

  // ---------------------------------------------------------------------
  // Responses
  // ---------------------------------------------------------------------

  datatype ChangeResponse =
    | Changed(model: string)          // 200
    | InvalidModel                    // 400: not a catalog key
    | NotAvailable(model: string)     // 400: weight file not in the directory
    | ChangeFailed(error: LoadError)  // 500: loading raised

  function ChangeStatus(r: ChangeResponse): int
  {
    match r
    case Changed(_) => 200
    case InvalidModel => 400
    case NotAvailable(_) => 400
    case ChangeFailed(_) => 500
  }

  /**
   * The outcome of `change_model` for the `model` field of the request
   * (`None` when absent): unknown names and missing files are refused with
   * 400 before anything is loaded, a failed load answers 500.
   */
  function ChangeOutcome(requested: Option<string>, files: set<string>, hasGpu: bool, builds: set<string>): (r: ChangeResponse)
    ensures ChangeStatus(r) == 400 <==> requested.None? || requested.value !in Catalog.Available(files)
    ensures r == InvalidModel <==> requested.None? || !Catalog.Known(requested.value)
    ensures ChangeStatus(r) == 500 <==> requested.Some? && requested.value in Catalog.Available(files) && requested.value !in builds
    ensures r.Changed? <==> requested.Some? && requested.value in Catalog.Available(files) && requested.value in builds
    ensures r.Changed? ==> r.model == requested.value
  {
    if requested.None? || !Catalog.Known(requested.value) then
      assert requested.Some? ==> requested.value !in Catalog.Available(files) by {
        if requested.Some? { Catalog.AvailableExactly(files, requested.value); }
      }
      InvalidModel
    else
      var name := requested.value;
      if name !in Catalog.Available(files) then NotAvailable(name)
      else
        LoadableIffAvailable(name, files, hasGpu, builds);
        match LoadWhisperModel(name, files, hasGpu, builds)
        case Loaded(_) => Changed(name)
        case LoadFailed(e) => ChangeFailed(e)
  }

  /** A progress record: percentage and stage text. */
  datatype Progress = Progress(percent: nat, stage: string)

  const Idle := Progress(0, "idle")
  const Saving := Progress(10, "Menyimpan file audio...")
  const Processing := Progress(30, "Memproses audio...")
  const Transcribing := Progress(50, "Transkripsi dengan Whisper...")
  const Collecting := Progress(75, "Mengumpulkan hasil...")
  const Finished := Progress(100, "Selesai!")

  /** What the recognition library does with the scratch file: segment texts, or an exception. */
  datatype Recognition = Segments(texts: seq<string>) | RecognitionFailed(error: string)

  datatype TranscribeResponse =
    | Transcribed(text: string, language: string, modelUsed: string)  // 200
    | NoModelLoaded                                                  // 500
    | NoAudio                                                        // 400
    | TranscribeFailed(error: string)                                // 500

  function TranscribeStatus(r: TranscribeResponse): int
  {
    match r
    case Transcribed(_, _, _) => 200
    case NoModelLoaded => 500
    case NoAudio => 400
    case TranscribeFailed(_) => 500
  }

  /**
   * The progress records `transcribe_audio` writes once both guards have
   * passed, in order: saving; then, if the upload was saved, processing
   * and transcribing, then collecting and done on success; and the idle
   * record of each `finally` or `except` that runs.
   */
  function ProgressWrites(saveError: Option<string>, run: Recognition): (w: seq<Progress>)
    ensures w != [] && w[0] == Saving && w[|w| - 1] == Idle
    ensures forall i, j :: 0 <= i < j < |w| && w[j] != Idle ==> w[i].percent < w[j].percent
    ensures forall i :: 0 <= i < |w| ==> w[i].percent <= 100
    ensures Finished in w <==> saveError.None? && run.Segments?
  {
    if saveError.Some? then [Saving, Idle]
    else if run.RecognitionFailed? then [Saving, Processing, Transcribing, Idle, Idle]
    else [Saving, Processing, Transcribing, Collecting, Finished, Idle]
  }

  /** The progress log once the writes of `ProgressWrites` are appended, one write at a time. */
  function AfterWrites(log: seq<Progress>, saveError: Option<string>, run: Recognition): seq<Progress>
  {
    if saveError.Some? then log + [Saving] + [Idle]
    else AfterRecognition(log + [Saving], run)
  }

  /** The writes after the upload was saved: processing, transcribing, and the rest by outcome. */
  function AfterRecognition(log: seq<Progress>, run: Recognition): seq<Progress>
  {
    if run.RecognitionFailed? then log + [Processing] + [Transcribing] + [Idle] + [Idle]
    else log + [Processing] + [Transcribing] + [Collecting] + [Finished] + [Idle]
  }

  /** Writing one record at a time appends exactly `ProgressWrites` to the log. */
  lemma AfterWritesAppends(log: seq<Progress>, saveError: Option<string>, run: Recognition)
    ensures AfterWrites(log, saveError, run) == log + ProgressWrites(saveError, run)
  {
  }

  /**
   * The response of `transcribe_audio`: no model comes first (500), then no
   * audio (400); a failure to save the upload or an exception from the
   * library answers 500 with its message; otherwise the stripped
   * transcription in the fixed language "id".
   */
  function TranscribeOutcome(loaded: Option<Engine>, modelName: string, hasAudio: bool,
                             saveError: Option<string>, run: Recognition): (r: TranscribeResponse)
    ensures loaded.None? <==> r == NoModelLoaded
    ensures TranscribeStatus(r) == 400 <==> loaded.Some? && !hasAudio
    ensures TranscribeStatus(r) == 500 <==>
              loaded.None? || (hasAudio && (saveError.Some? || run.RecognitionFailed?))
    ensures r == NoAudio <==> loaded.Some? && !hasAudio
    ensures r.Transcribed? <==> loaded.Some? && hasAudio && saveError.None? && run.Segments?
    ensures r.Transcribed? ==> r.text == Transcript.Strip(Transcript.Joined(run.texts)) &&
                               r.language == "id" && r.modelUsed == modelName
  {
    if loaded.None? then NoModelLoaded
    else if !hasAudio then NoAudio
    else if saveError.Some? then TranscribeFailed(saveError.value)
    else match run
      case RecognitionFailed(e) => TranscribeFailed(e)
      case Segments(texts) => Transcribed(Transcript.Strip(Transcript.Joined(texts)), "id", modelName)
  }

  datatype HealthReport = HealthReport(status: string, model: Option<string>, gpuAvailable: bool,
                                       availableModels: seq<string>)

  datatype ModelsView = ModelsView(current: Option<string>, available: seq<string>,
                                   recommended: Option<Recommender.Recommendation>, hasGpu: bool)

  /** The server's process-wide state. */
  class Server {
    var currentModel: Option<Engine>
    var currentModelName: string
    var progress: Progress
    /** The names of the files in the scratch directory. */
    var tempFiles: set<string>
    /** Every progress record written, in order. */
    ghost var progressLog: seq<Progress>

    /**
     * Between requests the loaded engine, if any, was built for the model
     * the server names, which is a catalog key, and progress is idle.
     */
    ghost predicate Valid()
      reads this
    {
      && (currentModel.Some? ==> currentModel.value.model == currentModelName && Catalog.Known(currentModelName))
      && progress == Idle
    }

    /** The module globals before the start-up block: nothing loaded, name "base". */
    constructor (scratch: set<string>)
      ensures Valid()
      ensures currentModel == None && currentModelName == "base"
      ensures progress == Idle && tempFiles == scratch && progressLog == []
    {
      currentModel := None;
      currentModelName := "base";
      progress := Idle;
      tempFiles := scratch;
      progressLog := [];
    }

    /** The start-up block: try the recommended model, then every available model in order. */
    method Startup(files: set<string>, probe: Option<Recommender.Capabilities>, hasGpu: bool, builds: set<string>)
      requires Valid()
      modifies this`currentModel, this`currentModelName
      ensures Valid()
      ensures var c := StartupChoice(files, probe, builds);
              if c.Some? then currentModel == Some(Engine(c.value, DeviceFor(hasGpu), ComputeTypeFor(DeviceFor(hasGpu))))
                              && currentModelName == c.value
              else currentModel == old(currentModel) && currentModelName == old(currentModelName)
    {
      var available := Catalog.GetAvailableModels(files);
      if available != [] {
        var recommended := Recommender.RecommendFor(probe, files);
        if recommended.model.Some? {
          var name := recommended.model.value;
          ghost var choice := StartupChoice(files, probe, builds);
          assert choice == if name in builds then Some(name) else FirstLoadable(available, builds);
          LoadableIffAvailable(name, files, hasGpu, builds);
          var r := LoadWhisperModel(name, files, hasGpu, builds);
          if r.Loaded? {
            currentModel := Some(r.engine);
            currentModelName := name;
          } else {
            LoadFallback(available, files, hasGpu, builds);
          }
        }
      }
    }

    /** The fallback loop of the start-up block: load the first model of `available` that loads. */
    method LoadFallback(available: seq<string>, files: set<string>, hasGpu: bool, builds: set<string>)
      requires Valid()
      requires available == Catalog.Available(files)
      modifies this`currentModel, this`currentModelName
      ensures Valid()
      ensures var c := FirstLoadable(available, builds);
              if c.Some? then currentModel == Some(Engine(c.value, DeviceFor(hasGpu), ComputeTypeFor(DeviceFor(hasGpu))))
                              && currentModelName == c.value
              else currentModel == old(currentModel) && currentModelName == old(currentModelName)
    {
      var i := 0;
      while i < |available|
        invariant 0 <= i <= |available|
        invariant forall j :: 0 <= j < i ==> available[j] !in builds
        invariant currentModel == old(currentModel) && currentModelName == old(currentModelName)
      {
        var attempt := TryLoad(available, i, files, hasGpu, builds);
        if attempt.Loaded? {
          currentModel := Some(attempt.engine);
          currentModelName := available[i];
          FirstLoadableAt(available, builds, i);
          return;
        }
        i := i + 1;
      }
    }

    /** One attempt of the fallback loop: loading an available model fails only when the library fails. */
    method TryLoad(available: seq<string>, i: nat, files: set<string>, hasGpu: bool, builds: set<string>)
      returns (attempt: LoadResult)
      requires available == Catalog.Available(files) && i < |available|
      ensures attempt.Loaded? <==> available[i] in builds
      ensures attempt.Loaded? ==> attempt.engine == Engine(available[i], DeviceFor(hasGpu), ComputeTypeFor(DeviceFor(hasGpu)))
    {
      var name := available[i];
      assert name in Catalog.Available(files);
      LoadableIffAvailable(name, files, hasGpu, builds);
      attempt := LoadWhisperModel(name, files, hasGpu, builds);
    }

    /** `change_model`: validate the name and the file, then load; on any refusal or failure nothing changes. */
    method ChangeModel(requested: Option<string>, files: set<string>, hasGpu: bool, builds: set<string>)
      returns (resp: ChangeResponse)
      requires Valid()
      modifies this`currentModel, this`currentModelName
      ensures Valid()
      ensures resp == ChangeOutcome(requested, files, hasGpu, builds)
      ensures resp.Changed? ==> currentModelName == resp.model &&
                                currentModel == Some(Engine(resp.model, DeviceFor(hasGpu), ComputeTypeFor(DeviceFor(hasGpu))))
      ensures !resp.Changed? ==> currentModel == old(currentModel) && currentModelName == old(currentModelName)
    {
      if requested.None? || !Catalog.Known(requested.value) {
        return InvalidModel;
      }
      var name := requested.value;
      var available := Catalog.GetAvailableModels(files);
      if name !in available {
        return NotAvailable(name);
      }
      var r := LoadWhisperModel(name, files, hasGpu, builds);
      match r {
        case Loaded(engine) =>
          currentModel := Some(engine);
          currentModelName := name;
          resp := Changed(name);
        case LoadFailed(e) =>
          resp := ChangeFailed(e);
      }
    }

    /** Overwrite the progress record. */
    method SetProgress(p: Progress)
      modifies this`progress, this`progressLog
      ensures progress == p && progressLog == old(progressLog) + [p]
    {
      progress := p;
      progressLog := progressLog + [p];
    }

    /**
     * `transcribe_audio`. `hasAudio` says whether the request carries an
     * `audio` part; `scratch` is the fresh name the temporary file gets;
     * `saveError` is the exception saving the upload raised, if any; `run`
     * is what the library returns for the saved file.
     *
     * Once the upload is saved, the `finally` block deletes the scratch file
     * and resets progress on every exit. When saving itself fails, the file
     * the temporary-file call already created is left behind.
     */
    method Transcribe(hasAudio: bool, scratch: string, saveError: Option<string>, run: Recognition)
      returns (resp: TranscribeResponse)
      requires Valid()
      requires scratch !in tempFiles
      modifies this`progress, this`progressLog, this`tempFiles
      ensures Valid()
      ensures resp == TranscribeOutcome(old(currentModel), currentModelName, hasAudio, saveError, run)
      ensures resp == NoModelLoaded || resp == NoAudio ==>
                progressLog == old(progressLog) && tempFiles == old(tempFiles)
      ensures resp != NoModelLoaded && resp != NoAudio ==>
                progressLog == AfterWrites(old(progressLog), saveError, run) &&
                tempFiles == if saveError.Some? then old(tempFiles) + {scratch} else old(tempFiles)
    {
      if currentModel.None? {
        return NoModelLoaded;
      }
      if !hasAudio {
        return NoAudio;
      }
      resp := SaveAndRecognize(scratch, saveError, run);
    }

    /** The body of the outer `try` once both guards have passed: save the upload, then recognize it. */
    method SaveAndRecognize(scratch: string, saveError: Option<string>, run: Recognition)
      returns (resp: TranscribeResponse)
      requires currentModel.Some? && scratch !in tempFiles
      modifies this`progress, this`progressLog, this`tempFiles
      ensures resp == TranscribeOutcome(currentModel, currentModelName, true, saveError, run)
      ensures progress == Idle && progressLog == AfterWrites(old(progressLog), saveError, run)
      ensures tempFiles == if saveError.Some? then old(tempFiles) + {scratch} else old(tempFiles)
    {
      SetProgress(Saving);
      tempFiles := tempFiles + {scratch};
      if saveError.Some? {
        // the outer `except`: no `finally` has been entered yet
        SetProgress(Idle);
        return TranscribeFailed(saveError.value);
      }
      resp := Recognize(scratch, run);
    }

    /** The inner `try` and its `finally`: recognize the saved file, collect the text, delete the file. */
    method Recognize(scratch: string, run: Recognition) returns (resp: TranscribeResponse)
      requires currentModel.Some?
      modifies this`progress, this`progressLog, this`tempFiles
      ensures resp == TranscribeOutcome(currentModel, currentModelName, true, None, run)
      ensures progress == Idle && progressLog == AfterRecognition(old(progressLog), run)
      ensures tempFiles == old(tempFiles) - {scratch}
    {
      SetProgress(Processing);
      SetProgress(Transcribing);
      match run {
        case RecognitionFailed(e) =>
          resp := AbandonRecognition(scratch, e);
        case Segments(texts) =>
          resp := FinishRecognition(scratch, texts);
      }
    }

    /** The library raised: the `finally` deletes the file and resets progress, then so does the outer `except`. */
    method AbandonRecognition(scratch: string, error: string) returns (resp: TranscribeResponse)
      modifies this`progress, this`progressLog, this`tempFiles
      ensures resp == TranscribeFailed(error)
      ensures progress == Idle && progressLog == old(progressLog) + [Idle] + [Idle]
      ensures tempFiles == old(tempFiles) - {scratch}
    {
      CleanUp(scratch);
      SetProgress(Idle);
      resp := TranscribeFailed(error);
    }

    /** Recognition returned its segments: collect the text, answer, then the `finally` cleans up. */
    method FinishRecognition(scratch: string, texts: seq<string>) returns (resp: TranscribeResponse)
      modifies this`progress, this`progressLog, this`tempFiles
      ensures resp == Transcribed(Transcript.Strip(Transcript.Joined(texts)), "id", currentModelName)
      ensures progress == Idle && progressLog == old(progressLog) + [Collecting] + [Finished] + [Idle]
      ensures tempFiles == old(tempFiles) - {scratch}
    {
      var text := CollectResults(texts);
      resp := Transcribed(text, "id", currentModelName);
      CleanUp(scratch);
    }

    /** The inner `finally`: delete the scratch file and reset progress to idle. */
    method CleanUp(scratch: string)
      modifies this`progress, this`progressLog, this`tempFiles
      ensures tempFiles == old(tempFiles) - {scratch}
      ensures progress == Idle && progressLog == old(progressLog) + [Idle]
    {
      tempFiles := tempFiles - {scratch};
      SetProgress(Idle);
    }

    /** The steps under the model lock after recognition: collect the text, then report done. */
    method CollectResults(texts: seq<string>) returns (text: string)
      modifies this`progress, this`progressLog
      ensures text == Transcript.Strip(Transcript.Joined(texts))
      ensures progress == Finished && progressLog == old(progressLog) + [Collecting] + [Finished]
    {
      SetProgress(Collecting);
      text := Transcript.CollectText(texts);
      SetProgress(Finished);
    }

    /** `health_check` */
    method Health(hasGpu: bool, files: set<string>) returns (h: HealthReport)
      requires Valid()
      ensures h.status == "ok" <==> currentModel.Some?
      ensures h.status == "no_model" <==> currentModel.None?
      ensures h.model.Some? <==> currentModel.Some?
      ensures h.model.Some? ==> h.model.value == currentModel.value.model
      ensures h.gpuAvailable == hasGpu
      ensures h.availableModels == Catalog.Available(files)
    {
      var available := Catalog.GetAvailableModels(files);
      h := HealthReport(if currentModel.Some? then "ok" else "no_model",
                        if currentModel.Some? then Some(currentModelName) else None,
                        hasGpu, available);
    }

    /** `get_models`, without the catalog's display data and the directory path. */
    method GetModels(probe: Option<Recommender.Capabilities>, hasGpu: bool, files: set<string>) returns (v: ModelsView)
      requires Valid()
      ensures v.current.Some? <==> currentModel.Some?
      ensures v.current.Some? ==> v.current.value == currentModel.value.model
      ensures v.available == Catalog.Available(files)
      ensures v.recommended.None? <==> v.available == []
      ensures v.recommended.Some? ==> v.recommended.value.model.Some? && v.recommended.value.model.value in v.available
      ensures v.recommended.Some? ==> v.recommended.value == Recommender.RecommendFor(probe, files)
      ensures v.hasGpu == hasGpu
    {
      var available := Catalog.GetAvailableModels(files);
      var recommended := if available != [] then Recommender.RecommendFor(probe, files)
                         else Recommender.Recommendation(None, "Tidak ada model");
      v := ModelsView(if currentModel.Some? then Some(currentModelName) else None,
                      available,
                      if recommended.model.Some? then Some(recommended) else None,
                      hasGpu);
    }
  }
}
