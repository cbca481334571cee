# whisper-kantor: model selection, request state and the model downloader

This project models the decision and state logic of a small speech-to-text
server built on whisper.cpp model files (`app.py`), and of its companion
model downloader (`download_models.py`). It proves properties of that model
in Dafny.

- `common.dfy` (`Common`): the `Option` type.
- `catalog.dfy` (`Catalog`): the ordered model catalog `WHISPER_CPP_MODELS`
  with each model's name and weight file. It also holds `get_available_models`,
  which lists the models whose weight file is in the model directory, in
  catalog order.
- `recommender.dfy` (`Recommender`): `get_recommended_model`, the ordered
  if-ladder over GPU presence, available RAM and the available list. It also
  holds an independent reference definition of the ladder as a preference
  list.
- `text.dfy` (`Transcript`): Python's `str.strip()` and the loop that
  assembles the transcription from segment texts.
- `server.dfy` (`Server`): `load_whisper_model`, the start-up load with its
  fallback loop, and the `/api/change-model`, `/api/transcribe`,
  `/api/health` and `/api/models` handlers. These act on one `Server` object
  whose fields are the module globals `current_model`, `current_model_name`
  and `transcription_progress`, plus the scratch directory.
- `downloader.dfy` (`Downloader`): the downloader's own catalog `MODELS`,
  the base name of a URL, the `progress_hook` percentage, and
  `download_model` acting on a `ModelDirectory` object.

The environment becomes inputs:
- the model directory is the set of file names in it;
- `torch.cuda.is_available()` is a boolean;
- the RAM probe is an optional byte count, `None` when `psutil` raised;
- the whole probe snapshot is optional, `None` when the outer `try` of
  `get_recommended_model` raised;
- the recognition library is an oracle: the set of model names whose
  `WhisperModel` construction succeeds, and for a transcription either the
  segment texts or an exception;
- the network fetch of the downloader is `Fetched`; `FetchFailed`, an
  `Exception`; or `Interrupted`, a `KeyboardInterrupt` or `SystemExit`. The
  last two carry whether a partial file had been written.

The probe compares `available / 1024**3` with 8 and 4. The model compares
the byte count with 8·2^30 and 4·2^30, which gives the same answers.

One place where the code, which the model follows, does less than a
"cleanup on every path" reading suggests. The upload is saved inside the
`with tempfile.NamedTemporaryFile(delete=False)` block (app.py:319-321),
before the inner `try` at app.py:323 begins. When `audio_file.save` raises,
control leaves for the outer `except` without entering that `try`, so its
`finally`, which deletes the file, never runs. The temporary file, already
created and kept because of `delete=False`, stays in the scratch directory,
and only the outer `except` resets progress to idle.
`Server.Server.Transcribe` states exactly that: on a save failure the
scratch set gains the new name.

The downloader has a similar gap. Its clean-up of a partial file sits in an
`except Exception` clause (download_models.py:92-96). A `KeyboardInterrupt`
or `SystemExit` during the transfer is not an `Exception`, so the partial
file stays. The next `download_model` call then finds the file and returns
true (download_models.py:69-71), and the server lists the model as
available. `Downloader.ModelDirectory.DownloadModel` states that the
directory keeps the partial file after an interrupt, and
`Downloader.DownloadedIsAvailable` then applies to it.

## Model

| member | source | states |
|---|---|---|
| `Catalog.Known` | app.py:185-187 | being a key of `WHISPER_CPP_MODELS`; `Catalog.Lookup` finds an entry exactly for these names |
| `Catalog.Available` | app.py:128-135 | every listed name is a catalog key; `AvailableExactly` and `AvailableOrdered` say which keys are listed and in what order |
| `Catalog.Lookup` | app.py:185-187 | `WHISPER_CPP_MODELS.get(name)` finds nothing exactly when the name is not a catalog key; what it finds carries that name |
| `Catalog.LookupIn` | app.py:185 | lookup over any entry list: none exactly when no entry has the name; a found entry has the name |
| `Catalog.LookupInAt` | app.py:29-126 | with unique keys, looking up the i-th entry's name returns the i-th entry |
| `Catalog.CatalogUnique` | app.py:29-126 | the twelve catalog keys are pairwise distinct |
| `Catalog.AvailableIn` | app.py:128-135 | the filtered list is no longer than the catalog, and each name in it belongs to an entry whose file is present |
| `Catalog.GetAvailableModels` | app.py:128-135 | the loop returns the specification list `Available(files)` |
| `Catalog.CollectAvailable` | app.py:130-135 | the append loop over any entry list returns the in-order filter of entries with a present file |
| `Catalog.AvailableInExactly` | app.py:131-134 | a name is in the filtered list exactly when some entry has that name and a present file |
| `Catalog.AvailableExactly` | app.py:128-135 | a name is available exactly when it is a catalog key whose weight file is in the directory |
| `Catalog.AvailableInOrdered` | app.py:131-134 | any two names of the filtered list appear in the same order in the entry list |
| `Catalog.AvailableOrdered` | app.py:128-135 | the available list follows catalog declaration order and has no duplicates |
| `Recommender.RamBytes` | app.py:142-146 | the RAM figure is the probe's value, or 4 GiB when the probe raised |
| `Recommender.Recommend` | app.py:137-181 | no recommendation exactly when the available list is empty; otherwise the recommended model is available, on the exception path too |
| `Recommender.RecommendFor` | app.py:137-181 | for a model directory: no recommendation exactly when nothing is available; a recommended model is a catalog key and is available |
| `Recommender.Ladder` | app.py:150-178 | no recommendation exactly when nothing is available, otherwise an available model; `LadderFollowsPreferences` shows it equals the preference-list definition `Preferred` |
| `Recommender.FirstAvailable` | app.py:150-176 | the first available preference is both preferred and available; there is none exactly when no preference is available |
| `Recommender.LadderFollowsPreferences` | app.py:150-176 | the if-ladder recommends exactly the first available model of the order GPU tier, RAM tier, tiny, base, falling back to the first available model |
| `Recommender.GpuStage` | app.py:150-158 | the GPU branch picks large-v3 or large-v2 with 8 GiB, then medium with 4 GiB, then small |
| `Recommender.RamStage` | app.py:160-169 | the RAM branch picks medium then small with 8 GiB, and small then base with 4 to 8 GiB |
| `Recommender.GpuTier` | app.py:150-158 | the full GPU preference order; a GPU host matching none of it is answered as a host without a GPU |
| `Recommender.CpuLadder` | app.py:160-178 | without a GPU: medium, small with 8 GiB; small, base with 4 to 8 GiB; then tiny, base, the first available, none |
| `Recommender.FailedRamProbeIsFourGiB` | app.py:142-146 | a failed RAM probe gives the same recommendation as 4 GiB of RAM |
| `Recommender.ExceptionPathFirstAvailable` | app.py:179-181 | when probing raises, the first available model is recommended |
| `Recommender.OnlyTinyGivesTiny` | app.py:150-172 | with only tiny available, tiny is recommended for every GPU and RAM input and on the exception path |
| `Recommender.EmptyDirectoryNoRecommendation` | app.py:178 | with an empty model directory there is no recommendation |
| `Transcript.StripStart` | app.py:346 | removing leading whitespace leaves a suffix that does not start with whitespace, and only whitespace was removed |
| `Transcript.StripEnd` | app.py:346 | removing trailing whitespace leaves a prefix that does not end with whitespace, and only whitespace was removed |
| `Transcript.LeadingSpaces` | app.py:346 | the count of leading whitespace characters: all of them are whitespace and the next one is not |
| `Transcript.Strip` | app.py:346 | `str.strip()` returns a text that is empty or starts and ends with non-whitespace |
| `Transcript.StripIsBothEnds` | app.py:346 | stripping is the same as removing the leading whitespace and then the trailing whitespace |
| `Transcript.StripSlice` | app.py:346 | the stripped text is the slice of the input that starts after its leading whitespace, and everything after that slice is whitespace |
| `Transcript.StartIsLeadingSpaces` | app.py:346 | removing the leading whitespace shortens the text by exactly the count of leading whitespace characters |
| `Transcript.Joined` | app.py:342-344 | the accumulated text is empty exactly when there are no segments, and otherwise ends with a space; `JoinedIsSpaceJoinPlusSpace` relates it to the single-space join |
| `Transcript.CollectText` | app.py:342-346 | the loop's result is the stripped concatenation of every segment text followed by one space |
| `Transcript.NoSegmentsEmptyText` | app.py:342-346 | no segments give the empty transcription |
| `Transcript.JoinedIsSpaceJoinPlusSpace` | app.py:343-344 | the accumulated text is the single-space join of the segments plus one trailing space |
| `Transcript.SpaceJoinEnds` | app.py:343-344 | the join of non-empty segments starts with the first segment's first character and ends with the last segment's last character |
| `Transcript.StripTrailingSpace` | app.py:346 | stripping a trimmed text followed by one space gives the text back |
| `Transcript.TrimmedSegmentsSingleSpaced` | app.py:342-346 | when every segment is non-empty and trimmed, the transcription is the segments joined by single spaces |
| `Server.DeviceFor` | app.py:195 | the device is cuda exactly when a GPU is present |
| `Server.ComputeTypeFor` | app.py:196 | the precision is float16 exactly on cuda |
| `Server.DeviceAndPrecision` | app.py:195-196 | the device is cuda exactly when a GPU is present; precision is float16 there and int8 on the CPU |
| `Server.LoadWhisperModel` | app.py:183-209 | loading succeeds exactly when the name is a catalog key, its file is present and the library builds it; an unknown name and a missing file are the two errors checked first; a loaded engine has the name, device and precision |
| `Server.LoadableIffAvailable` | app.py:183-209 | a model loads exactly when it is in the available list and the library builds it |
| `Server.FirstLoadable` | app.py:229-236 | the first name the library builds is a listed name it builds; there is none exactly when it builds none of them |
| `Server.FirstLoadableAt` | app.py:229-236 | if every earlier name failed and name i builds, the fallback loop ends on name i |
| `Server.StartupChoice` | app.py:214-236 | the model start-up ends with, if any, is an available model the library builds; `StartupChoiceSound` adds when there is one and which |
| `Server.StartupChoiceSound` | app.py:211-236 | start-up loads a model exactly when some available model loads; the model is available and loads; the recommended model is kept whenever it loads |
| `Server.ChangeOutcome` | app.py:272-299 | 400 exactly when the name is missing or not available, and "invalid model" exactly when it is missing or not a catalog key; 500 exactly when an available model fails to build; success exactly when it builds, naming the requested model |
| `Server.ProgressWrites` | app.py:317-365 | once the guards pass, the writes start at 10 and end idle; before each reset the percentages strictly increase, never above 100; 100 is written exactly when saving and recognition succeed |
| `Server.AfterWritesAppends` | app.py:317-365 | writing the records one at a time appends exactly that sequence of writes to the log |
| `Server.TranscribeOutcome` | app.py:304-365 | the no-model answer exactly when no model is loaded, checked before the audio; the no-audio answer exactly when a model is loaded and there is no audio; a transcription exactly when saving and recognition succeed, with the stripped text, language "id" and the current model name |
| `Server.Server.constructor` | app.py:24-25 | the globals before start-up: nothing loaded, name "base", progress idle |
| `Server.Server.Startup` | app.py:211-236 | after start-up the loaded engine and name are those of `StartupChoice`, built for the GPU or CPU; with no choice the state is unchanged; the invariant holds |
| `Server.Server.LoadFallback` | app.py:229-236 | the loop loads the first available model that builds, or leaves the state unchanged when none does |
| `Server.Server.TryLoad` | app.py:230-232 | loading the i-th available model fails only when the library fails, and gives an engine for that name, device and precision |
| `Server.Server.ChangeModel` | app.py:272-299 | the response is `ChangeOutcome`; on success engine and name are the new model; on every refusal or failure both are unchanged |
| `Server.Server.SetProgress` | app.py:317 | overwrites the progress record and appends it to the log |
| `Server.Server.Transcribe` | app.py:304-365 | the response is `TranscribeOutcome`; the two guards write no progress and touch no file; otherwise the log gains exactly `ProgressWrites`, ends idle, and the scratch file is gone, except after a failed save, where it stays |
| `Server.Server.SaveAndRecognize` | app.py:311-321 | after the guards: save, then recognize; a save failure writes 10 and idle and leaves the scratch file |
| `Server.Server.Recognize` | app.py:323-360 | the inner `try`: writes 30 and 50, then the writes by outcome; the scratch file is deleted on both exits |
| `Server.Server.AbandonRecognition` | app.py:357-365 | a library exception: the `finally` deletes the file and resets progress, then the outer `except` resets it again |
| `Server.Server.FinishRecognition` | app.py:339-360 | on success the response carries the stripped text, language "id" and the model name; progress 75, 100, then idle; the file is deleted |
| `Server.Server.CleanUp` | app.py:357-360 | the inner `finally`: the scratch file is deleted and progress is reset to idle |
| `Server.Server.CollectResults` | app.py:339-348 | writes 75, collects the stripped text, writes 100 |
| `Server.Server.Health` | app.py:371-378 | status "ok" exactly when a model is loaded and "no_model" otherwise; the model's name only when loaded; the GPU flag; the available list |
| `Server.Server.GetModels` | app.py:255-270 | the current model only when loaded; the available list; a recommendation exactly when something is available, and then the recommender's answer, naming an available model; the GPU flag |
| `Downloader.Basename` | download_models.py:66 | the base name is a suffix of the path with no "/", and the character before it is "/" |
| `Downloader.BasenameUnder` | download_models.py:66 | the base name of a directory ending in "/" followed by a file name without "/" is that file name |
| `Downloader.CatalogsAgree` | download_models.py:8-57 | the two catalogs list the same names in the same order, and each URL's base name is the server's weight file for that model |
| `Downloader.NamesAgree` | download_models.py:8-57 | the names of the two catalogs agree position by position |
| `Downloader.EntryBasename` | download_models.py:65-67 | the base name of the i-th download URL is the i-th weight file of the server's catalog |
| `Downloader.EntryAgrees` | download_models.py:8-57 | the i-th entries have the same name, the URL is the repository prefix plus the server's file, and that file has no "/" |
| `Downloader.TargetFile` | download_models.py:60-66 | no target file exactly when the name is not a key of `MODELS`; the target file has no "/"; `TargetIsCatalogFile` shows it is the server's weight file |
| `Downloader.DownloadUrl` | download_models.py:60-65 | there is no URL exactly when the name is not a key of `MODELS` |
| `Downloader.LookupsAligned` | download_models.py:60-65 | over lists whose names agree position by position, the URL lookup and the server's lookup succeed for the same names, taking the entry at the same position |
| `Downloader.TargetIsCatalogFile` | download_models.py:60-67 | a name is downloadable exactly when the server knows it, and the file written is the file the server checks for |
| `Downloader.Percent` | download_models.py:80-82 | a percentage exactly when the total size is positive, and then the floor of count·block·100 / total |
| `Downloader.PercentNotClamped` | download_models.py:81-82 | the percentage is not capped: 11 blocks of 10 bytes out of 100 report 110 |
| `Downloader.ModelDirectory.constructor` | download_models.py:5-6 | the directory starts with the given files |
| `Downloader.ModelDirectory.DownloadModel` | download_models.py:59-96 | unknown name: false, directory unchanged; file present: true, unchanged; fetched: true, file added; an `Exception`: false, directory as before with no partial file; an interrupt: not true, and the partial file, if one was written, stays; true only with the file present |
| `Downloader.ModelDirectory.Obtain` | download_models.py:69-96 | a file already present: true and the directory unchanged; otherwise true exactly when the fetch succeeded, with the file added; after an `Exception` the directory is exactly as before; after an interrupt it differs from before only by the partial file, there exactly when one was written |
| `Downloader.DownloadedIsAvailable` | download_models.py:59-96 | once the downloader has put a model's file in the directory, the server lists that model as available |
| `Downloader.KnownFilePresentIsAvailable` | app.py:128-135 | a catalog key whose weight file is present is listed as available |

## Left out

- Flask plumbing is not modelled: routing, JSON shaping, CORS, static files, opening the browser and `app.run`. The `models` catalog dump and `model_dir` path of `/api/models` are also left out, as is `/api/progress`, which only returns the record.
- A request without a JSON body (`request.json` is `None`, app.py:276-277) raises before any check. The model takes the `model` field as an option and does not model that crash.
- `threading.Lock` is left out: the model is sequential. `current_model` is read, and progress written, outside the lock in the source, so no mutual-exclusion claim is made.
- The `WhisperModel` construction and its `transcribe` call are oracles. The library is given the model name and `download_root`, not the checked file path, so nothing states which weights it actually reads.
- Exceptions raised while the segment generator is consumed (app.py:343-344) are not modelled. Only a failure of the `transcribe` call itself is.
- The response timestamp (a clock read) is left out of `Server.Transcribed`.
- `torch.cuda.is_available()` and the `psutil` probe are inputs. The float quotient by 1024**3 is replaced by integer byte thresholds.
- `tempfile` naming is a fresh name that is not yet in the scratch set, passed in by the caller.
- Console output is left out, as are the error message texts of the 400/500 responses. `load_whisper_model` errors are kept as a `LoadError` value.
- Display-only catalog data is not modelled: size, speed, quality, ram, and the `url` field of app.py's catalog, which app.py never reads.
- Downloader I/O is left out: the `urllib` transfer, the MB figures of the progress line, and the interactive `__main__` menu with its `input()` call.
- Downloader.ModelDirectory.DownloadModel: an interrupt propagates out of `download_model` without a return value; the model returns false for it and states only the directory it leaves.
- Downloader.Percent: Python computes `int(count * block_size * 100 / total_size)` through a float division. The model uses exact integer floor division, which can differ from the float result for very large operands.
