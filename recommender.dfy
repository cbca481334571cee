/**
 * The model recommender of app.py (`get_recommended_model`): an ordered
 * if-ladder over GPU presence, available system RAM and the list of
 * available models.
 *
 * The probes are inputs. `Capabilities.ramBytes` is `None` when the RAM
 * probe raised, in which case the source takes 4 GiB. A probe result of
 * `None` for the whole capability snapshot stands for an exception raised
 * inside the outer `try`, which the source answers by recommending the
 * first available model. RAM is compared in bytes against 8 and 4 GiB,
 * which is what comparing the GiB quotient against 8 and 4 amounts to.
 * With a GPU the source still compares SYSTEM RAM: there is no GPU-memory
 * probe.
 */
module Recommender {
  import opened Common
  import Catalog

  const GiB: nat := 1024 * 1024 * 1024

  /** What the probes report: GPU presence and available RAM in bytes. */
  datatype Capabilities = Capabilities(hasGpu: bool, ramBytes: Option<nat>)

  /** A recommended model name (or none) and the reason shown to the user. */
  datatype Recommendation = Recommendation(model: Option<string>, reason: string)

  /** Available RAM, with the 4 GiB default used when the probe failed. */
  function RamBytes(caps: Capabilities): (bytes: nat)
    ensures caps.ramBytes.None? ==> bytes == 4 * GiB
    ensures caps.ramBytes.Some? ==> bytes == caps.ramBytes.value
  {
    match caps.ramBytes
    case None => 4 * GiB
    case Some(b) => b
  }

  /** The ladder of `get_recommended_model` once the probes have succeeded. */
  function Ladder(caps: Capabilities, available: seq<string>): (r: Recommendation)
    ensures r.model.None? <==> available == []
    ensures r.model.Some? ==> r.model.value in available
  {
    var ram := RamBytes(caps);
    if caps.hasGpu && "large-v3" in available && ram >= 8 * GiB then
      Recommendation(Some("large-v3"), "GPU + RAM tinggi")
    else if caps.hasGpu && "large-v2" in available && ram >= 8 * GiB then
      Recommendation(Some("large-v2"), "GPU + RAM tinggi")
    else if caps.hasGpu && "medium" in available && ram >= 4 * GiB then
      Recommendation(Some("medium"), "GPU + RAM sedang")
    else if caps.hasGpu && "small" in available then
      Recommendation(Some("small"), "GPU tersedia")
    else if ram >= 8 * GiB && "medium" in available then
      Recommendation(Some("medium"), "RAM cukup untuk model sedang")
    else if ram >= 8 * GiB && "small" in available then
      Recommendation(Some("small"), "RAM cukup")
    else if 4 * GiB <= ram < 8 * GiB && "small" in available then
      Recommendation(Some("small"), "RAM cukup untuk model kecil")
    else if 4 * GiB <= ram < 8 * GiB && "base" in available then
      Recommendation(Some("base"), "RAM sedang")
    else if "tiny" in available then
      Recommendation(Some("tiny"), "Model tercepat")
    else if "base" in available then
      Recommendation(Some("base"), "Model default")
    else if available != [] then
      Recommendation(Some(available[0]), "Model tersedia")
    else
      Recommendation(None, "Tidak ada model tersedia")
  }

  /**
   * `get_recommended_model`, given the probe results (`None`: an exception
   * was raised inside the outer `try`) and the available list.
   */
  function Recommend(probe: Option<Capabilities>, available: seq<string>): (r: Recommendation)
    ensures r.model.None? <==> available == []
    ensures r.model.Some? ==> r.model.value in available
  {
    match probe
    case None =>
      Recommendation(if available != [] then Some(available[0]) else None, "Model tersedia")
    case Some(caps) => Ladder(caps, available)
  }

  /** The recommendation for the models actually present in the model directory. */
  function RecommendFor(probe: Option<Capabilities>, files: set<string>): (r: Recommendation)
    ensures r.model.None? <==> Catalog.Available(files) == []
    ensures r.model.Some? ==> Catalog.Known(r.model.value) && r.model.value in Catalog.Available(files)
  {
    Recommend(probe, Catalog.Available(files))
  }

  // ---------------------------------------------------------------------
  // An independent reference definition: the ladder as a preference list.
  // ---------------------------------------------------------------------

  /** The models a GPU host prefers, best first, for a given amount of RAM. */
  function GpuPreferences(ram: nat): seq<string>
  {
    (if ram >= 8 * GiB then ["large-v3", "large-v2"] else []) +
    (if ram >= 4 * GiB then ["medium"] else []) +
    ["small"]
  }

  /** The RAM tier's preferences, best first. */
  function RamPreferences(ram: nat): seq<string>
  {
    if ram >= 8 * GiB then ["medium", "small"]
    else if ram >= 4 * GiB then ["small", "base"]
    else []
  }

  /** The whole preference order: GPU tier, then RAM tier, then the fast models. */
  function Preferences(caps: Capabilities): seq<string>
  {
    var ram := RamBytes(caps);
    (if caps.hasGpu then GpuPreferences(ram) else []) + RamPreferences(ram) + ["tiny", "base"]
  }

  /** The first preference that is available. */
  function FirstAvailable(prefs: seq<string>, available: seq<string>): (r: Option<string>)
    ensures r.Some? ==> r.value in prefs && r.value in available
    ensures r.None? <==> forall p :: p in prefs ==> p !in available
  {
    if prefs == [] then None
    else if prefs[0] in available then Some(prefs[0])
    else FirstAvailable(prefs[1..], available)
  }

  /** The recommendation by preference order, falling back to the first available model. */
  function Preferred(caps: Capabilities, available: seq<string>): Option<string>
  {
    match FirstAvailable(Preferences(caps), available)
    case Some(m) => Some(m)
    case None => if available != [] then Some(available[0]) else None
  }

  lemma {:induction false} FirstAvailableAppend(a: seq<string>, b: seq<string>, available: seq<string>)
    ensures FirstAvailable(a + b, available) ==
            if FirstAvailable(a, available).Some? then FirstAvailable(a, available)
            else FirstAvailable(b, available)
  {
    if a != [] {
      assert (a + b)[1..] == a[1..] + b;
      FirstAvailableAppend(a[1..], b, available);
    } else {
      assert a + b == b;
    }
  }

  /** The if-ladder recommends exactly the first available model of the preference order. */
  lemma LadderFollowsPreferences(caps: Capabilities, available: seq<string>)
    ensures Ladder(caps, available).model == Preferred(caps, available)
  {
    var ram := RamBytes(caps);
    var gpu := if caps.hasGpu then GpuPreferences(ram) else [];
    assert Preferences(caps) == gpu + RamPreferences(ram) + ["tiny", "base"];
    FirstAvailableAppend(gpu + RamPreferences(ram), ["tiny", "base"], available);
    FirstAvailableAppend(gpu, RamPreferences(ram), available);
    if caps.hasGpu {
      GpuStage(ram, available);
    }
    RamStage(ram, available);
  }

  /** The GPU branch of the ladder, as the first available GPU preference. */
  lemma GpuStage(ram: nat, available: seq<string>)
    ensures FirstAvailable(GpuPreferences(ram), available) ==
            if "large-v3" in available && ram >= 8 * GiB then Some("large-v3")
            else if "large-v2" in available && ram >= 8 * GiB then Some("large-v2")
            else if "medium" in available && ram >= 4 * GiB then Some("medium")
            else if "small" in available then Some("small")
            else None
  {
    var big: seq<string> := if ram >= 8 * GiB then ["large-v3", "large-v2"] else [];
    var mid: seq<string> := if ram >= 4 * GiB then ["medium"] else [];
    assert GpuPreferences(ram) == big + mid + ["small"];
    FirstAvailableAppend(big + mid, ["small"], available);
    FirstAvailableAppend(big, mid, available);
  }

  /** The RAM branch of the ladder, as the first available RAM-tier preference. */
  lemma RamStage(ram: nat, available: seq<string>)
    ensures FirstAvailable(RamPreferences(ram), available) ==
            if ram >= 8 * GiB && "medium" in available then Some("medium")
            else if ram >= 8 * GiB && "small" in available then Some("small")
            else if 4 * GiB <= ram < 8 * GiB && "small" in available then Some("small")
            else if 4 * GiB <= ram < 8 * GiB && "base" in available then Some("base")
            else None
  {
  }

  // ---------------------------------------------------------------------
  // Properties of the recommender.
  // ---------------------------------------------------------------------

  /**
   * The GPU tier in full: large-v3, then large-v2 (both only with 8 GiB of
   * RAM), then medium (with 4 GiB), then small (with no RAM condition); a
   * GPU host with none of these recommends as a host without a GPU would.
   */
  lemma GpuTier(ram: Option<nat>, available: seq<string>)
    ensures var bytes := RamBytes(Capabilities(true, ram));
            var r := Recommend(Some(Capabilities(true, ram)), available).model;
            if "large-v3" in available && bytes >= 8 * GiB then r == Some("large-v3")
            else if "large-v2" in available && bytes >= 8 * GiB then r == Some("large-v2")
            else if "medium" in available && bytes >= 4 * GiB then r == Some("medium")
            else if "small" in available then r == Some("small")
            else r == Recommend(Some(Capabilities(false, ram)), available).model
  {
  }

  /**
   * Without a GPU: with 8 GiB, medium then small; with 4 to 8 GiB, small
   * then base; then tiny, then base, then the first available model.
   */
  lemma CpuLadder(ram: Option<nat>, available: seq<string>)
    ensures var bytes := RamBytes(Capabilities(false, ram));
            var r := Recommend(Some(Capabilities(false, ram)), available).model;
            if bytes >= 8 * GiB && "medium" in available then r == Some("medium")
            else if bytes >= 8 * GiB && "small" in available then r == Some("small")
            else if 4 * GiB <= bytes < 8 * GiB && "small" in available then r == Some("small")
            else if 4 * GiB <= bytes < 8 * GiB && "base" in available then r == Some("base")
            else if "tiny" in available then r == Some("tiny")
            else if "base" in available then r == Some("base")
            else if available != [] then r == Some(available[0])
            else r == None
  {
  }

  /** A failed RAM probe is treated exactly like a host with 4 GiB available. */
  lemma FailedRamProbeIsFourGiB(hasGpu: bool, available: seq<string>)
    ensures Recommend(Some(Capabilities(hasGpu, None)), available) ==
            Recommend(Some(Capabilities(hasGpu, Some(4 * GiB))), available)
  {
  }

  /** When the probing raises, the first available model is recommended. */
  lemma ExceptionPathFirstAvailable(available: seq<string>)
    requires available != []
    ensures Recommend(None, available).model == Some(available[0])
  {
  }

  /** With only "tiny" on disk, "tiny" is recommended whatever the GPU and RAM. */
  lemma {:induction false} OnlyTinyGivesTiny(probe: Option<Capabilities>)
    ensures Recommend(probe, ["tiny"]).model == Some("tiny")
  {
    if probe.Some? {
      LadderFollowsPreferences(probe.value, ["tiny"]);
      var prefs := Preferences(probe.value);
      assert prefs[|prefs| - 2] == "tiny";
      var r := FirstAvailable(prefs, ["tiny"]);
      assert r.Some?;
      assert r.value in ["tiny"];
    }
  }

  /** With an empty model directory there is no recommendation. */
  lemma EmptyDirectoryNoRecommendation(probe: Option<Capabilities>)
    ensures RecommendFor(probe, {}).model == None
  {
  }
}
