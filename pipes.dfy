/**
 * The generation pipeline wrapper of daemon/src/core/pipes.py: the size
 * filter, the name-to-scheduler table, and the SDPipes object that caches
 * the loaded model and the embedded prompts and, on each job, resumes the
 * chain load model -> update prompt -> generate -> highres passes -> done
 * from the first stage whose cached input changed.
 *
 * Model loading, prompt embedding and inference are library work; an
 * image is a symbolic record of how it was made, and the names passed to
 * `state.write_state` are returned as a sequence.
 */
module Pipes {
  import opened Wrappers

  // ---------------------------------------------------------------- sizes

  /** A width or height value as a Python object: an int, a bool (an int subclass), or anything else. */
  datatype SizeArg = IntArg(n: int) | BoolArg(b: bool) | OtherArg

  /** filter_image_size. */
  function FilterImageSize(v: SizeArg): (r: int)
    ensures r >= 0 && r % 8 == 0
  {
    match v
    case IntArg(n) => FilterInt(n)
    case BoolArg(b) => FilterInt(if b then 1 else 0)
    case OtherArg => 16
  }

  function FilterInt(n: int): (r: int)
    ensures r >= 0 && r % 8 == 0
  {
    if n < 0 then 16
    else if n % 8 != 0 then (n / 8 + 1) * 8
    else n
  }

  /** A non-negative int is rounded up to the least multiple of 8 not below it. */
  lemma FilterRoundsUp(n: int)
    requires n >= 0
    ensures n <= FilterImageSize(IntArg(n)) < n + 8
    ensures forall m :: n <= m && m % 8 == 0 ==> FilterImageSize(IntArg(n)) <= m
  {
    var r := FilterImageSize(IntArg(n));
    forall m | n <= m && m % 8 == 0
      ensures r <= m
    {
      if n % 8 != 0 {
        assert m / 8 * 8 == m;
        assert n / 8 < m / 8;
      }
    }
  }

  /** Everything that is not a non-negative int or a bool becomes 16. */
  lemma FilterFallback(v: SizeArg)
    ensures (v.OtherArg? || (v.IntArg? && v.n < 0)) ==> FilterImageSize(v) == 16
    ensures FilterImageSize(IntArg(0)) == 0
    ensures FilterImageSize(BoolArg(true)) == 8 && FilterImageSize(BoolArg(false)) == 0
  {
  }

  /** Filtering a filtered size changes nothing. */
  lemma FilterIdempotent(v: SizeArg)
    ensures FilterImageSize(IntArg(FilterImageSize(v))) == FilterImageSize(v)
  {
  }

  // ------------------------------------------------------------ schedulers

  datatype SchedulerKind =
    | DPMSolverMultistep | DPMSolverSinglestep | EulerDiscrete | EulerAncestralDiscrete
    | LMSDiscrete | HeunDiscrete | DDIM | DDIMInverse | DDPM | PNDM | IPNDM

  /**
   * A scheduler object: its class, and the attributes set on it after it
   * was built from a config (None: whatever that config says).
   */
  datatype Scheduler = Scheduler(
    kind: SchedulerKind,
    solverOrder: Option<nat>,
    algorithmType: Option<string>,
    predictionType: Option<string>,
    karras: Option<bool>)

  /** The scheduler _load_model installs: DPM-Solver multistep predicting samples, with Karras sigmas. */
  const DefaultScheduler: Scheduler := Scheduler(DPMSolverMultistep, None, None, Some("sample"), Some(true))

  const DpmAlgorithm: string := "dpmsolver++"

  /** The names _update_sampling_method recognises. */
  const SamplingNames: set<string> := {
    "Euler", "Euler A", "LMS", "Heun", "DDIM", "DDIM Inverse", "DDPM",
    "DPM++ 2S", "DPM++ 2M", "DPM++ 2M Karras", "DPM++ 3S", "DPM++ 3M", "DPM++ 3M Karras",
    "PNDM", "IPNDM"}

  function FromConfig(kind: SchedulerKind): Scheduler
  {
    Scheduler(kind, None, None, None, None)
  }

  function Dpm(kind: SchedulerKind, order: nat, karras: Option<bool>): Scheduler
  {
    Scheduler(kind, Some(order), Some(DpmAlgorithm), None, karras)
  }

  /**
   * The scheduler _update_sampling_method gives both pipelines for a name:
   * an unknown name keeps the default, a DPM-Solver entry sets the order
   * (2 or 3) and the algorithm "dpmsolver++" and never the prediction
   * type, and every other entry is its class built from the config with
   * nothing set afterwards.
   */
  function SchedulerFor(name: string): (s: Scheduler)
    ensures name !in SamplingNames ==> s == DefaultScheduler
    ensures s != DefaultScheduler && (s.kind == DPMSolverSinglestep || s.kind == DPMSolverMultistep) ==>
      && s.algorithmType == Some(DpmAlgorithm)
      && (s.solverOrder == Some(2) || s.solverOrder == Some(3))
      && s.predictionType.None?
    ensures !(s.kind == DPMSolverSinglestep || s.kind == DPMSolverMultistep) ==> s == FromConfig(s.kind)
  {
    if name == "Euler" then FromConfig(EulerDiscrete)
    else if name == "Euler A" then FromConfig(EulerAncestralDiscrete)
    else if name == "LMS" then FromConfig(LMSDiscrete)
    else if name == "Heun" then FromConfig(HeunDiscrete)
    else if name == "DDIM" then FromConfig(DDIM)
    else if name == "DDIM Inverse" then FromConfig(DDIMInverse)
    else if name == "DDPM" then FromConfig(DDPM)
    else if name == "DPM++ 2S" then Dpm(DPMSolverSinglestep, 2, None)
    else if name == "DPM++ 2M" then Dpm(DPMSolverMultistep, 2, Some(false))
    else if name == "DPM++ 2M Karras" then Dpm(DPMSolverMultistep, 2, Some(true))
    else if name == "DPM++ 3S" then Dpm(DPMSolverSinglestep, 3, None)
    else if name == "DPM++ 3M" then Dpm(DPMSolverMultistep, 3, Some(false))
    else if name == "DPM++ 3M Karras" then Dpm(DPMSolverMultistep, 3, Some(true))
    else if name == "PNDM" then FromConfig(PNDM)
    else if name == "IPNDM" then FromConfig(IPNDM)
    else DefaultScheduler
  }

  /** An unknown name, and only an unknown name, keeps the default scheduler. */
  lemma UnknownNameKeepsDefault(name: string)
    ensures SchedulerFor(name) == DefaultScheduler <==> name !in SamplingNames
  {
  }

  /** The table read backwards: the method name a scheduler the table builds was selected by. */
  function NameOf(s: Scheduler): Option<string>
  {
    match s.kind
    case EulerDiscrete => Some("Euler")
    case EulerAncestralDiscrete => Some("Euler A")
    case LMSDiscrete => Some("LMS")
    case HeunDiscrete => Some("Heun")
    case DDIM => Some("DDIM")
    case DDIMInverse => Some("DDIM Inverse")
    case DDPM => Some("DDPM")
    case PNDM => Some("PNDM")
    case IPNDM => Some("IPNDM")
    case DPMSolverSinglestep => Some(if s.solverOrder == Some(2) then "DPM++ 2S" else "DPM++ 3S")
    case DPMSolverMultistep =>
      if s.predictionType.Some? then None
      else if s.solverOrder == Some(2) then Some(if s.karras == Some(true) then "DPM++ 2M Karras" else "DPM++ 2M")
      else Some(if s.karras == Some(true) then "DPM++ 3M Karras" else "DPM++ 3M")
  }

  /** Every recognised name is recovered from the scheduler it selects. */
  lemma NameOfSchedulerFor(name: string)
    requires name in SamplingNames
    ensures NameOf(SchedulerFor(name)) == Some(name)
  {
    if name == "Euler" {} else if name == "Euler A" {} else if name == "LMS" {}
    else if name == "Heun" {} else if name == "DDIM" {} else if name == "DDIM Inverse" {}
    else if name == "DDPM" {} else if name == "DPM++ 2S" {} else if name == "DPM++ 2M" {}
    else if name == "DPM++ 2M Karras" {} else if name == "DPM++ 3S" {} else if name == "DPM++ 3M" {}
    else if name == "DPM++ 3M Karras" {} else if name == "PNDM" {} else {
      assert name == "IPNDM";
    }
  }

  /** No two recognised names select the same scheduler. */
  lemma SamplingTableInjective(a: string, b: string)
    requires a in SamplingNames && b in SamplingNames && a != b
    ensures SchedulerFor(a) != SchedulerFor(b)
  {
    NameOfSchedulerFor(a);
    NameOfSchedulerFor(b);
  }

  /** The name of a DPM-Solver++ method: order, S(inglestep) or M(ultistep), optional " Karras". */
  function DpmName(order: nat, multistep: bool, karras: bool): string
    requires order == 2 || order == 3
  {
    "DPM++ " + (if order == 2 then "2" else "3") + (if multistep then "M" else "S") + (if karras then " Karras" else "")
  }

  /**
   * A DPM-Solver++ name selects the scheduler it spells out; a singlestep
   * name with " Karras" is not in the table and keeps the default.
   */
  lemma DpmNamesSpellTheirConfig(order: nat, multistep: bool, karras: bool)
    requires order == 2 || order == 3
    ensures SchedulerFor(DpmName(order, multistep, karras)) ==
      if !multistep && karras then DefaultScheduler
      else Scheduler(
        if multistep then DPMSolverMultistep else DPMSolverSinglestep,
        Some(order), Some(DpmAlgorithm), None,
        if multistep then Some(karras) else None)
  {
    var name := DpmName(order, multistep, karras);
    var o := if order == 2 then "2" else "3";
    var m := if multistep then "M" else "S";
    var k := if karras then " Karras" else "";
    assert name == "DPM++ " + o + m + k;
    if order == 2 {
      if multistep {
        if karras { assert name == "DPM++ 2M Karras"; } else { assert name == "DPM++ 2M"; }
      } else {
        if karras { assert name == "DPM++ 2S Karras"; } else { assert name == "DPM++ 2S"; }
      }
    } else {
      if multistep {
        if karras { assert name == "DPM++ 3M Karras"; } else { assert name == "DPM++ 3M"; }
      } else {
        if karras { assert name == "DPM++ 3S Karras"; } else { assert name == "DPM++ 3S"; }
      }
    }
  }

  // ------------------------------------------------------------------ jobs

  datatype ModelRef = ModelRef(path: string, revision: Option<string>, variant: Option<string>)

  datatype HighresPass = HighresPass(width: SizeArg, height: SizeArg, strength: real)

  datatype Params = Params(
    prompt: string,
    negativePrompt: string,
    width: SizeArg,
    height: SizeArg,
    samplingSteps: int,
    cfgScale: real,
    samplingMethod: string,
    highresFix: seq<HighresPass>)

  /** The parts of `state` text_to_image reads: models_root and values. */
  datatype Job = Job(modelsRoot: string, model: ModelRef, params: Params)

  /** What the SDPipes object remembers between jobs. */
  datatype Cache = Cache(
    modelPath: Option<string>,
    modelRevision: Option<string>,
    modelVariant: Option<string>,
    promptText: string,
    negativePromptText: string)

  /** The cache of a fresh SDPipes: no model, both prompts ".". */
  const InitialCache: Cache := Cache(None, None, None, ".", ".")

  /** The stage a job starts from. */
  datatype Stage = LoadModel | UpdatePrompt | Generate

  function ModelPathFor(job: Job): string
  {
    job.modelsRoot + "/" + job.model.path
  }

  predicate ModelChanged(c: Cache, job: Job)
  {
    c.modelPath != Some(ModelPathFor(job))
    || c.modelRevision != job.model.revision
    || c.modelVariant != job.model.variant
  }

  predicate PromptChanged(c: Cache, job: Job)
  {
    c.promptText != job.params.prompt || c.negativePromptText != job.params.negativePrompt
  }

  /**
   * The stage choice of text_to_image: a job that does not reload runs on
   * the cached model, and one that only generates also on the cached
   * prompt texts.
   */
  function ResumeStage(c: Cache, job: Job): (s: Stage)
    ensures s != LoadModel ==>
      c.modelPath == Some(ModelPathFor(job)) && c.modelRevision == job.model.revision && c.modelVariant == job.model.variant
    ensures s == Generate ==>
      c.promptText == job.params.prompt && c.negativePromptText == job.params.negativePrompt
  {
    if ModelChanged(c, job) then LoadModel
    else if PromptChanged(c, job) then UpdatePrompt
    else Generate
  }

  /** Each stage is chosen exactly when its own input changed and no earlier one did. */
  lemma ResumeStageCases(c: Cache, job: Job)
    ensures ResumeStage(c, job) == LoadModel <==> ModelChanged(c, job)
    ensures ResumeStage(c, job) == UpdatePrompt <==> !ModelChanged(c, job) && PromptChanged(c, job)
    ensures ResumeStage(c, job) == Generate <==> !ModelChanged(c, job) && !PromptChanged(c, job)
  {
  }

  /** The first job after start-up always loads a model. */
  lemma FirstJobLoads(job: Job)
    ensures ResumeStage(InitialCache, job) == LoadModel
  {
  }

  /**
   * The cache after a job; the prompt cache's new texts come from the
   * prompt embedder. Afterwards the job's model is the cached one; the
   * prompt cache is refreshed unless the job only generated, in which case
   * nothing changes.
   */
  function CacheAfter(c: Cache, job: Job, promptAfter: string, negativeAfter: string): (r: Cache)
    ensures !ModelChanged(r, job)
    ensures ResumeStage(c, job) != Generate ==> r.promptText == promptAfter && r.negativePromptText == negativeAfter
    ensures ResumeStage(c, job) == Generate ==> r == c
  {
    match ResumeStage(c, job)
    case LoadModel =>
      Cache(Some(ModelPathFor(job)), job.model.revision, job.model.variant, promptAfter, negativeAfter)
    case UpdatePrompt => c.(promptText := promptAfter, negativePromptText := negativeAfter)
    case Generate => c
  }

  /**
   * When the embedder caches the prompt texts as given, repeating a job
   * goes straight to generation; the model is never reloaded by a repeat.
   */
  lemma RepeatedJobOnlyGenerates(c: Cache, job: Job, promptAfter: string, negativeAfter: string)
    ensures !ModelChanged(CacheAfter(c, job, promptAfter, negativeAfter), job)
    ensures promptAfter == job.params.prompt && negativeAfter == job.params.negativePrompt ==>
      ResumeStage(CacheAfter(c, job, promptAfter, negativeAfter), job) == Generate
  {
  }

  // ---------------------------------------------------------------- images

  /** An image, by how it was made; a generated image records the path of the model that made it. */
  datatype Image =
    | Generated(model: string, prompt: string, negativePrompt: string, width: int, height: int,
                steps: int, cfgScale: real, scheduler: Scheduler)
    | Refined(source: Image, width: int, height: int, steps: int, cfgScale: real,
              strength: real, scheduler: Scheduler)

  /** The highres passes `passes` applied in order to `img`. */
  function RefineAll(img: Image, passes: seq<HighresPass>, p: Params, s: Scheduler): Image
  {
    if |passes| == 0 then img
    else
      var hf := passes[|passes| - 1];
      Refined(RefineAll(img, passes[..|passes| - 1], p, s),
        FilterImageSize(hf.width), FilterImageSize(hf.height), p.samplingSteps, p.cfgScale, hf.strength, s)
  }

  /** The number of refinements between an image and its generation. */
  function Refinements(img: Image): nat
  {
    if img.Generated? then 0 else 1 + Refinements(img.source)
  }

  /** The generation an image was refined from. */
  function Origin(img: Image): (o: Image)
    ensures o.Generated?
  {
    if img.Generated? then img else Origin(img.source)
  }

  /** Each pass refines the image of the passes before it, so there are as many refinements as passes. */
  lemma {:induction false} RefineAllCount(img: Image, passes: seq<HighresPass>, p: Params, s: Scheduler)
    ensures Refinements(RefineAll(img, passes, p, s)) == Refinements(img) + |passes|
    ensures Origin(RefineAll(img, passes, p, s)) == Origin(img)
    decreases |passes|
  {
    if |passes| > 0 {
      RefineAllCount(img, passes[..|passes| - 1], p, s);
    }
  }

  /**
   * The image a job produces with the model at `model` from the cached
   * prompt texts: generated once by that model, then refined once per
   * highres pass.
   */
  function JobImage(p: Params, model: string, promptText: string, negativePromptText: string): (img: Image)
    ensures Refinements(img) == |p.highresFix|
    ensures Origin(img).model == model
    ensures Origin(img).prompt == promptText && Origin(img).negativePrompt == negativePromptText
  {
    var s := SchedulerFor(p.samplingMethod);
    var first := Generated(model, promptText, negativePromptText, FilterImageSize(p.width), FilterImageSize(p.height),
        p.samplingSteps, p.cfgScale, s);
    RefineAllCount(first, p.highresFix, p, s);
    RefineAll(first, p.highresFix, p, s)
  }

  /** Both dimensions are multiples of 8. */
  predicate SizedByFilter(img: Image)
  {
    img.width % 8 == 0 && img.height % 8 == 0 && img.width >= 0 && img.height >= 0
  }

  /** The final image has the size of the last highres pass, or of the params when there is none. */
  lemma JobImageSize(p: Params, model: string, promptText: string, negativePromptText: string)
    ensures var img := JobImage(p, model, promptText, negativePromptText);
      && SizedByFilter(img)
      && (|p.highresFix| == 0 ==> img.width == FilterImageSize(p.width) && img.height == FilterImageSize(p.height))
      && (|p.highresFix| > 0 ==>
          var last := p.highresFix[|p.highresFix| - 1];
          img.width == FilterImageSize(last.width) && img.height == FilterImageSize(last.height))
  {
  }

  // ---------------------------------------------------------- state writes

  /** The states the pipeline writes, in the order a full run writes them. */
  datatype StateName =
    | LoadModelState | UpdatePromptState | SetupParams | UpdateSampler | StartGenerate | Txt2Img
    | SetupHighresParams | StartHighresFix | HighresFix | Done

  /** The name passed to `state.write_state`. */
  function Label(n: StateName): string
  {
    match n
    case LoadModelState => "load_model"
    case UpdatePromptState => "update_prompt"
    case SetupParams => "setup_params"
    case UpdateSampler => "update_sampler"
    case StartGenerate => "start_generate"
    case Txt2Img => "txt2img"
    case SetupHighresParams => "setup_highres_params"
    case StartHighresFix => "start_highres_fix"
    case HighresFix => "highres_fix"
    case Done => "done"
  }

  /** Different states are written under different names. */
  lemma LabelsDistinct(a: StateName, b: StateName)
    ensures Label(a) == Label(b) <==> a == b
  {
  }

  /** The write_state names of the highres loop for `n` passes, before its final "done". */
  function HighresWrites(n: nat): seq<StateName>
  {
    if n == 0 then []
    else HighresWrites(n - 1) + [SetupHighresParams, StartHighresFix, HighresFix]
  }

  /**
   * The write_state names from generation on. The per-step progress
   * writes of the inference callbacks are not part of this sequence; the
   * final explicit callback of each generation is.
   */
  function GenerateWrites(p: Params): seq<StateName>
  {
    [SetupParams, UpdateSampler, StartGenerate, Txt2Img] + HighresWrites(|p.highresFix|) + [Done]
  }

  /** The names written before generation, by the stage a job starts from. */
  function StageWrites(s: Stage): seq<StateName>
  {
    match s
    case LoadModel => [LoadModelState, UpdatePromptState]
    case UpdatePrompt => [UpdatePromptState]
    case Generate => []
  }

  lemma {:induction false} HighresWritesCount(n: nat)
    ensures multiset(HighresWrites(n))[StartHighresFix] == n
    ensures multiset(HighresWrites(n))[Done] == 0
    ensures multiset(HighresWrites(n))[LoadModelState] == 0
  {
    if n > 0 {
      HighresWritesCount(n - 1);
    }
  }

  /**
   * A job writes "done" exactly once and last, starts one highres pass
   * per entry of highres_fix, and writes "load_model" exactly when it
   * starts from a model load.
   */
  lemma JobWrites(s: Stage, p: Params)
    ensures var w := StageWrites(s) + GenerateWrites(p);
      && w[|w| - 1] == Done && Label(w[|w| - 1]) == "done"
      && multiset(w)[Done] == 1
      && multiset(w)[StartHighresFix] == |p.highresFix|
      && multiset(w)[LoadModelState] == (if s == LoadModel then 1 else 0)
  {
    GenerateWritesCount(p);
    var w := StageWrites(s) + GenerateWrites(p);
    assert multiset(w) == multiset(StageWrites(s)) + multiset(GenerateWrites(p));
  }

  lemma GenerateWritesCount(p: Params)
    ensures multiset(GenerateWrites(p))[Done] == 1
    ensures multiset(GenerateWrites(p))[StartHighresFix] == |p.highresFix|
    ensures multiset(GenerateWrites(p))[LoadModelState] == 0
  {
    var head := [SetupParams, UpdateSampler, StartGenerate, Txt2Img];
    var h := HighresWrites(|p.highresFix|);
    HighresWritesCount(|p.highresFix|);
    assert multiset(GenerateWrites(p)) == multiset(head) + multiset(h) + multiset{Done};
  }

  /** Whatever the stage, the writes are a suffix of the writes of a full run from a model load. */
  lemma StagesAreSuffixes(s: Stage, p: Params)
    ensures var full := StageWrites(LoadModel) + GenerateWrites(p);
      var w := StageWrites(s) + GenerateWrites(p);
      |w| <= |full| && w == full[|full| - |w|..]
  {
  }

  // ---------------------------------------------------------------- SDPipes

  class SDPipes {
    var modelPath: Option<string>
    var modelRevision: Option<string>
    var modelVariant: Option<string>
    /** The text cached by the prompt and negative prompt embedders. */
    var promptText: string
    var negativePromptText: string
    /** Whether the txt2img and img2img pipelines exist. */
    var loaded: bool
    var txt2imgScheduler: Scheduler
    var img2imgScheduler: Scheduler

    /** Both pipelines share one scheduler, and a model path is cached exactly when a model is loaded. */
    ghost predicate Valid()
      reads this
    {
      txt2imgScheduler == img2imgScheduler && (loaded <==> modelPath.Some?)
    }

    function Cached(): Cache
      reads this
    {
      Cache(modelPath, modelRevision, modelVariant, promptText, negativePromptText)
    }

    constructor ()
      ensures Valid() && Cached() == InitialCache && !loaded
    {
      modelPath := None;
      modelRevision := None;
      modelVariant := None;
      promptText := ".";
      negativePromptText := ".";
      loaded := false;
      txt2imgScheduler := DefaultScheduler;
      img2imgScheduler := DefaultScheduler;
    }

    /** _load_model: both pipelines get the default scheduler and the model is cached. */
    method LoadPipelines(path: string, revision: Option<string>, variant: Option<string>)
      modifies this
      ensures Valid() && loaded
      ensures modelPath == Some(path) && modelRevision == revision && modelVariant == variant
      ensures txt2imgScheduler == DefaultScheduler
      ensures promptText == old(promptText) && negativePromptText == old(negativePromptText)
    {
      txt2imgScheduler := DefaultScheduler;
      img2imgScheduler := txt2imgScheduler;
      modelPath := Some(path);
      modelRevision := revision;
      modelVariant := variant;
      loaded := true;
    }

    /** _update_sampling_method: one scheduler from the table, for both pipelines. */
    method UpdateSamplingMethod(name: string)
      requires Valid() && loaded
      modifies this
      ensures Valid() && loaded
      ensures txt2imgScheduler == SchedulerFor(name)
      ensures Cached() == old(Cached())
    {
      var s := SchedulerFor(name);
      txt2imgScheduler := s;
      img2imgScheduler := s;
    }

    /** text_to_image. */
    method TextToImage(job: Job, promptAfter: string, negativeAfter: string) returns (img: Image, writes: seq<StateName>)
      requires Valid()
      modifies this
      ensures Valid() && loaded
      ensures var stage := ResumeStage(old(Cached()), job);
        writes == StageWrites(stage) + GenerateWrites(job.params)
      ensures Cached() == CacheAfter(old(Cached()), job, promptAfter, negativeAfter)
      ensures txt2imgScheduler == SchedulerFor(job.params.samplingMethod)
      ensures img == JobImage(job.params, ModelPathFor(job), promptText, negativePromptText)
    {
      if ModelChanged(Cached(), job) {
        img, writes := LoadModelStage(job, promptAfter, negativeAfter);
        return;
      }
      if PromptChanged(Cached(), job) {
        img, writes := UpdatePromptStage(job, promptAfter, negativeAfter);
        return;
      }
      img, writes := GenerateStage(job);
    }

    /** _txt2img_load_model. */
    method LoadModelStage(job: Job, promptAfter: string, negativeAfter: string) returns (img: Image, writes: seq<StateName>)
      modifies this
      ensures Valid() && loaded
      ensures writes == StageWrites(LoadModel) + GenerateWrites(job.params)
      ensures Cached() == Cache(Some(ModelPathFor(job)), job.model.revision, job.model.variant, promptAfter, negativeAfter)
      ensures txt2imgScheduler == SchedulerFor(job.params.samplingMethod)
      ensures img == JobImage(job.params, ModelPathFor(job), promptText, negativePromptText)
    {
      LoadPipelines(ModelPathFor(job), job.model.revision, job.model.variant);
      var rest;
      img, rest := UpdatePromptStage(job, promptAfter, negativeAfter);
      writes := [LoadModelState] + rest;
    }

    /** _txt2img_update_prompt. */
    method UpdatePromptStage(job: Job, promptAfter: string, negativeAfter: string) returns (img: Image, writes: seq<StateName>)
      requires Valid() && loaded
      modifies this
      ensures Valid() && loaded
      ensures writes == StageWrites(UpdatePrompt) + GenerateWrites(job.params)
      ensures Cached() == old(Cached()).(promptText := promptAfter, negativePromptText := negativeAfter)
      ensures txt2imgScheduler == SchedulerFor(job.params.samplingMethod)
      ensures img == JobImage(job.params, modelPath.value, promptText, negativePromptText)
    {
      promptText := promptAfter;
      negativePromptText := negativeAfter;
      var rest;
      img, rest := GenerateStage(job);
      writes := [UpdatePromptState] + rest;
    }

    /** _txt2img_generate. */
    method GenerateStage(job: Job) returns (img: Image, writes: seq<StateName>)
      requires Valid() && loaded
      modifies this
      ensures Valid() && loaded
      ensures writes == GenerateWrites(job.params)
      ensures Cached() == old(Cached())
      ensures txt2imgScheduler == SchedulerFor(job.params.samplingMethod)
      ensures img == JobImage(job.params, modelPath.value, promptText, negativePromptText)
    {
      var p := job.params;
      writes := [SetupParams];
      var width := FilterImageSize(p.width);
      var height := FilterImageSize(p.height);
      writes := writes + [UpdateSampler];
      UpdateSamplingMethod(p.samplingMethod);
      writes := writes + [StartGenerate];
      var first := Generated(modelPath.value, promptText, negativePromptText, width, height, p.samplingSteps, p.cfgScale, txt2imgScheduler);
      writes := writes + [Txt2Img];
      if |p.highresFix| > 0 {
        var rest;
        img, rest := HighresFixStage(p, first);
        writes := writes + rest;
        return;
      }
      writes := writes + [Done];
      img := first;
    }

    /** _txt2img_highres_fix: one resize-and-refine pass per entry, in order, then "done". */
    method HighresFixStage(p: Params, first: Image) returns (img: Image, writes: seq<StateName>)
      requires Valid()
      ensures img == RefineAll(first, p.highresFix, p, img2imgScheduler)
      ensures writes == HighresWrites(|p.highresFix|) + [Done]
    {
      img := first;
      writes := [];
      for c := 0 to |p.highresFix|
        invariant img == RefineAll(first, p.highresFix[..c], p, img2imgScheduler)
        invariant writes == HighresWrites(c)
      {
        var hf := p.highresFix[c];
        writes := writes + [SetupHighresParams];
        var w := FilterImageSize(hf.width);
        var h := FilterImageSize(hf.height);
        writes := writes + [StartHighresFix];
        assert p.highresFix[..c + 1][..c] == p.highresFix[..c];
        img := Refined(img, w, h, p.samplingSteps, p.cfgScale, hf.strength, img2imgScheduler);
        writes := writes + [HighresFix];
      }
      assert p.highresFix[..|p.highresFix|] == p.highresFix;
      writes := writes + [Done];
    }
  }

  /** The same job twice: the second run reuses the model and the prompts and only generates. */
  method SameJobTwice(job: Job) returns (first: seq<StateName>, second: seq<StateName>)
    ensures first == StageWrites(LoadModel) + GenerateWrites(job.params)
    ensures second == GenerateWrites(job.params)
  {
    var pipes := new SDPipes();
    var _, w1 := pipes.TextToImage(job, job.params.prompt, job.params.negativePrompt);
    RepeatedJobOnlyGenerates(InitialCache, job, job.params.prompt, job.params.negativePrompt);
    var _, w2 := pipes.TextToImage(job, job.params.prompt, job.params.negativePrompt);
    first, second := w1, w2;
  }
}
