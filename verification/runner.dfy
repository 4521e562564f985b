/** `run_pipeline`: translate the pipeline, optionally mirror its images
    into the project's registry, choose the job name and submit. The SDK
    call that turns a pipeline function into a component is replaced by
    the root task it produces; the clock, the registry and the remote
    build are parameters. */
module Runner {
  import opened Results
  import opened Text
  import opened JobSpec
  import opened Translator
  import opened ImageMirroring
  import opened JobNames
  import opened JobsApi

  datatype RunError = Translation(error: TranslationError) | Mirroring(mirrorError: MirrorError)

  function RunPipeline(
    root: TaskSpec, pipelineRoot: string, pipelineContext: string, resolve: Resolver,
    mirrorImages: bool, project: string, host: string, jobName: Option<string>, now: string,
    mirrorExists: string -> bool, buildError: Option<string>): (r: Result<Submission, RunError>)
    ensures CreatePipelineJob(root, pipelineRoot, pipelineContext, resolve).Failure? ==>
      r == Failure(Translation(CreatePipelineJob(root, pipelineRoot, pipelineContext, resolve).error))
    ensures r.Success? ==>
      && CreatePipelineJob(root, pipelineRoot, pipelineContext, resolve).Success?
      && r.value.request.Post?
      && r.value.request.url == NewApi(project, host).urlPrefix
      && r.value.request.body.name == FullJobName(project, ChooseJobName(jobName, now))
      && r.value.handle == JobObject(NewApi(project, host), ChooseJobName(jobName, now))
    ensures r.Success? && !mirrorImages ==>
      r.value.request.body.spec == CreatePipelineJob(root, pipelineRoot, pipelineContext, resolve).value.spec
    ensures r.Success? && mirrorImages ==>
      && MirrorStage(CreatePipelineJob(root, pipelineRoot, pipelineContext, resolve).value, project, mirrorExists, buildError).Success?
      && r.value.request.body.spec ==
           MirrorStage(CreatePipelineJob(root, pipelineRoot, pipelineContext, resolve).value, project, mirrorExists, buildError).value.spec
    ensures r.Success? ==>
      var compiled := CreatePipelineJob(root, pipelineRoot, pipelineContext, resolve).value;
      var submitted := if mirrorImages then MirrorStage(compiled, project, mirrorExists, buildError).value else compiled;
      r.value.request.body == submitted.(name := FullJobName(project, ChooseJobName(jobName, now)))
    ensures r.Success? ==>
      && r.value.request.body.pipelineRoot == pipelineRoot
      && r.value.request.body.displayName == CreatePipelineJob(root, pipelineRoot, pipelineContext, resolve).value.displayName
    ensures r.Failure? && r.error.Mirroring? ==> mirrorImages
  {
    var compiled :- MapTranslation(CreatePipelineJob(root, pipelineRoot, pipelineContext, resolve));
    var job :- if mirrorImages then MirrorStage(compiled, project, mirrorExists, buildError) else Success(compiled);
    var name := ChooseJobName(jobName, now);
    Success(SubmitJob(NewApi(project, host), job, name))
  }

  function MapTranslation(r: Result<PipelineJob, TranslationError>): (m: Result<PipelineJob, RunError>)
    ensures r.Success? <==> m.Success?
    ensures r.Success? ==> m.value == r.value
    ensures r.Failure? ==> m.error == Translation(r.error)
  {
    match r
    case Success(job) => Success(job)
    case Failure(e) => Failure(Translation(e))
  }

  /** The mirroring call with the prefix `gcr.io/{project}/mirror/`. */
  function MirrorStage(job: PipelineJob, project: string, mirrorExists: string -> bool, buildError: Option<string>): (m: Result<PipelineJob, RunError>)
    ensures var r := MirrorAndReplace(job, MirrorPrefix(project), mirrorExists, buildError);
      && (m.Success? <==> r.Success?)
      && (m.Success? ==> m.value == r.value.job)
      && (m.Failure? ==> m.error == Mirroring(r.error))
  {
    match MirrorAndReplace(job, MirrorPrefix(project), mirrorExists, buildError)
    case Success(outcome) => Success(outcome.job)
    case Failure(e) => Failure(Mirroring(e))
  }

  /** With mirroring on, every image of the submitted document is under
      `gcr.io/`. */
  lemma SubmittedImagesTrusted(
    root: TaskSpec, pipelineRoot: string, pipelineContext: string, resolve: Resolver,
    project: string, host: string, jobName: Option<string>, now: string,
    mirrorExists: string -> bool, buildError: Option<string>)
    requires RunPipeline(root, pipelineRoot, pipelineContext, resolve, true, project, host, jobName, now, mirrorExists, buildError).Success?
    ensures var body := RunPipeline(root, pipelineRoot, pipelineContext, resolve, true, project, host, jobName, now, mirrorExists, buildError).value.request.body;
      forall image :: image in UsedImages(body) ==> StartsWith(image, TrustedPrefix)
  {
    var compiled := CreatePipelineJob(root, pipelineRoot, pipelineContext, resolve).value;
    var mirrored := MirrorStage(compiled, project, mirrorExists, buildError).value;
    var body := RunPipeline(root, pipelineRoot, pipelineContext, resolve, true, project, host, jobName, now, mirrorExists, buildError).value.request.body;
    MirroredImagesTrusted(compiled, project);
    assert UsedImages(body) == UsedImages(mirrored) by {
      assert body.spec == mirrored.spec;
    }
  }
}
