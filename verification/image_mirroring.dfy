/** Mirroring of container images (`_image_mirroring.py`): every image of
    the job that is not already hosted under `gcr.io/` gets a mirror name,
    missing mirrors are created by one remote build, and the job is
    rewritten to use the mirror names. Whether a mirror exists and how the
    remote build ends are I/O and are passed in. */
module ImageMirroring {
  import opened Results
  import opened Text
  import opened JobSpec

  const TrustedPrefix: string := "gcr.io/"

  /** The set of images used by the steps of the job. */
  function UsedImages(job: PipelineJob): (images: set<string>)
    ensures forall id :: id in job.spec.steps ==> ImageOf(job.spec.steps[id]) in images
    ensures forall image :: image in images ==>
      exists id :: id in job.spec.steps && ImageOf(job.spec.steps[id]) == image
  {
    set id | id in job.spec.steps :: ImageOf(job.spec.steps[id])
  }

  /** Each used image outside `gcr.io/` mapped to `prefix + image`. */
  function ReplacementMap(images: set<string>, prefix: string): (m: map<string, string>)
    ensures forall image :: image in m <==> image in images && !StartsWith(image, TrustedPrefix)
    ensures forall image :: image in m ==> m[image] == prefix + image
  {
    map image | image in images && !StartsWith(image, TrustedPrefix) :: prefix + image
  }

  /** `m.get(image, image)` */
  function Lookup(m: map<string, string>, image: string): string {
    if image in m then m[image] else image
  }

  /** `a` and `b` agree on everything except the step images. */
  ghost predicate SameExceptImages(a: PipelineJob, b: PipelineJob) {
    && a.name == b.name
    && a.displayName == b.displayName
    && a.pipelineRoot == b.pipelineRoot
    && a.spec.pipelineContext == b.spec.pipelineContext
    && a.spec.steps.Keys == b.spec.steps.Keys
    && forall id :: id in a.spec.steps ==>
      var s, t := a.spec.steps[id].task, b.spec.steps[id].task;
      && s.container.command == t.container.command
      && s.inputs == t.inputs
      && s.outputs == t.outputs
  }

  /** The rewrite works on a copy: the result is a new document in which
      every step image is looked up in the map, and nothing else differs. */
  function ReplaceUsedImages(job: PipelineJob, m: map<string, string>): (r: PipelineJob)
    ensures SameExceptImages(job, r)
    ensures forall id :: id in job.spec.steps ==>
      ImageOf(r.spec.steps[id]) == Lookup(m, ImageOf(job.spec.steps[id]))
  {
    var steps := job.spec.steps;
    var replaced := map id | id in steps :: WithImage(steps[id], Lookup(m, ImageOf(steps[id])));
    job.(spec := job.spec.(steps := replaced))
  }

  /** Two documents that agree everywhere, images included, are equal. */
  lemma SameDocument(a: PipelineJob, b: PipelineJob)
    requires SameExceptImages(a, b)
    requires forall id :: id in a.spec.steps ==> ImageOf(a.spec.steps[id]) == ImageOf(b.spec.steps[id])
    ensures a == b
  {
    forall id | id in a.spec.steps ensures a.spec.steps[id] == b.spec.steps[id] {
      var s, t := a.spec.steps[id].task, b.spec.steps[id].task;
      assert s.container == t.container;
    }
    assert a.spec.steps == b.spec.steps;
  }

  /** The sub-map of replacements whose mirror does not exist yet. */
  function ImagesToMirror(replacements: map<string, string>, mirrorExists: string -> bool): (m: map<string, string>)
    ensures forall image :: image in m <==> image in replacements && !mirrorExists(replacements[image])
    ensures forall image :: image in m ==> m[image] == replacements[image]
  {
    map image | image in replacements && !mirrorExists(replacements[image]) :: replacements[image]
  }

  datatype MirrorError = RuntimeError(message: string)

  /** What a mirroring pass did: the images it asked the remote build to
      copy, whether it submitted a build, and the rewritten document. */
  datatype MirrorOutcome = MirrorOutcome(toMirror: map<string, string>, buildSubmitted: bool, job: PipelineJob)

  /** `mirror_and_replace_container_images`. `buildError` is the remote
      build's error output when it fails. */
  function MirrorAndReplace(job: PipelineJob, prefix: string, mirrorExists: string -> bool, buildError: Option<string>): (r: Result<MirrorOutcome, MirrorError>)
    ensures var replacements := ReplacementMap(UsedImages(job), prefix);
      var toMirror := ImagesToMirror(replacements, mirrorExists);
      && (r.Failure? <==> toMirror != map[] && buildError.Some?)
      && (r.Failure? ==> r.error == RuntimeError("Image mirroring failed: STDERR=" + buildError.value))
      && (r.Success? ==>
            && r.value.toMirror == toMirror
            && (r.value.buildSubmitted <==> toMirror != map[])
            && r.value.job == ReplaceUsedImages(job, replacements))
  {
    var replacements := ReplacementMap(UsedImages(job), prefix);
    var toMirror := ImagesToMirror(replacements, mirrorExists);
    if toMirror != map[] && buildError.Some? then
      Failure(RuntimeError("Image mirroring failed: STDERR=" + buildError.value))
    else
      Success(MirrorOutcome(toMirror, toMirror != map[], ReplaceUsedImages(job, replacements)))
  }

  /** The mirror prefix `run_pipeline` passes. */
  function MirrorPrefix(project: string): string {
    "gcr.io/" + project + "/mirror/"
  }

  lemma MirrorPrefixTrusted(project: string, image: string)
    ensures StartsWith(MirrorPrefix(project) + image, TrustedPrefix)
  {
    assert (MirrorPrefix(project) + image)[..|TrustedPrefix|] == TrustedPrefix;
  }

  /** Images under `gcr.io/` are kept, every other image becomes
      `prefix + image`: each image is rewritten at most once. */
  lemma MirroredImages(job: PipelineJob, prefix: string)
    ensures var r := ReplaceUsedImages(job, ReplacementMap(UsedImages(job), prefix));
      forall id :: id in job.spec.steps ==>
        var image := ImageOf(job.spec.steps[id]);
        ImageOf(r.spec.steps[id]) == if StartsWith(image, TrustedPrefix) then image else prefix + image
  {
  }

  /** With the prefix `run_pipeline` uses, every image of the rewritten
      document is under `gcr.io/`. */
  lemma MirroredImagesTrusted(job: PipelineJob, project: string)
    ensures var r := ReplaceUsedImages(job, ReplacementMap(UsedImages(job), MirrorPrefix(project)));
      forall image :: image in UsedImages(r) ==> StartsWith(image, TrustedPrefix)
  {
    var prefix := MirrorPrefix(project);
    var r := ReplaceUsedImages(job, ReplacementMap(UsedImages(job), prefix));
    MirroredImages(job, prefix);
    forall image | image in UsedImages(r) ensures StartsWith(image, TrustedPrefix) {
      var id :| id in r.spec.steps && ImageOf(r.spec.steps[id]) == image;
      var old_ := ImageOf(job.spec.steps[id]);
      if !StartsWith(old_, TrustedPrefix) {
        MirrorPrefixTrusted(project, old_);
      }
    }
  }

  lemma NothingToReplace(images: set<string>, prefix: string)
    requires forall image :: image in images ==> StartsWith(image, TrustedPrefix)
    ensures ReplacementMap(images, prefix) == map[]
  {
    var m := ReplacementMap(images, prefix);
    assert m.Keys == {};
  }

  lemma ReplaceWithNothing(job: PipelineJob)
    ensures ReplaceUsedImages(job, map[]) == job
  {
    SameDocument(job, ReplaceUsedImages(job, map[]));
  }

  /** A document whose images are all under `gcr.io/` passes through
      mirroring untouched, with no build. */
  lemma TrustedJobUnchanged(job: PipelineJob, prefix: string, mirrorExists: string -> bool, buildError: Option<string>)
    requires forall image :: image in UsedImages(job) ==> StartsWith(image, TrustedPrefix)
    ensures MirrorAndReplace(job, prefix, mirrorExists, buildError) == Success(MirrorOutcome(map[], false, job))
  {
    NothingToReplace(UsedImages(job), prefix);
    assert ImagesToMirror(map[], mirrorExists) == map[];
    ReplaceWithNothing(job);
  }

  /** A second pass with the same `gcr.io/` prefix finds nothing to
      replace, submits no build and returns the document unchanged. */
  lemma SecondPassChangesNothing(job: PipelineJob, project: string, mirrorExists: string -> bool, buildError: Option<string>)
    requires MirrorAndReplace(job, MirrorPrefix(project), mirrorExists, buildError).Success?
    ensures var once := MirrorAndReplace(job, MirrorPrefix(project), mirrorExists, buildError).value.job;
      MirrorAndReplace(once, MirrorPrefix(project), mirrorExists, buildError) == Success(MirrorOutcome(map[], false, once))
  {
    var prefix := MirrorPrefix(project);
    var once := MirrorAndReplace(job, prefix, mirrorExists, buildError).value.job;
    assert once == ReplaceUsedImages(job, ReplacementMap(UsedImages(job), prefix));
    MirroredImagesTrusted(job, project);
    TrustedJobUnchanged(once, prefix, mirrorExists, buildError);
  }

  /** The example of a single step using `docker.io/x`. */
  lemma SingleStepExample(step: Step, prefix: string)
    requires ImageOf(step) == "docker.io/x"
    ensures var job := PipelineJob(PipelineSpec(map["step" := step], "Default"), "", "", "");
      var r := ReplaceUsedImages(job, ReplacementMap(UsedImages(job), prefix));
      ImageOf(r.spec.steps["step"]) == prefix + "docker.io/x"
  {
    var job := PipelineJob(PipelineSpec(map["step" := step], "Default"), "", "", "");
    assert ImageOf(job.spec.steps["step"]) == "docker.io/x";
    assert UsedImages(job) == {"docker.io/x"};
    assert !StartsWith("docker.io/x", TrustedPrefix) by {
      assert "docker.io/x"[0] != TrustedPrefix[0];
    }
  }

  // ---------------------------------------------------------------------
  // The remote build that copies the images

  datatype BuildStep = BuildStep(name: string, waitFor: seq<string>, entrypoint: string, args: seq<string>)

  datatype BuildConfig = BuildConfig(steps: seq<BuildStep>, images: seq<string>)

  function PullCommand(src: string): string {
    "docker pull --quiet " + src
  }

  function TagCommand(src: string, dst: string): string {
    "docker tag " + src + " " + dst
  }

  /** One build step: in the docker builder, with no wait on earlier steps,
      run `bash -exc` on the pull and tag commands joined by a newline. */
  function MirrorStep(src: string, dst: string): (s: BuildStep)
    ensures s.name == "gcr.io/cloud-builders/docker"
    ensures s.waitFor == ["-"]
    ensures s.entrypoint == "bash"
    ensures |s.args| == 2 && s.args[0] == "-exc"
    ensures NoNewline(src) && NoNewline(dst) ==> SplitLines(s.args[1]) == [PullCommand(src), TagCommand(src, dst)]
  {
    var script := PullCommand(src) + "\n" + TagCommand(src, dst);
    ScriptHasTwoLines(src, dst);
    BuildStep("gcr.io/cloud-builders/docker", ["-"], "bash", ["-exc", script])
  }

  lemma ScriptHasTwoLines(src: string, dst: string)
    ensures NoNewline(src) && NoNewline(dst) ==>
      SplitLines(PullCommand(src) + "\n" + TagCommand(src, dst)) == [PullCommand(src), TagCommand(src, dst)]
  {
    if NoNewline(src) && NoNewline(dst) {
      var pull, tag := PullCommand(src), TagCommand(src, dst);
      NoNewlineAppend("docker pull --quiet ", src);
      NoNewlineAppend("docker tag ", src);
      NoNewlineAppend("docker tag " + src, " ");
      NoNewlineAppend("docker tag " + src + " ", dst);
      IndexOfAfterLine(pull, tag);
      var s := pull + "\n" + tag;
      assert s[..|pull|] == pull;
      assert s[|pull| + 1..] == tag;
      var j := IndexOf(tag, '\n');
      assert forall k :: 0 <= k < |tag| ==> tag[k] != '\n';
      assert j == |tag|;
      assert SplitLines(tag) == [tag];
    }
  }

  /** The build configuration as written: the `return` sits inside the
      loop, so only the first mirror is built, and no mirrors gives no
      configuration at all. */
  function PrepareBuildConfig(mirrors: seq<(string, string)>): (r: Option<BuildConfig>)
    ensures r.None? <==> mirrors == []
    ensures r.Some? ==> |r.value.steps| == 1 && r.value.images == [mirrors[0].1]
    ensures r.Some? ==> r.value.steps[0] == MirrorStep(mirrors[0].0, mirrors[0].1)
  {
    if mirrors == [] then None
    else Some(BuildConfig([MirrorStep(mirrors[0].0, mirrors[0].1)], [mirrors[0].1]))
  }

  /** The input that shows it: of two mirrors, the second is never built. */
  lemma SecondMirrorDropped(a: string, b: string, c: string, d: string)
    requires b != d
    ensures d !in PrepareBuildConfig([(a, b), (c, d)]).value.images
  {
  }

  /** Both halves together: with two steps whose untrusted images have no
      mirror yet, the rewritten document runs both mirrored images, while
      the configuration built for the two copies pushes only the first. */
  lemma DocumentOutrunsBuild(job: PipelineJob, prefix: string, mirrorExists: string -> bool, idx: string, idy: string)
    requires idx in job.spec.steps && idy in job.spec.steps
    requires var x, y := ImageOf(job.spec.steps[idx]), ImageOf(job.spec.steps[idy]);
      && !StartsWith(x, TrustedPrefix) && !StartsWith(y, TrustedPrefix) && x != y
      && !mirrorExists(prefix + x) && !mirrorExists(prefix + y)
    ensures var x, y := ImageOf(job.spec.steps[idx]), ImageOf(job.spec.steps[idy]);
      var r := MirrorAndReplace(job, prefix, mirrorExists, None);
      && r.Success?
      && ImageOf(r.value.job.spec.steps[idx]) == prefix + x
      && ImageOf(r.value.job.spec.steps[idy]) == prefix + y
      && r.value.toMirror[x] == prefix + x && r.value.toMirror[y] == prefix + y
      && prefix + y !in PrepareBuildConfig([(x, prefix + x), (y, prefix + y)]).value.images
  {
    var x, y := ImageOf(job.spec.steps[idx]), ImageOf(job.spec.steps[idy]);
    MirroredImages(job, prefix);
    assert x in UsedImages(job) && y in UsedImages(job);
    assert prefix + x != prefix + y by {
      assert (prefix + x)[|prefix|..] == x && (prefix + y)[|prefix|..] == y;
    }
  }

  /** The configuration the loop was meant to build: one step and one
      pushed image per mirror, in order. */
  function PrepareBuildConfigIntended(mirrors: seq<(string, string)>): (r: BuildConfig)
    ensures |r.steps| == |mirrors| && |r.images| == |mirrors|
    ensures forall i :: 0 <= i < |mirrors| ==>
      r.steps[i] == MirrorStep(mirrors[i].0, mirrors[i].1) && r.images[i] == mirrors[i].1
  {
    if mirrors == [] then BuildConfig([], [])
    else
      var rest := PrepareBuildConfigIntended(mirrors[1..]);
      BuildConfig([MirrorStep(mirrors[0].0, mirrors[0].1)] + rest.steps, [mirrors[0].1] + rest.images)
  }

  /** Every mirror destination is built by the intended configuration. */
  lemma IntendedBuildsAll(mirrors: seq<(string, string)>)
    ensures forall i :: 0 <= i < |mirrors| ==> mirrors[i].1 in PrepareBuildConfigIntended(mirrors).images
  {
    var r := PrepareBuildConfigIntended(mirrors);
    forall i | 0 <= i < |mirrors| ensures mirrors[i].1 in r.images {
      assert r.images[i] == mirrors[i].1;
    }
  }
}
