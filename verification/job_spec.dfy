/** The job document the translator produces and the image mirroring
    rewrites: a job envelope around a map from step identifiers to steps. */
module JobSpec {
  import opened Artifacts

  /** `{'step_output': {'step': ..., 'output': ...}}`: an input bound to an
      output of another step. */
  datatype StepOutputRef = StepOutputRef(step: string, output: string)

  datatype Container = Container(image: string, command: seq<string>)

  /** An output entry: its artifact description and `outputUriConfig`'s
      `filePath` flag. */
  datatype OutputSpec = OutputSpec(artifact: map<string, Json>, filePath: bool)

  datatype StepTask = StepTask(
    container: Container,
    inputs: map<string, StepOutputRef>,
    outputs: map<string, OutputSpec>)

  datatype Step = Step(task: StepTask)

  datatype PipelineSpec = PipelineSpec(steps: map<string, Step>, pipelineContext: string)

  datatype PipelineJob = PipelineJob(
    spec: PipelineSpec,
    name: string,
    displayName: string,
    pipelineRoot: string)

  /** The image of a step. */
  function ImageOf(step: Step): string {
    step.task.container.image
  }

  /** `step` with its image replaced and nothing else changed. */
  function WithImage(step: Step, image: string): (r: Step)
    ensures ImageOf(r) == image
  {
    step.(task := step.task.(container := step.task.container.(image := image)))
  }
}
