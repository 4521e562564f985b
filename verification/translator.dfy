/** Translation of a task graph into the job document
    (`_create_caip_pipeline_spec_from_task_spec` and
    `_create_caip_pipeline_job_from_task_spec`). The component SDK's command
    resolution is not part of this model: it is passed in as `resolve`. */
module Translator {
  import opened Results
  import opened Dicts
  import opened Artifacts
  import opened JobSpec
  import opened CommandWrapper

  /** An argument of a task as the SDK hands it over. `OtherArgument` stands
      for every value of any other Python type. */
  datatype Argument =
    | StringArgument(value: string)
    | GraphInputArgument(inputName: string)
    | TaskOutputArgument(taskId: string, outputName: string)
    | OtherArgument

  /** An argument after resolution: inlined constant or output reference. */
  datatype ResolvedArgument =
    | ConstantArgument(value: string)
    | ReferenceArgument(ref: StepOutputRef)

  datatype Implementation =
    | ContainerImplementation(image: string)
    | GraphImplementation(tasks: Dict<string, TaskSpec>)
    | OtherImplementation

  datatype ComponentSpec = ComponentSpec(
    name: Option<string>,
    implementation: Implementation,
    outputs: Option<seq<OutputDecl>>)

  datatype TaskSpec = TaskSpec(component: ComponentSpec, arguments: Option<Dict<string, Argument>>)

  /** What the SDK's command resolution returns: command, args, and the
      local paths it chose for the inputs and outputs (name to path). */
  datatype ResolvedCommand = ResolvedCommand(
    command: seq<string>,
    args: seq<string>,
    inputPaths: Dict<string, string>,
    outputPaths: Dict<string, string>)

  type Resolver = (ComponentSpec, map<string, ResolvedArgument>) -> ResolvedCommand

  /** The exceptions the translation raises. `UnboundLocalError` is what
      Python raises when a non-container task comes before any container
      task. */
  datatype TranslationError = TypeError | KeyError(key: string) | UnboundLocalError

  // ---------------------------------------------------------------------
  // Arguments

  /** One argument: strings and graph inputs become constants, task outputs
      become references, anything else is a type error. A graph input names
      a top-level argument and fails with a key error if there is none. */
  function ResolveArgument(a: Argument, root: map<string, string>): Result<ResolvedArgument, TranslationError> {
    match a
    case StringArgument(v) => Success(ConstantArgument(v))
    case GraphInputArgument(n) => if n in root then Success(ConstantArgument(root[n])) else Failure(KeyError(n))
    case TaskOutputArgument(t, o) => Success(ReferenceArgument(StepOutputRef(t, o)))
    case OtherArgument => Failure(TypeError)
  }

  /** All arguments of a task in dictionary order. */
  function ResolveArguments(args: Dict<string, Argument>, root: map<string, string>): (r: Result<map<string, ResolvedArgument>, TranslationError>)
    ensures r.Success? <==> forall i :: 0 <= i < |args| ==> ResolveArgument(args[i].1, root).Success?
    ensures r.Success? ==> r.value.Keys == KeySet(args)
    ensures r.Success? ==> forall i :: 0 <= i < |args| ==> r.value[args[i].0] == ResolveArgument(args[i].1, root).value
    decreases |args|
  {
    if args == [] then Success(map[])
    else
      var front: Dict<string, Argument> := args[..|args| - 1];
      var (name, arg) := args[|args| - 1];
      assert forall i :: 0 <= i < |front| ==> front[i] == args[i];
      match ResolveArguments(front, root)
      case Failure(e) => Failure(e)
      case Success(m) =>
        match ResolveArgument(arg, root)
        case Failure(e) => Failure(e)
        case Success(v) =>
          assert forall i :: 0 <= i < |front| ==> front[i].0 != name;
          Success(m[name := v])
  }

  /** The exception raised is that of the first argument that fails. */
  lemma {:induction false} FirstFailingArgument(args: Dict<string, Argument>, root: map<string, string>)
    requires ResolveArguments(args, root).Failure?
    ensures exists i ::
              && 0 <= i < |args|
              && ResolveArgument(args[i].1, root) == Failure(ResolveArguments(args, root).error)
              && forall j :: 0 <= j < i ==> ResolveArgument(args[j].1, root).Success?
    decreases |args|
  {
    var front: Dict<string, Argument> := args[..|args| - 1];
    var last := |args| - 1;
    assert forall i :: 0 <= i < |front| ==> front[i] == args[i];
    if ResolveArguments(front, root).Failure? {
      FirstFailingArgument(front, root);
      var i :| && 0 <= i < |front|
               && ResolveArgument(front[i].1, root) == Failure(ResolveArguments(front, root).error)
               && forall j :: 0 <= j < i ==> ResolveArgument(front[j].1, root).Success?;
      assert ResolveArgument(args[i].1, root) == Failure(ResolveArguments(args, root).error);
    } else {
      assert ResolveArgument(args[last].1, root) == Failure(ResolveArguments(args, root).error);
    }
  }

  /** The constants among resolved arguments. */
  function ConstantArguments(resolved: map<string, ResolvedArgument>): (c: map<string, string>)
    ensures forall k :: k in c <==> k in resolved && resolved[k].ConstantArgument?
  {
    map k | k in resolved && resolved[k].ConstantArgument? :: resolved[k].value
  }

  /** The references among resolved arguments; these are the step inputs. */
  function ReferenceArguments(resolved: map<string, ResolvedArgument>): (refs: map<string, StepOutputRef>)
    ensures forall k :: k in refs <==> k in resolved && resolved[k].ReferenceArgument?
  {
    map k | k in resolved && resolved[k].ReferenceArgument? :: resolved[k].ref
  }

  /** Every resolved argument is a constant or a reference, never both. */
  lemma ArgumentsPartition(resolved: map<string, ResolvedArgument>)
    ensures ConstantArguments(resolved).Keys !! ReferenceArguments(resolved).Keys
    ensures ConstantArguments(resolved).Keys + ReferenceArguments(resolved).Keys == resolved.Keys
  {
  }

  /** The argument classification: a string goes to the constants, a graph
      input to the constants with the top-level argument's value, a task
      output to the references; anything else raises. */
  lemma ClassifyArgument(args: Dict<string, Argument>, root: map<string, string>, i: nat)
    requires i < |args|
    requires ResolveArguments(args, root).Success?
    ensures var resolved := ResolveArguments(args, root).value;
      var (name, arg) := args[i];
      && (arg.StringArgument? ==> ConstantArguments(resolved)[name] == arg.value)
      && (arg.GraphInputArgument? ==> arg.inputName in root && ConstantArguments(resolved)[name] == root[arg.inputName])
      && (arg.TaskOutputArgument? ==>
            ReferenceArguments(resolved)[name] == StepOutputRef(arg.taskId, arg.outputName))
      && !arg.OtherArgument?
  {
  }

  /** Every step input is named by an argument of the task, and the argument
      of that name is a task output with the same step and output names. */
  lemma ReferencesComeFromTaskOutputs(args: Dict<string, Argument>, root: map<string, string>)
    requires ResolveArguments(args, root).Success?
    ensures ReferenceArguments(ResolveArguments(args, root).value).Keys <= KeySet(args)
    ensures var refs := ReferenceArguments(ResolveArguments(args, root).value);
      forall i :: 0 <= i < |args| && args[i].0 in refs ==>
        args[i].1 == TaskOutputArgument(refs[args[i].0].step, refs[args[i].0].output)
  {
    var resolved := ResolveArguments(args, root).value;
    forall i | 0 <= i < |args| && args[i].0 in ReferenceArguments(resolved)
      ensures args[i].1 == TaskOutputArgument(ReferenceArguments(resolved)[args[i].0].step, ReferenceArguments(resolved)[args[i].0].output)
    {
      assert resolved[args[i].0] == ResolveArgument(args[i].1, root).value;
    }
  }

  // ---------------------------------------------------------------------
  // One step

  /** `{{$.inputs['name'].uri}}` and `{{$.outputs['name'].uri}}` */
  function UriPlaceholder(direction: string, name: string): (p: string)
    ensures |p| == |direction| + |name| + 14
    ensures p[..4] == "{{$." && p[4..4 + |direction|] == direction
    ensures p[4 + |direction|..6 + |direction|] == "['"
    ensures p[6 + |direction|..6 + |direction| + |name|] == name
    ensures p[6 + |direction| + |name|..] == "'].uri}}"
  {
    "{{$." + direction + "['" + name + "'].uri}}"
  }

  /** `{path: placeholder(name) for name, path in paths.items()}` */
  function PathUris(direction: string, paths: Dict<string, string>): (d: Dict<string, string>)
    ensures KeySet(d) == set i | 0 <= i < |paths| :: paths[i].1
  {
    var pairs := seq(|paths|, i requires 0 <= i < |paths| => (paths[i].1, UriPlaceholder(direction, paths[i].0)));
    assert KeySet(pairs) == set i | 0 <= i < |paths| :: paths[i].1 by {
      forall x | x in KeySet(pairs) ensures x in set i | 0 <= i < |paths| :: paths[i].1 {
        var i :| 0 <= i < |pairs| && pairs[i].0 == x;
        assert paths[i].1 == x;
      }
      forall x | x in set i | 0 <= i < |paths| :: paths[i].1 ensures x in KeySet(pairs) {
        var i :| 0 <= i < |paths| && paths[i].1 == x;
        assert pairs[i].0 == x;
      }
    }
    FromPairs(pairs)
  }

  /** The entry of one output: its artifact description, and a file path
      (not a directory) for its URI. */
  function OutputEntry(output: OutputDecl): (e: OutputSpec)
    ensures e.filePath
    ensures e.artifact == ArtifactSpec(output)
    ensures e.artifact[CustomProperties].fields["custom:name"] == StringValue(output.name)
  {
    OutputSpec(ArtifactSpec(output), true)
  }

  /** `{output.name: {...} for output in outputs}`: a later output with the
      same name replaces an earlier one. */
  function OutputsMap(outs: seq<OutputDecl>): (m: map<string, OutputSpec>)
    ensures m.Keys == Names(outs)
    ensures forall n :: n in m ==> m[n].filePath
  {
    LastByKeyAll(outs, (o: OutputDecl) => o.name, OutputEntry, (s: OutputSpec) => s.filePath);
    LastByKey(outs, (o: OutputDecl) => o.name, OutputEntry)
  }

  /** For outputs sharing a name, the last one declared determines the
      entry, as in a Python dict comprehension. */
  lemma OutputsMapLastWins(outs: seq<OutputDecl>, i: nat)
    requires i < |outs| && LastWithName(outs, i)
    ensures OutputsMap(outs)[outs[i].name] == OutputEntry(outs[i])
  {
    LastByKeyValue(outs, (o: OutputDecl) => o.name, OutputEntry, i);
  }

  ghost function Names(outs: seq<OutputDecl>): set<string> {
    set o | o in outs :: o.name
  }

  /** No later output of `outs` has the name of `outs[i]`. */
  ghost predicate LastWithName(outs: seq<OutputDecl>, i: nat)
    requires i < |outs|
  {
    forall j :: i < j < |outs| ==> outs[j].name != outs[i].name
  }

  /** The task entry of a container task. */
  function ContainerTask(component: ComponentSpec, image: string, resolved: map<string, ResolvedArgument>, resolve: Resolver): (t: StepTask)
    ensures t.container.image == image
    ensures t.inputs == ReferenceArguments(resolved)
    ensures t.outputs.Keys == Names(component.outputs.GetOr([]))
    ensures t.outputs == OutputsMap(component.outputs.GetOr([]))
    ensures var cmd := resolve(component, resolved);
      t.container.command == GenerateCommandLine(
        cmd.command + cmd.args,
        PathUris("inputs", cmd.inputPaths),
        PathUris("outputs", cmd.outputPaths))
  {
    var cmd := resolve(component, resolved);
    var command := GenerateCommandLine(
      cmd.command + cmd.args,
      PathUris("inputs", cmd.inputPaths),
      PathUris("outputs", cmd.outputPaths));
    StepTask(Container(image, command), ReferenceArguments(resolved), OutputsMap(component.outputs.GetOr([])))
  }

  /** One graph task. The arguments are resolved first, so their errors
      come first. A task that is not a container task gets the task entry
      of the last container task before it, as the source's loop variable
      still holds it; with none before it, the variable is unbound. */
  function TranslateTask(task: TaskSpec, root: map<string, string>, previous: Option<StepTask>, resolve: Resolver): (r: Result<StepTask, TranslationError>)
    ensures r.Success? <==>
      && ResolveArguments(task.arguments.GetOr([]), root).Success?
      && (task.component.implementation.ContainerImplementation? || previous.Some?)
    ensures r.Success? && task.component.implementation.ContainerImplementation? ==>
      && r.value.container.image == task.component.implementation.image
      && r.value.inputs == ReferenceArguments(ResolveArguments(task.arguments.GetOr([]), root).value)
    ensures r.Success? && !task.component.implementation.ContainerImplementation? ==> r.value == previous.value
  {
    var resolved :- ResolveArguments(task.arguments.GetOr([]), root);
    match task.component.implementation
    case ContainerImplementation(image) => Success(ContainerTask(task.component, image, resolved, resolve))
    case _ => if previous.Some? then Success(previous.value) else Failure(UnboundLocalError)
  }

  /** The source's loop over the graph's tasks: each element is translated
      with the entry of the element before it (or `previous` for the first)
      at hand, and the first failure ends the loop. */
  function Scan<X, T, E>(xs: seq<X>, previous: Option<T>, f: (X, Option<T>) -> Result<T, E>): (r: Result<seq<T>, E>)
    ensures r.Success? ==> |r.value| == |xs|
    decreases |xs|
  {
    if xs == [] then Success([])
    else
      var t :- f(xs[0], previous);
      var ts :- Scan(xs[1..], Some(t), f);
      Success([t] + ts)
  }

  /** A scan of one element is that element's result. */
  lemma ScanOne<X, T, E>(xs: seq<X>, previous: Option<T>, f: (X, Option<T>) -> Result<T, E>)
    requires |xs| == 1 && f(xs[0], previous).Success?
    ensures Scan(xs, previous, f) == Success([f(xs[0], previous).value])
  {
    var t := f(xs[0], previous).value;
    assert Scan(xs[1..], Some(t), f) == Success([]) by {
      assert xs[1..] == [];
    }
    assert [t] + [] == [t];
  }

  /** What element `i` of a scan sees as the entry before it. */
  function Before<T>(previous: Option<T>, ts: seq<T>, i: nat): Option<T>
    requires i <= |ts|
  {
    if i == 0 then previous else Some(ts[i - 1])
  }

  /** Entry `i` of a successful scan is element `i` translated with the
      entry before it at hand. */
  lemma {:induction false} ScanAt<X, T, E>(xs: seq<X>, previous: Option<T>, f: (X, Option<T>) -> Result<T, E>, i: nat)
    requires Scan(xs, previous, f).Success? && i < |xs|
    ensures var ts := Scan(xs, previous, f).value;
      && f(xs[i], Before(previous, ts, i)).Success?
      && ts[i] == f(xs[i], Before(previous, ts, i)).value
    decreases |xs|
  {
    if i > 0 {
      var t := f(xs[0], previous).value;
      var ts := Scan(xs, previous, f).value;
      var rest := Scan(xs[1..], Some(t), f).value;
      assert ts == [t] + rest;
      assert xs[1..][i - 1] == xs[i];
      ScanAt(xs[1..], Some(t), f, i - 1);
      assert Before(Some(t), rest, i - 1) == Before(previous, ts, i);
    }
  }

  /** Where a failed scan stopped: every element before index `i` went
      through, and element `i`, with the entry before it at hand, failed
      with the scan's error. */
  function FailureIndex<X, T, E>(xs: seq<X>, previous: Option<T>, f: (X, Option<T>) -> Result<T, E>): (i: nat)
    requires Scan(xs, previous, f).Failure?
    ensures i < |xs|
    ensures Scan(xs[..i], previous, f).Success?
    ensures f(xs[i], Before(previous, Scan(xs[..i], previous, f).value, i)) == Failure(Scan(xs, previous, f).error)
    decreases |xs|
  {
    if f(xs[0], previous).Failure? then
      assert xs[..0] == [];
      0
    else
      var t := f(xs[0], previous).value;
      var j := FailureIndex(xs[1..], Some(t), f);
      var ts := Scan(xs[1..][..j], Some(t), f).value;
      assert xs[..j + 1] == [xs[0]] + xs[1..][..j];
      assert [xs[0]] + xs[1..][..j] == [xs[0]] + xs[1..][..j];
      assert ([xs[0]] + xs[1..][..j])[1..] == xs[1..][..j];
      assert Scan(xs[..j + 1], previous, f) == Success([t] + ts);
      assert Before(previous, [t] + ts, j + 1) == Before(Some(t), ts, j);
      j + 1
  }

  /** An element that fails whatever entry it sees makes the scan fail. */
  lemma {:induction false} ScanFails<X, T, E>(xs: seq<X>, previous: Option<T>, f: (X, Option<T>) -> Result<T, E>, i: nat)
    requires i < |xs| && forall p :: f(xs[i], p).Failure?
    ensures Scan(xs, previous, f).Failure?
    decreases |xs|
  {
    if i > 0 && f(xs[0], previous).Success? {
      assert xs[1..][i - 1] == xs[i];
      ScanFails(xs[1..], Some(f(xs[0], previous).value), f, i - 1);
    }
  }

  /** The loop body for one `(task_id, task)` entry of the graph. */
  function TaskStep(root: map<string, string>, resolve: Resolver): ((string, TaskSpec), Option<StepTask>) -> Result<StepTask, TranslationError> {
    (entry: (string, TaskSpec), previous: Option<StepTask>) => TranslateTask(entry.1, root, previous, resolve)
  }

  /** The tasks of the graph in order, each becoming the step of the same
      identifier. */
  function TranslateTasks(tasks: Dict<string, TaskSpec>, root: map<string, string>, resolve: Resolver): (r: Result<map<string, Step>, TranslationError>)
    ensures r.Success? <==> Scan(tasks, None, TaskStep(root, resolve)).Success?
    ensures r.Success? ==> r.value.Keys == KeySet(tasks)
  {
    var ts :- Scan(tasks, None, TaskStep(root, resolve));
    Success(KeyedBy(tasks, seq(|ts|, i requires 0 <= i < |ts| => Step(ts[i]))))
  }

  /** The step of task `i` is that task translated with the entry of the
      task before it (none for the first). */
  lemma StepOfTask(tasks: Dict<string, TaskSpec>, root: map<string, string>, resolve: Resolver, i: nat)
    requires TranslateTasks(tasks, root, resolve).Success? && i < |tasks|
    ensures var ts := Scan(tasks, None, TaskStep(root, resolve)).value;
      && TranslateTask(tasks[i].1, root, Before(None, ts, i), resolve).Success?
      && TranslateTasks(tasks, root, resolve).value[tasks[i].0] == Step(TranslateTask(tasks[i].1, root, Before(None, ts, i), resolve).value)
  {
    var ts := Scan(tasks, None, TaskStep(root, resolve)).value;
    var steps := seq(|ts|, j requires 0 <= j < |ts| => Step(ts[j]));
    assert TranslateTasks(tasks, root, resolve).value[tasks[i].0] == Step(ts[i]) by {
      assert TranslateTasks(tasks, root, resolve).value == KeyedBy(tasks, steps);
      KeyedByAt(tasks, steps, i);
    }
    assert ts[i] == TranslateTask(tasks[i].1, root, Before(None, ts, i), resolve).value by {
      ScanAt(tasks, None, TaskStep(root, resolve), i);
      assert TaskStep(root, resolve)(tasks[i], Before(None, ts, i)) == TranslateTask(tasks[i].1, root, Before(None, ts, i), resolve);
    }
  }

  /** Each container task's step has the task's own image, its
      task-output references as inputs, its declared outputs, and as
      command the wrapped command line of what `resolve` returns for it. */
  lemma TranslatedContainerSteps(tasks: Dict<string, TaskSpec>, root: map<string, string>, resolve: Resolver, i: nat)
    requires TranslateTasks(tasks, root, resolve).Success?
    requires i < |tasks| && tasks[i].1.component.implementation.ContainerImplementation?
    ensures var steps, task := TranslateTasks(tasks, root, resolve).value, tasks[i].1;
      && ImageOf(steps[tasks[i].0]) == task.component.implementation.image
      && ResolveArguments(task.arguments.GetOr([]), root).Success?
      && steps[tasks[i].0].task.inputs == ReferenceArguments(ResolveArguments(task.arguments.GetOr([]), root).value)
      && steps[tasks[i].0].task.outputs == OutputsMap(task.component.outputs.GetOr([]))
    ensures var steps, task := TranslateTasks(tasks, root, resolve).value, tasks[i].1;
      var cmd := resolve(task.component, ResolveArguments(task.arguments.GetOr([]), root).value);
      steps[tasks[i].0].task.container.command == GenerateCommandLine(
        cmd.command + cmd.args,
        PathUris("inputs", cmd.inputPaths),
        PathUris("outputs", cmd.outputPaths))
  {
    StepOfTask(tasks, root, resolve, i);
  }

  /** A task that is not a container task repeats the step of the task
      before it; as the first task it leaves the loop variable unbound. */
  lemma TranslatedOtherSteps(tasks: Dict<string, TaskSpec>, root: map<string, string>, resolve: Resolver, i: nat)
    requires TranslateTasks(tasks, root, resolve).Success?
    requires i < |tasks| && !tasks[i].1.component.implementation.ContainerImplementation?
    ensures 0 < i
    ensures var steps := TranslateTasks(tasks, root, resolve).value;
      steps[tasks[i].0] == Step(Scan(tasks, None, TaskStep(root, resolve)).value[i - 1])
  {
    StepOfTask(tasks, root, resolve, i);
  }

  /** A task whose arguments do not resolve makes the whole translation
      fail. */
  lemma TranslateTasksFails(tasks: Dict<string, TaskSpec>, root: map<string, string>, resolve: Resolver, i: nat)
    requires i < |tasks| && ResolveArguments(tasks[i].1.arguments.GetOr([]), root).Failure?
    ensures TranslateTasks(tasks, root, resolve).Failure?
  {
    forall p ensures TaskStep(root, resolve)(tasks[i], p).Failure? {
      assert TaskStep(root, resolve)(tasks[i], p) == TranslateTask(tasks[i].1, root, p, resolve);
    }
    ScanFails(tasks, None, TaskStep(root, resolve), i);
  }

  /** A first task that is not a container task, with arguments that
      resolve, raises `UnboundLocalError`; with arguments that do not, the
      argument error comes first. */
  lemma FirstTaskUnbound(tasks: Dict<string, TaskSpec>, root: map<string, string>, resolve: Resolver)
    requires tasks != [] && !tasks[0].1.component.implementation.ContainerImplementation?
    ensures var resolved := ResolveArguments(tasks[0].1.arguments.GetOr([]), root);
      TranslateTasks(tasks, root, resolve) == Failure(if resolved.Success? then UnboundLocalError else resolved.error)
  {
    assert TaskStep(root, resolve)(tasks[0], None) == TranslateTask(tasks[0].1, root, None, resolve);
  }

  /** A failed translation is the failure of the first task that fails,
      translated with the entry of the task before it at hand; every task
      before it translates. */
  lemma FirstFailingTask(tasks: Dict<string, TaskSpec>, root: map<string, string>, resolve: Resolver)
    requires TranslateTasks(tasks, root, resolve).Failure?
    ensures var i := FailureIndex(tasks, None, TaskStep(root, resolve));
      && i < |tasks|
      && Scan(tasks[..i], None, TaskStep(root, resolve)).Success?
      && TranslateTask(tasks[i].1, root, Before(None, Scan(tasks[..i], None, TaskStep(root, resolve)).value, i), resolve)
         == Failure(TranslateTasks(tasks, root, resolve).error)
  {
    var i := FailureIndex(tasks, None, TaskStep(root, resolve));
    var p := Before(None, Scan(tasks[..i], None, TaskStep(root, resolve)).value, i);
    assert TaskStep(root, resolve)(tasks[i], p) == TranslateTask(tasks[i].1, root, p, resolve);
  }

  /** Every top-level argument is a string (lines 101-103). */
  predicate AllStrings(rootArgs: Dict<string, Argument>) {
    forall i :: 0 <= i < |rootArgs| ==> rootArgs[i].1.StringArgument?
  }

  /** The top-level arguments as the name-to-string map graph inputs are
      looked up in. */
  function RootValues(rootArgs: Dict<string, Argument>): (values: map<string, string>)
    requires AllStrings(rootArgs)
    ensures values.Keys == KeySet(rootArgs)
    ensures forall i :: 0 <= i < |rootArgs| ==> values[rootArgs[i].0] == rootArgs[i].1.value
  {
    map i | 0 <= i < |rootArgs| :: rootArgs[i].0 := rootArgs[i].1.value
  }

  /** The `steps` of the document for a root task. Every top-level argument
      must be a string; only a graph root has steps. */
  function CreatePipelineSteps(root: TaskSpec, resolve: Resolver): (r: Result<map<string, Step>, TranslationError>)
    ensures !AllStrings(root.arguments.GetOr([])) ==> r == Failure(TypeError)
    ensures AllStrings(root.arguments.GetOr([])) && root.component.implementation.GraphImplementation? ==>
      r == TranslateTasks(root.component.implementation.tasks, RootValues(root.arguments.GetOr([])), resolve)
    ensures r.Success? && root.component.implementation.GraphImplementation? ==>
      r.value.Keys == KeySet(root.component.implementation.tasks)
    ensures !root.component.implementation.GraphImplementation? ==>
      (r.Success? <==> AllStrings(root.arguments.GetOr([])))
    ensures r.Success? && !root.component.implementation.GraphImplementation? ==> r.value == map[]
  {
    var rootArgs := root.arguments.GetOr([]);
    if !AllStrings(rootArgs) then Failure(TypeError)
    else
      var values := RootValues(rootArgs);
      match root.component.implementation
      case GraphImplementation(tasks) => TranslateTasks(tasks, values, resolve)
      case _ => Success(map[])
  }

  /** A reference to a task output is copied into the step as it is: no
      lookup checks that the task or its output exists. A graph whose only
      task reads output `x` of a task `missing` still translates. */
  lemma DanglingReferenceKept(image: string, resolve: Resolver)
    ensures var task := TaskSpec(ComponentSpec(None, ContainerImplementation(image), None),
                                 Some([("in", TaskOutputArgument("missing", "x"))]));
      var root := TaskSpec(ComponentSpec(None, GraphImplementation([("only", task)]), None), None);
      && CreatePipelineSteps(root, resolve).Success?
      && CreatePipelineSteps(root, resolve).value["only"].task.inputs == map["in" := StepOutputRef("missing", "x")]
  {
    var task := TaskSpec(ComponentSpec(None, ContainerImplementation(image), None),
                         Some([("in", TaskOutputArgument("missing", "x"))]));
    var tasks: Dict<string, TaskSpec> := [("only", task)];
    var root := TaskSpec(ComponentSpec(None, GraphImplementation(tasks), None), None);
    var resolved := ResolveArguments(task.arguments.GetOr([]), map[]);
    assert resolved == Success(map["in" := ReferenceArgument(StepOutputRef("missing", "x"))]) by {
      assert ResolveArguments([], map[]) == Success(map[]);
      assert [("in", TaskOutputArgument("missing", "x"))][..0] == [];
    }
    assert ReferenceArguments(resolved.value) == map["in" := StepOutputRef("missing", "x")];
    assert CreatePipelineSteps(root, resolve) == TranslateTasks(tasks, map[], resolve) by {
      assert root.arguments.GetOr([]) == [];
    }
    SingleTask(tasks, map[], resolve);
  }

  /** A graph of one task translates to that task's step. */
  lemma SingleTask(tasks: Dict<string, TaskSpec>, root: map<string, string>, resolve: Resolver)
    requires |tasks| == 1 && TranslateTask(tasks[0].1, root, None, resolve).Success?
    ensures TranslateTasks(tasks, root, resolve) == Success(map[tasks[0].0 := Step(TranslateTask(tasks[0].1, root, None, resolve).value)])
  {
    var f := TaskStep(root, resolve);
    var t := TranslateTask(tasks[0].1, root, None, resolve).value;
    assert f(tasks[0], None) == TranslateTask(tasks[0].1, root, None, resolve);
    ScanOne(tasks, None, f);
    var ts := [t];
    assert seq(|ts|, i requires 0 <= i < |ts| => Step(ts[i])) == [Step(t)];
    KeyedByOne(tasks, [Step(t)]);
  }

  const JobNamePlaceholder: string := "<insert fully qualified unique job name here>"

  /** The job envelope: the steps, the pipeline context, a placeholder name,
      the root component's name (or `PipelineJob`) and the pipeline root. */
  function CreatePipelineJob(root: TaskSpec, pipelineRoot: string, pipelineContext: string, resolve: Resolver): (r: Result<PipelineJob, TranslationError>)
    ensures r.Success? <==> CreatePipelineSteps(root, resolve).Success?
    ensures r.Success? ==>
      && r.value.spec.steps == CreatePipelineSteps(root, resolve).value
      && r.value.spec.pipelineContext == pipelineContext
      && r.value.name == JobNamePlaceholder
      && r.value.pipelineRoot == pipelineRoot
      && r.value.displayName != ""
      && (root.component.name.Some? && root.component.name.value != "" ==> r.value.displayName == root.component.name.value)
      && (root.component.name.None? || root.component.name.value == "" ==> r.value.displayName == "PipelineJob")
  {
    var steps :- CreatePipelineSteps(root, resolve);
    var name := root.component.name;
    var displayName := if name.Some? && name.value != "" then name.value else "PipelineJob";
    Success(PipelineJob(PipelineSpec(steps, pipelineContext), JobNamePlaceholder, displayName, pipelineRoot))
  }
}
