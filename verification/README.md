# kfp_gcp pipeline glue in Dafny

A model of the pure logic inside `kfp_gcp`, the glue that turns a Kubeflow
Pipelines graph component into a job document for the managed pipelines
API, optionally mirrors the container images into the project's
`gcr.io` registry, and submits and polls the job.

The modules follow the three source files:

- `Translator`, `CommandWrapper`, `ShellQuoting` and `Artifacts` model
  `_pipeline_runner.py`. Translation of a root task into pipeline steps
  classifies each task argument as a constant, a graph input or a task
  output reference. It wraps each container command in the `sh -ex -c`
  staging script that copies inputs in and outputs out, and it maps
  output types to artifact kinds. `JobNames` and `Runner` model the job
  name and the composition in `run_pipeline`.
- `ImageMirroring` models `_image_mirroring.py`: the set of used images,
  the replacement map, the rewrite of the document, the choice of images
  to mirror, and the remote build configuration.
- `JobsApi` models `_pipeline_jobs_api.py`: URLs, the full job name, the
  submitted document, the job handle, and the `wait_for_completion` loop.
  The loop is a recursive function over a sequence of passes, each with
  the elapsed time and the outcome of the refresh. It is matched by a
  `while` loop method proved equal to it.
- `JobSpec` holds the job document datatypes. `Dicts` models Python's
  insertion-ordered `dict` as a sequence of pairs with distinct keys.
  `Text` and `Results` are helpers.

Python exceptions are `Failure` values. Where the code can raise
`TypeError`, `KeyError`, `UnboundLocalError` or `RuntimeError`, the
model returns the corresponding error.

Three literal quirks are modelled as the code is written:

- the escape `"'\''"` is three quotes;
- the artifact kind `'metrics '` has a trailing space;
- the build configuration returns inside its loop.

Each is listed under Findings together with the corrected definition. The
translator composes the generator as written (`CommandWrapper.GenerateCommandLine`),
because that is the command the code submits. The corrected generator
`CommandWrapper.GenerateCommandLineIntended` has the same contracts, and
`ShellQuoting.ShellEscapeRoundTrip` proves what it achieves.

A comment in the code (`_pipeline_runner.py:66`) says that only container
tasks remain, but the loop does not check it. A graph task whose component
is not a container implementation is not rejected with `TypeError`. The
code skips the container branch and stores
the task dictionary left over from the previous container task, or fails
with `UnboundLocalError` when there is none yet
(`kfp_gcp/orchestration/google_cloud/_pipeline_runner.py:131-182`). The model follows the code: `Translator.TranslateTask`
takes the previous task as a parameter, and `Translator.TranslatedOtherSteps`
and `Translator.FirstTaskUnbound` state both outcomes.

## Model

| member | source | states |
|---|---|---|
| CommandWrapper.GenerateCommandLine | kfp_gcp/orchestration/google_cloud/_pipeline_runner.py:17-63 | With no input and no output paths the user command line comes back unchanged. Otherwise the result is `sh -ex -c script` followed by the user command line: its length is 4 + the user line's length, and the user line is an exact suffix. The script uses the escape as written. |
| CommandWrapper.GenerateCommandLineIntended | kfp_gcp/orchestration/google_cloud/_pipeline_runner.py:17-63 | The same shape, for the script built with the working shell escape `'\''`. |
| CommandWrapper.ScriptLines | kfp_gcp/orchestration/google_cloud/_pipeline_runner.py:25-57 | The script has the 16 fixed prelude lines, then one line per input and output path, per download, the run line and per upload: 16 + 2·(inputs + outputs) + 1 lines in all. |
| CommandWrapper.PosixParent | kfp_gcp/orchestration/google_cloud/_pipeline_runner.py:43 | The parent of a path: `.` for a path without `/`; otherwise everything before the last `/`, or `/` when that slash is the first character. |
| CommandWrapper.MakeDirLines | kfp_gcp/orchestration/google_cloud/_pipeline_runner.py:41-45 | One `mkdir -p` line per path, inputs first and outputs next, each on the parent directory of its path. |
| CommandWrapper.DownloadLines | kfp_gcp/orchestration/google_cloud/_pipeline_runner.py:47-50 | One download line per input, copying its URI to its path, in dictionary order. |
| CommandWrapper.UploadLines | kfp_gcp/orchestration/google_cloud/_pipeline_runner.py:54-57 | One upload line per output, copying its path to its URI, in dictionary order. |
| CommandWrapper.ScriptShape | kfp_gcp/orchestration/google_cloud/_pipeline_runner.py:41-57 | Each script line is classified by position: fixed lines, then `mkdir` lines, then downloads, then exactly one run line at `RunIndex`, then uploads. A line has each kind if and only if it lies in that kind's region. |
| CommandWrapper.InputPlacement | kfp_gcp/orchestration/google_cloud/_pipeline_runner.py:41-52 | The `mkdir` and the download line of every input come before the run line. |
| CommandWrapper.OutputPlacement | kfp_gcp/orchestration/google_cloud/_pipeline_runner.py:41-57 | The `mkdir` line of every output comes before the run line, and its upload line comes after it. |
| CommandWrapper.ScriptPlacement | kfp_gcp/orchestration/google_cloud/_pipeline_runner.py:41-57 | All inputs and outputs together: each `mkdir` and download at its index, and each upload after the run line. |
| CommandWrapper.RenderAll | kfp_gcp/orchestration/google_cloud/_pipeline_runner.py:45-57 | Each script line renders to its text: `mkdir -p '<dir>'`, `gcs_copy '<uri>' '<path>'`, `"$0" "$@"` or `gcs_copy '<path>' '<uri>'`. Paths and directories are escaped; URIs are inserted as they are. |
| CommandWrapper.EscapeNoNewline | kfp_gcp/orchestration/google_cloud/_pipeline_runner.py:44-56 | Escaping never introduces a newline. |
| CommandWrapper.PreludeNoNewline | kfp_gcp/orchestration/google_cloud/_pipeline_runner.py:25-40 | No prelude line holds a newline. |
| CommandWrapper.RenderNoNewline | kfp_gcp/orchestration/google_cloud/_pipeline_runner.py:45-57 | A rendered line holds no newline when its path, directory and URI hold none. |
| CommandWrapper.ScriptReadsBack | kfp_gcp/orchestration/google_cloud/_pipeline_runner.py:60 | Every line is terminated by a newline: splitting the script at newlines gives back exactly the rendered lines, when no path or URI holds a newline. |
| ShellQuoting.EscapeAsWritten | kfp_gcp/orchestration/google_cloud/_pipeline_runner.py:44-56 | A one-character text that is `'` becomes three quotes and any other one-character text is kept; the text grows by two characters per quote, and a text without quotes is unchanged. |
| ShellQuoting.EscapeAsWrittenAppend | kfp_gcp/orchestration/google_cloud/_pipeline_runner.py:44-56 | The escape works character by character: escaping a concatenation gives the concatenation of the escaped parts. With the one-character case this fixes every output. |
| ShellQuoting.EscapeIsTransparent | kfp_gcp/orchestration/google_cloud/_pipeline_runner.py:44-56 | For a text without `"`, the shell's quote removal reads the escaped text exactly like the unescaped text, inside or outside single quotes: the escape as written does nothing. |
| ShellQuoting.AsWrittenQuotedWord | kfp_gcp/orchestration/google_cloud/_pipeline_runner.py:45-57 | For a text without `"`, a single-quoted word with the escape as written reads like the same word with the raw text between the quotes. |
| ShellQuoting.AsWrittenDoubleQuoteExample | kfp_gcp/orchestration/google_cloud/_pipeline_runner.py:44-56 | With `"` in the text the escape is not even transparent: the path `'"'"'` unescaped reads as `'`, and escaped as written reads as `'''`, because the quotes between the double quotes are literal. |
| ShellQuoting.AsWrittenEscapeBreaksQuote | kfp_gcp/orchestration/google_cloud/_pipeline_runner.py:49-50 | For the path `a'b` the quoted word the script holds leaves a quote open, so the shell cannot read it. |
| ShellQuoting.ShellEscape | kfp_gcp/orchestration/google_cloud/_pipeline_runner.py:44 | The working escape `'\''` turns a one-character text `'` into `'\''` and keeps any other one-character text; it grows the text by three characters per quote and leaves a text without quotes unchanged. |
| ShellQuoting.ShellEscapeAppend | kfp_gcp/orchestration/google_cloud/_pipeline_runner.py:44 | The working escape also works character by character. |
| ShellQuoting.ShellEscapeInside | kfp_gcp/orchestration/google_cloud/_pipeline_runner.py:44-45 | Inside single quotes, the working escape followed by the closing quote reads as the original text. |
| ShellQuoting.ShellEscapeRoundTrip | kfp_gcp/orchestration/google_cloud/_pipeline_runner.py:44-45 | A path escaped with `'\''` and put in single quotes reads back as exactly the path. |
| Artifacts.ArtifactKind | kfp_gcp/orchestration/google_cloud/_pipeline_runner.py:189-201 | An output with no type or an empty type is `file`. Otherwise the later suffix checks override the earlier ones. A lower-cased type ending in `metrics` gives `metrics ` with its trailing space. Failing that, `model`, `schema` and `statistics` are tried in that order. Then a type ending in `examples`, or equal to `csv` or `tsv`, gives `dataset`, and anything else `file`. |
| Artifacts.ArtifactKindRange | kfp_gcp/orchestration/google_cloud/_pipeline_runner.py:189-201 | The kind is one of the known kinds, except that `metrics ` with a space stands in for `metrics`. |
| Artifacts.MetricsKindUnknown | kfp_gcp/orchestration/google_cloud/_pipeline_runner.py:200-201 | The type `Metrics` yields `metrics `, which is not a known artifact kind. |
| Artifacts.ArtifactKindIntended | kfp_gcp/orchestration/google_cloud/_pipeline_runner.py:189-201 | The classification with `metrics` spelled right: always a known kind, and equal to the written one wherever that is not `metrics `. |
| Artifacts.ArtifactSpec | kfp_gcp/orchestration/google_cloud/_pipeline_runner.py:203-213 | The artifact has exactly two keys, the kind (mapped to an empty object) and `custom_properties`. The properties always hold `custom:name` with the output's name. They hold `type_name` if and only if the output has a non-empty type, and nothing else. |
| Translator.ResolveArguments | kfp_gcp/orchestration/google_cloud/_pipeline_runner.py:108-130 | Argument resolution succeeds if and only if every argument resolves. On success its keys are exactly the argument names and each value is that argument's resolution. |
| Translator.FirstFailingArgument | kfp_gcp/orchestration/google_cloud/_pipeline_runner.py:112-130 | A failed resolution reports the error of the first argument that fails; every argument before it resolves. |
| Translator.ConstantArguments | kfp_gcp/orchestration/google_cloud/_pipeline_runner.py:114-119 | Exactly the arguments resolved to constants. |
| Translator.ReferenceArguments | kfp_gcp/orchestration/google_cloud/_pipeline_runner.py:120-127 | Exactly the arguments resolved to task-output references. |
| Translator.ArgumentsPartition | kfp_gcp/orchestration/google_cloud/_pipeline_runner.py:110-130 | Constants and references are disjoint, and together they cover every argument. |
| Translator.ClassifyArgument | kfp_gcp/orchestration/google_cloud/_pipeline_runner.py:112-130 | A string argument is a constant with its own value. A graph input is a constant with the root argument's value, and its name is a root argument. A task output is a reference to that step and output. Any other argument makes resolution fail. |
| Translator.ReferencesComeFromTaskOutputs | kfp_gcp/orchestration/google_cloud/_pipeline_runner.py:120-161 | Every step input is named by an argument of the task, and the argument of that name is a task output with the same step and output names. |
| Translator.PathUris | kfp_gcp/orchestration/google_cloud/_pipeline_runner.py:139-146 | The path-to-URI dictionary has exactly the resolved paths as keys. |
| Translator.UriPlaceholder | kfp_gcp/orchestration/google_cloud/_pipeline_runner.py:139-146 | The placeholder for a path is `{{$.` followed by the direction (`inputs` or `outputs`), then `['`, the input or output name, and `'].uri}}`, and nothing else. |
| Translator.OutputEntry | kfp_gcp/orchestration/google_cloud/_pipeline_runner.py:171-177 | An output's entry is its artifact description, carrying the output's name as `custom:name`, and marks its URI as a file path rather than a directory. |
| Translator.OutputsMap | kfp_gcp/orchestration/google_cloud/_pipeline_runner.py:171-179 | The step outputs have exactly the component's output names as keys, and every entry marks its URI as a file path. |
| Translator.RootValues | kfp_gcp/orchestration/google_cloud/_pipeline_runner.py:100-119 | Once every root argument is a string, graph inputs are looked up in a map with exactly the root argument names as keys, each holding that argument's string. |
| Translator.OutputsMapLastWins | kfp_gcp/orchestration/google_cloud/_pipeline_runner.py:171-179 | For outputs that share a name, the last one declared determines the entry. |
| Translator.ContainerTask | kfp_gcp/orchestration/google_cloud/_pipeline_runner.py:131-180 | A container task keeps the component's image and has the references as its inputs. Its outputs are the outputs dictionary of the component's declared outputs. Its command is the generated command line for the resolved command followed by the resolved args, with the input and output paths mapped to their URI placeholders. |
| Translator.TranslateTask | kfp_gcp/orchestration/google_cloud/_pipeline_runner.py:106-180 | A task translates if and only if its arguments resolve and it is a container task or a previous container task exists. A container task gets its own image and references. Any other task reuses the previous task dictionary. |
| Translator.Scan | kfp_gcp/orchestration/google_cloud/_pipeline_runner.py:106-184 | A completed loop over the tasks yields one entry per task. |
| Translator.FailureIndex | kfp_gcp/orchestration/google_cloud/_pipeline_runner.py:106-184 | A failed loop stopped at a task index below the number of tasks. The loop over the tasks before that index completes, and that task, given the entry before it, fails with exactly the loop's error. |
| Translator.ScanAt | kfp_gcp/orchestration/google_cloud/_pipeline_runner.py:106-184 | Entry `i` of a completed loop is task `i` translated with the entry of task `i - 1` at hand, or the initial one for the first task. |
| Translator.ScanOne | kfp_gcp/orchestration/google_cloud/_pipeline_runner.py:106-184 | A loop over a single task yields exactly that task's entry. |
| Translator.ScanFails | kfp_gcp/orchestration/google_cloud/_pipeline_runner.py:106-184 | A task that fails whatever entry precedes it makes the whole loop fail. |
| Translator.TranslateTasks | kfp_gcp/orchestration/google_cloud/_pipeline_runner.py:106-184 | Translating the graph succeeds if and only if the loop over its tasks does. On success the steps are keyed by exactly the task ids. |
| Translator.StepOfTask | kfp_gcp/orchestration/google_cloud/_pipeline_runner.py:181-184 | The step stored under a task id is that task's translation, given the entry of the task before it. |
| Translator.TranslatedContainerSteps | kfp_gcp/orchestration/google_cloud/_pipeline_runner.py:131-184 | The step of every container task has the task's own image, and its inputs are exactly the task-output references among the task's arguments. Its outputs are those of the component's declared outputs. Its command is the generated command line of what the SDK resolution returns for the task's resolved arguments. |
| Translator.TranslatedOtherSteps | kfp_gcp/orchestration/google_cloud/_pipeline_runner.py:131-184 | A task that is not a container task is never first in a successful translation, and its step repeats the entry of the task before it. |
| Translator.TranslateTasksFails | kfp_gcp/orchestration/google_cloud/_pipeline_runner.py:108-130 | Any task whose arguments fail to resolve makes the whole translation fail. |
| Translator.FirstTaskUnbound | kfp_gcp/orchestration/google_cloud/_pipeline_runner.py:131-184 | A first task that is not a container task makes the translation fail. It fails with `UnboundLocalError` when its arguments resolve, and with the argument error when they do not. |
| Translator.FirstFailingTask | kfp_gcp/orchestration/google_cloud/_pipeline_runner.py:106-184 | A failed translation fails with the error of the first task that fails, translated with the entry of the task before it at hand; the tasks before it all translate. |
| Translator.SingleTask | kfp_gcp/orchestration/google_cloud/_pipeline_runner.py:106-184 | A graph of one task that translates yields exactly one step, under that task's id, holding its translation. |
| Translator.DanglingReferenceKept | kfp_gcp/orchestration/google_cloud/_pipeline_runner.py:120-127 | A reference to a task output is copied without lookup: a graph whose only task reads output `x` of a task `missing` translates, and the step's inputs hold that reference. |
| Translator.CreatePipelineSteps | kfp_gcp/orchestration/google_cloud/_pipeline_runner.py:99-185 | A non-string root argument gives `TypeError`. When every root argument is a string, a graph root gives exactly the tasks translated in order against the root argument values, with one step per task id. Any other root gives no steps, and succeeds if and only if every root argument is a string. |
| Translator.CreatePipelineJob | kfp_gcp/orchestration/google_cloud/_pipeline_runner.py:69-87 | The job document carries the steps, the pipeline context, the placeholder name and the pipeline root. Its display name is the component's non-empty name, or `PipelineJob` when the name is missing or empty. It fails exactly when the step translation fails. |
| Dicts.Put | kfp_gcp/orchestration/google_cloud/_pipeline_runner.py:139-146 | Assigning a key in an insertion-ordered dictionary: the key set gains the key; an existing key keeps its position; a new key is appended; every other entry is unchanged. |
| Dicts.FromPairs | kfp_gcp/orchestration/google_cloud/_pipeline_runner.py:139-146 | A dictionary comprehension has exactly the keys of its pairs, and no more entries than pairs. |
| Dicts.FromPairsLastValue | kfp_gcp/orchestration/google_cloud/_pipeline_runner.py:139-146 | In a dictionary comprehension the last pair with a key determines its value. |
| Dicts.LastByKey | kfp_gcp/orchestration/google_cloud/_pipeline_runner.py:171-179 | A comprehension keyed by a function of each element has exactly the keys of the elements. |
| Dicts.LastByKeyValue | kfp_gcp/orchestration/google_cloud/_pipeline_runner.py:171-179 | In such a comprehension the last element with a given key determines that key's value. |
| Dicts.LastByKeyAll | kfp_gcp/orchestration/google_cloud/_pipeline_runner.py:171-179 | A property that every element's value has holds of every entry of such a comprehension. |
| JobNames.ChooseJobName | kfp_gcp/orchestration/google_cloud/_pipeline_runner.py:272-274 | A non-empty given name is used unchanged. A missing or empty one is replaced by the generated name. |
| JobNames.Sanitize | kfp_gcp/orchestration/google_cloud/_pipeline_runner.py:274 | Same length as the input. Each character is lower-cased, and kept if it lies in `[-a-zA-Z0-9]`, otherwise replaced by `-`. |
| JobNames.StripDashes | kfp_gcp/orchestration/google_cloud/_pipeline_runner.py:274 | The result is a slice of the input with only dashes removed at either end, and neither end of the result is a dash. |
| JobNames.GeneratedNameShape | kfp_gcp/orchestration/google_cloud/_pipeline_runner.py:273-274 | A generated name is made of `[a-z0-9-]`, is non-empty, has no dash at either end, and starts with `job`. |
| JobNames.GeneratedNameStable | kfp_gcp/orchestration/google_cloud/_pipeline_runner.py:274 | Sanitising and stripping a generated name again gives the same name. |
| JobNames.GeneratedNameExample | kfp_gcp/orchestration/google_cloud/_pipeline_runner.py:273-274 | The clock reading `2026-10-10T12:34:56.123456` gives `job-2026-10-10t12-34-56-123456`. |
| ImageMirroring.UsedImages | kfp_gcp/orchestration/google_cloud/_image_mirroring.py:28-34 | Exactly the set of step images. |
| ImageMirroring.ReplacementMap | kfp_gcp/orchestration/google_cloud/_image_mirroring.py:8-12 | Its keys are exactly the used images not under `gcr.io/`, and each maps to the mirror prefix followed by the image. |
| ImageMirroring.ReplaceUsedImages | kfp_gcp/orchestration/google_cloud/_image_mirroring.py:37-44 | The rewritten document sets each step image to its replacement when it has one, and keeps it otherwise. Step keys, names, commands, inputs, outputs and every other field are unchanged. |
| ImageMirroring.SameDocument | kfp_gcp/orchestration/google_cloud/_image_mirroring.py:39-44 | Two documents that agree on every field and every image are equal. |
| ImageMirroring.ReplaceWithNothing | kfp_gcp/orchestration/google_cloud/_image_mirroring.py:37-44 | Rewriting with an empty map returns the document itself. |
| ImageMirroring.ImagesToMirror | kfp_gcp/orchestration/google_cloud/_image_mirroring.py:16-19 | The sub-map of replacements whose mirror does not exist yet. |
| ImageMirroring.MirrorAndReplace | kfp_gcp/orchestration/google_cloud/_image_mirroring.py:6-25 | The build is submitted if and only if some mirror is missing. It fails with the build's error text exactly when a submitted build fails. On success the result is the rewritten document. |
| ImageMirroring.MirroredImages | kfp_gcp/orchestration/google_cloud/_image_mirroring.py:8-44 | Each image under `gcr.io/` is kept, and every other image becomes the prefix followed by the image. |
| ImageMirroring.MirroredImagesTrusted | kfp_gcp/orchestration/google_cloud/_image_mirroring.py:8-12 | With the prefix `gcr.io/<project>/mirror/`, every image of the rewritten document is under `gcr.io/`. |
| ImageMirroring.NothingToReplace | kfp_gcp/orchestration/google_cloud/_image_mirroring.py:8-12 | Images all under `gcr.io/` give an empty replacement map. |
| ImageMirroring.TrustedJobUnchanged | kfp_gcp/orchestration/google_cloud/_image_mirroring.py:6-25 | A document whose images are all under `gcr.io/` passes through unchanged, with nothing to mirror and no build. |
| ImageMirroring.SecondPassChangesNothing | kfp_gcp/orchestration/google_cloud/_image_mirroring.py:6-25 | A second mirroring pass with the same prefix finds nothing to replace, submits no build and returns the document unchanged. |
| ImageMirroring.SingleStepExample | kfp_gcp/orchestration/google_cloud/_image_mirroring.py:6-44 | A single step using `docker.io/x` is rewritten to the prefix followed by `docker.io/x`. |
| ImageMirroring.MirrorStep | kfp_gcp/orchestration/google_cloud/_image_mirroring.py:70-82 | A build step uses `gcr.io/cloud-builders/docker` with `waitFor` set to `-` and entrypoint `bash`, run with `-exc`. Its script is two lines: `docker pull --quiet <src>`, then `docker tag <src> <dst>`. |
| ImageMirroring.ScriptHasTwoLines | kfp_gcp/orchestration/google_cloud/_image_mirroring.py:76-80 | The joined script splits back into exactly the pull and the tag command. |
| ImageMirroring.PrepareBuildConfig | kfp_gcp/orchestration/google_cloud/_image_mirroring.py:61-85 | As written: no mirrors give no configuration. Otherwise the configuration has exactly one step and one image, those of the first mirror. |
| ImageMirroring.SecondMirrorDropped | kfp_gcp/orchestration/google_cloud/_image_mirroring.py:68-85 | Of two mirrors, the second destination is never built. |
| ImageMirroring.DocumentOutrunsBuild | kfp_gcp/orchestration/google_cloud/_image_mirroring.py:6-85 | With two steps whose distinct untrusted images have no mirror yet, mirroring succeeds and the document runs both mirrored images. The configuration built for the two copies pushes only the first. |
| ImageMirroring.PrepareBuildConfigIntended | kfp_gcp/orchestration/google_cloud/_image_mirroring.py:61-85 | The configuration with the `return` after the loop: one step and one image per mirror, in order. |
| ImageMirroring.IntendedBuildsAll | kfp_gcp/orchestration/google_cloud/_image_mirroring.py:68-85 | In the corrected configuration every mirror destination is built. |
| JobsApi.NewApi | kfp_gcp/orchestration/google_cloud/_pipeline_jobs_api.py:106-117 | The URL prefix starts with `https://<host>/v1/projects/` and ends with `/pipelineJobs`, and the host and project are kept. |
| JobsApi.ParseUrlPrefix | kfp_gcp/orchestration/google_cloud/_pipeline_jobs_api.py:111-114 | A parsed prefix is exactly `https://`, host, `/v1/projects/`, project and `/pipelineJobs`. |
| JobsApi.UrlPrefixRoundTrip | kfp_gcp/orchestration/google_cloud/_pipeline_jobs_api.py:111-114 | For a host without `/`, the host and project read back from the prefix. |
| JobsApi.JobUrl | kfp_gcp/orchestration/google_cloud/_pipeline_jobs_api.py:124-125 | The job URL is the prefix, then `/`, then the quoted job name. |
| JobsApi.JobUrlInjective | kfp_gcp/orchestration/google_cloud/_pipeline_jobs_api.py:124-125 | With an injective quoting function, different job names give different URLs. |
| JobsApi.CancelRequest | kfp_gcp/orchestration/google_cloud/_pipeline_jobs_api.py:133-136 | Cancelling is a GET on the job URL followed by `:cancel`. |
| JobsApi.FullJobName | kfp_gcp/orchestration/google_cloud/_pipeline_jobs_api.py:139-142 | The full name is `projects/<project>/pipelineJobs/` followed by the job name. |
| JobsApi.FullJobNameInjective | kfp_gcp/orchestration/google_cloud/_pipeline_jobs_api.py:139-142 | Within one project, the full name determines the job name. |
| JobsApi.JobObject | kfp_gcp/orchestration/google_cloud/_pipeline_jobs_api.py:127-128 | A fresh handle has the API, the job name and an empty state. |
| JobsApi.Refresh | kfp_gcp/orchestration/google_cloud/_pipeline_jobs_api.py:63-64 | A refresh replaces the state wholesale with the fetched document. |
| JobsApi.SubmitJob | kfp_gcp/orchestration/google_cloud/_pipeline_jobs_api.py:138-149 | Submitting posts to the URL prefix the document with `name` set to the full job name, every other field unchanged. It returns a fresh handle for the job name. |
| JobsApi.StatusOf | kfp_gcp/orchestration/google_cloud/_pipeline_jobs_api.py:88-95 | A missing or falsy `state` yields no state. A non-empty string yields that state. Any other truthy value cannot be joined into the progress line. |
| JobsApi.PollFrom | kfp_gcp/orchestration/google_cloud/_pipeline_jobs_api.py:66-99 | The loop stops at the first pass that either exceeds the timeout or fetches a state that is not PENDING, RUNNING or CANCELLING. It never stops on a failed refresh or an active state, and it runs out of passes exactly when every pass continues. |
| JobsApi.PollStopKind | kfp_gcp/orchestration/google_cloud/_pipeline_jobs_api.py:76-98 | At the stopping pass: `TimeoutError` if and only if the elapsed time exceeds the timeout, checked before the refresh. Otherwise it returns on a missing, empty or inactive state, and crashes only on a non-string state. |
| JobsApi.PollHandleState | kfp_gcp/orchestration/google_cloud/_pipeline_jobs_api.py:63-86 | After the loop, the handle holds the document of the last successful refresh among the passes it made, or its earlier state if there was none. |
| JobsApi.Wait | kfp_gcp/orchestration/google_cloud/_pipeline_jobs_api.py:66-99 | The `while True` loop computes the same result as the recursive definition, and runs out of passes exactly when every pass continues. |
| JobsApi.PollExample | kfp_gcp/orchestration/google_cloud/_pipeline_jobs_api.py:66-99 | A failed refresh, then RUNNING, then SUCCEEDED: the loop returns at the third pass holding the SUCCEEDED document. |
| Runner.RunPipeline | kfp_gcp/orchestration/google_cloud/_pipeline_runner.py:247-283 | A translation failure is returned as is. On success the document is posted to the API's URL prefix, carrying the chosen job name in full form, and the handle is fresh for that name. The posted document is the translated job, or the mirrored one when mirroring is on, with only `name` replaced. In particular it keeps the run's pipeline root and the translated display name. Mirroring errors arise only when mirroring is on. |
| Runner.MirrorStage | kfp_gcp/orchestration/google_cloud/_pipeline_runner.py:264-269 | Mirroring uses the prefix `gcr.io/<project>/mirror/` and passes its failure on. |
| Runner.SubmittedImagesTrusted | kfp_gcp/orchestration/google_cloud/_pipeline_runner.py:264-283 | With mirroring on, every image of the submitted document is under `gcr.io/`. |

## Left out

- The kfp SDK calls `create_graph_component_from_pipeline_func` and
  `_components._resolve_command_line_and_paths`: their code is not part of
  this model. The root task and a resolver function stand in for them.
- Subprocess, `gcloud`, HTTP, temporary files and IPython display are I/O.
  Mirror existence, the build's outcome and each refresh's outcome are
  parameters. HTTP errors on submit and cancel propagate in the source and
  are not modelled. The project flag passed to `gcloud` is not modelled.
- Clocks and `time.sleep`: each poll pass carries the elapsed time as an
  integer and may be any value, so the model does not assume the clock is
  monotone. The sleep interval has no effect on the result.
- `urllib.parse.quote` is a parameter of `JobsApi.JobUrl`.
- `get_all_jobs_json` reads an attribute that does not exist and is not
  modelled.
- The progress line printed by the poll loop (lines 93-95 of
  `_pipeline_jobs_api.py`): only its failure on a non-string state is
  modelled. A malformed `jobDetail` that would make it raise is not.
- The order in which `images_to_mirror` is passed to the build is not
  modelled: `ImageMirroring.PrepareBuildConfig` takes any ordering.
- `setup.py` is packaging metadata.
- CommandWrapper.PosixParent: models `pathlib.PurePosixPath(path).parent` for normalised paths only, with no repeated `/`, trailing `/` or `.` components.
- JobNames.Sanitize: `str.lower` is modelled for ASCII letters only, so non-ASCII case mapping is not covered.
- ImageMirroring.ReplaceUsedImages: the source deep-copies the document. The model produces a new value, so aliasing between step dictionaries (which the reused task dictionary of a non-container task creates) has no counterpart.
- JobsApi.SubmitJob: the source stamps the full name on the caller's own dictionary in place (`_pipeline_jobs_api.py:143`); the model leaves the caller's document as it was and returns the stamped copy as the request body. `run_pipeline` (`_pipeline_runner.py:280-292`) does not read the document after submitting it, so no caller sees the difference.
- Translator.ResolveArguments: a root argument is a string by type once `CreatePipelineSteps` has checked it, so the TypeError of line 103 is reported there rather than at use.
- ShellQuoting.Unquote: models quote removal only: single quotes, double quotes and backslashes. Parameter, command and arithmetic expansion (`$`, backquotes), field splitting and backslash-newline continuation are not modelled, so paths holding `$` or a backquote are read literally.
- Task-output references are not checked against the graph: `_pipeline_runner.py:120-127` copies the task id and output name without a lookup, and the model does the same (`Translator.DanglingReferenceKept`). Whether the pipelines API rejects such a document is outside the code.
- Translator.PathUris: states the key set; the URI placeholder of each path is its last occurrence, as `Dicts.FromPairsLastValue` shows for any comprehension.

## Findings

| source | as written | input that shows it | evidently intended | confidence | as-written member | corrected member |
|---|---|---|---|---|---|---|
| kfp_gcp/orchestration/google_cloud/_pipeline_runner.py:44-56 | `"'\''"` is the Python string `'''`, so every `'` becomes three quotes, which the shell reads as no escape at all in a path without `"` (and as three literal quotes between double quotes) | the input path `a'b` gives `gcs_copy '<uri>' 'a'''b'`, which leaves a quote open | the shell escape `'\''` (close the quote, a backslash-quoted quote, reopen), written `"'\\''"` in Python | not executed | ShellQuoting.AsWrittenEscapeBreaksQuote | ShellQuoting.ShellEscapeRoundTrip |
| kfp_gcp/orchestration/google_cloud/_pipeline_runner.py:200-201 | a type ending in `metrics` gets the kind `'metrics '` with a trailing space | the output type `Metrics` | the kind `metrics` | not executed | Artifacts.MetricsKindUnknown | Artifacts.ArtifactKindIntended |
| kfp_gcp/orchestration/google_cloud/_image_mirroring.py:85 | `return build_config` is inside the `for` loop, so only the first image is mirrored | two images to mirror: the second destination is neither built nor pushed | return after the loop, with one step and one image per mirror | not executed | ImageMirroring.SecondMirrorDropped | ImageMirroring.IntendedBuildsAll |
