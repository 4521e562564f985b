/** The client of the remote job API (`_pipeline_jobs_api.py`): the URLs
    and names it builds, the document it submits, and the poll loop of
    `wait_for_completion`. HTTP is left out: a request is described by a
    value, and each poll sees an observation handed in from outside. */
module JobsApi {
  import opened Results
  import opened Text
  import opened Artifacts
  import opened JobSpec

  datatype Api = Api(host: string, project: string, urlPrefix: string)

  const Scheme: string := "https://"
  const ProjectsPath: string := "/v1/projects/"
  const JobsPath: string := "/pipelineJobs"

  /** `PipelineJobApi(project_id, api_host)` */
  function NewApi(project: string, host: string): (api: Api)
    ensures api.host == host && api.project == project
    ensures StartsWith(api.urlPrefix, Scheme + host + ProjectsPath)
    ensures EndsWith(api.urlPrefix, JobsPath)
  {
    var prefix := Scheme + host + ProjectsPath + project + JobsPath;
    assert prefix[..|Scheme + host + ProjectsPath|] == Scheme + host + ProjectsPath;
    assert prefix[|prefix| - |JobsPath|..] == JobsPath;
    Api(host, project, prefix)
  }

  /** Reads the host and project back out of a URL prefix: the host runs
      up to the first `/` after the scheme. */
  function ParseUrlPrefix(url: string): (r: Option<(string, string)>)
    ensures r.Some? ==> url == Scheme + r.value.0 + ProjectsPath + r.value.1 + JobsPath
  {
    SplitUrl(url, Scheme, ProjectsPath, JobsPath)
  }

  /** For a host without `/`, the prefix determines host and project. */
  lemma UrlPrefixRoundTrip(project: string, host: string)
    requires NoSlash(host)
    ensures ParseUrlPrefix(NewApi(project, host).urlPrefix) == Some((host, project))
  {
    assert NewApi(project, host).urlPrefix == Scheme + host + ProjectsPath + project + JobsPath;
    SplitUrlRoundTrip(Scheme, host, ProjectsPath, project, JobsPath);
  }

  /** `get_job_url`: the URL-quoting function is a parameter. */
  function JobUrl(api: Api, quote: string -> string, jobName: string): (url: string)
    ensures StartsWith(url, api.urlPrefix + "/")
    ensures url[|api.urlPrefix| + 1..] == quote(jobName)
  {
    var url := api.urlPrefix + "/" + quote(jobName);
    assert url[..|api.urlPrefix| + 1] == api.urlPrefix + "/";
    url
  }

  /** With an injective quoting function, different jobs have different
      URLs. */
  lemma JobUrlInjective(api: Api, quote: string -> string, a: string, b: string)
    requires forall x, y :: quote(x) == quote(y) ==> x == y
    ensures JobUrl(api, quote, a) == JobUrl(api, quote, b) ==> a == b
  {
  }

  datatype Request = Get(url: string) | Post(url: string, body: PipelineJob)

  /** `cancel` issues a GET on the job URL with `:cancel` appended. */
  function CancelRequest(api: Api, quote: string -> string, jobName: string): (r: Request)
    ensures r.Get?
    ensures StartsWith(r.url, JobUrl(api, quote, jobName))
    ensures r.url[|JobUrl(api, quote, jobName)|..] == ":cancel"
  {
    var url := JobUrl(api, quote, jobName) + ":cancel";
    assert url[..|JobUrl(api, quote, jobName)|] == JobUrl(api, quote, jobName);
    Get(url)
  }

  /** `projects/{project}/pipelineJobs/{job}` */
  function FullJobName(project: string, jobName: string): (name: string)
    ensures StartsWith(name, "projects/" + project + "/pipelineJobs/")
    ensures name[|"projects/" + project + "/pipelineJobs/"|..] == jobName
  {
    var head := "projects/" + project + "/pipelineJobs/";
    assert (head + jobName)[..|head|] == head;
    head + jobName
  }

  /** Within one project the full name determines the job name. */
  lemma FullJobNameInjective(project: string, a: string, b: string)
    ensures FullJobName(project, a) == FullJobName(project, b) ==> a == b
  {
  }

  /** A handle on a submitted job and the last document fetched for it. */
  datatype JobHandle = JobHandle(api: Api, jobName: string, currentState: map<string, Json>)

  /** `get_job_object`: a fresh handle has no state yet. */
  function JobObject(api: Api, jobName: string): (h: JobHandle)
    ensures h.api == api && h.jobName == jobName && h.currentState == map[]
  {
    JobHandle(api, jobName, map[])
  }

  /** `refresh` replaces the state wholesale with the fetched document. */
  function Refresh(h: JobHandle, fetched: map<string, Json>): (r: JobHandle)
    ensures r.api == h.api && r.jobName == h.jobName
    ensures r.currentState == fetched
  {
    h.(currentState := fetched)
  }

  datatype Submission = Submission(request: Request, handle: JobHandle)

  /** `submit_job`: stamps the full job name on the document, posts it to
      the URL prefix and hands back a fresh handle for the job. */
  function SubmitJob(api: Api, job: PipelineJob, jobName: string): (r: Submission)
    ensures r.request.Post? && r.request.url == api.urlPrefix
    ensures r.request.body == job.(name := FullJobName(api.project, jobName))
    ensures r.handle == JobObject(api, jobName)
  {
    Submission(Post(api.urlPrefix, job.(name := FullJobName(api.project, jobName))), JobObject(api, jobName))
  }

  // ---------------------------------------------------------------------
  // The poll loop of `wait_for_completion`

  const ActiveStates: set<string> := {"PENDING", "RUNNING", "CANCELLING"}

  /** Python truthiness of a JSON value. */
  predicate Truthy(j: Json) {
    match j
    case JString(s) => s != []
    case JBool(b) => b
    case JObject(fields) => fields != map[]
  }

  /** What `current_state.get('state')` yields for the loop: nothing
      usable (missing or falsy), a state name, or a truthy value that is not
      a string, on which building the progress line raises TypeError. */
  datatype JobStatus = NoState | State(name: string) | NotAString

  function StatusOf(doc: map<string, Json>): (st: JobStatus)
    ensures st.NoState? <==> "state" !in doc || !Truthy(doc["state"])
    ensures st.State? <==> "state" in doc && doc["state"].JString? && doc["state"].s != []
    ensures st.State? ==> st.name == doc["state"].s
  {
    if "state" !in doc || !Truthy(doc["state"]) then NoState
    else if doc["state"].JString? then State(doc["state"].s)
    else NotAString
  }

  /** One pass of the loop: the time elapsed since the start when the
      timeout is checked, and what the refresh that follows yields. */
  datatype Observation = RefreshFailed | Fetched(doc: map<string, Json>)
  datatype Tick = Tick(elapsed: int, observation: Observation)

  /** The loop goes round again after this tick. */
  predicate Continues(timeout: int, t: Tick) {
    && t.elapsed <= timeout
    && (t.observation.RefreshFailed? ||
        (var st := StatusOf(t.observation.doc); st.State? && st.name in ActiveStates))
  }

  datatype PollResult =
    | Returned(at: nat, handle: JobHandle)
    | TimedOut(at: nat, handle: JobHandle)
    | Crashed(at: nat, handle: JobHandle)
    | StillPolling(handle: JobHandle)

  /** The document a handle holds after the fetches among `ticks`. */
  function LastFetched(initial: map<string, Json>, ticks: seq<Tick>): map<string, Json> {
    if ticks == [] then initial
    else if ticks[|ticks| - 1].observation.Fetched? then ticks[|ticks| - 1].observation.doc
    else LastFetched(initial, ticks[..|ticks| - 1])
  }

  /** How many passes a result has consumed: a timed-out pass stops before
      its refresh. */
  function Consumed(r: PollResult, n: nat): nat {
    match r
    case StillPolling(_) => n
    case TimedOut(at, _) => at
    case Returned(at, _) => at + 1
    case Crashed(at, _) => at + 1
  }

  lemma {:induction false} LastFetchedFront(initial: map<string, Json>, t: Tick, rest: seq<Tick>)
    ensures LastFetched(initial, [t] + rest)
         == LastFetched(if t.observation.Fetched? then t.observation.doc else initial, rest)
    decreases |rest|
  {
    var start := if t.observation.Fetched? then t.observation.doc else initial;
    if rest == [] {
      assert ([t] + rest)[..0] == [];
    } else {
      var front := rest[..|rest| - 1];
      assert ([t] + rest)[..|rest|] == [t] + front;
      LastFetchedFront(initial, t, front);
    }
  }

  /** The loop from pass `i` on. It stops at the first pass that either
      finds the timeout exceeded or fetches a state outside the active set;
      a failed refresh or an active state goes round again. */
  function PollFrom(h: JobHandle, timeout: int, ticks: seq<Tick>, i: nat): (r: PollResult)
    requires i <= |ticks|
    decreases |ticks| - i
    ensures r.handle.api == h.api && r.handle.jobName == h.jobName
    ensures !r.StillPolling? ==> i <= r.at < |ticks| && !Continues(timeout, ticks[r.at])
    ensures !r.StillPolling? ==> forall k :: i <= k < r.at ==> Continues(timeout, ticks[k])
    ensures r.StillPolling? <==> forall k :: i <= k < |ticks| ==> Continues(timeout, ticks[k])
  {
    if i == |ticks| then StillPolling(h)
    else
      var t := ticks[i];
      if t.elapsed > timeout then TimedOut(i, h)
      else match t.observation
        case RefreshFailed => PollFrom(h, timeout, ticks, i + 1)
        case Fetched(doc) =>
          var h' := Refresh(h, doc);
          match StatusOf(doc)
          case NoState => Returned(i, h')
          case NotAString => Crashed(i, h')
          case State(s) => if s in ActiveStates then PollFrom(h', timeout, ticks, i + 1) else Returned(i, h')
  }

  /** How the loop ends at the pass where it stops: a timeout exceeded
      raises TimeoutError; a state missing, empty or outside the active set
      returns; a state that is not a string raises TypeError. */
  lemma {:induction false} PollStopKind(h: JobHandle, timeout: int, ticks: seq<Tick>, i: nat)
    requires i <= |ticks|
    decreases |ticks| - i
    ensures var r := PollFrom(h, timeout, ticks, i);
      && (r.TimedOut? <==> !r.StillPolling? && ticks[r.at].elapsed > timeout)
      && (r.Crashed? ==> ticks[r.at].observation.Fetched? && StatusOf(ticks[r.at].observation.doc).NotAString?)
      && (r.Returned? ==>
            && ticks[r.at].observation.Fetched?
            && var st := StatusOf(ticks[r.at].observation.doc);
               st.NoState? || (st.State? && st.name !in ActiveStates))
  {
    if i < |ticks| && ticks[i].elapsed <= timeout {
      match ticks[i].observation
      case RefreshFailed => PollStopKind(h, timeout, ticks, i + 1);
      case Fetched(doc) =>
        PollStopKind(Refresh(h, doc), timeout, ticks, i + 1);
    }
  }

  lemma LastFetchedSlice(initial: map<string, Json>, ticks: seq<Tick>, i: nat, n: nat)
    requires i < n <= |ticks|
    ensures LastFetched(initial, ticks[i..n])
         == LastFetched(if ticks[i].observation.Fetched? then ticks[i].observation.doc else initial, ticks[i + 1..n])
  {
    assert ticks[i..n] == [ticks[i]] + ticks[i + 1..n];
    LastFetchedFront(initial, ticks[i], ticks[i + 1..n]);
  }

  /** The handle holds the document of the last refresh that succeeded,
      or its earlier state when none did. */
  lemma {:induction false} PollHandleState(h: JobHandle, timeout: int, ticks: seq<Tick>, i: nat)
    requires i <= |ticks|
    decreases |ticks| - i
    ensures var r := PollFrom(h, timeout, ticks, i);
      && i <= Consumed(r, |ticks|) <= |ticks|
      && r.handle.currentState == LastFetched(h.currentState, ticks[i..Consumed(r, |ticks|)])
  {
    if i < |ticks| && ticks[i].elapsed <= timeout {
      match ticks[i].observation
      case RefreshFailed =>
        var r := PollFrom(h, timeout, ticks, i + 1);
        PollHandleState(h, timeout, ticks, i + 1);
        LastFetchedSlice(h.currentState, ticks, i, Consumed(r, |ticks|));
      case Fetched(doc) =>
        var h' := Refresh(h, doc);
        var st := StatusOf(doc);
        if st.State? && st.name in ActiveStates {
          var r := PollFrom(h', timeout, ticks, i + 1);
          PollHandleState(h', timeout, ticks, i + 1);
          LastFetchedSlice(h.currentState, ticks, i, Consumed(r, |ticks|));
        } else {
          LastFetchedSlice(h.currentState, ticks, i, i + 1);
        }
    }
  }

  /** `wait_for_completion` over the passes `ticks`, as a function. */
  function WaitForCompletion(h: JobHandle, timeout: int, ticks: seq<Tick>): PollResult {
    PollFrom(h, timeout, ticks, 0)
  }

  /** The loop as the source writes it: `while True`, check the timeout,
      refresh, inspect the state. */
  method Wait(h: JobHandle, timeout: int, ticks: seq<Tick>) returns (r: PollResult)
    ensures r == WaitForCompletion(h, timeout, ticks)
    ensures r.StillPolling? <==> forall k :: 0 <= k < |ticks| ==> Continues(timeout, ticks[k])
  {
    var handle := h;
    var i := 0;
    while i < |ticks|
      invariant 0 <= i <= |ticks|
      invariant PollFrom(handle, timeout, ticks, i) == WaitForCompletion(h, timeout, ticks)
    {
      var t := ticks[i];
      if t.elapsed > timeout {
        return TimedOut(i, handle);
      }
      if t.observation.RefreshFailed? {
        i := i + 1;
        continue;
      }
      handle := Refresh(handle, t.observation.doc);
      var st := StatusOf(handle.currentState);
      if st.NoState? {
        return Returned(i, handle);
      }
      if st.NotAString? {
        return Crashed(i, handle);
      }
      if st.name !in ActiveStates {
        return Returned(i, handle);
      }
      i := i + 1;
    }
    return StillPolling(handle);
  }

  /** A failed refresh, a running job, then a finished one: the loop
      returns at the third pass holding the finished job's document. */
  lemma PollExample(h: JobHandle)
    ensures var done := map["state" := JString("SUCCEEDED")];
      var ticks := [Tick(0, RefreshFailed), Tick(20, Fetched(map["state" := JString("RUNNING")])), Tick(40, Fetched(done))];
      WaitForCompletion(h, 100, ticks) == Returned(2, Refresh(h, done))
  {
    var running := map["state" := JString("RUNNING")];
    var done := map["state" := JString("SUCCEEDED")];
    assert StatusOf(running) == State("RUNNING");
    assert StatusOf(done) == State("SUCCEEDED");
    assert "SUCCEEDED" !in ActiveStates;
  }
}
