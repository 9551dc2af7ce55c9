/** `/v1/system/status`: what the search API publishes about itself and the ML service. */
module SystemStatus {
  import opened Wrappers
  import opened Whitespace
  import opened GoErrors
  import opened Classifier
  import opened MlClient

  /** `mlServiceStatusResponse`; an empty `error` is left out of the JSON. */
  datatype Dependency = Dependency(
    status: string, version: Option<string>, mode: Option<string>,
    embeddingModel: Option<string>, rerankerModel: Option<string>,
    pythonVersion: Option<string>, environment: Option<string>, error: string)

  datatype Payload = Payload(
    service: string, status: string, version: string, uptimeSeconds: int, mlService: Dependency)

  function StatusText(failure: FailureStatus): string {
    match failure
    case Timeout => "timeout"
    case InvalidReply => "invalid_response"
    case Unavailable => "unavailable"
  }

  function CodeText(failure: FailureStatus): string {
    match failure
    case Timeout => "dependency_timeout"
    case InvalidReply => "invalid_dependency_response"
    case Unavailable => "dependency_unavailable"
  }

  /** `unavailableMLServiceStatus`. */
  function FailedDependency(failure: FailureStatus): Dependency {
    Dependency(StatusText(failure), None, None, None, None, None, None, CodeText(failure))
  }

  /** `mlServiceStatus`; `None` stands for a handler without a client. */
  function MlServiceStatus(call: Option<Result<ModelInfo, Error>>): Dependency {
    match call
    case None => FailedDependency(Unavailable)
    case Some(Failure(err)) => FailedDependency(Classify(err))
    case Some(Success(info)) =>
      Dependency("ready", Some(info.version), Some(info.mode), info.embeddingModel, info.rerankerModel,
                 Some(info.pythonVersion), Some(info.environment), "")
  }

  /** The handler `systemStatus`; `elapsed` is the clock's distance from the start in nanoseconds, possibly negative. */
  function SystemPayload(version: string, elapsed: int, dependency: Dependency): Payload {
    var uptime := if elapsed < 0 then 0 else elapsed;
    Payload("search-api", if dependency.status != "ready" then "degraded" else "healthy", version,
            uptime / 1_000_000_000, dependency)
  }

  // ---------------------------------------------------------------------------------------------
  // Faithfulness
  // ---------------------------------------------------------------------------------------------

  /**
   The `MLServiceStatus` schema of the public contract, with the pairing of status and code the handler adds
   to it.
   */
  predicate PublicContract(d: Dependency) {
    if d.status == "ready" then
      d.error == "" && d.version.Some? && d.mode == Some("foundation") && d.pythonVersion.Some? && d.environment.Some?
    else
      && (|| (d.status == "timeout" && d.error == "dependency_timeout")
          || (d.status == "unavailable" && d.error == "dependency_unavailable")
          || (d.status == "invalid_response" && d.error == "invalid_dependency_response"))
      && d.version.None? && d.mode.None? && d.embeddingModel.None? && d.rerankerModel.None?
      && d.pythonVersion.None? && d.environment.None?
  }

  /** The description a ready dependency publishes. */
  predicate Publishes(d: Dependency, info: ModelInfo) {
    && d.status == info.status && d.version == Some(info.version) && d.mode == Some(info.mode)
    && d.embeddingModel == info.embeddingModel && d.rerankerModel == info.rerankerModel
    && d.pythonVersion == Some(info.pythonVersion) && d.environment == Some(info.environment)
  }

  /** The transport failed, with a tree that says the time ran out. */
  ghost predicate RanOutOfTime(reply: Reply) {
    var transport := TransportFailure(reply);
    transport.Some? && TimedOut(transport.value)
  }

  /** The dependency answered, but with too much or with something other than an acceptable description. */
  predicate AnsweredBadly(reply: Reply) {
    && reply.Answered? && TransportFailure(reply).None?
    && (Oversize(reply.stream) || reply.status == 200)
  }

  /** A transport error that itself claims to be an invalid response; no transport of the repository builds one. */
  ghost predicate ClaimsInvalid(reply: Reply) {
    var transport := TransportFailure(reply);
    transport.Some? && Mentions(PreOrder(transport.value), InvalidResponse)
  }

  lemma CallErrorClass(reply: Reply)
    ensures var c := Classify(CallError(reply));
      && (c == Timeout <==> RanOutOfTime(reply))
      && (c == InvalidReply <==> AnsweredBadly(reply) || (ClaimsInvalid(reply) && !RanOutOfTime(reply)))
  {
    var transport := TransportFailure(reply);
    WrappedSentinelClass();
    if transport.Some? {
      WrapKeepsClass(transport.value);
      ClassifyMeans(transport.value);
    }
  }

  /** The causes that can be found in a call's error: the transport's own, or exactly one sentinel. */
  lemma CallErrorSentinel(reply: Reply, target: Identity)
    requires target != Other(0)
    ensures var err := CallError(reply);
      if TransportFailure(reply).Some? then Is(err, target) <==> Is(TransportFailure(reply).value, target)
      else if Oversize(reply.stream) || reply.status == 200 then Is(err, target) <==> target == InvalidResponse
      else Is(err, target) <==> target == UnexpectedStatus
  {
    var cause := if TransportFailure(reply).Some? then TransportFailure(reply).value
                 else if Oversize(reply.stream) || reply.status == 200 then Sentinel(InvalidResponse)
                 else Sentinel(UnexpectedStatus);
    WrapIsTransparent(cause, target);
    assert !IsAny([], target);
  }

  lemma StatusesDistinct()
    ensures "ready" != "timeout" && "ready" != "invalid_response" && "ready" != "unavailable"
    ensures "timeout" != "invalid_response" && "timeout" != "unavailable" && "invalid_response" != "unavailable"
  {
    assert |"ready"| == 5 && |"timeout"| == 7 && |"invalid_response"| == 16 && |"unavailable"| == 11;
    assert |"dependency_timeout"| == 18 && |"invalid_dependency_response"| == 27 && |"dependency_unavailable"| == 22;
  }

  /**
   The published payload says what happened, for every reply, chunking, JSON grammar and clock. It is
   healthy exactly when the reply carries one acceptable description, and then repeats that description;
   otherwise status and code name the reason, whatever text the discarded causes had. Without a `dependency`
   client the service is unavailable. Readiness, the absence of a code and a version always go together.
   */
  method StatusOf(version: string, elapsed: int, dependency: Option<Reply>, chunks: seq<nat>,
                  parse: string -> seq<Item>)
    returns (payload: Payload)
    ensures payload.service == "search-api" && payload.version == version
    ensures payload.uptimeSeconds >= 0
    ensures elapsed < 0 ==> payload.uptimeSeconds == 0
    ensures elapsed >= 0 ==> 0 <= elapsed - payload.uptimeSeconds * 1_000_000_000 < 1_000_000_000
    ensures PublicContract(payload.mlService)
    ensures var d := payload.mlService;
      (d.error == "" <==> d.status == "ready") && (d.version.Some? <==> d.status == "ready")
    ensures payload.status == if payload.mlService.status == "ready" then "healthy" else "degraded"
    ensures payload.status == "healthy" <==> dependency.Some? && exists info :: Accepts(dependency.value, parse, info)
    ensures dependency.None? ==> payload.mlService.status == "unavailable"
    ensures dependency.Some? ==> var reply := dependency.value;
      && (forall info :: Accepts(reply, parse, info) ==> Publishes(payload.mlService, info))
      && (payload.mlService.status == "timeout" <==> RanOutOfTime(reply))
      && (payload.mlService.status == "invalid_response" <==>
            || (AnsweredBadly(reply) && forall info :: !Accepts(reply, parse, info))
            || (ClaimsInvalid(reply) && !RanOutOfTime(reply)))
  {
    StatusesDistinct();
    if dependency.None? {
      payload := SystemPayload(version, elapsed, MlServiceStatus(None));
    } else {
      var call := GetModelInfo(dependency.value, chunks, parse);
      payload := SystemPayload(version, elapsed, MlServiceStatus(Some(call)));
      if call.Failure? {
        CallErrorClass(dependency.value);
      } else {
        assert Accepts(dependency.value, parse, call.value);
      }
    }
  }

  // ---------------------------------------------------------------------------------------------
  // The Python side of the contract
  // ---------------------------------------------------------------------------------------------

  const DEFAULT_ENVIRONMENT := "development"

  /** `Settings.from_env`'s environment name. */
  function EnvironmentSetting(variable: Option<string>): string {
    var name := Trim(PythonBlank, if variable.Some? then variable.value else DEFAULT_ENVIRONMENT);
    if name == "" then DEFAULT_ENVIRONMENT else name
  }

  /** The `ModelInfoResponse` the service answers with. */
  function PythonModelInfo(pythonVersion: string, environment: string): ModelInfo {
    ModelInfo("ml-service", "0.1.0", "ready", "foundation", None, None, pythonVersion, environment)
  }

  /** Go accepts the Python payload exactly when the interpreter version and the environment name have text. */
  lemma PythonPayloadAccepted(pythonVersion: string, environment: string)
    ensures ValidateModelInfo(PythonModelInfo(pythonVersion, environment)).None?
      <==> HasText(pythonVersion) && HasText(environment)
  {
    assert !GoSpace("0.1.0"[0] as int);
    ValidationMeans(PythonModelInfo(pythonVersion, environment));
  }

  lemma DefaultIsTrimmed()
    ensures Trim(PythonBlank, DEFAULT_ENVIRONMENT) == DEFAULT_ENVIRONMENT
  {
    assert DEFAULT_ENVIRONMENT[..1] == [DEFAULT_ENVIRONMENT[0]];
    assert Last(DEFAULT_ENVIRONMENT, 1) == [DEFAULT_ENVIRONMENT[10]];
  }

  /**
   The environment name is what stands between the blanks of the variable, with no blank at either end, or the
   default if the variable is missing or blank.
   */
  lemma EnvironmentSettingMeans(variable: Option<string>)
    ensures var name := EnvironmentSetting(variable);
      if variable.None? || forall k | 0 <= k < |variable.value| :: PythonSpace(variable.value[k] as int)
      then name == "development"
      else name != "" && Stripped(PythonSpace, variable.value, name)
  {
    if variable.Some? {
      TrimStrips(PythonBlank, PythonSpace, variable.value);
      StrippedIsText(PythonSpace, variable.value, Trim(PythonBlank, variable.value));
    } else {
      DefaultIsTrimmed();
    }
  }

  /** Every environment name loaded from the environment passes, although Go trims other characters than Python. */
  lemma LoadedEnvironmentAccepted(pythonVersion: string, variable: Option<string>)
    requires HasText(pythonVersion)
    ensures ValidateModelInfo(PythonModelInfo(pythonVersion, EnvironmentSetting(variable))).None?
  {
    var raw := if variable.Some? then variable.value else DEFAULT_ENVIRONMENT;
    var name := EnvironmentSetting(variable);
    TrimmedStart(PythonBlank, raw);
    assert !GoSpace(DEFAULT_ENVIRONMENT[0] as int);
    assert name != "" && !GoSpace(name[0] as int);
    PythonPayloadAccepted(pythonVersion, name);
  }
}
