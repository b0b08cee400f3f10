/** The MCP adapter: one connection's lifecycle, message by message. */
module Mcp {
  import opened Common
  import opened McpCommands
  import opened McpLimiter

  datatype Lifecycle = New | AwaitingInitialized | Ready

  /* Configuration. */

  datatype Scheme = Http | Https | OtherScheme

  datatype Url = Url(scheme: Scheme, hasHost: bool, loopback: bool, hasCredentials: bool, hasQuery: bool,
                     hasFragment: bool)

  datatype Config = Config(mode: Mode, token: Option<seq<Byte>>, requestsPerMinute: nat)

  predicate Control(b: Byte) {
    b < 32 || b == 127
  }

  predicate CleanToken(token: seq<Byte>) {
    |token| <= 8192 && forall i :: 0 <= i < |token| ==> !Control(token[i])
  }

  /** `Config::new`; the URL arrives parsed, and trimming white space is a parameter. */
  function NewConfig(url: Option<Url>, mode: Mode, token: Option<seq<Byte>>, timeoutSeconds: nat,
                     requestsPerMinute: nat, trim: seq<Byte> -> seq<Byte>): Result<Config>
  {
    var url :- if url.None? then Err else Ok(url.value);
    var _ :- Check(url.scheme != OtherScheme && url.hasHost);
    var _ :- Check(!(mode == Write && url.scheme == Http && !url.loopback));
    var _ :- Check(!url.hasCredentials && !url.hasQuery && !url.hasFragment);
    var kept := if token.None? || trim(token.value) == [] then None else Some(trim(token.value));
    var _ :- Check(kept.Some? ==> CleanToken(kept.value));
    var _ :- Check(!(mode == Write && kept.None?));
    var _ :- Check(1 <= timeoutSeconds <= 300);
    var _ :- Check(1 <= requestsPerMinute <= 10_000);
    Ok(Config(mode, kept, requestsPerMinute))
  }

  /* Messages. */

  const NEWEST_PROTOCOL := V2025_11_25
  const SUPPORTED_PROTOCOLS: set<Str> := {V2025_11_25, V2025_06_18, V2025_03_26, V2024_11_05}

  datatype Answer = Hello(version: Str) | Pong | Tools(names: set<Str>) | ToolError | ToolSuccess(value: Json)

  datatype Response = Error(id: Json, code: int) | Answered(id: Json, answer: Answer)

  const INVALID_REQUEST := -32600
  const METHOD_NOT_FOUND := -32601
  const INVALID_PARAMS := -32602
  const NOT_INITIALIZED := -32002

  /** What a message asks for, before the connection's state is looked at. */
  datatype Shape =
    | Invalid
    | Unnamed(id: Json)
    | Ignored
    | Notification(verb: Str)
    | Request(id: Json, verb: Str, params: Option<Json>)

  predicate ValidId(id: Json) {
    id.String? || id.Number?
  }

  predicate HasVersion2(message: Json) {
    message.Object? && Get(message.members, JsonRpc) == Some(String(Version2))
  }

  function ShapeOf(message: Json): Shape {
    if !HasVersion2(message) then Invalid
    else
      var id, verb := Get(message.members, Id), Get(message.members, Method);
      if id.Some? && !ValidId(id.value) then Invalid
      else if verb.None? || !verb.value.String? then
        if id.Some? then Unnamed(id.value) else Ignored
      else if id.None? then Notification(verb.value.str)
      else Request(id.value, verb.value.str, Get(message.members, Params))
  }

  predicate ObjectAt(members: Members, key: Key) {
    key in members && members[key].Object?
  }

  predicate StringAt(members: Members, key: Key) {
    key in members && members[key].String?
  }

  predicate InitializeParams(params: Option<Json>) {
    && params.Some? && params.value.Object?
    && StringAt(params.value.members, ProtocolVersion)
    && ObjectAt(params.value.members, Capabilities)
    && ObjectAt(params.value.members, ClientInfo)
  }

  /** A well-formed `initialize` request, and the notification that completes it. */
  predicate Initializes(message: Json) {
    match ShapeOf(message)
    case Request(_, verb, params) => verb == Initialize && InitializeParams(params)
    case _ => false
  }

  predicate Completes(message: Json) {
    ShapeOf(message) == Notification(Initialized)
  }

  predicate CallsTool(params: Option<Json>, mode: Mode) {
    && params.Some? && params.value.Object?
    && StringAt(params.value.members, Name)
    && params.value.members[Name].str in ToolNames(mode)
  }

  function ToolArguments(params: Members): Json {
    if Arguments in params then params[Arguments] else Object(map[])
  }

  predicate WantsFurtherPage(params: Option<Json>) {
    && params.Some? && params.value.Object?
    && Cursor in params.value.members && !params.value.members[Cursor].Null?
  }

  /* The adapter's state as a value, and what one message does to it. */

  datatype Setting = Setting(config: Config, checks: Checks)

  datatype State = State(lifecycle: Lifecycle, window: Window)

  /** A message with the two clock readings that a tool call may take, and the reply
      that the API gives if it is asked. */
  datatype Event = Event(message: Json, now: Time, later: Time, reply: Result<Json>)

  datatype Effect = Effect(state: State, response: Option<Response>, issued: Option<Command>)

  /** The HTTP client: `None` if the bearer token it needs is missing. */
  function Execute(command: Command, config: Config, reply: Result<Json>): Option<Result<Json>> {
    if Authenticated(command) && config.token.None? then None else Some(reply)
  }

  function NextLifecycle(lifecycle: Lifecycle, message: Json): Lifecycle {
    if lifecycle == New && Initializes(message) then AwaitingInitialized
    else if lifecycle == AwaitingInitialized && Completes(message) then Ready
    else lifecycle
  }

  /** Whether a message gets as far as the limiter. */
  predicate Consults(setting: Setting, lifecycle: Lifecycle, message: Json) {
    match ShapeOf(message)
    case Request(_, verb, params) =>
      && verb == ToolsCall && lifecycle == Ready
      && CallsTool(params, setting.config.mode)
      && ToolArguments(params.value.members).Object?
    case _ => false
  }

  function AsCall(setting: Setting, lifecycle: Lifecycle, event: Event): Call {
    Call(Consults(setting, lifecycle, event.message), event.now, event.later)
  }

  function NextState(setting: Setting, s: State, event: Event): State {
    State(NextLifecycle(s.lifecycle, event.message),
          After(s.window, AsCall(setting, s.lifecycle, event), setting.config.requestsPerMinute))
  }

  predicate Admits(setting: Setting, s: State, event: Event) {
    Granted(s.window, AsCall(setting, s.lifecycle, event), setting.config.requestsPerMinute)
  }

  /** The API command that a message leads to. */
  function Issued(setting: Setting, s: State, event: Event): Option<Command> {
    if !Admits(setting, s, event) then None
    else
      CommandFor(ShapeOf(event.message).params.value.members, setting)
  }

  function CommandFor(params: Members, setting: Setting): Option<Command>
    requires StringAt(params, Name) && ToolArguments(params).Object?
  {
    match ParseCommand(params[Name].str, ToolArguments(params).members, setting.config.mode, setting.checks)
    case Ok(command) => Some(command)
    case Err => None
  }

  /** The response to a request, by its method. */
  function Respond(setting: Setting, s: State, event: Event, id: Json, verb: Str, params: Option<Json>): Response
    requires ShapeOf(event.message) == Request(id, verb, params)
  {
    if verb == Initialize then
      if s.lifecycle != New then Error(id, INVALID_REQUEST)
      else if !InitializeParams(params) then Error(id, INVALID_PARAMS)
      else Answered(id, Hello(Agreed(params.value.members[ProtocolVersion].str)))
    else if verb == Ping then Answered(id, Pong)
    else if s.lifecycle != Ready then Error(id, NOT_INITIALIZED)
    else if verb == ToolsList then
      if WantsFurtherPage(params) then Error(id, INVALID_PARAMS)
      else Answered(id, Tools(ToolNames(setting.config.mode)))
    else if verb != ToolsCall then Error(id, METHOD_NOT_FOUND)
    else if !CallsTool(params, setting.config.mode) then Error(id, INVALID_PARAMS)
    else Answered(id, Outcome(Issued(setting, s, event), setting.config, event.reply))
  }

  function Agreed(requested: Str): Str {
    if requested in SUPPORTED_PROTOCOLS then requested else NEWEST_PROTOCOL
  }

  function Outcome(issued: Option<Command>, config: Config, reply: Result<Json>): Answer {
    match issued
    case None => ToolError
    case Some(command) =>
      match Execute(command, config, reply)
      case Some(Ok(value)) => ToolSuccess(value)
      case _ => ToolError
  }

  function Reply(setting: Setting, s: State, event: Event): Option<Response> {
    match ShapeOf(event.message)
    case Invalid => Some(Error(Null, INVALID_REQUEST))
    case Unnamed(id) => Some(Error(id, INVALID_REQUEST))
    case Ignored => None
    case Notification(_) => None
    case Request(id, verb, params) => Some(Respond(setting, s, event, id, verb, params))
  }

  class Adapter {
    const setting: Setting
    var lifecycle: Lifecycle
    const limiter: RateLimiter

    ghost predicate Valid()
      reads limiter
    {
      limiter.limit == setting.config.requestsPerMinute
    }

    ghost function StateOf(): State
      reads this, limiter
    {
      State(lifecycle, limiter.State())
    }

    constructor (setting: Setting, now: Time)
      ensures Valid() && fresh(limiter)
      ensures StateOf() == State(New, Window(now, 0)) && this.setting == setting
    {
      this.setting := setting;
      lifecycle := New;
      limiter := new RateLimiter(setting.config.requestsPerMinute, now);
    }

    method HandleMessage(event: Event) returns (response: Option<Response>, issued: Option<Command>)
      requires Valid()
      modifies this, limiter
      ensures Valid()
      ensures StateOf() == NextState(setting, old(StateOf()), event)
      ensures issued == Issued(setting, old(StateOf()), event)
      ensures response == Reply(setting, old(StateOf()), event)
    {
      issued := None;
      var message := event.message;
      if !message.Object? {
        return Some(Error(Null, INVALID_REQUEST)), None;
      }
      var fields := message.members;
      if Get(fields, JsonRpc) != Some(String(Version2)) {
        return Some(Error(Null, INVALID_REQUEST)), None;
      }
      var id := Get(fields, Id);
      if id.Some? && !id.value.String? && !id.value.Number? {
        return Some(Error(Null, INVALID_REQUEST)), None;
      }
      if Method !in fields || !fields[Method].String? {
        return if id.Some? then Some(Error(id.value, INVALID_REQUEST)) else None, None;
      }
      var verb := fields[Method].str;
      if id.None? {
        HandleNotification(verb);
        return None, None;
      }
      var reply: Response;
      if verb == Initialize {
        reply := InitializeConnection(id.value, Get(fields, Params));
      } else if verb == Ping {
        reply := Answered(id.value, Pong);
      } else if lifecycle != Ready {
        reply := Error(id.value, NOT_INITIALIZED);
      } else if verb == ToolsList {
        reply := if WantsFurtherPage(Get(fields, Params)) then Error(id.value, INVALID_PARAMS)
                 else Answered(id.value, Tools(ToolNames(setting.config.mode)));
      } else if verb == ToolsCall {
        reply, issued := CallTool(id.value, Get(fields, Params), event);
      } else {
        reply := Error(id.value, METHOD_NOT_FOUND);
      }
      response := Some(reply);
    }

    method HandleNotification(verb: Str)
      modifies this`lifecycle
      ensures lifecycle ==
              if verb == Initialized && old(lifecycle) == AwaitingInitialized then Ready else old(lifecycle)
    {
      if verb == Initialized && lifecycle == AwaitingInitialized {
        lifecycle := Ready;
      }
    }

    method InitializeConnection(id: Json, params: Option<Json>) returns (response: Response)
      modifies this`lifecycle
      ensures response ==
              if old(lifecycle) != New then Error(id, INVALID_REQUEST)
              else if !InitializeParams(params) then Error(id, INVALID_PARAMS)
              else Answered(id, Hello(Agreed(params.value.members[ProtocolVersion].str)))
      ensures lifecycle == if response.Answered? then AwaitingInitialized else old(lifecycle)
    {
      if lifecycle != New {
        return Error(id, INVALID_REQUEST);
      }
      if params.None? || !params.value.Object? {
        return Error(id, INVALID_PARAMS);
      }
      var fields := params.value.members;
      if ProtocolVersion !in fields || !fields[ProtocolVersion].String? {
        return Error(id, INVALID_PARAMS);
      }
      if !ObjectAt(fields, Capabilities) || !ObjectAt(fields, ClientInfo) {
        return Error(id, INVALID_PARAMS);
      }
      var requested := fields[ProtocolVersion].str;
      var version := if requested in SUPPORTED_PROTOCOLS then requested else NEWEST_PROTOCOL;
      lifecycle := AwaitingInitialized;
      return Answered(id, Hello(version));
    }

    /** The limiter is consulted only for a known tool with an object of arguments; an
        admitted call whose arguments parse is sent to the API. */
    method CallTool(id: Json, params: Option<Json>, event: Event) returns (response: Response, issued: Option<Command>)
      requires Valid()
      modifies limiter
      ensures response == if CallsTool(params, setting.config.mode)
                          then Answered(id, Outcome(issued, setting.config, event.reply))
                          else Error(id, INVALID_PARAMS)
      ensures var consults := CallsTool(params, setting.config.mode) && ToolArguments(params.value.members).Object?;
              var call := Call(consults, event.now, event.later);
              && limiter.State() == After(old(limiter.State()), call, setting.config.requestsPerMinute)
              && issued == if Granted(old(limiter.State()), call, setting.config.requestsPerMinute)
                           then CommandFor(params.value.members, setting) else None
    {
      issued := None;
      if params.None? || !params.value.Object? {
        return Error(id, INVALID_PARAMS), None;
      }
      var fields := params.value.members;
      if Name !in fields || !fields[Name].String? {
        return Error(id, INVALID_PARAMS), None;
      }
      if fields[Name].str !in ToolNames(setting.config.mode) {
        return Error(id, INVALID_PARAMS), None;
      }
      var arguments := if Arguments in fields then fields[Arguments] else Object(map[]);
      if !arguments.Object? {
        return Answered(id, ToolError), None;
      }
      var granted := limiter.Allow(event.now, event.later);
      if !granted {
        return Answered(id, ToolError), None;
      }
      var command := ParseCommand(fields[Name].str, arguments.members, setting.config.mode, setting.checks);
      if command.Err? {
        return Answered(id, ToolError), None;
      }
      var outcome := Execute(command.value, setting.config, event.reply);
      var answer := if outcome.Some? && outcome.value.Ok? then ToolSuccess(outcome.value.value) else ToolError;
      return Answered(id, answer), Some(command.value);
    }
  }
}
