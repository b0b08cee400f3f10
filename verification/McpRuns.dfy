/** What holds over every run of the MCP adapter. */
module McpRuns {
  import opened Common
  import opened McpCommands
  import opened McpMeaning
  import opened McpLimiter
  import opened Mcp

  function StateAt(setting: Setting, start: Time, events: seq<Event>, n: nat): State
    requires n <= |events|
  {
    if n == 0 then State(New, Window(start, 0))
    else NextState(setting, StateAt(setting, start, events, n - 1), events[n - 1])
  }

  function IssuedAt(setting: Setting, start: Time, events: seq<Event>, n: nat): Option<Command>
    requires n < |events|
  {
    Issued(setting, StateAt(setting, start, events, n), events[n])
  }

  function ReplyAt(setting: Setting, start: Time, events: seq<Event>, n: nat): Option<Response>
    requires n < |events|
  {
    Reply(setting, StateAt(setting, start, events, n), events[n])
  }

  /* The handshake. */

  ghost predicate InitializedBy(events: seq<Event>, n: nat)
    requires n <= |events|
  {
    exists i :: 0 <= i < n && Initializes(events[i].message)
  }

  ghost predicate HandshakeBy(events: seq<Event>, n: nat)
    requires n <= |events|
  {
    exists j :: 0 <= j < n && Completes(events[j].message) && InitializedBy(events, j)
  }

  lemma LifecycleStep(setting: Setting, s: State, event: Event)
    ensures var next := NextState(setting, s, event).lifecycle;
            && (next != New <==> s.lifecycle != New || Initializes(event.message))
            && (next == Ready <==> s.lifecycle == Ready || (s.lifecycle != New && Completes(event.message)))
  {
  }

  lemma InitializedGrows(events: seq<Event>, n: nat)
    requires n < |events|
    ensures InitializedBy(events, n + 1) <==> InitializedBy(events, n) || Initializes(events[n].message)
  {
  }

  lemma HandshakeGrows(events: seq<Event>, n: nat)
    requires n < |events|
    ensures HandshakeBy(events, n + 1) <==>
            HandshakeBy(events, n) || (Completes(events[n].message) && InitializedBy(events, n))
  {
  }

  lemma {:induction false} NewUntilInitialized(setting: Setting, start: Time, events: seq<Event>, n: nat)
    requires n <= |events|
    ensures StateAt(setting, start, events, n).lifecycle != New <==> InitializedBy(events, n)
  {
    if n > 0 {
      NewUntilInitialized(setting, start, events, n - 1);
      LifecycleStep(setting, StateAt(setting, start, events, n - 1), events[n - 1]);
      InitializedGrows(events, n - 1);
    }
  }

  /** The connection is ready exactly once a well-formed `initialize` request has been
      followed by the `initialized` notification, whatever else was sent. */
  lemma {:induction false} ReadyExactlyAfterHandshake(setting: Setting, start: Time, events: seq<Event>, n: nat)
    requires n <= |events|
    ensures StateAt(setting, start, events, n).lifecycle == Ready <==> HandshakeBy(events, n)
  {
    if n > 0 {
      ReadyExactlyAfterHandshake(setting, start, events, n - 1);
      NewUntilInitialized(setting, start, events, n - 1);
      LifecycleStep(setting, StateAt(setting, start, events, n - 1), events[n - 1]);
      HandshakeGrows(events, n - 1);
    }
  }

  /** No API command before the handshake. */
  lemma NoCommandBeforeHandshake(setting: Setting, start: Time, events: seq<Event>, n: nat)
    requires n < |events| && IssuedAt(setting, start, events, n).Some?
    ensures HandshakeBy(events, n)
  {
    ReadyExactlyAfterHandshake(setting, start, events, n);
  }

  /* Credentials. */

  lemma IssuedCommandsParse(setting: Setting, s: State, event: Event) returns (name: Str, arguments: Members)
    requires Issued(setting, s, event).Some?
    ensures ParseCommand(name, arguments, setting.config.mode, setting.checks) == Ok(Issued(setting, s, event).value)
  {
    var params := ShapeOf(event.message).params.value.members;
    name, arguments := params[Name].str, ToolArguments(params).members;
  }

  /** A well-formed request to call this tool with these arguments. */
  ghost predicate IsToolCall(message: Json, name: Str, arguments: Members) {
    && message.Object? && var m := message.members;
    && JsonRpc in m && m[JsonRpc] == String(Version2)
    && Id in m && (m[Id].String? || m[Id].Number?)
    && Method in m && m[Method] == String(ToolsCall)
    && Params in m && m[Params].Object? && var p := m[Params].members;
    && Name in p && p[Name] == String(name)
    && if Arguments in p then p[Arguments] == Object(arguments) else arguments == map[]
  }

  /** The limiter has room, given how many calls it has granted in its window. */
  predicate HasRoom(window: Window, event: Event, limit: nat) {
    Granted(window, Call(true, event.now, event.later), limit)
  }

  lemma ConsultsExactly(setting: Setting, lifecycle: Lifecycle, message: Json)
    ensures Consults(setting, lifecycle, message) <==>
            lifecycle == Ready
            && exists name, arguments :: IsToolCall(message, name, arguments) && name in ToolNames(setting.config.mode)
  {
    if Consults(setting, lifecycle, message) {
      var params := message.members[Params].members;
      assert IsToolCall(message, params[Name].str, ToolArguments(params).members);
    }
  }

  lemma KnownByName(name: Str, arguments: Members, mode: Mode, checks: Checks, command: Command)
    requires Means(name, arguments, mode, checks, command)
    ensures name in ToolNames(mode)
  {
  }

  lemma IssuedByCall(setting: Setting, s: State, event: Event, name: Str, arguments: Members, command: Command)
    requires IsToolCall(event.message, name, arguments)
    ensures Issued(setting, s, event) == Some(command) <==>
            && s.lifecycle == Ready && HasRoom(s.window, event, setting.config.requestsPerMinute)
            && Means(name, arguments, setting.config.mode, setting.checks, command)
  {
    ConsultsExactly(setting, s.lifecycle, event.message);
    ParsedExactly(name, arguments, setting.config.mode, setting.checks, command);
    if Means(name, arguments, setting.config.mode, setting.checks, command) {
      KnownByName(name, arguments, setting.config.mode, setting.checks, command);
    }
  }

  /** In every run, a message leads to an API command if and only if the handshake is
      done, the message calls a tool with arguments that mean this command, and the
      limiter has room. */
  lemma IssuedExactly(setting: Setting, start: Time, events: seq<Event>, n: nat, command: Command)
    requires n < |events|
    ensures IssuedAt(setting, start, events, n) == Some(command) <==>
            && HandshakeBy(events, n)
            && HasRoom(StateAt(setting, start, events, n).window, events[n], setting.config.requestsPerMinute)
            && exists name, arguments ::
                 IsToolCall(events[n].message, name, arguments)
                 && Means(name, arguments, setting.config.mode, setting.checks, command)
  {
    var s := StateAt(setting, start, events, n);
    ReadyExactlyAfterHandshake(setting, start, events, n);
    if IssuedAt(setting, start, events, n) == Some(command) {
      ConsultsExactly(setting, s.lifecycle, events[n].message);
      var name, arguments :|
        IsToolCall(events[n].message, name, arguments) && name in ToolNames(setting.config.mode);
      IssuedByCall(setting, s, events[n], name, arguments, command);
    }
    if name, arguments :| IsToolCall(events[n].message, name, arguments)
                          && Means(name, arguments, setting.config.mode, setting.checks, command) {
      IssuedByCall(setting, s, events[n], name, arguments, command);
    }
  }

  /** In read mode nothing that is issued needs the token. */
  lemma ReadModeIsAnonymous(setting: Setting, start: Time, events: seq<Event>, n: nat)
    requires n < |events| && setting.config.mode == Read
    ensures IssuedAt(setting, start, events, n).Some? ==> !Authenticated(IssuedAt(setting, start, events, n).value)
  {
    if IssuedAt(setting, start, events, n).Some? {
      var name, arguments := IssuedCommandsParse(setting, StateAt(setting, start, events, n), events[n]);
      ModesAgree(name, arguments, setting.checks);
    }
  }

  lemma WritersHoldAToken(url: Option<Url>, mode: Mode, token: Option<seq<Byte>>, timeout: nat, perMinute: nat,
                          trim: seq<Byte> -> seq<Byte>)
    requires NewConfig(url, mode, token, timeout, perMinute, trim).Ok?
    ensures var config := NewConfig(url, mode, token, timeout, perMinute, trim).value;
            config.mode == mode && (mode == Write ==> config.token.Some?)
  {
  }

  /** The configurations that are accepted: a plain HTTP address with a host; in write
      mode one that is encrypted or local, and a token; a token without control bytes;
      and limits in their ranges. */
  lemma ConfigsAreSafe(url: Option<Url>, mode: Mode, token: Option<seq<Byte>>, timeout: nat, perMinute: nat,
                       trim: seq<Byte> -> seq<Byte>)
    ensures var held := if token.None? then [] else trim(token.value);
            NewConfig(url, mode, token, timeout, perMinute, trim) ==
            if && url.Some? && (url.value.scheme.Http? || url.value.scheme.Https?) && url.value.hasHost
               && !url.value.hasCredentials && !url.value.hasQuery && !url.value.hasFragment
               && (mode == Write ==> (url.value.scheme.Https? || url.value.loopback) && held != [])
               && |held| <= 8192 && (forall i :: 0 <= i < |held| ==> 0x20 <= held[i] && held[i] != 0x7f)
               && 1 <= timeout <= 300 && 1 <= perMinute <= 10_000
            then Ok(Config(mode, if held == [] then None else Some(held), perMinute))
            else Err
  {
  }

  /** With a configuration that `Config::new` accepts, the client never lacks the token
      that a command needs. */
  lemma TokenIsNeverMissing(setting: Setting, start: Time, events: seq<Event>, n: nat, url: Option<Url>, mode: Mode,
                            token: Option<seq<Byte>>, timeout: nat, perMinute: nat, trim: seq<Byte> -> seq<Byte>)
    requires NewConfig(url, mode, token, timeout, perMinute, trim) == Ok(setting.config)
    requires n < |events| && IssuedAt(setting, start, events, n).Some?
    ensures Execute(IssuedAt(setting, start, events, n).value, setting.config, events[n].reply) == Some(events[n].reply)
  {
    WritersHoldAToken(url, mode, token, timeout, perMinute, trim);
    if setting.config.mode == Read {
      ReadModeIsAnonymous(setting, start, events, n);
    }
  }

  /** Content that is written always declares an accountable author. */
  lemma WrittenContentIsAccountable(setting: Setting, start: Time, events: seq<Event>, n: nat)
    requires n < |events| && IssuedAt(setting, start, events, n).Some?
    ensures var command := IssuedAt(setting, start, events, n).value;
            command.Create? || command.Revise? ==>
              Authorship in command.body && Accountable(command.body[Authorship], setting.checks)
  {
    var name, arguments := IssuedCommandsParse(setting, StateAt(setting, start, events, n), events[n]);
    WrittenIsAccountable(name, arguments, setting.config.mode, setting.checks);
  }

  lemma WrittenIsAccountable(name: Str, arguments: Members, mode: Mode, checks: Checks)
    requires ParseCommand(name, arguments, mode, checks).Ok?
    ensures var command := ParseCommand(name, arguments, mode, checks).value;
            command.Create? || command.Revise? ==>
              Authorship in command.body && Accountable(command.body[Authorship], checks)
  {
    var command := ParseCommand(name, arguments, mode, checks).value;
    WritersByName(name, arguments, mode, checks);
    if command.Create? {
      DraftIsForwarded(arguments, mode, checks);
    } else if command.Revise? {
      RevisionIsForwarded(arguments, mode, checks);
    }
  }

  /* Responses. */

  function IdOf(message: Json): Option<Json> {
    if message.Object? then Get(message.members, Id) else None
  }

  /** A message with a string or number id is answered with that id exactly if it
      declares version 2.0; a message without an id is silent exactly if it does; and
      everything else is answered with a null id. */
  lemma ResponsesEchoIds(setting: Setting, start: Time, events: seq<Event>, n: nat)
    requires n < |events|
    ensures var message, reply := events[n].message, ReplyAt(setting, start, events, n);
            && (IdOf(message).Some? && ValidId(IdOf(message).value) ==>
                  reply.Some? && (reply.value.id == IdOf(message).value <==> HasVersion2(message)))
            && (reply.None? <==> HasVersion2(message) && IdOf(message).None?)
            && (reply.Some? ==> reply.value.id == Null || Some(reply.value.id) == IdOf(message))
  {
  }

  /** A request with an id but another protocol version is answered without its id. */
  lemma WrongVersionLosesId(setting: Setting, start: Time, n: real)
    ensures var message := Object(map[JsonRpc := String(Other("1.0")), Id := Number(n), Method := String(Ping)]);
            var reply := ReplyAt(setting, start, [Event(message, start, start, Err)], 0);
            ValidId(IdOf(message).value) && reply == Some(Error(Null, INVALID_REQUEST))
  {
  }

  /** A request of version 2.0. */
  predicate IsRequest(message: Json, id: Json, verb: Str, params: Option<Json>) {
    && message.Object? && var m := message.members;
    && JsonRpc in m && m[JsonRpc] == String(Version2)
    && Id in m && m[Id] == id && (id.String? || id.Number?)
    && Method in m && m[Method] == String(verb)
    && params == if Params in m then Some(m[Params]) else None
  }

  predicate Introduces(params: Option<Json>, version: Str) {
    && params.Some? && params.value.Object? && var p := params.value.members;
    && ProtocolVersion in p && p[ProtocolVersion] == String(version)
    && Capabilities in p && p[Capabilities].Object? && ClientInfo in p && p[ClientInfo].Object?
  }

  /** A first `initialize` request is answered with its version, if that is one of four,
      and with the newest one otherwise; a malformed or a later one is refused. */
  lemma InitializeIsAnswered(setting: Setting, s: State, event: Event, id: Json, params: Option<Json>, version: Str)
    requires IsRequest(event.message, id, Initialize, params)
    ensures s.lifecycle != New ==> Reply(setting, s, event) == Some(Error(id, -32600))
    ensures s.lifecycle == New && Introduces(params, version) ==>
              Reply(setting, s, event) ==
              Some(Answered(id, Hello(if version in {V2025_11_25, V2025_06_18, V2025_03_26, V2024_11_05}
                                      then version else V2025_11_25)))
    ensures s.lifecycle == New && (forall v :: !Introduces(params, v)) ==>
              Reply(setting, s, event) == Some(Error(id, -32602))
  {
    if InitializeParams(params) {
      assert Introduces(params, params.value.members[ProtocolVersion].str);
    }
  }

  /** Every other request, by its method. */
  lemma RequestsAreAnswered(setting: Setting, s: State, event: Event, id: Json, verb: Str, params: Option<Json>)
    requires IsRequest(event.message, id, verb, params) && verb != Initialize
    ensures verb == Ping ==> Reply(setting, s, event) == Some(Answered(id, Pong))
    ensures verb != Ping && s.lifecycle != Ready ==> Reply(setting, s, event) == Some(Error(id, -32002))
    ensures s.lifecycle == Ready && verb !in {Ping, ToolsList, ToolsCall} ==>
              Reply(setting, s, event) == Some(Error(id, -32601))
    ensures s.lifecycle == Ready && verb == ToolsList ==>
              Reply(setting, s, event) ==
              if params.Some? && params.value.Object? && Cursor in params.value.members
                 && params.value.members[Cursor] != Null
              then Some(Error(id, -32602))
              else Some(Answered(id, Tools(Offered(setting.config.mode))))
  {
    assert ToolNames(setting.config.mode) == Offered(setting.config.mode);
  }

  /** The tools on offer. */
  function Offered(mode: Mode): set<Str> {
    match mode
    case Read => {ContentList, ContentRead}
    case Write => {ContentList, ContentRead, ContentCreate, ContentRevise, ContentPublish}
  }

  predicate CallsOffered(params: Option<Json>, mode: Mode) {
    && params.Some? && params.value.Object? && var p := params.value.members;
    && Name in p && p[Name].String? && p[Name].str in Offered(mode)
  }

  /** A tool call is answered with the API's value exactly if a command was issued, the
      API accepted it, and the token was there if it is one that needs it. */
  lemma ToolCallsAreAnswered(setting: Setting, s: State, event: Event, id: Json, params: Option<Json>)
    requires IsRequest(event.message, id, ToolsCall, params) && s.lifecycle == Ready
    ensures !CallsOffered(params, setting.config.mode) ==> Reply(setting, s, event) == Some(Error(id, -32602))
    ensures CallsOffered(params, setting.config.mode) ==>
              var issued := Issued(setting, s, event);
              Reply(setting, s, event) ==
              Some(Answered(id, if issued.Some? && event.reply.Ok? && (setting.config.token.None? ==> Anonymous(issued.value))
                                then ToolSuccess(event.reply.value) else ToolError))
  {
  }

  predicate Anonymous(command: Command) {
    match command
    case ListPublished => true
    case ReadPublished(_, _) => true
    case _ => false
  }

  /* The limiter. */

  /** The run as the limiter sees it. */
  ghost predicate SeenAs(setting: Setting, start: Time, events: seq<Event>, calls: seq<Call>) {
    && |calls| == |events|
    && forall i :: 0 <= i < |calls| ==>
         calls[i] == AsCall(setting, StateAt(setting, start, events, i).lifecycle, events[i])
  }

  predicate Chronological(start: Time, events: seq<Event>) {
    && (forall i :: 0 <= i < |events| ==> start <= events[i].now <= events[i].later)
    && (forall i, j :: 0 <= i < j < |events| ==> events[i].later <= events[j].now)
  }

  lemma {:induction false} WindowsAgree(setting: Setting, start: Time, events: seq<Event>, calls: seq<Call>, n: nat)
    requires SeenAs(setting, start, events, calls) && n <= |events|
    ensures WindowAt(start, calls, setting.config.requestsPerMinute, n) == StateAt(setting, start, events, n).window
  {
    if n > 0 {
      WindowsAgree(setting, start, events, calls, n - 1);
      var call := calls[n - 1];
      assert StateAt(setting, start, events, n).window ==
             After(StateAt(setting, start, events, n - 1).window, call, setting.config.requestsPerMinute);
    }
  }

  predicate IssuedDuring(setting: Setting, start: Time, events: seq<Event>, from: Time, n: nat)
    requires n < |events|
  {
    IssuedAt(setting, start, events, n).Some? && from <= events[n].now < from + 60_000_000_000
  }

  /** How many of the first `n` messages led to an API command within 60 seconds of `from`. */
  function IssuedWithin(setting: Setting, start: Time, events: seq<Event>, from: Time, n: nat): nat
    requires n <= |events|
  {
    if n == 0 then 0
    else
      IssuedWithin(setting, start, events, from, n - 1) +
      if IssuedDuring(setting, start, events, from, n - 1) then 1 else 0
  }

  lemma IssuedIsGranted(setting: Setting, start: Time, events: seq<Event>, calls: seq<Call>, from: Time, n: nat)
    requires SeenAs(setting, start, events, calls) && n < |events| && IssuedDuring(setting, start, events, from, n)
    ensures GrantedDuring(start, calls, setting.config.requestsPerMinute, from, n)
  {
    WindowsAgree(setting, start, events, calls, n);
  }

  lemma {:induction false} IssuedAreGranted(setting: Setting, start: Time, events: seq<Event>, calls: seq<Call>,
                                            from: Time, n: nat)
    requires |calls| == |events| && n <= |events|
    requires forall k: nat :: k < n && IssuedDuring(setting, start, events, from, k) ==>
               GrantedDuring(start, calls, setting.config.requestsPerMinute, from, k)
    ensures IssuedWithin(setting, start, events, from, n)
            <= GrantsWithin(start, calls, setting.config.requestsPerMinute, from, n)
  {
    if n > 0 {
      IssuedAreGranted(setting, start, events, calls, from, n - 1);
    }
  }

  /** Every half-open span of 60 seconds holds at most twice the limit of API commands. */
  lemma ExecutionsAreBounded(setting: Setting, start: Time, events: seq<Event>, from: Time)
    requires Chronological(start, events)
    ensures IssuedWithin(setting, start, events, from, |events|) <= 2 * setting.config.requestsPerMinute
  {
    var calls := seq(|events|, i requires 0 <= i < |events| =>
      AsCall(setting, StateAt(setting, start, events, i).lifecycle, events[i]));
    forall k: nat | k < |events| && IssuedDuring(setting, start, events, from, k)
      ensures GrantedDuring(start, calls, setting.config.requestsPerMinute, from, k)
    {
      IssuedIsGranted(setting, start, events, calls, from, k);
    }
    IssuedAreGranted(setting, start, events, calls, from, |events|);
    FixedWindowBound(start, calls, setting.config.requestsPerMinute, from);
  }
}
