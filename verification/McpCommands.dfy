/** Tool arguments and the API commands they become.

    Strings and member names that the adapter compares with literals are constructors;
    every other string is `Other`. Checks on the text of a string (slugs, bounded text,
    UUID syntax) are parameters, gathered in `Checks`. */
module McpCommands {
  import opened Common

  datatype Str =
    | Version2
    | V2025_11_25 | V2025_06_18 | V2025_03_26 | V2024_11_05
    | Initialize | Ping | ToolsList | ToolsCall | Initialized
    | ContentList | ContentRead | ContentCreate | ContentRevise | ContentPublish
    | ViewIntent | ViewMarkdown | ViewMarkdownSource
    | Human | AiGenerated | AiAssisted | Imported
    | Other(text: string)

  datatype Key =
    | JsonRpc | Id | Method | Params | Cursor
    | ProtocolVersion | Capabilities | ClientInfo
    | Name | Arguments
    | IncludeDrafts | Slug | DocumentId | View
    | Title | SourceMarkdown | Embeds | Intent | Ontology | Authorship
    | BaseRevisionId | IdempotencyKey | RevisionId
    | Kind | Generator | HumanReviewed
    | OtherKey(name: string)

  datatype Json =
    | Null
    | Bool(flag: bool)
    | Number(number: real)
    | String(str: Str)
    | Array(items: seq<Json>)
    | Object(members: map<Key, Json>)

  type Members = map<Key, Json>
  type Uuid = nat

  datatype Mode = Read | Write

  datatype Checks = Checks(
    slug: Str -> bool,
    title: Str -> bool,
    markdown: Str -> bool,
    generator: Str -> bool,
    idempotencyKey: Str -> bool,
    uuid: Str -> Option<Uuid>,
    canonical: Uuid -> Str)

  datatype Command =
    | ListPublished
    | ListAll
    | ReadPublished(slug: Str, view: Str)
    | ReadDocument(document: Uuid)
    | Create(body: Members)
    | Revise(document: Uuid, body: Members)
    | Publish(document: Uuid, revision: Uuid)

  /** The commands that the HTTP client sends with the bearer token. */
  predicate Authenticated(command: Command) {
    !command.ListPublished? && !command.ReadPublished?
  }

  const TOOLS_FOR_READING: set<Str> := {ContentList, ContentRead}

  function ToolNames(mode: Mode): set<Str> {
    if mode == Write then TOOLS_FOR_READING + {ContentCreate, ContentRevise, ContentPublish} else TOOLS_FOR_READING
  }

  /* Argument access. */

  function Get(members: Members, key: Key): Option<Json> {
    if key in members then Some(members[key]) else None
  }

  function RequiredString(members: Members, key: Key): Result<Str> {
    match Get(members, key)
    case Some(String(s)) => Ok(s)
    case _ => Err
  }

  function OptionalString(members: Members, key: Key): Result<Option<Str>> {
    match Get(members, key)
    case None => Ok(None)
    case Some(String(s)) => Ok(Some(s))
    case _ => Err
  }

  function OptionalBool(members: Members, key: Key): Result<Option<bool>> {
    match Get(members, key)
    case None => Ok(None)
    case Some(Bool(b)) => Ok(Some(b))
    case _ => Err
  }

  function Check(condition: bool): Result<()> {
    if condition then Ok(()) else Err
  }

  function ParseUuid(text: Str, checks: Checks): Result<Uuid> {
    match checks.uuid(text)
    case None => Err
    case Some(uuid) => Ok(uuid)
  }

  function RequireWrite(mode: Mode): Result<()> {
    Check(mode == Write)
  }

  /* Content. */

  predicate RequiredContent(key: Key) {
    key.Title? || key.Slug? || key.SourceMarkdown? || key.Authorship?
  }

  predicate OptionalContent(key: Key) {
    key.Embeds? || key.Intent? || key.Ontology?
  }

  predicate ContentKey(key: Key) {
    RequiredContent(key) || OptionalContent(key)
  }

  predicate AuthorshipKey(key: Key) {
    key.Kind? || key.Generator? || key.HumanReviewed?
  }

  /** Declared authorship says who wrote the text: a person and no generator, or a
      generator by name. */
  predicate Accountable(authorship: Json, checks: Checks) {
    && authorship.Object?
    && var a := authorship.members;
    && (forall key :: key in a ==> AuthorshipKey(key))
    && HumanReviewed in a && a[HumanReviewed].Bool?
    && Kind in a && a[Kind].String?
    && (if a[Kind].str == Human then Generator !in a
        else
          && a[Kind].str in {AiGenerated, AiAssisted, Imported}
          && Generator in a && a[Generator].String? && checks.generator(a[Generator].str))
  }

  predicate OptionalShape(key: Key, value: Json) {
    if key == Embeds then value.Array? else value.Object? || value.Null?
  }

  predicate HasString(members: Members, key: Key, accepts: Str -> bool) {
    key in members && members[key].String? && accepts(members[key].str)
  }

  predicate AcceptableRequired(arguments: Members, checks: Checks) {
    && HasString(arguments, Title, checks.title)
    && HasString(arguments, Slug, checks.slug)
    && HasString(arguments, SourceMarkdown, checks.markdown)
    && Authorship in arguments && Accountable(arguments[Authorship], checks)
  }

  predicate AcceptableOptional(arguments: Members) {
    forall key :: key in arguments && OptionalContent(key) ==> OptionalShape(key, arguments[key])
  }

  predicate AcceptableContent(arguments: Members, checks: Checks) {
    AcceptableRequired(arguments, checks) && AcceptableOptional(arguments)
  }

  function ContentPart(members: Members): Members {
    map key | key in members && ContentKey(key) :: members[key]
  }

  function RequiredPart(members: Members): Members {
    map key | key in members && RequiredContent(key) :: members[key]
  }

  function Content(arguments: Members, checks: Checks): Result<Members> {
    if AcceptableContent(arguments, checks) then Ok(ContentPart(arguments)) else Err
  }

  /** The authorship check, branch by branch. */
  function ValidateAuthorship(value: Json, checks: Checks): (r: Result<()>)
    ensures r.Ok? <==> Accountable(value, checks)
  {
    if !value.Object? then Err
    else
      var a := value.members;
      var _ :- Check(forall key :: key in a ==> AuthorshipKey(key));
      var kind :- RequiredString(a, Kind);
      var _ :- Check(match Get(a, HumanReviewed) case Some(Bool(_)) => true case _ => false);
      match kind
      case Human => Check(Generator !in a)
      case AiGenerated => GeneratorNamed(a, checks)
      case AiAssisted => GeneratorNamed(a, checks)
      case Imported => GeneratorNamed(a, checks)
      case _ => Err
  }

  function GeneratorNamed(a: Members, checks: Checks): Result<()> {
    match Get(a, Generator)
    case Some(String(name)) => Check(checks.generator(name))
    case _ => Err
  }

  /** `content_body`: the required strings, the authorship, then the optional fields one
      by one. It succeeds exactly on acceptable content, and the body is the content
      part of the arguments, nothing added and nothing lost. */
  method ContentBody(arguments: Members, checks: Checks) returns (r: Result<Members>)
    ensures r == Content(arguments, checks)
  {
    var title := RequiredString(arguments, Title);
    if title.Err? || !checks.title(title.value) {
      return Err;
    }
    var slug := RequiredString(arguments, Slug);
    if slug.Err? || !checks.slug(slug.value) {
      return Err;
    }
    var markdown := RequiredString(arguments, SourceMarkdown);
    if markdown.Err? || !checks.markdown(markdown.value) {
      return Err;
    }
    var body: Members := map[Title := String(title.value), Slug := String(slug.value),
                             SourceMarkdown := String(markdown.value)];
    if Authorship !in arguments || ValidateAuthorship(arguments[Authorship], checks).Err? {
      return Err;
    }
    body := body[Authorship := arguments[Authorship]];
    assert body == RequiredPart(arguments);
    r := AddOptional(body, arguments);
  }

  predicate OptionalBefore(key: Key, i: nat) {
    (key.Embeds? && 0 < i) || (key.Intent? && 1 < i) || (key.Ontology? && 2 < i)
  }

  method AddOptional(required: Members, arguments: Members) returns (r: Result<Members>)
    requires required == RequiredPart(arguments)
    ensures r == if AcceptableOptional(arguments) then Ok(ContentPart(arguments)) else Err
  {
    var body := required;
    var fields := [Embeds, Intent, Ontology];
    for i := 0 to 3
      invariant forall key :: key in body <==> key in arguments && (RequiredContent(key) || OptionalBefore(key, i))
      invariant forall key :: key in body ==> body[key] == arguments[key]
      invariant forall key :: key in arguments && OptionalBefore(key, i) ==> OptionalShape(key, arguments[key])
    {
      var field := fields[i];
      assert OptionalContent(field);
      forall key
        ensures OptionalBefore(key, i + 1) <==> OptionalBefore(key, i) || key == field
      {
        match key
        case Embeds =>
        case Intent =>
        case Ontology =>
        case _ =>
      }
      if field in arguments {
        if !OptionalShape(field, arguments[field]) {
          return Err;
        }
        body := body[field := arguments[field]];
      }
    }
    assert forall key :: OptionalBefore(key, 3) <==> OptionalContent(key);
    assert body == ContentPart(arguments);
    return Ok(body);
  }

  /* Commands. */

  function ParseList(arguments: Members, mode: Mode): Result<Command> {
    var _ :- Check(forall key :: key in arguments ==> key.IncludeDrafts?);
    var drafts :- OptionalBool(arguments, IncludeDrafts);
    if drafts == Some(true) then
      var _ :- RequireWrite(mode);
      Ok(ListAll)
    else Ok(ListPublished)
  }

  function ParseRead(arguments: Members, mode: Mode, checks: Checks): Result<Command> {
    var _ :- Check(forall key :: key in arguments ==> key.Slug? || key.DocumentId? || key.View?);
    var slug :- OptionalString(arguments, Slug);
    var document :- OptionalString(arguments, DocumentId);
    if slug.Some? && document.None? then
      var _ :- Check(checks.slug(slug.value));
      var view :- OptionalString(arguments, View);
      var chosen := if view.None? then ViewMarkdownSource else view.value;
      var _ :- Check(chosen.ViewIntent? || chosen.ViewMarkdown? || chosen.ViewMarkdownSource?);
      Ok(ReadPublished(slug.value, chosen))
    else if slug.None? && document.Some? then
      var _ :- RequireWrite(mode);
      var uuid :- ParseUuid(document.value, checks);
      Ok(ReadDocument(uuid))
    else Err
  }

  function ParseCreate(arguments: Members, mode: Mode, checks: Checks): Result<Command> {
    var _ :- RequireWrite(mode);
    var _ :- Check(forall key :: key in arguments ==> ContentKey(key));
    var body :- Content(arguments, checks);
    Ok(Create(body))
  }

  predicate RevisionKey(key: Key) {
    ContentKey(key) || key.DocumentId? || key.BaseRevisionId? || key.IdempotencyKey?
  }

  /** Adds the base revision, in canonical form, and the idempotency key. */
  function WithRevision(body: Members, arguments: Members, checks: Checks): Result<Members> {
    var baseText :- RequiredString(arguments, BaseRevisionId);
    var base :- ParseUuid(baseText, checks);
    var key :- RequiredString(arguments, IdempotencyKey);
    var _ :- Check(checks.idempotencyKey(key));
    Ok(body[BaseRevisionId := String(checks.canonical(base))][IdempotencyKey := String(key)])
  }

  function ParseRevise(arguments: Members, mode: Mode, checks: Checks): Result<Command> {
    var _ :- RequireWrite(mode);
    var _ :- Check(forall key :: key in arguments ==> RevisionKey(key));
    var documentText :- RequiredString(arguments, DocumentId);
    var document :- ParseUuid(documentText, checks);
    var body :- Content(arguments, checks);
    var extended :- WithRevision(body, arguments, checks);
    Ok(Revise(document, extended))
  }

  function ParsePublish(arguments: Members, mode: Mode, checks: Checks): Result<Command> {
    var _ :- RequireWrite(mode);
    var _ :- Check(forall key :: key in arguments ==> key.DocumentId? || key.RevisionId?);
    var documentText :- RequiredString(arguments, DocumentId);
    var document :- ParseUuid(documentText, checks);
    var revisionText :- RequiredString(arguments, RevisionId);
    var revision :- ParseUuid(revisionText, checks);
    Ok(Publish(document, revision))
  }

  function ParseCommand(name: Str, arguments: Members, mode: Mode, checks: Checks): Result<Command> {
    match name
    case ContentList => ParseList(arguments, mode)
    case ContentRead => ParseRead(arguments, mode, checks)
    case ContentCreate => ParseCreate(arguments, mode, checks)
    case ContentRevise => ParseRevise(arguments, mode, checks)
    case ContentPublish => ParsePublish(arguments, mode, checks)
    case _ => Err
  }

  /** The access mode is the only difference: a command accepted for reading is accepted,
      unchanged, for writing; and one accepted for writing is accepted for reading
      exactly if it needs no token. */
  lemma ModesAgree(name: Str, arguments: Members, checks: Checks)
    ensures var write := ParseCommand(name, arguments, Write, checks);
            ParseCommand(name, arguments, Read, checks) ==
            if write.Ok? && Authenticated(write.value) then Err else write
  {
  }

  /** What a revision carries: everything the caller gave except the document's own id,
      unchanged but for the canonical form of the base revision. */
  ghost predicate Forwards(body: Members, arguments: Members) {
    && (forall key :: key in body <==> key in arguments && key != DocumentId)
    && (forall key :: key in body && key != BaseRevisionId ==> body[key] == arguments[key])
  }

  /* Extending a part of a map, whatever it maps. */

  ghost predicate IsPart<K(!new), V>(part: map<K, V>, whole: map<K, V>, keep: K -> bool) {
    && (forall k :: k in part <==> k in whole && keep(k))
    && (forall k :: k in part ==> part[k] == whole[k])
  }

  lemma WholePart<K(!new), V>(part: map<K, V>, whole: map<K, V>, keep: K -> bool)
    requires IsPart(part, whole, keep) && forall k :: k in whole ==> keep(k)
    ensures part == whole
  {
  }

  lemma ExtendedPart<K(!new), V>(part: map<K, V>, whole: map<K, V>, keep: K -> bool, dropped: K, changed: K, added: K, v: V)
    requires IsPart(part, whole, keep) && changed in whole && added in whole
    requires !keep(dropped) && !keep(changed) && !keep(added)
    requires dropped != changed && dropped != added && changed != added
    requires forall k :: k in whole ==> keep(k) || k == dropped || k == changed || k == added
    ensures var all := part[changed := v][added := whole[added]];
            && (forall k :: k in all <==> k in whole && k != dropped)
            && (forall k :: k in all && k != changed ==> all[k] == whole[k])
  {
  }

  lemma ContentFacts(arguments: Members, checks: Checks)
    requires Content(arguments, checks).Ok?
    ensures IsPart(Content(arguments, checks).value, arguments, ContentKey)
    ensures Authorship in arguments && Accountable(arguments[Authorship], checks)
  {
  }

  /** A draft is sent exactly as given, with an accountable author. */
  lemma DraftIsForwarded(arguments: Members, mode: Mode, checks: Checks)
    requires ParseCreate(arguments, mode, checks).Ok?
    ensures ParseCreate(arguments, mode, checks) == Ok(Create(arguments))
    ensures Authorship in arguments && Accountable(arguments[Authorship], checks)
  {
    ContentFacts(arguments, checks);
    WholePart(Content(arguments, checks).value, arguments, ContentKey);
  }

  lemma RevisionKeys(arguments: Members)
    requires forall key :: key in arguments ==> RevisionKey(key)
    ensures forall key :: key in arguments ==>
              ContentKey(key) || key == DocumentId || key == BaseRevisionId || key == IdempotencyKey
  {
  }

  lemma WithRevisionForwards(body: Members, arguments: Members, checks: Checks)
    requires WithRevision(body, arguments, checks).Ok? && IsPart(body, arguments, ContentKey)
    requires forall key :: key in arguments ==>
               ContentKey(key) || key == DocumentId || key == BaseRevisionId || key == IdempotencyKey
    ensures Forwards(WithRevision(body, arguments, checks).value, arguments)
  {
    var base := String(checks.canonical(ParseUuid(RequiredString(arguments, BaseRevisionId).value, checks).value));
    ExtendedPart(body, arguments, ContentKey, DocumentId, BaseRevisionId, IdempotencyKey, base);
  }

  lemma ReviseShape(arguments: Members, mode: Mode, checks: Checks)
    requires ParseRevise(arguments, mode, checks).Ok?
    ensures forall key :: key in arguments ==> RevisionKey(key)
    ensures Content(arguments, checks).Ok? && WithRevision(Content(arguments, checks).value, arguments, checks).Ok?
    ensures ParseRevise(arguments, mode, checks).value.body ==
            WithRevision(Content(arguments, checks).value, arguments, checks).value
  {
  }

  /** A revision is sent as `Forwards` says, with an accountable author. */
  lemma RevisionIsForwarded(arguments: Members, mode: Mode, checks: Checks)
    requires ParseRevise(arguments, mode, checks).Ok?
    ensures Forwards(ParseRevise(arguments, mode, checks).value.body, arguments)
    ensures Authorship in arguments && Accountable(arguments[Authorship], checks)
  {
    ReviseShape(arguments, mode, checks);
    RevisionKeys(arguments);
    ContentFacts(arguments, checks);
    WithRevisionForwards(Content(arguments, checks).value, arguments, checks);
  }

  /** Only the tools for it write content. */
  lemma WritersByName(name: Str, arguments: Members, mode: Mode, checks: Checks)
    requires ParseCommand(name, arguments, mode, checks).Ok?
    ensures ParseCommand(name, arguments, mode, checks).value.Create? ==>
              ParseCreate(arguments, mode, checks) == ParseCommand(name, arguments, mode, checks)
    ensures ParseCommand(name, arguments, mode, checks).value.Revise? ==>
              ParseRevise(arguments, mode, checks) == ParseCommand(name, arguments, mode, checks)
  {
  }
}
