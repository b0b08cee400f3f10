/** What each tool call means, apart from how it is parsed. */
module McpMeaning {
  import opened Common
  import opened McpCommands

  predicate OnlyKeys(arguments: Members, keys: set<Key>) {
    arguments.Keys <= keys
  }

  /** The argument is a string that reads as this UUID. */
  predicate Names(arguments: Members, key: Key, uuid: Uuid, checks: Checks) {
    key in arguments && arguments[key].String? && checks.uuid(arguments[key].str) == Some(uuid)
  }

  predicate Views(arguments: Members, view: Str) {
    if View in arguments then arguments[View] == String(view) else view == ViewMarkdownSource
  }

  /** A call of the tool with these arguments means this command. */
  ghost predicate Means(name: Str, arguments: Members, mode: Mode, checks: Checks, command: Command) {
    match command
    case ListPublished =>
      && name == ContentList && OnlyKeys(arguments, {IncludeDrafts})
      && (IncludeDrafts in arguments ==> arguments[IncludeDrafts] == Bool(false))
    case ListAll => name == ContentList && mode == Write && arguments == map[IncludeDrafts := Bool(true)]
    case ReadPublished(slug, view) =>
      && name == ContentRead && OnlyKeys(arguments, {Slug, View})
      && Slug in arguments && arguments[Slug] == String(slug) && checks.slug(slug)
      && Views(arguments, view) && view in {ViewIntent, ViewMarkdown, ViewMarkdownSource}
    case ReadDocument(document) =>
      && name == ContentRead && mode == Write && OnlyKeys(arguments, {DocumentId, View})
      && Names(arguments, DocumentId, document, checks)
    case Create(body) => name == ContentCreate && mode == Write && body == arguments && IsDraft(arguments, checks)
    case Revise(document, body) =>
      && name == ContentRevise && mode == Write && IsRevision(arguments, checks)
      && Names(arguments, DocumentId, document, checks)
      && (exists base :: Names(arguments, BaseRevisionId, base, checks)
                         && body == (arguments - {DocumentId})[BaseRevisionId := String(checks.canonical(base))])
    case Publish(document, revision) =>
      && name == ContentPublish && mode == Write && OnlyKeys(arguments, {DocumentId, RevisionId})
      && Names(arguments, DocumentId, document, checks) && Names(arguments, RevisionId, revision, checks)
  }

  const CONTENT_KEYS: set<Key> := {Title, Slug, SourceMarkdown, Embeds, Intent, Ontology, Authorship}

  /** The content of a draft or a revision. */
  ghost predicate IsContent(arguments: Members, checks: Checks) {
    && HasString(arguments, Title, checks.title) && HasString(arguments, Slug, checks.slug)
    && HasString(arguments, SourceMarkdown, checks.markdown)
    && Authorship in arguments && Accountable(arguments[Authorship], checks)
    && (Embeds in arguments ==> arguments[Embeds].Array?)
    && (Intent in arguments ==> arguments[Intent].Object? || arguments[Intent].Null?)
    && (Ontology in arguments ==> arguments[Ontology].Object? || arguments[Ontology].Null?)
  }

  ghost predicate IsDraft(arguments: Members, checks: Checks) {
    OnlyKeys(arguments, CONTENT_KEYS) && IsContent(arguments, checks)
  }

  ghost predicate IsRevision(arguments: Members, checks: Checks) {
    && OnlyKeys(arguments, CONTENT_KEYS + {DocumentId, BaseRevisionId, IdempotencyKey}) && IsContent(arguments, checks)
    && HasString(arguments, IdempotencyKey, checks.idempotencyKey)
  }

  /** The declarations of authorship that are accepted: a person, or one of three uses of
      a generator, with its name. */
  lemma AccountableExactly(authorship: Json, checks: Checks)
    ensures Accountable(authorship, checks) <==>
            || (exists reviewed :: authorship == Object(map[Kind := String(Human), HumanReviewed := Bool(reviewed)]))
            || (exists kind, generator, reviewed ::
                  && kind in {AiGenerated, AiAssisted, Imported} && checks.generator(generator)
                  && authorship == Object(map[Kind := String(kind), Generator := String(generator),
                                              HumanReviewed := Bool(reviewed)]))
  {
    if Accountable(authorship, checks) {
      var a := authorship.members;
      var reviewed := a[HumanReviewed].flag;
      if a[Kind].str == Human {
        assert a == map[Kind := String(Human), HumanReviewed := Bool(reviewed)];
      } else {
        assert a == map[Kind := a[Kind], Generator := a[Generator], HumanReviewed := Bool(reviewed)];
        assert checks.generator(a[Generator].str);
      }
    }
  }

  lemma ListMeans(arguments: Members, mode: Mode, checks: Checks, command: Command)
    ensures ParseList(arguments, mode) == Ok(command) <==> Means(ContentList, arguments, mode, checks, command)
  {
    assert (forall key :: key in arguments ==> key.IncludeDrafts?) <==> OnlyKeys(arguments, {IncludeDrafts});
    if ParseList(arguments, mode) == Ok(ListAll) {
      assert arguments == map[IncludeDrafts := Bool(true)];
    }
  }

  lemma ReadMeans(arguments: Members, mode: Mode, checks: Checks, command: Command)
    ensures ParseRead(arguments, mode, checks) == Ok(command) <==> Means(ContentRead, arguments, mode, checks, command)
  {
    assert (forall key :: key in arguments ==> key.Slug? || key.DocumentId? || key.View?) <==>
           OnlyKeys(arguments, {Slug, DocumentId, View});
  }

  lemma PublishMeans(arguments: Members, mode: Mode, checks: Checks, command: Command)
    ensures ParsePublish(arguments, mode, checks) == Ok(command) <==> Means(ContentPublish, arguments, mode, checks, command)
  {
    assert (forall key :: key in arguments ==> key.DocumentId? || key.RevisionId?) <==>
           OnlyKeys(arguments, {DocumentId, RevisionId});
  }

  lemma ContentMeans(arguments: Members, checks: Checks)
    ensures AcceptableContent(arguments, checks) <==> IsContent(arguments, checks)
  {
    if IsContent(arguments, checks) {
      forall key | key in arguments && OptionalContent(key)
        ensures OptionalShape(key, arguments[key])
      {
        match key
        case Embeds =>
        case Intent =>
        case Ontology =>
      }
    }
    if AcceptableOptional(arguments) {
      OptionalShapes(arguments);
    }
  }

  lemma OptionalShapes(arguments: Members)
    requires AcceptableOptional(arguments)
    ensures Embeds in arguments ==> arguments[Embeds].Array?
    ensures Intent in arguments ==> arguments[Intent].Object? || arguments[Intent].Null?
    ensures Ontology in arguments ==> arguments[Ontology].Object? || arguments[Ontology].Null?
  {
    assert OptionalContent(Embeds) && OptionalContent(Intent) && OptionalContent(Ontology);
  }

  lemma ContentKeys(key: Key)
    ensures ContentKey(key) <==> key in CONTENT_KEYS
  {
    match key
    case Title =>
    case Slug =>
    case SourceMarkdown =>
    case Embeds =>
    case Intent =>
    case Ontology =>
    case Authorship =>
    case _ =>
  }

  lemma CreateMeans(arguments: Members, mode: Mode, checks: Checks, command: Command)
    ensures ParseCreate(arguments, mode, checks) == Ok(command) <==> Means(ContentCreate, arguments, mode, checks, command)
  {
    forall key
      ensures ContentKey(key) <==> key in CONTENT_KEYS
    {
      ContentKeys(key);
    }
    ContentMeans(arguments, checks);
    if ParseCreate(arguments, mode, checks).Ok? {
      DraftIsForwarded(arguments, mode, checks);
    }
    if OnlyKeys(arguments, CONTENT_KEYS) && IsContent(arguments, checks) {
      assert ContentPart(arguments) == arguments;
    }
  }

  lemma RevisionKeysAre(arguments: Members)
    ensures (forall key :: key in arguments ==> RevisionKey(key)) <==>
            OnlyKeys(arguments, CONTENT_KEYS + {DocumentId, BaseRevisionId, IdempotencyKey})
  {
    forall key
      ensures RevisionKey(key) <==> key in CONTENT_KEYS + {DocumentId, BaseRevisionId, IdempotencyKey}
    {
      ContentKeys(key);
    }
  }

  lemma RevisionBody(arguments: Members, checks: Checks, base: Uuid)
    requires IsRevision(arguments, checks) && Names(arguments, BaseRevisionId, base, checks)
    ensures WithRevision(ContentPart(arguments), arguments, checks) ==
            Ok((arguments - {DocumentId})[BaseRevisionId := String(checks.canonical(base))])
  {
    forall key
      ensures ContentKey(key) <==> key in CONTENT_KEYS
    {
      ContentKeys(key);
    }
    var body := ContentPart(arguments)[BaseRevisionId := String(checks.canonical(base))];
    assert body[IdempotencyKey := arguments[IdempotencyKey]] ==
           (arguments - {DocumentId})[BaseRevisionId := String(checks.canonical(base))];
  }

  lemma ReviseMeans(arguments: Members, mode: Mode, checks: Checks, command: Command)
    ensures ParseRevise(arguments, mode, checks) == Ok(command) <==> Means(ContentRevise, arguments, mode, checks, command)
  {
    RevisionKeysAre(arguments);
    ContentMeans(arguments, checks);
    if ParseRevise(arguments, mode, checks).Ok? {
      var base := checks.uuid(arguments[BaseRevisionId].str).value;
      assert Names(arguments, BaseRevisionId, base, checks);
      RevisionBody(arguments, checks, base);
    }
    if Means(ContentRevise, arguments, mode, checks, command) {
      var base :| Names(arguments, BaseRevisionId, base, checks);
      RevisionBody(arguments, checks, base);
    }
  }

  /** Parsing finds the command that a tool call means, and refuses a call that means
      none. */
  lemma ParsedExactly(name: Str, arguments: Members, mode: Mode, checks: Checks, command: Command)
    ensures ParseCommand(name, arguments, mode, checks) == Ok(command) <==> Means(name, arguments, mode, checks, command)
  {
    match name
    case ContentList => ListMeans(arguments, mode, checks, command);
    case ContentRead => ReadMeans(arguments, mode, checks, command);
    case ContentCreate => CreateMeans(arguments, mode, checks, command);
    case ContentRevise => ReviseMeans(arguments, mode, checks, command);
    case ContentPublish => PublishMeans(arguments, mode, checks, command);
    case _ =>
  }
}
