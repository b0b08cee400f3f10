/** Program-tree node ids: printing and parsing. UUID text is an assumed inverse pair. */
module NodeIds {
  import opened Common
  import opened Text

  type Uuid = nat

  datatype UuidText = UuidText(format: Uuid -> string, parse: string -> Option<Uuid>)

  const UNCATEGORIZED: string := "uncategorized"
  const CATEGORY: string := "category:"

  /** Printed UUIDs are read back, and are neither empty nor contain a colon; the word for
      no category is not a UUID. */
  ghost predicate Sound(t: UuidText) {
    && (forall u: Uuid :: t.parse(t.format(u)) == Some(u) && t.format(u) != "" && ':' !in t.format(u))
    && t.parse(UNCATEGORIZED) == None
  }

  datatype CategoryParent = CategoryParent(site: Uuid, category: Option<Uuid>)

  function NodeId(p: CategoryParent, t: UuidText): string {
    CATEGORY + Join([t.format(p.site), if p.category.Some? then t.format(p.category.value) else UNCATEGORIZED], ':')
  }

  /** `parse_uuid_node`. */
  function ParseUuidNode(value: string, prefix: string, t: UuidText): Result<Option<Uuid>> {
    if !(prefix <= value) then Ok(None)
    else
      var id := value[|prefix|..];
      if id == "" || ':' in id then Err
      else if t.parse(id).None? then Err
      else Ok(t.parse(id))
  }

  /** `parse_category_parent`. */
  function ParseCategoryParent(value: string, t: UuidText): Result<Option<CategoryParent>> {
    if !(CATEGORY <= value) then Ok(None)
    else
      var parts := Split(value[|CATEGORY|..], ':');
      if |parts| != 2 || parts[0] == "" || parts[1] == "" then Err
      else if t.parse(parts[0]).None? then Err
      else if parts[1] == UNCATEGORIZED then Ok(Some(CategoryParent(t.parse(parts[0]).value, None)))
      else if t.parse(parts[1]).None? then Err
      else Ok(Some(CategoryParent(t.parse(parts[0]).value, t.parse(parts[1]))))
  }

  /** A category's node id names that category, and nothing else: it is read back, and no
      two categories share it. */
  lemma NodeIdRoundTrip(p: CategoryParent, t: UuidText)
    requires Sound(t)
    ensures ParseCategoryParent(NodeId(p, t), t) == Ok(Some(p))
  {
    var second := if p.category.Some? then t.format(p.category.value) else UNCATEGORIZED;
    assert ':' !in UNCATEGORIZED;
    SplitOfJoin([t.format(p.site), second], ':');
    assert NodeId(p, t)[|CATEGORY|..] == Join([t.format(p.site), second], ':');
  }

  lemma NodeIdIsInjective(p: CategoryParent, q: CategoryParent, t: UuidText)
    requires Sound(t) && NodeId(p, t) == NodeId(q, t)
    ensures p == q
  {
    NodeIdRoundTrip(p, t);
    NodeIdRoundTrip(q, t);
  }

  lemma UuidNodeRoundTrip(u: Uuid, prefix: string, t: UuidText)
    requires Sound(t)
    ensures ParseUuidNode(prefix + t.format(u), prefix, t) == Ok(Some(u))
  {
    assert (prefix + t.format(u))[|prefix|..] == t.format(u);
  }

  /** Exactly the texts that are read as a category parent, and as which one. */
  ghost predicate Reads(value: string, t: UuidText, p: CategoryParent, site: string, category: string) {
    && value == "category:" + site + ":" + category && site != "" && category != ""
    && ':' !in site && ':' !in category && t.parse(site) == Some(p.site)
    && if category == "uncategorized" then p.category == None else p.category.Some? && t.parse(category) == p.category
  }

  lemma CategoryIsReadExactly(value: string, t: UuidText, p: CategoryParent)
    ensures ParseCategoryParent(value, t) == Ok(Some(p)) <==> exists site, category :: Reads(value, t, p, site, category)
    ensures ParseCategoryParent(value, t) == Ok(None) <==> !("category:" <= value)
  {
    if ParseCategoryParent(value, t) == Ok(Some(p)) {
      var rest := value[|CATEGORY|..];
      var parts := Split(rest, ':');
      JoinOfSplit(rest, ':');
      SplitPartsLackSeparator(rest, ':', 0);
      SplitPartsLackSeparator(rest, ':', 1);
      assert parts[1..] == [parts[1]];
      assert rest == parts[0] + [':'] + parts[1];
      assert value == CATEGORY + rest;
      assert Reads(value, t, p, parts[0], parts[1]);
    }
    if site, category :| Reads(value, t, p, site, category) {
      assert value[|CATEGORY|..] == site + [':'] + category;
      SplitOfSeparated(site, category, ':');
      SplitOfSeparated(category, "", ':');
    }
  }

  /** And as a prefixed UUID. */
  lemma UuidIsReadExactly(value: string, prefix: string, t: UuidText, u: Uuid)
    ensures ParseUuidNode(value, prefix, t) == Ok(Some(u)) <==>
            exists id :: value == prefix + id && id != "" && ':' !in id && t.parse(id) == Some(u)
    ensures ParseUuidNode(value, prefix, t) == Ok(None) <==> !(prefix <= value)
  {
    if ParseUuidNode(value, prefix, t) == Ok(Some(u)) {
      var id := value[|prefix|..];
      assert value == prefix + id;
    }
    if id :| value == prefix + id && id != "" && ':' !in id && t.parse(id) == Some(u) {
      assert value[|prefix|..] == id;
    }
  }
}
