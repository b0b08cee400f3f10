/** Program-tree pagination: opaque cursors, look-ahead pages, and the virtual first
    child of a site. */
module AdminTree {
  import opened Common
  import opened Base64Url

  const DEFAULT_PAGE_SIZE: nat := 100
  const MAX_PAGE_SIZE: nat := 200
  const MAX_CURSOR_LENGTH: nat := 32
  const OFFSETS: nat := 0x8000_0000_0000_0000       // offsets up to i64::MAX
  const WORDS: nat := 0x1_0000_0000_0000_0000       // 64-bit unsigned values

  type Node = string

  /* Cursors. */

  function BigEndian(n: nat, width: nat): (bytes: seq<Byte>)
    ensures |bytes| == width
  {
    if width == 0 then [] else BigEndian(n / 256, width - 1) + [n % 256]
  }

  function Number(bytes: seq<Byte>): nat {
    if bytes == [] then 0 else Number(bytes[..|bytes| - 1]) * 256 + bytes[|bytes| - 1]
  }

  function Pow256(width: nat): nat {
    if width == 0 then 1 else 256 * Pow256(width - 1)
  }

  lemma {:induction false} NumberOfBigEndian(n: nat, width: nat)
    requires n < Pow256(width)
    ensures Number(BigEndian(n, width)) == n
  {
    if width > 0 {
      NumberOfBigEndian(n / 256, width - 1);
      assert BigEndian(n, width)[..width - 1] == BigEndian(n / 256, width - 1);
    }
  }

  function EncodeCursor(offset: nat): string {
    Encode(BigEndian(offset, 8))
  }

  function DecodeCursor(cursor: Option<string>): Result<nat> {
    match cursor
    case None => Ok(0)
    case Some(text) =>
      if text == "" || |text| > MAX_CURSOR_LENGTH then Err
      else
        match Decode(text)
        case None => Err
        case Some(bytes) =>
          if |bytes| != 8 then Err
          else
            var offset := Number(bytes);
            if offset >= OFFSETS then Err else Ok(offset)
  }

  /** A 64-bit offset survives its cursor exactly when it is at most i64::MAX. */
  lemma CursorRoundTrip(offset: nat)
    requires offset < WORDS
    ensures DecodeCursor(Some(EncodeCursor(offset))) == if offset < OFFSETS then Ok(offset) else Err
  {
    assert Pow256(8) == WORDS by {
      assert Pow256(2) == 65536 && Pow256(4) == 0x1_0000_0000 && Pow256(6) == 0x1_0000_0000_0000;
    }
    NumberOfBigEndian(offset, 8);
    DecodeOfEncode(BigEndian(offset, 8));
    EncodedLength(BigEndian(offset, 8));
  }

  lemma {:induction false} BigEndianOfNumber(bytes: seq<Byte>)
    ensures BigEndian(Number(bytes), |bytes|) == bytes
  {
    if bytes != [] {
      var n := |bytes| - 1;
      BigEndianOfNumber(bytes[..n]);
      assert Number(bytes) / 256 == Number(bytes[..n]) && Number(bytes) % 256 == bytes[n];
      assert bytes == bytes[..n] + [bytes[n]];
    }
  }

  /** A cursor is accepted exactly if it is the cursor of some offset up to i64::MAX. */
  lemma CursorsAreCanonical(text: string, offset: nat)
    ensures DecodeCursor(Some(text)) == Ok(offset) <==>
            offset <= 0x7fff_ffff_ffff_ffff && text == EncodeCursor(offset)
  {
    if DecodeCursor(Some(text)) == Ok(offset) {
      EncodeOfDecode(text);
      BigEndianOfNumber(Decode(text).value);
    }
    if offset < OFFSETS {
      CursorRoundTrip(offset);
    }
  }

  /* Pages. */

  /** `skip(offset).take(limit)`, and what the repository's page queries return for a
      fixed list of rows. */
  function Page<T>(items: seq<T>, offset: nat, limit: nat): seq<T> {
    var start := Min(offset, |items|);
    items[start..Min(start + limit, |items|)]
  }

  /** The children of a node: a list, or a site's categories behind a virtual node
      that occupies no row. */
  datatype Children = Listed(nodes: seq<Node>) | Site(uncategorized: Node, categories: seq<Node>)

  function All(children: Children): seq<Node> {
    match children
    case Listed(nodes) => nodes
    case Site(uncategorized, categories) => [uncategorized] + categories
  }

  function SaturatingSub(a: nat, b: nat): nat {
    if a >= b then a - b else 0
  }

  /** The branches of `nodes_for_parent`: the site branch translates the logical
      offset, and asks for one row less on the page that carries the virtual node. */
  method NodesForParent(children: Children, offset: nat, fetchLimit: nat) returns (nodes: seq<Node>)
    requires fetchLimit >= 1
    ensures nodes == Page(All(children), offset, fetchLimit)
  {
    match children
    case Listed(listed) =>
      nodes := Page(listed, offset, fetchLimit);
    case Site(uncategorized, rows) =>
      var includeUncategorized := offset == 0;
      var categoryOffset := SaturatingSub(offset, 1);
      var categoryLimit := SaturatingSub(fetchLimit, if includeUncategorized then 1 else 0);
      var categories := Page(rows, categoryOffset, categoryLimit);
      nodes := [];
      if includeUncategorized {
        nodes := nodes + [uncategorized];
      }
      nodes := nodes + categories;
  }

  /** Truncates a look-ahead page and says whether another follows. */
  method FinishPage(items: seq<Node>, offset: nat, limit: nat) returns (page: Result<(seq<Node>, Option<string>)>)
    requires offset < WORDS && limit < WORDS
    ensures |items| <= limit ==> page == Ok((items, None))
    ensures |items| > limit && offset + limit < WORDS ==> page == Ok((items[..limit], Some(EncodeCursor(offset + limit))))
    ensures |items| > limit && offset + limit >= WORDS ==> page == Err
  {
    var hasMore := |items| > limit;
    var kept := if hasMore then items[..limit] else items;
    if hasMore {
      if offset + limit >= WORDS {
        return Err;
      }
      return Ok((kept, Some(EncodeCursor(offset + limit))));
    }
    return Ok((kept, None));
  }

  function PageSize(limit: Option<nat>): Result<nat> {
    var size := if limit.None? then DEFAULT_PAGE_SIZE else limit.value;
    if 1 <= size <= MAX_PAGE_SIZE then Ok(size) else Err
  }

  predicate ValidSize(size: nat) {
    1 <= size <= MAX_PAGE_SIZE
  }

  /** Asking for one row more than the page shows whether another page follows, and
      cutting that row off leaves the page. */
  lemma LookAhead<T>(items: seq<T>, offset: nat, size: nat)
    ensures var fetched := Page(items, offset, size + 1);
            if |items| > offset + size
            then |fetched| == size + 1 && fetched[..size] == Page(items, offset, size)
            else |fetched| <= size && fetched == Page(items, offset, size)
  {
  }

  /** One request. With a valid limit and a cursor for `offset` it returns the slice
      at that offset, and a cursor for what follows exactly if something does. */
  method GetPage(children: Children, cursor: Option<string>, limit: Option<nat>)
      returns (page: Result<(seq<Node>, Option<string>)>)
    ensures page == Err <==> DecodeCursor(cursor) == Err || (limit.Some? && !(1 <= limit.value <= 200))
    ensures page.Ok? ==>
              page == Ok(Expected(All(children), DecodeCursor(cursor).value, if limit.None? then 100 else limit.value))
  {
    var size := PageSize(limit);
    if size == Err {
      return Err;
    }
    var offset := DecodeCursor(cursor);
    if offset == Err {
      return Err;
    }
    page := Fetch(children, offset.value, size.value);
  }

  /** The page a reader of the whole list would cut out. */
  function Expected(all: seq<Node>, offset: nat, size: nat): (seq<Node>, Option<string>) {
    (Page(all, offset, size), if |all| > offset + size then Some(EncodeCursor(offset + size)) else None)
  }

  method Fetch(children: Children, offset: nat, size: nat) returns (page: Result<(seq<Node>, Option<string>)>)
    requires offset < OFFSETS && ValidSize(size)
    ensures page == Ok(Expected(All(children), offset, size))
  {
    LookAhead(All(children), offset, size);
    var nodes := NodesForParent(children, offset, size + 1);
    page := FinishPage(nodes, offset, size);
  }

  lemma PageIsSlice<T>(items: seq<T>, offset: nat, size: nat)
    requires offset <= |items|
    ensures Page(items, offset, size) == items[offset..Min(offset + size, |items|)]
  {
  }

  lemma CursorContinues(offset: nat)
    requires offset < WORDS
    ensures offset < OFFSETS ==> DecodeCursor(Some(EncodeCursor(offset))) == Ok(offset)
  {
    CursorRoundTrip(offset);
  }

  lemma ExpectedContinues(all: seq<Node>, offset: nat, size: nat)
    requires offset <= |all| <= OFFSETS && ValidSize(size)
    ensures var (items, next) := Expected(all, offset, size);
            && items == all[offset..Min(offset + size, |all|)]
            && (next.None? <==> offset + size >= |all|)
            && (next.Some? ==> DecodeCursor(next) == Ok(offset + size))
  {
    PageIsSlice(all, offset, size);
    CursorContinues(offset + size);
  }

  /** A request with the cursor of a previous page continues where that page ended. */
  method NextPage(children: Children, cursor: Option<string>, size: nat, ghost offset: nat)
      returns (items: seq<Node>, next: Option<string>)
    requires ValidSize(size) && DecodeCursor(cursor) == Ok(offset)
    requires offset <= |All(children)| <= OFFSETS
    ensures var all := All(children);
            && items == all[offset..Min(offset + size, |all|)]
            && (next.None? <==> offset + size >= |all|)
            && (next.Some? ==> DecodeCursor(next) == Ok(offset + size))
  {
    var page := GetPage(children, cursor, Some(size));
    ExpectedContinues(All(children), offset, size);
    return page.value.0, page.value.1;
  }

  /** Following cursors from the start, with any admissible limit on each request,
      terminates and yields every child once and in order. */
  method FollowCursors(children: Children, limits: nat -> nat) returns (nodes: seq<Node>, requests: nat)
    requires |All(children)| <= OFFSETS
    requires forall i :: ValidSize(limits(i))
    ensures nodes == All(children)
    ensures 1 <= requests <= |All(children)| + 1
  {
    var cursor: Option<string> := None;
    nodes, requests := [], 0;
    ghost var all := All(children);
    ghost var offset := 0;
    while true
      invariant 0 <= offset <= |all| && DecodeCursor(cursor) == Ok(offset)
      invariant nodes == all[..offset]
      invariant requests <= offset && (requests > 0 ==> offset < |all|)
      decreases |all| - offset, if requests == 0 then 1 else 0
    {
      assert ValidSize(limits(requests));
      var size := limits(requests);
      var items, next := NextPage(children, cursor, size, offset);
      nodes := nodes + items;
      requests := requests + 1;
      if next.None? {
        return;
      }
      cursor := next;
      offset := offset + size;
    }
  }
}
