/** Acceptance of an existing .gitignore, against last-match-wins evaluation. */
module Gitignore {
  import opened Common
  import opened Text
  import opened Glob

  /** The protected names; `directory` ones are written with a trailing slash. */
  datatype Protected = Protected(name: string, directory: bool) {
    function Entry(): string {
      if directory then name + "/" else name
    }
  }

  const PROTECTED: seq<Protected> := [
    Protected(".env", false),
    Protected("admin-access-key.txt", false),
    Protected(".osb-backups", true),
    Protected(".osb-update", true)
  ]

  /* The check, over the entries that remain after comments and blanks are dropped. */

  function TrimStart(s: string): string {
    if s != "" && s[0] == '/' then TrimStart(s[1..]) else s
  }

  function TrimEnd(s: string): string {
    if s != "" && s[|s| - 1] == '/' then TrimEnd(s[..|s| - 1]) else s
  }

  /** `trim_matches('/')`. */
  function TrimSlashes(s: string): string {
    TrimEnd(TrimStart(s))
  }

  predicate IsExact(entry: string, required: string) {
    entry == required || entry == "/" + required
  }

  predicate IsNegation(entry: string) {
    entry != "" && entry[0] == '!'
  }

  /** `rposition` of the exact protective entry. */
  function LastExact(entries: seq<string>, required: string): (position: Option<nat>)
    ensures position.Some? ==> position.value < |entries| && IsExact(entries[position.value], required)
    ensures position.Some? ==> forall i :: position.value < i < |entries| ==> !IsExact(entries[i], required)
    ensures position.None? ==> forall i :: 0 <= i < |entries| ==> !IsExact(entries[i], required)
  {
    if entries == [] then None
    else if IsExact(entries[|entries| - 1], required) then Some(|entries| - 1)
    else LastExact(entries[..|entries| - 1], required)
  }

  predicate MayRestore(required: string, negation: string) {
    exists i :: 0 <= i < |Split(TrimSlashes(negation), '/')|
                && Matches(Tokens(Split(TrimSlashes(negation), '/')[i]), TrimSlashes(required))
  }

  predicate SafeFor(entries: seq<string>, required: string) {
    && LastExact(entries, required).Some?
    && forall i :: LastExact(entries, required).value < i < |entries| && IsNegation(entries[i]) ==>
         !MayRestore(required, entries[i][1..])
  }

  predicate Accepted(entries: seq<string>) {
    forall k :: 0 <= k < |PROTECTED| ==> SafeFor(entries, PROTECTED[k].Entry())
  }

  method AnyMayMatch(components: seq<string>, value: string) returns (may: bool)
    ensures may <==> exists i :: 0 <= i < |components| && Matches(Tokens(components[i]), value)
  {
    for i := 0 to |components|
      invariant forall k :: 0 <= k < i ==> !Matches(Tokens(components[k]), value)
    {
      may := MayMatch(components[i], value);
      if may {
        return;
      }
    }
    may := false;
  }

  method NegationMayRestore(required: string, negation: string) returns (may: bool)
    ensures may <==> MayRestore(required, negation)
  {
    may := AnyMayMatch(Split(TrimSlashes(negation), '/'), TrimSlashes(required));
  }

  method ValidateFor(entries: seq<string>, required: string) returns (safe: bool)
    ensures safe <==> SafeFor(entries, required)
  {
    var last := LastExact(entries, required);
    if last.None? {
      return false;
    }
    for i := last.value + 1 to |entries|
      invariant forall m :: last.value < m < i && IsNegation(entries[m]) ==> !MayRestore(required, entries[m][1..])
    {
      if IsNegation(entries[i]) {
        var unsafe := NegationMayRestore(required, entries[i][1..]);
        if unsafe {
          return false;
        }
      }
    }
    return true;
  }

  method ValidateEntries(entries: seq<string>) returns (accepted: bool)
    ensures accepted <==> Accepted(entries)
  {
    for k := 0 to |PROTECTED|
      invariant forall j :: 0 <= j < k ==> SafeFor(entries, PROTECTED[j].Entry())
    {
      var safe := ValidateFor(entries, PROTECTED[k].Entry());
      if !safe {
        return false;
      }
    }
    return true;
  }

  /** What a file must hold to be accepted: each required entry, as it is or behind a
      slash. */
  lemma AcceptedHasEntries(entries: seq<string>, k: nat)
    requires Accepted(entries) && k < |PROTECTED|
    ensures PROTECTED[k].Entry() in entries || "/" + PROTECTED[k].Entry() in entries
  {
    var i := LastExact(entries, PROTECTED[k].Entry()).value;
    assert entries[i] in entries;
  }

  lemma SafeWithoutNegations(entries: seq<string>, required: string, i: nat)
    requires i < |entries| && (entries[i] == required || entries[i] == "/" + required)
    requires forall j :: i < j < |entries| ==> !IsNegation(entries[j])
    ensures SafeFor(entries, required)
  {
    assert IsExact(entries[i], required);
  }

  /** And that is enough, in either form, if no negation follows. */
  lemma EitherFormIsAccepted(entries: seq<string>, at: nat -> nat)
    requires forall k :: 0 <= k < |PROTECTED| ==>
               && at(k) < |entries|
               && (entries[at(k)] == PROTECTED[k].Entry() || entries[at(k)] == "/" + PROTECTED[k].Entry())
               && forall j :: at(k) < j < |entries| ==> entries[j] == "" || entries[j][0] != '!'
    ensures Accepted(entries)
  {
    forall k | 0 <= k < |PROTECTED|
      ensures SafeFor(entries, PROTECTED[k].Entry())
    {
      SafeWithoutNegations(entries, PROTECTED[k].Entry(), at(k));
    }
  }

  /* Last match wins, for a name in the directory of the file. */

  /** Git reads a rule as a text that ends at its first NUL. */
  function UpToNul(s: string): (r: string)
    ensures NUL !in r && (NUL !in s ==> r == s)
  {
    if s == "" || s[0] == NUL then "" else [s[0]] + UpToNul(s[1..])
  }

  function Body(entry: string): string {
    UpToNul(if IsNegation(entry) then entry[1..] else entry)
  }

  predicate DirectoriesOnly(body: string) {
    body != "" && body[|body| - 1] == '/'
  }

  /** The pattern without its trailing and its leading slash. */
  function Core(body: string): string {
    var unslashed := if DirectoriesOnly(body) then body[..|body| - 1] else body;
    if unslashed != "" && unslashed[0] == '/' then unslashed[1..] else unslashed
  }

  predicate Special(c: char) {
    c == '*' || c == '?' || c == '[' || c == '\\'
  }

  /** The length of the text before the first special character. Git compares it on its
      own, and what follows as if the pattern began there. */
  function LiteralPrefix(s: string): (n: nat)
    ensures n <= |s| && (forall i :: 0 <= i < n ==> !Special(s[i])) && (n < |s| ==> Special(s[n]))
  {
    if s != "" && !Special(s[0]) then 1 + LiteralPrefix(s[1..]) else 0
  }

  function LeadingStars(s: string): (n: nat)
    ensures n <= |s| && (forall i :: 0 <= i < n ==> s[i] == '*') && (n < |s| ==> s[n] != '*')
  {
    if s != "" && s[0] == '*' then 1 + LeadingStars(s[1..]) else 0
  }

  /** Leading `**` before a slash, which match no directory at all. */
  predicate LeadsDirectories(s: string) {
    var n := LeadingStars(s);
    n >= 2 && n < |s| && s[n] == '/'
  }

  /** What has to match a name without slashes. */
  function WithoutDirectories(s: string): string
    decreases |s|
  {
    if LeadsDirectories(s) then WithoutDirectories(s[LeadingStars(s) + 1..]) else s
  }

  function Shortened(core: string): string {
    var n := LiteralPrefix(core);
    core[..n] + WithoutDirectories(core[n..])
  }

  /** The text of a rule that is compared with a name in the directory of the file. */
  function Compared(entry: string): string {
    Shortened(Core(Body(entry)))
  }

  /** A slash that remains is not matched by a name; inside a class it is a member. */
  predicate RuleMatches(member: Membership, entry: string, name: string, directory: bool) {
    (DirectoriesOnly(Body(entry)) ==> directory) && GitAccepts(member, Compared(entry), name)
  }

  predicate Ignored(member: Membership, entries: seq<string>, name: string, directory: bool) {
    if entries == [] then false
    else
      var last := entries[|entries| - 1];
      if RuleMatches(member, last, name, directory) then !IsNegation(last)
      else Ignored(member, entries[..|entries| - 1], name, directory)
  }

  /* Exactly when protected names stay ignored. */

  /** The rule matches the name if its classes contain enough. */
  predicate Reads(entry: string, p: Protected) {
    && (DirectoriesOnly(Body(entry)) ==> p.directory)
    && Elements(Compared(entry)).Some? && Matches(RelaxedAll(Elements(Compared(entry)).value), p.name)
  }

  lemma ReadsExactly(entry: string, p: Protected)
    ensures Reads(entry, p) <==> exists member :: RuleMatches(member, entry, p.name, p.directory)
  {
    AcceptedSomehow(Compared(entry), p.name);
    if Reads(entry, p) {
      var member :| GitAccepts(member, Compared(entry), p.name);
      assert RuleMatches(member, entry, p.name, p.directory);
    }
    if member :| RuleMatches(member, entry, p.name, p.directory) {
      assert GitAccepts(member, Compared(entry), p.name);
    }
  }

  /** After the last exact entry no negation reads the name. The text of the rules
      decides that. */
  predicate SafelyRead(rules: seq<string>, p: Protected) {
    var last := LastExact(rules, p.Entry());
    last.Some? && forall i :: last.value < i < |rules| && IsNegation(rules[i]) ==> !Reads(rules[i], p)
  }

  /** From the last exact entry on the name is ignored, wherever the file is cut short
      after it and whatever its classes contain. */
  ghost predicate StaysIgnored(rules: seq<string>, p: Protected) {
    var last := LastExact(rules, p.Entry());
    && last.Some?
    && forall member: Membership, n :: last.value < n <= |rules| ==> Ignored(member, rules[..n], p.name, p.directory)
  }

  /* Exact entries protect. */

  /** A character of a name that stands for itself. */
  predicate PlainCharacter(c: char) {
    NameCharacter(c) && !Special(c)
  }

  predicate PlainFrom(s: string, i: nat) {
    forall j :: i <= j < |s| ==> PlainCharacter(s[j])
  }

  lemma {:induction false} PlainTextAcceptsItself(member: Membership, s: string, i: nat)
    requires PlainFrom(s, i) && i <= |s|
    ensures ElementsFrom(s, i).Some? && Accepts(member, ElementsFrom(s, i).value, s[i..])
    decreases |s| - i
  {
    if i < |s| {
      PlainTextAcceptsItself(member, s, i + 1);
      ElementsUnfold(s, i);
      assert s[i..][1..] == s[i + 1..];
    }
  }

  lemma PlainTextIsShort(s: string)
    requires PlainFrom(s, 0)
    ensures Shortened(s) == s
  {
    assert LiteralPrefix(s) == |s|;
    assert s[..|s|] + "" == s;
  }

  lemma ExactCore(entry: string, p: Protected)
    requires WellNamed(p) && IsExact(entry, p.Entry())
    ensures !IsNegation(entry) && Body(entry) == entry && Core(entry) == p.name
    ensures DirectoriesOnly(entry) ==> p.directory
  {
    assert forall i :: 0 <= i < |p.name| ==> p.name[i] != NUL;
    assert (p.name + "/")[..|p.name|] == p.name;
    assert ("/" + p.name)[1..] == p.name;
    assert ("/" + (p.name + "/"))[..|p.name| + 1] == "/" + p.name;
  }

  lemma ExactEntryProtects(member: Membership, entry: string, p: Protected)
    requires WellNamed(p) && IsExact(entry, p.Entry())
    ensures !IsNegation(entry) && RuleMatches(member, entry, p.name, p.directory)
  {
    ExactCore(entry, p);
    PlainTextIsShort(p.name);
    PlainTextAcceptsItself(member, p.name, 0);
    assert p.name[0..] == p.name;
  }

  /** From an exact entry on, negations that do not match cannot undo it. */
  lemma {:induction false} NegationsMiss(
    member: Membership, entries: seq<string>, name: string, directory: bool, from: nat)
    requires from < |entries| && !IsNegation(entries[from]) && RuleMatches(member, entries[from], name, directory)
    requires forall i :: from < i < |entries| && IsNegation(entries[i]) ==>
               !RuleMatches(member, entries[i], name, directory)
    ensures Ignored(member, entries, name, directory)
  {
    if from < |entries| - 1 {
      NegationsMiss(member, entries[..|entries| - 1], name, directory, from);
    }
  }

  /** What the proofs need of a protected name. */
  predicate WellNamed(p: Protected) {
    PlainFrom(p.name, 0) && p.name != "" && p.name[0] != '!'
  }

  lemma ProtectedNames(k: nat)
    requires k < |PROTECTED|
    ensures WellNamed(PROTECTED[k])
  {
    var p := PROTECTED[k];
    forall j | 0 <= j < |p.name|
      ensures PlainCharacter(p.name[j])
    {
      assert k == 0 || k == 1 || k == 2 || k == 3;
    }
  }

  lemma NameOfEntry(p: Protected)
    requires WellNamed(p)
    ensures TrimSlashes(p.Entry()) == p.name
  {
    TrimmingRestores(p.name, p.Entry());
  }

  lemma ExactEntryStays(member: Membership, rules: seq<string>, p: Protected, last: nat, n: nat)
    requires WellNamed(p)
    requires last < n <= |rules| && IsExact(rules[last], p.Entry())
    requires forall i :: last < i < |rules| && IsNegation(rules[i]) ==> !Reads(rules[i], p)
    ensures Ignored(member, rules[..n], p.name, p.directory)
  {
    ExactEntryProtects(member, rules[last], p);
    forall i | last < i < n && IsNegation(rules[..n][i])
      ensures !RuleMatches(member, rules[..n][i], p.name, p.directory)
    {
      ReadsExactly(rules[i], p);
    }
    NegationsMiss(member, rules[..n], p.name, p.directory, last);
  }

  lemma SafeIsEnough(rules: seq<string>, p: Protected)
    requires WellNamed(p) && SafelyRead(rules, p)
    ensures StaysIgnored(rules, p)
  {
    var last := LastExact(rules, p.Entry()).value;
    forall member: Membership, n | last < n <= |rules|
      ensures Ignored(member, rules[..n], p.name, p.directory)
    {
      ExactEntryStays(member, rules, p, last, n);
    }
  }

  /** Cut short after a negation that reads the name, the file does not ignore it. */
  lemma NegationUndoes(rules: seq<string>, p: Protected, i: nat) returns (member: Membership)
    requires i < |rules| && IsNegation(rules[i]) && Reads(rules[i], p)
    ensures !Ignored(member, rules[..i + 1], p.name, p.directory)
  {
    ReadsExactly(rules[i], p);
    member :| RuleMatches(member, rules[i], p.name, p.directory);
  }

  /** The exact condition: a protected name stays ignored if and only if it is safely
      read. */
  lemma ProtectedExactly(rules: seq<string>, k: nat)
    requires k < |PROTECTED|
    ensures StaysIgnored(rules, PROTECTED[k]) <==> SafelyRead(rules, PROTECTED[k])
  {
    var p := PROTECTED[k];
    ProtectedNames(k);
    if SafelyRead(rules, p) {
      SafeIsEnough(rules, p);
    } else if StaysIgnored(rules, p) {
      var last := LastExact(rules, p.Entry()).value;
      var i :| last < i < |rules| && IsNegation(rules[i]) && Reads(rules[i], p);
      var member := NegationUndoes(rules, p, i);
    }
  }

  /* The check implies that, if the negations are plain. */

  /** No class has a `]` or a slash in its body. */
  predicate PlainElements(elements: seq<Element>) {
    forall i :: 0 <= i < |elements| && elements[i].Class? ==> ']' !in elements[i].body && '/' !in elements[i].body
  }

  /** No negated rule has a NUL, or a class with a `]` or a slash in its body. */
  predicate PlainNegations(entries: seq<string>) {
    forall i :: 0 <= i < |entries| && IsNegation(entries[i]) ==>
      NUL !in entries[i] && (Elements(Compared(entries[i])).Some? ==> PlainElements(Elements(Compared(entries[i])).value))
  }

  predicate Unslashed(s: string) {
    s != "" && s[0] != '/' && s[|s| - 1] != '/'
  }

  lemma TrimmingRestores(core: string, body: string)
    requires Unslashed(core)
    requires body == core || body == core + "/" || body == "/" + core || body == "/" + core + "/"
    ensures TrimSlashes(body) == core
  {
    assert TrimStart(core) == core && TrimEnd(core) == core;
    assert (core + "/")[..|core|] == core;
    assert TrimEnd(core + "/") == core;
    assert TrimStart(core + "/") == core + "/";
    assert ("/" + core)[1..] == core && ("/" + core + "/")[1..] == core + "/";
  }

  lemma CoreOfBody(body: string)
    ensures var core := Core(body);
            body == core || body == core + "/" || body == "/" + core || body == "/" + core + "/"
  {
    if DirectoriesOnly(body) {
      assert body == body[..|body| - 1] + "/";
    }
  }

  /** A pattern that accepts a name without slashes has none outside its classes. */
  lemma {:induction false} SlashesAreUnmatched(
    member: Membership, pattern: string, i: nat, name: string, j: nat)
    requires j <= i < |pattern|
    requires ElementsFrom(pattern, j).Some? && Accepts(member, ElementsFrom(pattern, j).value, name)
    requires '/' !in name && PlainElements(ElementsFrom(pattern, j).value) && NulFree(pattern, j)
    ensures pattern[i] != '/'
    decreases |pattern| - j
  {
    ElementsUnfold(pattern, j);
    var es := ElementsFrom(pattern, j).value;
    var (e, next) := ElementAt(pattern, j).value;
    var rest := SuffixAccepted(member, es, name);
    assert PlainElements(es[1..]) by {
      assert forall k :: 0 <= k < |es[1..]| ==> es[1..][k] == es[k + 1];
    }
    if next <= i {
      SlashesAreUnmatched(member, pattern, i, rest, next);
    } else if e.Class? {
      assert j < i < next - 1 ==> pattern[i] == e.body[i - j - 1];
    }
  }

  /** After its first element the rest of a pattern accepts a rest of the name. */
  lemma {:induction false} SuffixAccepted(member: Membership, elements: seq<Element>, name: string) returns (rest: string)
    requires elements != [] && Accepts(member, elements, name) && '/' !in name
    ensures Accepts(member, elements[1..], rest) && '/' !in rest
    ensures elements[0].Exactly? ==> elements[0].c != '/'
    decreases |name|
  {
    if !elements[0].Star? {
      rest := name[1..];
    } else if Accepts(member, elements[1..], name) {
      rest := name;
    } else {
      rest := SuffixAccepted(member, elements, name[1..]);
    }
  }

  /* A negation that Git matches with a name is seen by the check, */

  lemma {:induction false} TrimEndKeeps(head: string, s: string)
    requires head != "" && head[|head| - 1] != '/'
    ensures TrimEnd(head + s) == head + TrimEnd(s)
  {
    if s == "" || s[|s| - 1] != '/' {
      assert (head + s)[|head + s| - 1] != '/';
    } else {
      assert (head + s)[..|head + s| - 1] == head + s[..|s| - 1];
      TrimEndKeeps(head, s[..|s| - 1]);
    }
  }

  lemma {:induction false} TrimEndIsPrefix(s: string)
    ensures TrimEnd(s) <= s
  {
    if s != "" && s[|s| - 1] == '/' {
      TrimEndIsPrefix(s[..|s| - 1]);
    }
  }

  /** The first component of a pattern, as the check cuts it. */
  lemma FirstComponent(head: string, tail: string)
    requires head != "" && '/' !in head
    ensures Split(TrimEnd(head + ("/" + tail)), '/')[0] == head
  {
    TrimEndKeeps(head, "/" + tail);
    TrimEndIsPrefix("/" + tail);
    var rest := TrimEnd("/" + tail);
    if rest == "" {
      assert head + rest == head;
      SplitOfSeparated(head, "", '/');
    } else {
      assert head + rest == head + ['/'] + rest[1..];
      SplitOfSeparated(head, rest[1..], '/');
    }
  }

  lemma TrimStartOfBody(body: string)
    requires Core(body) != "" && Core(body)[0] != '/'
    ensures TrimStart(body) == Core(body) || TrimStart(body) == Core(body) + "/"
  {
    CoreOfBody(body);
    var core := Core(body);
    assert ("/" + core)[1..] == core && ("/" + core + "/")[1..] == core + "/";
  }

  lemma TrimmedBody(body: string, head: string, tail: string)
    requires Core(body) == head + ("/" + tail) && head != "" && '/' !in head
    ensures Split(TrimSlashes(body), '/')[0] == head
  {
    assert Core(body)[0] == head[0];
    TrimStartOfBody(body);
    FirstComponent(head, tail);
    FirstComponent(head, tail + "/");
    assert head + ("/" + tail) + "/" == head + ("/" + (tail + "/"));
  }

  /** Text without special characters matches only itself. */
  lemma {:induction false} LiteralsMatchThemselves(member: Membership, s: string, i: nat, n: nat, name: string)
    requires i <= n <= |s| && (forall j :: i <= j < n ==> !Special(s[j]) && s[j] != NUL)
    requires ElementsFrom(s, i).Some? && Accepts(member, ElementsFrom(s, i).value, name)
    ensures s[i..n] <= name
    decreases n - i
  {
    if i < n {
      ElementsUnfold(s, i);
      LiteralsMatchThemselves(member, s, i + 1, n, name[1..]);
      assert s[i..n] == [s[i]] + s[i + 1..n] && name == [name[0]] + name[1..];
    }
  }

  lemma {:induction false} StarsMatchAll(s: string, i: nat, name: string)
    requires i < |s| && forall j :: i <= j < |s| ==> s[j] == '*'
    ensures Matches(TokensFrom(s, i), name)
    decreases |s| - i, |name|
  {
    assert TokensFrom(s, i)[1..] == TokensFrom(s, i + 1);
    if i + 1 < |s| {
      StarsMatchAll(s, i + 1, name);
    } else if name != "" {
      StarsMatchAll(s, i, name[1..]);
    }
  }

  lemma {:induction false} HeadMatches(s: string, i: nat, n: nat, name: string)
    requires i <= n < |s| && (forall j :: i <= j < n ==> !Special(s[j])) && (forall j :: n <= j < |s| ==> s[j] == '*')
    requires s[i..n] <= name
    ensures Matches(TokensFrom(s, i), name)
    decreases n - i
  {
    if i == n {
      StarsMatchAll(s, n, name);
    } else {
      assert TokensFrom(s, i) == [Literal(s[i])] + TokensFrom(s, i + 1);
      assert s[i..n][0] == s[i] && s[i..n][1..] == s[i + 1..n];
      HeadMatches(s, i + 1, n, name[1..]);
    }
  }

  /** A pattern that begins with plain text and leading `**`, cut at the slash. */
  lemma HeadOfCore(core: string) returns (head: string, tail: string)
    requires var n := LiteralPrefix(core); LeadsDirectories(core[n..])
    ensures core == head + ("/" + tail) && LiteralPrefix(core) < |head|
    ensures forall j :: 0 <= j < LiteralPrefix(core) ==> head[j] == core[j] && !Special(head[j])
    ensures forall j :: LiteralPrefix(core) <= j < |head| ==> head[j] == '*'
  {
    var n := LiteralPrefix(core);
    var m := n + LeadingStars(core[n..]);
    head, tail := core[..m], core[m + 1..];
    assert forall j :: n <= j < m ==> core[j] == core[n..][j - n];
    assert core[m] == '/';
  }

  /** either by the component before the first slash, if that ends in `**`, */
  lemma HeadIsSeen(member: Membership, body: string, name: string)
    requires NUL !in body && '/' !in name && GitAccepts(member, Shortened(Core(body)), name)
    requires var core := Core(body); LeadsDirectories(core[LiteralPrefix(core)..])
    ensures Matches(Tokens(Split(TrimSlashes(body), '/')[0]), name)
  {
    var core := Core(body);
    var n := LiteralPrefix(core);
    var short := Shortened(core);
    var head, tail := HeadOfCore(core);
    CoreOfBody(body);
    assert forall j :: 0 <= j < n ==> short[j] == core[j];
    LiteralsMatchThemselves(member, short, 0, n, name);
    assert short[0..n] == head[0..n];
    assert forall j :: 0 <= j < n ==> head[0..n][j] == name[j];
    TrimmedBody(body, head, tail);
    HeadMatches(head, 0, n, name);
  }

  /** or as a whole. */
  lemma WholeIsSeen(member: Membership, body: string, name: string)
    requires NUL !in body && name != "" && NameText(name) && GitAccepts(member, Shortened(Core(body)), name)
    requires var core := Core(body); !LeadsDirectories(core[LiteralPrefix(core)..])
    requires PlainElements(Elements(Shortened(Core(body))).value)
    ensures Matches(Tokens(Split(TrimSlashes(body), '/')[0]), name)
  {
    var core := Core(body);
    assert Shortened(core) == core;
    CoreOfBody(body);
    assert NulFree(core, 0);
    forall i | 0 <= i < |core|
      ensures core[i] != '/'
    {
      SlashesAreUnmatched(member, core, i, name, 0);
    }
    assert core != "" by {
      assert Accepts(member, Elements(core).value, name);
    }
    TrimmingRestores(core, body);
    SplitOfSeparated(core, "", '/');
    PlainIsAgreeing(core);
    AgreeingIsEnough(member, core, name);
  }

  lemma PlainIsAgreeing(core: string)
    requires NulFree(core, 0) && (Elements(core).Some? ==> PlainElements(Elements(core).value))
    ensures Agreeing(core)
  {
  }

  lemma BodyIsSeen(member: Membership, body: string, name: string)
    requires NUL !in body && name != "" && NameText(name) && '/' !in name
    requires GitAccepts(member, Shortened(Core(body)), name) && PlainElements(Elements(Shortened(Core(body))).value)
    ensures Matches(Tokens(Split(TrimSlashes(body), '/')[0]), name)
  {
    var core := Core(body);
    if LeadsDirectories(core[LiteralPrefix(core)..]) {
      HeadIsSeen(member, body, name);
    } else {
      WholeIsSeen(member, body, name);
    }
  }

  lemma MatchingRuleIsSeen(member: Membership, entry: string, p: Protected)
    requires IsNegation(entry) && NUL !in entry && RuleMatches(member, entry, p.name, p.directory) && WellNamed(p)
    requires PlainElements(Elements(Compared(entry)).value)
    ensures MayRestore(p.Entry(), entry[1..])
  {
    var body := entry[1..];
    assert NUL !in body && Body(entry) == body;
    NameOfEntry(p);
    BodyIsSeen(member, body, p.name);
  }

  lemma AcceptedIsSafe(entries: seq<string>, k: nat)
    requires Accepted(entries) && PlainNegations(entries) && k < |PROTECTED|
    ensures SafelyRead(entries, PROTECTED[k])
  {
    var p := PROTECTED[k];
    ProtectedNames(k);
    var last := LastExact(entries, p.Entry()).value;
    forall i | last < i < |entries| && IsNegation(entries[i])
      ensures !Reads(entries[i], p)
    {
      if Reads(entries[i], p) {
        ReadsExactly(entries[i], p);
        var member :| RuleMatches(member, entries[i], p.name, p.directory);
        MatchingRuleIsSeen(member, entries[i], p);
      }
    }
  }

  /** An accepted file leaves every protected name ignored, whatever the classes of its
      rules contain, as long as its negations are plain. */
  lemma AcceptedProtects(member: Membership, entries: seq<string>, k: nat)
    requires Accepted(entries) && PlainNegations(entries) && k < |PROTECTED|
    ensures Ignored(member, entries, PROTECTED[k].name, PROTECTED[k].directory)
  {
    AcceptedIsSafe(entries, k);
    ProtectedExactly(entries, k);
    assert entries[..|entries|] == entries;
  }
}
