/** Files that the check accepts and that do not ignore `.env`. */
module GitignoreWitness {
  import opened Common
  import opened Text
  import opened Glob
  import opened Gitignore
  import opened GitignoreFiles

  /* A rule that slips through the check. */

  /** A rule that Git matches with `.env` and the check with no protected name. */
  ghost predicate Slips(member: Membership, rule: string) {
    && RuleMatches(member, "!" + rule, ".env", false)
    && forall k :: 0 <= k < |PROTECTED| ==> !MayRestore(PROTECTED[k].Entry(), rule)
  }

  /** A file with the exact entries and no negation. */
  predicate ExactEntries(exact: seq<string>) {
    && (forall i :: 0 <= i < |exact| ==> !IsNegation(exact[i]))
    && (forall k :: 0 <= k < |PROTECTED| ==> PROTECTED[k].Entry() in exact)
  }

  lemma SlippingIsAccepted(rule: string, required: string, exact: seq<string>)
    requires !MayRestore(required, rule) && required in exact
    requires forall i :: 0 <= i < |exact| ==> !IsNegation(exact[i])
    ensures SafeFor(exact + ["!" + rule], required)
  {
    var entries := exact + ["!" + rule];
    var i :| 0 <= i < |exact| && exact[i] == required;
    assert IsExact(entries[i], required);
    assert entries[|exact|][1..] == rule;
  }

  lemma NegationIncludes(member: Membership, entries: seq<string>, rule: string, name: string, directory: bool)
    requires IsNegation(rule) && RuleMatches(member, rule, name, directory)
    ensures !Ignored(member, entries + [rule], name, directory)
  {
  }

  /** A file that ends with the negation of such a rule is accepted if it holds the
      exact entries, and does not ignore `.env`. */
  lemma SlippingDefeatsTheCheck(member: Membership, rule: string, exact: seq<string>)
    requires Slips(member, rule) && ExactEntries(exact)
    ensures Accepted(exact + ["!" + rule])
    ensures !Ignored(member, exact + ["!" + rule], ".env", false)
  {
    assert ("!" + rule)[1..] == rule;
    NegationIncludes(member, exact, "!" + rule, ".env", false);
    forall k | 0 <= k < |PROTECTED|
      ensures SafeFor(exact + ["!" + rule], PROTECTED[k].Entry())
    {
      SlippingIsAccepted(rule, PROTECTED[k].Entry(), exact);
    }
  }

  const BRACKET_RULE: string := "[].]env"
  const NAMED_RULE: string := "[[:punct:]]env"
  const SLASH_RULE: string := "[a/.]env"

  /** What the protected names have in common. */
  lemma ProtectedText(k: nat)
    requires k < |PROTECTED|
    ensures |PROTECTED[k].name| > 2 && PROTECTED[k].name[1] != '.' && PROTECTED[k].name[1] != ']'
    ensures TrimSlashes(PROTECTED[k].Entry()) == PROTECTED[k].name
  {
    ProtectedNames(k);
    NameOfEntry(PROTECTED[k]);
  }

  /** A first token for one character and a second for one that the value lacks. */
  lemma SecondTokenFails(tokens: seq<Token>, c: char, value: string)
    requires |tokens| >= 2 && !tokens[0].AnySequence? && tokens[1] == Literal(c)
    requires |value| < 2 || value[1] != c
    ensures !Matches(tokens, value)
  {
    assert tokens[1..][0] == tokens[1];
  }

  lemma BracketRuleTokens()
    ensures |Tokens(BRACKET_RULE)| >= 2 && Tokens(BRACKET_RULE)[..2] == [AnyOne, Literal('.')]
  {
    var s := BRACKET_RULE;
    assert FirstBracket(s, 1) == Some(1) && AfterToken(s, 0) == 2;
    assert TokensFrom(s, 2) == [Literal('.')] + TokensFrom(s, 3);
  }

  lemma BracketRuleElements(member: Membership)
    requires member("].", '.')
    ensures GitAccepts(member, BRACKET_RULE, ".env")
  {
    var s := BRACKET_RULE;
    assert ClassEnd(s, 1, First) == ClassEnd(s, 2, AfterMember) == ClassEnd(s, 3, AfterMember) == Some(3);
    ClassThenEnv(member, s, "].");
  }

  lemma NamedRuleTokens()
    ensures |Tokens(NAMED_RULE)| >= 2 && Tokens(NAMED_RULE)[..2] == [AnyOne, Literal(']')]
  {
    var s := NAMED_RULE;
    NamedRuleBrackets();
    assert FirstBracket(s, 1) == Some(9) && AfterToken(s, 0) == 10;
    assert TokensFrom(s, 10) == [Literal(']')] + TokensFrom(s, 11);
  }

  lemma NamedRuleBrackets()
    ensures FirstBracket(NAMED_RULE, 1) == Some(9) && FirstBracket(NAMED_RULE, 3) == Some(9)
  {
    var s := NAMED_RULE;
    assert FirstBracket(s, 8) == FirstBracket(s, 9) == Some(9);
    assert FirstBracket(s, 6) == FirstBracket(s, 7) == FirstBracket(s, 8);
    assert FirstBracket(s, 4) == FirstBracket(s, 5) == FirstBracket(s, 6);
    assert FirstBracket(s, 2) == FirstBracket(s, 3) == FirstBracket(s, 4);
    assert FirstBracket(s, 1) == FirstBracket(s, 2);
  }

  lemma NamedRuleElements(member: Membership)
    requires member("[:punct:]", '.')
    ensures GitAccepts(member, NAMED_RULE, ".env")
  {
    var s := NAMED_RULE;
    NamedRuleBrackets();
    assert s[3..8] == "punct";
    assert AfterMemberAt(s, 1, First) == Some((10, AfterUnit));
    assert ClassEnd(s, 1, First) == ClassEnd(s, 10, AfterUnit) == Some(10);
    ClassThenEnv(member, s, "[:punct:]");
  }

  lemma SlashRuleElements(member: Membership)
    requires member("a/.", '.')
    ensures GitAccepts(member, SLASH_RULE, ".env")
  {
    var s := SLASH_RULE;
    assert ClassEnd(s, 1, First) == ClassEnd(s, 2, AfterMember) == ClassEnd(s, 3, AfterMember);
    assert ClassEnd(s, 3, AfterMember) == ClassEnd(s, 4, AfterMember) == Some(4);
    ClassThenEnv(member, s, "a/.");
  }

  /** The check takes the slash in the class for a separator. */
  lemma SlashRuleSplits()
    ensures Split(SLASH_RULE, '/') == ["[a", ".]env"]
  {
    assert SLASH_RULE == "[a" + ['/'] + ".]env";
    SplitOfSeparated("[a", ".]env", '/');
    SplitOfSeparated(".]env", "", '/');
  }

  lemma FirstPartTokens()
    ensures Tokens("[a") == [AnyOne, Literal('a')]
  {
    var s := "[a";
    assert FirstBracket(s, 1) == FirstBracket(s, 2) == None && AfterToken(s, 0) == 1;
    assert TokensFrom(s, 1) == [Literal('a')] + TokensFrom(s, 2);
  }

  lemma SecondPartTokens()
    ensures |Tokens(".]env")| >= 2 && Tokens(".]env")[..2] == [Literal('.'), Literal(']')]
  {
    var s := ".]env";
    assert TokensFrom(s, 1) == [Literal(']')] + TokensFrom(s, 2);
  }

  lemma TokensTooFew(tokens: seq<Token>, value: string)
    requires |tokens| == 2 && !tokens[0].AnySequence? && !tokens[1].AnySequence? && |value| > 2
    ensures !Matches(tokens, value)
  {
    var second := tokens[1..];
    assert second[0] == tokens[1] && second[1..] == [];
    assert |value[1..][1..]| > 0;
    assert !Matches(second, value[1..]);
  }

  /** A rule that is one class and `env`. */
  lemma ClassThenEnv(member: Membership, rule: string, body: string)
    requires rule == "[" + body + "]env" && NUL !in body && member(body, '.') && ClassClose(rule, 0) == Some(|body| + 1)
    ensures GitAccepts(member, rule, ".env")
  {
    var next := |body| + 2;
    assert rule[1..|body| + 1] == body && rule[next..] == "env";
    assert rule[next] == 'e' && rule[next + 1] == 'n' && rule[next + 2] == 'v';
    PlainTextAcceptsItself(member, rule, next);
    var rest := ElementsFrom(rule, next).value;
    assert Elements(rule) == Some([Class(body)] + rest) && ([Class(body)] + rest)[1..] == rest;
    assert ".env"[1..] == "env";
  }

  /** A rule that begins with a class is compared as it is. */
  lemma PlainRuleCompares(rule: string)
    requires |rule| > 1 && rule[0] == '[' && rule[|rule| - 1] != '/' && NUL !in rule
    ensures Compared("!" + rule) == rule && !DirectoriesOnly(Body("!" + rule)) && TrimSlashes(rule) == rule
  {
    assert ("!" + rule)[1..] == rule;
    assert LiteralPrefix(rule) == 0 && LeadingStars(rule[0..]) == 0;
    assert Shortened(rule) == rule;
  }

  lemma OneComponentSlips(member: Membership, rule: string, c: char)
    requires |rule| > 1 && rule[0] == '[' && '/' !in rule && NUL !in rule && GitAccepts(member, rule, ".env")
    requires |Tokens(rule)| >= 2 && Tokens(rule)[..2] == [AnyOne, Literal(c)] && (c == '.' || c == ']')
    ensures Slips(member, rule)
  {
    PlainRuleCompares(rule);
    SplitOfSeparated(rule, "", '/');
    assert Tokens(rule)[..2][0] == Tokens(rule)[0] && Tokens(rule)[..2][1] == Tokens(rule)[1];
    forall k | 0 <= k < |PROTECTED|
      ensures !MayRestore(PROTECTED[k].Entry(), rule)
    {
      ProtectedText(k);
      SecondTokenFails(Tokens(rule), c, PROTECTED[k].name);
    }
  }

  lemma TwoComponentsMiss(a: string, b: string, name: string)
    requires Tokens(a) == [AnyOne, Literal('a')]
    requires |Tokens(b)| >= 2 && Tokens(b)[..2] == [Literal('.'), Literal(']')]
    requires |name| > 2 && name[1] != ']'
    ensures !Matches(Tokens(a), name) && !Matches(Tokens(b), name)
  {
    var second := Tokens(b);
    assert second[..2][0] == second[0] && second[..2][1] == second[1];
    TokensTooFew(Tokens(a), name);
    SecondTokenFails(second, ']', name);
  }

  lemma NoComponentRestores(required: string, rule: string, a: string, b: string)
    requires TrimSlashes(rule) == rule && Split(rule, '/') == [a, b]
    requires !Matches(Tokens(a), TrimSlashes(required)) && !Matches(Tokens(b), TrimSlashes(required))
    ensures !MayRestore(required, rule)
  {
  }

  lemma TwoComponentsSlip(member: Membership, rule: string, a: string, b: string)
    requires |rule| > 1 && rule[0] == '[' && rule[|rule| - 1] != '/' && NUL !in rule && GitAccepts(member, rule, ".env")
    requires Split(rule, '/') == [a, b]
    requires Tokens(a) == [AnyOne, Literal('a')]
    requires |Tokens(b)| >= 2 && Tokens(b)[..2] == [Literal('.'), Literal(']')]
    ensures Slips(member, rule)
  {
    PlainRuleCompares(rule);
    forall k | 0 <= k < |PROTECTED|
      ensures !MayRestore(PROTECTED[k].Entry(), rule)
    {
      ProtectedText(k);
      TwoComponentsMiss(a, b, PROTECTED[k].name);
      NoComponentRestores(PROTECTED[k].Entry(), rule, a, b);
    }
  }

  lemma SlashRuleSlips(member: Membership)
    requires member("a/.", '.')
    ensures Slips(member, SLASH_RULE)
  {
    SlashRuleElements(member);
    SlashRuleSplits();
    FirstPartTokens();
    SecondPartTokens();
    TwoComponentsSlip(member, SLASH_RULE, "[a", ".]env");
  }

  /* A NUL ends the rule for Git; the check takes it for one more character. */

  const NUL_RULE: string := ".env" + [NUL, 'x']

  lemma {:induction false} CutAtNul(name: string, rest: string)
    requires NUL !in name
    ensures UpToNul(name + [NUL] + rest) == name
  {
    if name == "" {
      assert (name + [NUL] + rest)[0] == NUL;
    } else {
      CutAtNul(name[1..], rest);
      assert (name + [NUL] + rest)[1..] == name[1..] + [NUL] + rest;
    }
  }

  lemma NulRuleMatches(member: Membership, name: string, rest: string)
    requires PlainFrom(name, 0) && name != ""
    ensures RuleMatches(member, "!" + (name + [NUL] + rest), name, false)
  {
    var rule := name + [NUL] + rest;
    assert ("!" + rule)[1..] == rule && NUL !in name;
    CutAtNul(name, rest);
    assert PlainCharacter(name[0]) && PlainCharacter(name[|name| - 1]);
    PlainTextIsShort(name);
    PlainTextAcceptsItself(member, name, 0);
    assert name[0..] == name;
  }

  lemma {:induction false} LiteralsOnly(s: string, i: nat)
    requires i <= |s| && forall j :: i <= j < |s| ==> !Special(s[j])
    ensures |TokensFrom(s, i)| == |s| - i && forall j :: 0 <= j < |s| - i ==> TokensFrom(s, i)[j] == Literal(s[i + j])
    decreases |s| - i
  {
    if i < |s| {
      LiteralsOnly(s, i + 1);
      assert TokensFrom(s, i) == [Literal(s[i])] + TokensFrom(s, i + 1);
    }
  }

  lemma {:induction false} LiteralsMatchOnly(tokens: seq<Token>, value: string, k: nat)
    requires k < |tokens| && (forall j :: 0 <= j < |tokens| ==> tokens[j].Literal?) && Matches(tokens, value)
    ensures k < |value| && tokens[k].c == value[k]
  {
    if k > 0 {
      assert tokens[1..][k - 1] == tokens[k];
      LiteralsMatchOnly(tokens[1..], value[1..], k - 1);
    }
  }

  /** No protected name has a NUL, so the check sees no match. */
  lemma NulIsNotRestored(rule: string, n: nat, k: nat)
    requires n < |rule| && rule[n] == NUL && k < |PROTECTED|
    requires forall j :: 0 <= j < |rule| ==> !Special(rule[j]) && rule[j] != '/'
    ensures !MayRestore(PROTECTED[k].Entry(), rule)
  {
    var name := PROTECTED[k].name;
    ProtectedNames(k);
    NameOfEntry(PROTECTED[k]);
    assert TrimSlashes(rule) == rule;
    SplitOfSeparated(rule, "", '/');
    LiteralsOnly(rule, 0);
    assert n < |name| ==> PlainCharacter(name[n]);
    if Matches(Tokens(rule), name) {
      LiteralsMatchOnly(Tokens(rule), name, n);
    }
  }

  lemma NulRuleSlips(member: Membership)
    ensures Slips(member, NUL_RULE)
  {
    ProtectedNames(0);
    assert ".env" + [NUL] + "x" == NUL_RULE;
    NulRuleMatches(member, ".env", "x");
    forall k | 0 <= k < |PROTECTED|
      ensures !MayRestore(PROTECTED[k].Entry(), NUL_RULE)
    {
      NulIsNotRestored(NUL_RULE, 4, k);
    }
  }

  /** Without the condition on classes acceptance does not protect: `![].]env` is
      accepted, and that rule includes `.env` again. */
  lemma BracketsDefeatTheCheck(member: Membership, exact: seq<string>)
    requires member("].", '.') && ExactEntries(exact)
    ensures Accepted(exact + ["!" + BRACKET_RULE])
    ensures !Ignored(member, exact + ["!" + BRACKET_RULE], ".env", false)
  {
    BracketRuleTokens();
    BracketRuleElements(member);
    OneComponentSlips(member, BRACKET_RULE, '.');
    SlippingDefeatsTheCheck(member, BRACKET_RULE, exact);
  }

  lemma NamedRuleText()
    ensures |NAMED_RULE| > 1 && NAMED_RULE[0] == '[' && '/' !in NAMED_RULE && NUL !in NAMED_RULE
  {
  }

  lemma NamedRuleSlips(member: Membership)
    requires member("[:punct:]", '.')
    ensures Slips(member, NAMED_RULE)
  {
    NamedRuleText();
    NamedRuleTokens();
    NamedRuleElements(member);
    OneComponentSlips(member, NAMED_RULE, ']');
  }

  /** So is `![[:punct:]]env`, */
  lemma NamedClassesDefeatTheCheck(member: Membership, exact: seq<string>)
    requires member("[:punct:]", '.') && ExactEntries(exact)
    ensures Accepted(exact + ["!" + NAMED_RULE])
    ensures !Ignored(member, exact + ["!" + NAMED_RULE], ".env", false)
  {
    NamedRuleSlips(member);
    SlippingDefeatsTheCheck(member, NAMED_RULE, exact);
  }

  /** and `![a/.]env`. */
  lemma SlashesDefeatTheCheck(member: Membership, exact: seq<string>)
    requires member("a/.", '.') && ExactEntries(exact)
    ensures Accepted(exact + ["!" + SLASH_RULE])
    ensures !Ignored(member, exact + ["!" + SLASH_RULE], ".env", false)
  {
    SlashRuleSlips(member);
    SlippingDefeatsTheCheck(member, SLASH_RULE, exact);
  }

  /** And so is `!.env`, a NUL and anything else. */
  lemma NulsDefeatTheCheck(member: Membership, exact: seq<string>)
    requires ExactEntries(exact)
    ensures Accepted(exact + ["!" + NUL_RULE])
    ensures !Ignored(member, exact + ["!" + NUL_RULE], ".env", false)
  {
    NulRuleSlips(member);
    SlippingDefeatsTheCheck(member, NUL_RULE, exact);
  }

  /* The condition on line ends is needed: a line `.env` with a trailing tab. */

  lemma {:induction false} GitKeepsPlainText(line: string, i: nat)
    requires i <= |line| && ' ' !in line && '\\' !in line && NUL !in line
    ensures GitTrimmedFrom(line, i, i) == line
    decreases |line| - i
  {
    if i < |line| {
      GitKeepsPlainText(line, i + 1);
    } else {
      assert line[..|line|] == line;
    }
  }

  lemma {:induction false} PlainTextAcceptsOnlyItself(member: Membership, s: string, i: nat, value: string)
    requires PlainFrom(s, i) && i <= |s| && ElementsFrom(s, i).Some?
    requires Accepts(member, ElementsFrom(s, i).value, value)
    ensures value == s[i..]
    decreases |s| - i
  {
    if i < |s| {
      ElementsUnfold(s, i);
      PlainTextAcceptsOnlyItself(member, s, i + 1, value[1..]);
      assert value == [value[0]] + value[1..] && s[i..] == [s[i]] + s[i + 1..];
    }
  }

  lemma PlainRuleMisses(member: Membership, rule: string, name: string)
    requires PlainFrom(rule, 0) && rule != "" && !IsNegation(rule) && rule != name
    ensures !RuleMatches(member, rule, name, false)
  {
    assert Compared(rule) == rule;
    if GitAccepts(member, rule, name) {
      PlainTextAcceptsOnlyItself(member, rule, 0, name);
    }
  }

  lemma ExactIsAccepted(entries: seq<string>)
    requires ExactEntries(entries)
    ensures Accepted(entries)
  {
    forall k | 0 <= k < |PROTECTED|
      ensures SafeFor(entries, PROTECTED[k].Entry())
    {
      var i :| 0 <= i < |entries| && entries[i] == PROTECTED[k].Entry();
      assert IsExact(entries[i], PROTECTED[k].Entry());
    }
  }

  /** The exact entries, the first one with a trailing tab. */
  function TabbedLines(): seq<string> {
    [PROTECTED[0].Entry() + "\t", PROTECTED[1].Entry(), PROTECTED[2].Entry(), PROTECTED[3].Entry()]
  }

  function AllExact(): seq<string> {
    [PROTECTED[0].Entry(), PROTECTED[1].Entry(), PROTECTED[2].Entry(), PROTECTED[3].Entry()]
  }

  predicate Visible(c: char) {
    PlainCharacter(c) && c > ' ' && c != '#'
  }

  lemma VisibleNames(k: nat)
    requires k < |PROTECTED|
    ensures forall j :: 0 <= j < |PROTECTED[k].name| ==> Visible(PROTECTED[k].name[j])
  {
    forall j | 0 <= j < |PROTECTED[k].name|
      ensures Visible(PROTECTED[k].name[j])
    {
      assert k == 0 || k == 1 || k == 2 || k == 3;
    }
  }

  /** A line that Git reads as it is: no white space but tabs, no escapes, no comment. */
  predicate Readable(line: string) {
    line != "" && line[0] != '#' && forall j :: 0 <= j < |line| ==> Visible(line[j]) || line[j] == '/' || line[j] == '\t'
  }

  lemma ReadableIsRead(line: string)
    requires Readable(line)
    ensures WithoutMark(line) == line && GitTrimmed(line) == line && IsRule(line)
  {
    assert Visible(line[0]) || line[0] == '/' || line[0] == '\t';
    assert Visible(line[|line| - 1]) || line[|line| - 1] == '/' || line[|line| - 1] == '\t';
    assert ' ' !in line && '\\' !in line && NUL !in line;
    GitKeepsPlainText(line, 0);
  }

  /** One line that both readings take for a rule. */
  lemma OneMoreLine(lines: seq<string>, line: string, entry: string)
    requires Readable(line) && Trimmed(line) == entry && IsRule(entry)
    ensures EntriesOf(lines + [line]) == EntriesOf(lines) + [entry]
    ensures RulesOf(lines + [line]) == RulesOf(lines) + [line]
  {
    assert (lines + [line])[..|lines|] == lines;
    ReadableIsRead(line);
  }

  lemma EntryReads(k: nat)
    requires k < |PROTECTED|
    ensures var entry := PROTECTED[k].Entry();
            && Readable(entry) && Trimmed(entry) == entry && IsRule(entry) && PROTECTED[k].name[0] == entry[0]
            && Readable(entry + "\t") && Trimmed(entry + "\t") == entry
  {
    VisibleNames(k);
    ProtectedNames(k);
    var p := PROTECTED[k];
    var entry := p.Entry();
    assert Visible(p.name[0]) && Visible(p.name[|p.name| - 1]);
    assert entry[0] == p.name[0];
    assert entry[|entry| - 1] == '/' || entry[|entry| - 1] == p.name[|p.name| - 1];
    assert (entry + "\t")[..|entry|] == entry;
  }

  lemma AppendedLines<T>(a: T, b: T, c: T, d: T)
    ensures [a] == [] + [a] && [a, b] == [a] + [b] && [a, b, c] == [a, b] + [c] && [a, b, c, d] == [a, b, c] + [d]
  {
  }

  lemma TabbedReadings()
    ensures RulesOf(TabbedLines()) == TabbedLines()
    ensures EntriesOf(TabbedLines()) == AllExact()
  {
    EntryReads(0);
    EntryReads(1);
    EntryReads(2);
    EntryReads(3);
    var tabbed, a, b, c, d := PROTECTED[0].Entry() + "\t", PROTECTED[0].Entry(), PROTECTED[1].Entry(), PROTECTED[2].Entry(),
                              PROTECTED[3].Entry();
    FourLines(tabbed, a, b, c, d);
  }

  lemma FourLines(tabbed: string, a: string, b: string, c: string, d: string)
    requires Readable(tabbed) && Readable(b) && Readable(c) && Readable(d)
    requires Trimmed(tabbed) == a && Trimmed(b) == b && Trimmed(c) == c && Trimmed(d) == d
    requires IsRule(a) && IsRule(b) && IsRule(c) && IsRule(d)
    ensures RulesOf([tabbed, b, c, d]) == [tabbed, b, c, d] && EntriesOf([tabbed, b, c, d]) == [a, b, c, d]
  {
    AppendedLines(tabbed, b, c, d);
    AppendedLines(a, b, c, d);
    OneMoreLine([], tabbed, a);
    OneMoreLine([tabbed], b, b);
    OneMoreLine([tabbed, b], c, c);
    OneMoreLine([tabbed, b, c], d, d);
  }

  lemma {:induction false} NothingMatches(member: Membership, rules: seq<string>, name: string, directory: bool)
    requires forall i :: 0 <= i < |rules| ==> !RuleMatches(member, rules[i], name, directory)
    ensures !Ignored(member, rules, name, directory)
  {
    if rules != [] {
      NothingMatches(member, rules[..|rules| - 1], name, directory);
    }
  }

  lemma DirectoryRuleMisses(member: Membership, rule: string, name: string)
    requires rule != "" && !IsNegation(rule) && NUL !in rule && rule[|rule| - 1] == '/'
    ensures !RuleMatches(member, rule, name, false)
  {
  }

  lemma TabbedLineMisses(member: Membership, i: nat)
    requires i < |TabbedLines()|
    ensures !RuleMatches(member, TabbedLines()[i], ".env", false)
  {
    VisibleNames(i);
    ProtectedNames(i);
    var line := TabbedLines()[i];
    EntryReads(i);
    ReadableIsRead(PROTECTED[i].Entry());
    if i < 2 {
      assert line != ".env";
      PlainRuleMisses(member, line, ".env");
    } else {
      DirectoryRuleMisses(member, line, ".env");
    }
  }

  lemma EntryIsListed(k: nat)
    requires k < |PROTECTED|
    ensures AllExact()[k] == PROTECTED[k].Entry() && !IsNegation(AllExact()[k])
  {
    ProtectedNames(k);
    EntryReads(k);
    assert k == 0 || k == 1 || k == 2 || k == 3;
  }

  lemma AllAreExact()
    ensures ExactEntries(AllExact())
  {
    var all := AllExact();
    forall k | 0 <= k < |PROTECTED|
      ensures all[k] == PROTECTED[k].Entry() && !IsNegation(all[k])
    {
      EntryIsListed(k);
    }
    assert forall k :: 0 <= k < |PROTECTED| ==> all[k] in all;
  }

  /** A file with just the four lines, as they have to be written, is accepted. */
  lemma FourLinesAreAccepted()
    ensures Accepted([".env", "admin-access-key.txt", ".osb-backups/", ".osb-update/"])
  {
    AllAreExact();
    ExactIsAccepted(AllExact());
    assert PROTECTED[0].Entry() == ".env" && PROTECTED[1].Entry() == "admin-access-key.txt";
    assert PROTECTED[2].Entry() == ".osb-backups/" && PROTECTED[3].Entry() == ".osb-update/";
  }

  /** The check drops the tab and takes the line for the exact entry; Git keeps it. */
  lemma TabsDefeatTheCheck(member: Membership)
    ensures Accepted(EntriesOf(TabbedLines()))
    ensures !Ignored(member, RulesOf(TabbedLines()), ".env", false)
  {
    AllAreExact();
    ExactIsAccepted(AllExact());
    TabbedReadings();
    forall i | 0 <= i < |TabbedLines()|
      ensures !RuleMatches(member, TabbedLines()[i], ".env", false)
    {
      TabbedLineMisses(member, i);
    }
    NothingMatches(member, TabbedLines(), ".env", false);
  }

  /* How Git reads directories, and names behind plain text. */

  /** Leading `**` before a slash changes nothing for a name in the directory of the
      file, */
  lemma LeadingStarsAreDropped(rest: string)
    ensures WithoutDirectories("**/" + rest) == WithoutDirectories(rest)
  {
    var s := "**/" + rest;
    assert s[0] == '*' && s[1] == '*' && s[2] == '/' && s[1..][0] == '*' && s[1..][1..][0] == '/';
    assert LeadingStars(s) == 2;
    assert s[3..] == rest;
  }

  lemma RuleIsItsCore(rule: string)
    requires rule != "" && NUL !in rule && rule[0] != '!' && rule[0] != '/' && rule[|rule| - 1] != '/'
    ensures !IsNegation(rule) && Body(rule) == rule && Core(rule) == rule && !DirectoriesOnly(rule)
  {
  }

  lemma StarsAreCutOut(rule: string, prefix: string, rest: string)
    requires rule == prefix + ("**/" + rest) && PlainFrom(prefix, 0) && PlainFrom(rest, 0) && rest != ""
    ensures Shortened(rule) == prefix + rest
  {
    assert rule[..|prefix|] == prefix && rule[|prefix|..] == "**/" + rest;
    assert rule[|prefix|] == '*';
    forall i | 0 <= i < |prefix|
      ensures !Special(rule[i])
    {
      assert rule[i] == prefix[i] && PlainCharacter(prefix[i]);
    }
    PlainUntil(rule, |prefix|);
    LeadingStarsAreDropped(rest);
    assert PlainCharacter(rest[0]);
  }

  /** also behind plain text: `.e**` with a slash and `nv` matches `.env`. */
  lemma PrefixedStarsMatch(member: Membership, rule: string, prefix: string, rest: string, name: string)
    requires rule == prefix + ("**/" + rest) && name == prefix + rest
    requires PlainFrom(prefix, 0) && PlainFrom(rest, 0) && rest != "" && (prefix != "" ==> prefix[0] != '!')
    ensures RuleMatches(member, rule, name, false)
  {
    StarsAreCutOut(rule, prefix, rest);
    StarredRule(rule, prefix, rest);
    PlainJoin(prefix, rest, name);
    PlainTextAcceptsItself(member, name, 0);
    assert name[0..] == name;
  }

  lemma PlainJoin(prefix: string, rest: string, name: string)
    requires PlainFrom(prefix, 0) && PlainFrom(rest, 0) && name == prefix + rest
    ensures PlainFrom(name, 0)
  {
  }

  lemma StarredRule(rule: string, prefix: string, rest: string)
    requires rule == prefix + ("**/" + rest) && PlainFrom(prefix, 0) && PlainFrom(rest, 0) && rest != ""
    requires prefix != "" ==> prefix[0] != '!'
    ensures Compared(rule) == Shortened(rule) && !DirectoriesOnly(Body(rule))
  {
    assert forall i :: 0 <= i < |prefix| ==> PlainCharacter(prefix[i]);
    assert forall i :: 0 <= i < |rest| ==> PlainCharacter(rest[i]);
    assert NUL !in prefix && NUL !in "**/" && NUL !in rest;
    assert rule[|rule| - 1] == rest[|rest| - 1];
    assert rule[0] == if prefix == "" then '*' else prefix[0];
    RuleIsItsCore(rule);
  }

  lemma {:induction false} PlainUntil(s: string, n: nat)
    requires n < |s| && (forall i :: 0 <= i < n ==> !Special(s[i])) && Special(s[n])
    ensures LiteralPrefix(s) == n
  {
    if n > 0 {
      PlainUntil(s[1..], n - 1);
    }
  }

  /* How Git reads classes, by example. */

  /** A hyphen after a range is a member, so that a named class may follow. */
  lemma HyphenAfterRange()
    ensures var s := "[a-b-[:digit:]]"; ClassClose(s, 0) == Some(|s| - 1)
  {
    var s := "[a-b-[:digit:]]";
    assert AfterMemberAt(s, 3, RangeEnd) == Some((4, AfterUnit));
    assert AfterMemberAt(s, 4, AfterUnit) == Some((5, AfterMember));
    assert FirstBracket(s, 7) == FirstBracket(s, 9) == FirstBracket(s, 11) == FirstBracket(s, 13) == Some(13);
    assert s[7..12] == "digit";
    assert AfterMemberAt(s, 5, AfterMember) == Some((14, AfterUnit));
    assert ClassEnd(s, 1, First) == ClassEnd(s, 2, AfterMember) == ClassEnd(s, 3, RangeEnd);
    assert ClassEnd(s, 3, RangeEnd) == ClassEnd(s, 4, AfterUnit) == ClassEnd(s, 5, AfterMember);
    assert ClassEnd(s, 5, AfterMember) == ClassEnd(s, 14, AfterUnit) == Some(14);
  }

  /** A range may end in an escaped bracket, and a hyphen before the closing bracket is a
      member. */
  lemma EscapedRangeEnd()
    ensures var s := "[!\\[-\\]-]"; ClassClose(s, 0) == Some(|s| - 1)
  {
    var s := "[!\\[-\\]-]";
    assert ClassEnd(s, 2, First) == ClassEnd(s, 4, AfterMember) == ClassEnd(s, 5, RangeEnd);
    assert ClassEnd(s, 5, RangeEnd) == ClassEnd(s, 7, AfterUnit) == ClassEnd(s, 8, AfterMember) == Some(8);
  }

  /** A bracket right after the opening one is a member, also behind a negation. */
  lemma FirstBracketIsMember()
    ensures ClassClose("[]a]", 0) == Some(3) && ClassClose("[!]a]", 0) == ClassClose("[^]a]", 0) == Some(4)
  {
    assert ClassEnd("[]a]", 1, First) == ClassEnd("[]a]", 2, AfterMember) == ClassEnd("[]a]", 3, AfterMember);
    assert ClassEnd("[!]a]", 2, First) == ClassEnd("[!]a]", 3, AfterMember) == ClassEnd("[!]a]", 4, AfterMember);
    assert ClassEnd("[^]a]", 2, First) == ClassEnd("[^]a]", 3, AfterMember) == ClassEnd("[^]a]", 4, AfterMember);
  }

  /** What begins like a named class but does not end like one is a list of members. */
  lemma UnfinishedName()
    ensures ClassClose("[[:a]", 0) == Some(4)
  {
    var s := "[[:a]";
    assert FirstBracket(s, 3) == FirstBracket(s, 4) == Some(4);
    assert ClassEnd(s, 1, First) == ClassEnd(s, 2, AfterMember) == ClassEnd(s, 3, AfterMember) == ClassEnd(s, 4, AfterMember);
  }

  /** The end of a range is one byte: it ends the range only if it is ASCII. */
  lemma RangeEndIsOneByte(c: char)
    ensures AfterEnd(c, RangeEnd) == AfterUnit <==> c <= '\U{7f}'
  {
  }

  /** An unknown name, an open class and a lone backslash make Git reject a pattern. */
  lemma GitRejects()
    ensures Elements("[a") == None && Elements("a\\") == None
  {
    assert ClassEnd("[a", 1, First) == ClassEnd("[a", 2, AfterMember) == None;
    assert ElementsFrom("a\\", 1) == None;
  }

  lemma GitRejectsNames()
    ensures Elements("[[:word:]]") == None
  {
    var s := "[[:word:]]";
    assert FirstBracket(s, 3) == FirstBracket(s, 5) == FirstBracket(s, 7) == FirstBracket(s, 8) == Some(8);
    assert s[3..7] == "word" && s[3..7][0] == 'w';
  }
}
