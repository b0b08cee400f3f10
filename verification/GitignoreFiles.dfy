/** The acceptance of a .gitignore from its text on: the lines between line feeds, as the
    check reads them and as Git does. */
module GitignoreFiles {
  import opened Text
  import opened Glob
  import opened Gitignore
  import opened Common

  /** `char::is_whitespace`. */
  predicate WhiteSpace(c: char) {
    var n := c as int;
    || 0x9 <= n <= 0xd || n == 0x20 || n == 0x85 || n == 0xa0 || n == 0x1680 || 0x2000 <= n <= 0x200a
    || n == 0x2028 || n == 0x2029 || n == 0x202f || n == 0x205f || n == 0x3000
  }

  /** The 25 code points that Unicode calls white space. */
  lemma WhiteSpaceExactly(c: char)
    ensures WhiteSpace(c) <==>
            c as int in {0x9, 0xa, 0xb, 0xc, 0xd, 0x20, 0x85, 0xa0, 0x1680, 0x2000, 0x2001, 0x2002, 0x2003, 0x2004,
                         0x2005, 0x2006, 0x2007, 0x2008, 0x2009, 0x200a, 0x2028, 0x2029, 0x202f, 0x205f, 0x3000}
  {
  }

  /** `trim_end`. */
  function Trimmed(line: string): string {
    if line != "" && WhiteSpace(line[|line| - 1]) then Trimmed(line[..|line| - 1]) else line
  }

  /** Git drops trailing spaces that are not escaped, and no other white space; `keep` is
      what is left up to the last character that stays. A NUL ends the line. */
  function GitTrimmedFrom(line: string, i: nat, keep: nat): string
    requires keep <= i <= |line|
    decreases |line| - i
  {
    if AtEnd(line, i) then line[..keep]
    else if line[i] == ' ' then GitTrimmedFrom(line, i + 1, keep)
    else if line[i] == '\\' && !AtEnd(line, i + 1) then GitTrimmedFrom(line, i + 2, i + 2)
    else GitTrimmedFrom(line, i + 1, i + 1)
  }

  /** The carriage return before the line feed. */
  function WithoutReturn(line: string): string {
    if line != "" && line[|line| - 1] == '\r' then line[..|line| - 1] else line
  }

  function GitTrimmed(line: string): string {
    GitTrimmedFrom(WithoutReturn(line), 0, 0)
  }

  const MARK: char := '\U{FEFF}'

  /** Git drops a byte order mark at the start of the file. */
  function WithoutMark(line: string): string {
    if line != "" && line[0] == MARK then line[1..] else line
  }

  predicate IsRule(line: string) {
    line != "" && line[0] != '#'
  }

  /** The entries that the check considers. */
  function EntriesOf(lines: seq<string>): seq<string> {
    if lines == [] then []
    else EntriesOf(lines[..|lines| - 1]) +
         if IsRule(Trimmed(lines[|lines| - 1])) then [Trimmed(lines[|lines| - 1])] else []
  }

  /** The rules that Git reads. */
  function RulesOf(lines: seq<string>): seq<string> {
    if lines == [] then []
    else
      var last := lines[|lines| - 1];
      var rule := GitTrimmed(if |lines| == 1 then WithoutMark(last) else last);
      RulesOf(lines[..|lines| - 1]) + if IsRule(rule) then [rule] else []
  }

  /** Comments and blank lines are neither entries nor rules; other lines are entries,
      without the white space at their ends. */
  lemma CommentsAreSkipped(lines: seq<string>, line: string)
    requires lines != []
    ensures line != "" && line[0] == '#' ==>
              EntriesOf(lines + [line]) == EntriesOf(lines) && RulesOf(lines + [line]) == RulesOf(lines)
    ensures line in {"", "\r", " "} ==>
              EntriesOf(lines + [line]) == EntriesOf(lines) && RulesOf(lines + [line]) == RulesOf(lines)
    ensures line != "" && line[0] != '#' && !WhiteSpace(line[|line| - 1]) ==>
              EntriesOf(lines + [line]) == EntriesOf(lines) + [line]
  {
    assert (lines + [line])[..|lines|] == lines;
    if line != "" && line[0] == '#' {
      TrimmedBegins(line);
      GitTrimmedBegins(WithoutReturn(line), 0, 0);
    }
  }

  lemma {:induction false} GitTrimmedBegins(line: string, i: nat, keep: nat)
    requires keep <= i <= |line|
    ensures GitTrimmedFrom(line, i, keep) <= line && line[..keep] <= GitTrimmedFrom(line, i, keep)
    ensures i == keep == 0 && line != "" && line[0] == '#' ==> GitTrimmedFrom(line, i, keep) != ""
    decreases |line| - i
  {
    if !AtEnd(line, i) {
      if line[i] == ' ' {
        GitTrimmedBegins(line, i + 1, keep);
      } else {
        var next := if line[i] == '\\' && !AtEnd(line, i + 1) then i + 2 else i + 1;
        GitTrimmedBegins(line, next, next);
      }
    }
  }

  /** `validate_existing_gitignore`, from the text of the file on. */
  method ValidateText(text: string) returns (accepted: bool)
    ensures accepted <==> Accepted(EntriesOf(Split(text, '\n')))
  {
    var lines := Split(text, '\n');
    var entries: seq<string> := [];
    for i := 0 to |lines|
      invariant entries == EntriesOf(lines[..i])
    {
      assert lines[..i + 1][..i] == lines[..i];
      var entry := Trimmed(lines[i]);
      if IsRule(entry) {
        entries := entries + [entry];
      }
    }
    assert lines[..|lines|] == lines;
    accepted := ValidateEntries(entries);
  }

  lemma RulesOfOne(line: string)
    ensures var rule := GitTrimmed(WithoutMark(line)); RulesOf([line]) == if IsRule(rule) then [rule] else []
  {
    assert [line][..0] == [];
  }

  lemma RulesOfMore(lines: seq<string>)
    requires |lines| > 1
    ensures var rule := GitTrimmed(lines[|lines| - 1]);
            RulesOf(lines) == RulesOf(lines[..|lines| - 1]) + if IsRule(rule) then [rule] else []
  {
  }

  /** A byte order mark makes no difference to Git: two files that differ only in one at
      their start have the same rules. */
  lemma {:induction false} MarkIsDropped(a: seq<string>, b: seq<string>)
    requires |a| == |b| > 0 && a[0] == [MARK] + b[0] && (b[0] == "" || b[0][0] != MARK)
    requires forall i :: 1 <= i < |a| ==> a[i] == b[i]
    ensures RulesOf(a) == RulesOf(b)
    decreases |a|
  {
    if |a| == 1 {
      assert a == [a[0]] && b == [b[0]];
      RulesOfOne(a[0]);
      RulesOfOne(b[0]);
      assert a[0][1..] == b[0];
    } else {
      MarkIsDropped(a[..|a| - 1], b[..|b| - 1]);
      RulesOfMore(a);
      RulesOfMore(b);
    }
  }

  /** Exactly when a file protects what it must: if and only if every name is safely read
      from the rules that Git makes of the lines. */
  lemma FileProtectedExactly(lines: seq<string>)
    ensures (forall k :: 0 <= k < |PROTECTED| ==> StaysIgnored(RulesOf(lines), PROTECTED[k])) <==>
            (forall k :: 0 <= k < |PROTECTED| ==> SafelyRead(RulesOf(lines), PROTECTED[k]))
  {
    forall k | 0 <= k < |PROTECTED|
      ensures StaysIgnored(RulesOf(lines), PROTECTED[k]) <==> SafelyRead(RulesOf(lines), PROTECTED[k])
    {
      ProtectedExactly(RulesOf(lines), k);
    }
  }

  /* The check implies that, if the file is plain. */

  /** Both readers trim every line alike; so no line has a NUL. */
  predicate PlainEnds(lines: seq<string>) {
    forall i :: 0 <= i < |lines| ==> Trimmed(lines[i]) == GitTrimmed(lines[i])
  }

  /** The same rules, up to a first one with a byte order mark. */
  predicate SameAfterMark(entries: seq<string>, rules: seq<string>) {
    || entries == rules
    || (&& entries != [] && entries[0] != "" && entries[0][0] == MARK
        && (rules == entries[1..] || (rules != [] && rules[1..] == entries[1..])))
  }

  lemma OneMore(entries: seq<string>, rules: seq<string>, more: seq<string>)
    requires SameAfterMark(entries, rules)
    ensures SameAfterMark(entries + more, rules + more)
  {
    if entries != rules {
      assert (entries + more)[1..] == entries[1..] + more;
      if rules != entries[1..] {
        assert (rules + more)[1..] == rules[1..] + more;
      }
    }
  }

  lemma {:induction false} TrimmedBegins(line: string)
    ensures Trimmed(line) <= line
    ensures line != "" && !WhiteSpace(line[0]) ==> Trimmed(line) != ""
  {
    if line != "" && WhiteSpace(line[|line| - 1]) {
      TrimmedBegins(line[..|line| - 1]);
    }
  }

  lemma FirstLine(line: string)
    requires Trimmed(line) == GitTrimmed(line)
    ensures SameAfterMark(EntriesOf([line]), RulesOf([line]))
  {
    TrimmedBegins(line);
    assert [line][..0] == [];
    assert EntriesOf([line][..0]) == [] && RulesOf([line][..0]) == [];
  }

  lemma {:induction false} SameRules(lines: seq<string>)
    requires PlainEnds(lines)
    ensures SameAfterMark(EntriesOf(lines), RulesOf(lines))
  {
    if |lines| == 1 {
      assert lines == [lines[0]];
      FirstLine(lines[0]);
    } else if |lines| > 1 {
      var before, last := lines[..|lines| - 1], lines[|lines| - 1];
      SameRules(before);
      var rule := Trimmed(last);
      OneMore(EntriesOf(before), RulesOf(before), if IsRule(rule) then [rule] else []);
    }
  }

  lemma MarkedIsNotExact(entry: string, p: Protected)
    requires WellNamed(p) && entry != "" && entry[0] == MARK
    ensures !IsExact(entry, p.Entry())
  {
    assert PlainCharacter(p.name[0]) && p.Entry()[0] == p.name[0];
  }

  /** What comes before the last exact entry does not matter. */
  lemma LaterRulesDecide(entries: seq<string>, rules: seq<string>, shift: nat, p: Protected)
    requires SafelyRead(entries, p) && |rules| + shift == |entries|
    requires var last := LastExact(entries, p.Entry()).value;
             shift <= last && forall i :: last <= i < |entries| ==> rules[i - shift] == entries[i]
    ensures SafelyRead(rules, p)
  {
    var last := LastExact(entries, p.Entry()).value;
    assert rules[last - shift] == entries[last];
    forall i | last - shift < i < |rules|
      ensures rules[i] == entries[i + shift]
    {
      assert rules[i + shift - shift] == entries[i + shift];
    }
    LastExactIs(rules, p.Entry(), last - shift);
  }

  lemma LastExactIs(rules: seq<string>, required: string, last: nat)
    requires last < |rules| && IsExact(rules[last], required)
    requires forall i :: last < i < |rules| ==> !IsExact(rules[i], required)
    ensures LastExact(rules, required) == Some(last)
  {
  }

  /** A first entry with a byte order mark is neither exact nor a negation. */
  lemma MarkIsHarmless(entries: seq<string>, rules: seq<string>, p: Protected)
    requires WellNamed(p) && SafelyRead(entries, p) && SameAfterMark(entries, rules)
    ensures SafelyRead(rules, p)
  {
    if entries != rules {
      MarkedIsNotExact(entries[0], p);
      var shift := if rules == entries[1..] then 1 else 0;
      assert forall i :: 1 <= i < |entries| ==> entries[i] == entries[1..][i - 1];
      LaterRulesDecide(entries, rules, shift, p);
    }
  }

  /** The promise of the check, for a file as it is: if it is accepted, and its lines and
      negations are plain, Git ignores each protected name. */
  lemma AcceptedFileProtects(member: Membership, lines: seq<string>, k: nat)
    requires Accepted(EntriesOf(lines)) && PlainEnds(lines) && PlainNegations(EntriesOf(lines)) && k < |PROTECTED|
    ensures SafelyRead(RulesOf(lines), PROTECTED[k])
    ensures Ignored(member, RulesOf(lines), PROTECTED[k].name, PROTECTED[k].directory)
  {
    var rules := RulesOf(lines);
    SameRules(lines);
    AcceptedIsSafe(EntriesOf(lines), k);
    ProtectedNames(k);
    MarkIsHarmless(EntriesOf(lines), rules, PROTECTED[k]);
    ProtectedExactly(rules, k);
    assert rules[..|rules|] == rules;
  }

  /** By name: the secrets and directories that are kept out of the repository. */
  lemma SecretsStayIgnored(member: Membership, lines: seq<string>)
    requires Accepted(EntriesOf(lines)) && PlainEnds(lines) && PlainNegations(EntriesOf(lines))
    ensures var rules := RulesOf(lines);
            && Ignored(member, rules, ".env", false) && Ignored(member, rules, "admin-access-key.txt", false)
            && Ignored(member, rules, ".osb-backups", true) && Ignored(member, rules, ".osb-update", true)
  {
    AcceptedFileProtects(member, lines, 0);
    AcceptedFileProtects(member, lines, 1);
    AcceptedFileProtects(member, lines, 2);
    AcceptedFileProtects(member, lines, 3);
  }
}
