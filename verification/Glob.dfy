/** The conservative glob test: a tokenizer and a two-row dynamic program, against
    the matching relation on tokens and against Git's own reading of a pattern. */
module Glob {
  import opened Common

  datatype Token = AnySequence | AnyOne | Literal(c: char)

  /* The matching relation. */

  predicate Matches(tokens: seq<Token>, value: string)
    decreases |tokens|, |value|
  {
    if tokens == [] then value == ""
    else
      match tokens[0]
      case AnySequence => Matches(tokens[1..], value) || (value != "" && Matches(tokens, value[1..]))
      case AnyOne => value != "" && Matches(tokens[1..], value[1..])
      case Literal(c) => value != "" && value[0] == c && Matches(tokens[1..], value[1..])
  }

  ghost predicate SplitsAt(a: seq<Token>, b: seq<Token>, value: string, k: int) {
    0 <= k <= |value| && Matches(a, value[..k]) && Matches(b, value[k..])
  }

  lemma {:induction false} JoinMatches(a: seq<Token>, b: seq<Token>, value: string, k: nat)
    requires k <= |value| && SplitsAt(a, b, value, k)
    ensures Matches(a + b, value)
    decreases |a|, k
  {
    if a == [] {
      assert a + b == b && value[k..] == value;
    } else {
      assert (a + b)[1..] == a[1..] + b;
      if a[0].AnySequence? && Matches(a[1..], value[..k]) {
        JoinMatches(a[1..], b, value, k);
      } else {
        assert value[..k][1..] == value[1..][..k - 1] && value[1..][k - 1..] == value[k..];
        JoinMatches(if a[0].AnySequence? then a else a[1..], b, value[1..], k - 1);
      }
    }
  }

  lemma {:induction false} SplitMatches(a: seq<Token>, b: seq<Token>, value: string) returns (k: nat)
    requires Matches(a + b, value)
    ensures SplitsAt(a, b, value, k)
    decreases |a|, |value|
  {
    if a == [] {
      assert a + b == b && value[0..] == value;
      k := 0;
    } else {
      assert (a + b)[1..] == a[1..] + b && (a + b)[0] == a[0];
      if a[0].AnySequence? && Matches(a[1..] + b, value) {
        k := SplitMatches(a[1..], b, value);
      } else {
        var j := SplitMatches(if a[0].AnySequence? then a else a[1..], b, value[1..]);
        k := j + 1;
        assert value[..k][1..] == value[1..][..j] && value[1..][j..] == value[k..];
      }
    }
  }

  lemma OneTokenMatches(token: Token, value: string)
    ensures token == AnySequence ==> Matches([token], value)
    ensures token != AnySequence ==>
              (Matches([token], value) <==> |value| == 1 && (token == AnyOne || token.c == value[0]))
    decreases |value|
  {
    assert [token][1..] == [];
    if token == AnySequence && value != "" {
      OneTokenMatches(token, value[1..]);
    }
  }

  /** One more token, seen from the end of the value: the recurrence of the rows. */
  lemma LastToken(tokens: seq<Token>, token: Token, value: string)
    ensures token == AnySequence ==>
              (Matches(tokens + [token], value) <==>
               Matches(tokens, value) || (value != "" && Matches(tokens + [token], value[..|value| - 1])))
    ensures token != AnySequence ==>
              (Matches(tokens + [token], value) <==>
               && value != ""
               && (token == AnyOne || token.c == value[|value| - 1])
               && Matches(tokens, value[..|value| - 1]))
  {
    var n := |value|;
    if Matches(tokens + [token], value) {
      var k := SplitMatches(tokens, [token], value);
      OneTokenMatches(token, value[k..]);
      if token == AnySequence {
        if k == n {
          assert value[..n] == value;
        } else {
          var shorter := value[..n - 1];
          assert shorter[..k] == value[..k];
          OneTokenMatches(token, shorter[k..]);
          JoinMatches(tokens, [token], shorter, k);
        }
      }
    }
    if token == AnySequence && Matches(tokens, value) {
      OneTokenMatches(token, "");
      assert value[..n] == value && value[n..] == "";
      JoinMatches(tokens, [token], value, n);
    }
    if token == AnySequence && n > 0 && Matches(tokens + [token], value[..n - 1]) {
      var k := SplitMatches(tokens, [token], value[..n - 1]);
      assert value[..n - 1][..k] == value[..k];
      OneTokenMatches(token, value[k..]);
      JoinMatches(tokens, [token], value, k);
    }
    if token != AnySequence && n > 0 && (token == AnyOne || token.c == value[n - 1]) && Matches(tokens, value[..n - 1]) {
      OneTokenMatches(token, value[n - 1..]);
      JoinMatches(tokens, [token], value, n - 1);
    }
  }

  /* The tokenizer, and the collapsing of repeated stars. */

  /** The position of the first `]` from `i` on. */
  function FirstBracket(s: string, i: nat): (position: Option<nat>)
    ensures position.Some? ==> i <= position.value < |s| && s[position.value] == ']'
    ensures position.Some? ==> forall j :: i <= j < position.value ==> s[j] != ']'
    ensures position.None? ==> forall j :: i <= j < |s| ==> s[j] != ']'
    decreases |s| - i
  {
    if i >= |s| then None else if s[i] == ']' then Some(i) else FirstBracket(s, i + 1)
  }

  /** The token at position `i` and the position after it. */
  function TokenAt(pattern: string, i: nat): Token
    requires i < |pattern|
  {
    match pattern[i]
    case '*' => AnySequence
    case '?' => AnyOne
    case '[' => AnyOne
    case c => if c == '\\' && i + 1 < |pattern| then Literal(pattern[i + 1]) else Literal(c)
  }

  function AfterToken(pattern: string, i: nat): (next: nat)
    requires i < |pattern|
    ensures i < next <= |pattern|
  {
    if pattern[i] == '[' then
      (match FirstBracket(pattern, i + 1) case None => i + 1 case Some(j) => j + 1)
    else if pattern[i] == '\\' && i + 1 < |pattern| then i + 2
    else i + 1
  }

  function TokensFrom(pattern: string, i: nat): seq<Token>
    decreases |pattern| - i
  {
    if i >= |pattern| then [] else [TokenAt(pattern, i)] + TokensFrom(pattern, AfterToken(pattern, i))
  }

  function Tokens(pattern: string): seq<Token> {
    TokensFrom(pattern, 0)
  }

  predicate EndsWithStar(tokens: seq<Token>) {
    tokens != [] && tokens[|tokens| - 1].AnySequence?
  }

  function Push(tokens: seq<Token>, token: Token): seq<Token> {
    if token.AnySequence? && EndsWithStar(tokens) then tokens else tokens + [token]
  }

  function PushAll(tokens: seq<Token>, more: seq<Token>): seq<Token>
    decreases |more|
  {
    if more == [] then tokens else PushAll(Push(tokens, more[0]), more[1..])
  }

  lemma {:induction false} TwoStarsAreOne(tokens: seq<Token>, value: string)
    requires EndsWithStar(tokens)
    ensures Matches(tokens + [AnySequence], value) <==> Matches(tokens, value)
    decreases |value|
  {
    var front := tokens[..|tokens| - 1];
    assert tokens == front + [AnySequence];
    LastToken(tokens, AnySequence, value);
    LastToken(front, AnySequence, value);
    if value != "" {
      TwoStarsAreOne(tokens, value[..|value| - 1]);
    }
  }

  lemma SameLanguageExtends(a: seq<Token>, b: seq<Token>, more: seq<Token>, value: string)
    requires forall v :: Matches(a, v) <==> Matches(b, v)
    ensures Matches(a + more, value) <==> Matches(b + more, value)
  {
    if Matches(a + more, value) {
      var k := SplitMatches(a, more, value);
      JoinMatches(b, more, value, k);
    }
    if Matches(b + more, value) {
      var k := SplitMatches(b, more, value);
      JoinMatches(a, more, value, k);
    }
  }

  /** Collapsing repeated stars keeps the language. */
  lemma {:induction false} CollapsingKeepsLanguage(tokens: seq<Token>, more: seq<Token>, value: string)
    ensures Matches(PushAll(tokens, more), value) <==> Matches(tokens + more, value)
    decreases |more|
  {
    if more == [] {
      assert tokens + more == tokens;
    } else {
      var pushed := Push(tokens, more[0]);
      CollapsingKeepsLanguage(pushed, more[1..], value);
      forall v
        ensures Matches(pushed, v) <==> Matches(tokens + [more[0]], v)
      {
        if pushed == tokens {
          TwoStarsAreOne(tokens, v);
        }
      }
      SameLanguageExtends(pushed, tokens + [more[0]], more[1..], value);
      assert tokens + [more[0]] + more[1..] == tokens + more;
    }
  }

  /* The program. */

  lemma PushNext(tokens: seq<Token>, pattern: string, i: nat)
    requires i < |pattern|
    ensures PushAll(tokens, TokensFrom(pattern, i)) ==
            PushAll(Push(tokens, TokenAt(pattern, i)), TokensFrom(pattern, AfterToken(pattern, i)))
  {
    assert TokensFrom(pattern, i)[1..] == TokensFrom(pattern, AfterToken(pattern, i));
  }

  /** One branch of the index loop: the token and where to go on. */
  method ReadToken(pattern: string, index: nat) returns (token: Token, next: nat)
    requires index < |pattern|
    ensures token == TokenAt(pattern, index) && next == AfterToken(pattern, index)
  {
    match pattern[index]
    case '*' =>
      return AnySequence, index + 1;
    case '?' =>
      return AnyOne, index + 1;
    case '[' =>
      var position := FirstBracket(pattern, index + 1);
      return AnyOne, if position.Some? then position.value + 1 else index + 1;
    case literal =>
      if literal == '\\' && index + 1 < |pattern| {
        return Literal(pattern[index + 1]), index + 2;
      }
      return Literal(literal), index + 1;
  }

  method Tokenize(pattern: string) returns (tokens: seq<Token>)
    ensures tokens == PushAll([], Tokens(pattern))
  {
    tokens := [];
    var index := 0;
    while index < |pattern|
      invariant 0 <= index <= |pattern|
      invariant PushAll(tokens, TokensFrom(pattern, index)) == PushAll([], Tokens(pattern))
    {
      PushNext(tokens, pattern, index);
      var token, next := ReadToken(pattern, index);
      if !token.AnySequence? || |tokens| == 0 || !tokens[|tokens| - 1].AnySequence? {
        tokens := tokens + [token];
      }
      index := next;
    }
  }

  /** The two rows decide exactly the matching relation. */
  method MayMatch(pattern: string, value: string) returns (matched: bool)
    ensures matched <==> Matches(Tokens(pattern), value)
  {
    var tokens := Tokenize(pattern);
    var n := |value|;
    var previous := new bool[n + 1](i => i == 0);
    var done := 0;
    while done < |tokens|
      invariant 0 <= done <= |tokens| && previous.Length == n + 1
      invariant forall j :: 0 <= j <= n ==> previous[j] == Matches(tokens[..done], value[..j])
    {
      var token := tokens[done];
      ghost var before := tokens[..done];
      assert tokens[..done + 1] == before + [token];
      var current := new bool[n + 1](_ => false);
      if token == AnySequence {
        current[0] := previous[0];
      }
      LastToken(before, token, value[..0]);
      var j := 1;
      while j <= n
        invariant 1 <= j <= n + 1
        invariant forall i :: 0 <= i <= n ==> previous[i] == Matches(before, value[..i])
        invariant forall i :: 0 <= i < j ==> current[i] == Matches(before + [token], value[..i])
      {
        LastToken(before, token, value[..j]);
        assert value[..j][..j - 1] == value[..j - 1];
        current[j] :=
          match token
          case AnySequence => previous[j] || current[j - 1]
          case AnyOne => previous[j - 1]
          case Literal(c) => previous[j - 1] && c == value[j - 1];
        j := j + 1;
      }
      previous := current;
      done := done + 1;
    }
    matched := previous[n];
    assert tokens[..done] == tokens && value[..n] == value;
    CollapsingKeepsLanguage([], Tokens(pattern), value);
    assert [] + Tokens(pattern) == Tokens(pattern);
  }

  /* Git's reading. The members of a class are read one after the other: an escaped
     character, a range, a named class such as `[:punct:]`, or a single character. The
     class ends at a `]` that is none of these and not its first member. An unclosed
     class, an unknown name or a trailing backslash makes the whole pattern match
     nothing, and a NUL is the end of the pattern. What a class contains is left to an
     arbitrary membership function. */

  datatype Element = Star | Any | Class(body: string) | Exactly(c: char)

  type Membership = (string, char) -> bool

  /** Every class contains everything. */
  const EVERYTHING: Membership := (_, _) => true

  const NUL: char := '\0'

  /** What may come next inside a class: its first member; a member that cannot be the
      left end of a range, or one that can follow such an end; the right end of a range. */
  datatype ClassState = First | AfterUnit | AfterMember | RangeEnd

  const CLASS_NAMES: set<string> :=
    {"alnum", "alpha", "blank", "cntrl", "digit", "graph", "lower", "print", "punct", "space", "upper", "xdigit"}

  predicate Closes(s: string, i: nat, state: ClassState)
    requires i < |s|
  {
    s[i] == ']' && state != First
  }

  /** The state after a character that may be the right end of a range. Git reads bytes:
      of a character beyond ASCII only the first byte is that end. */
  function AfterEnd(c: char, state: ClassState): (after: ClassState)
    ensures after != First
  {
    if state == RangeEnd && c as int < 128 then AfterUnit else AfterMember
  }

  /** One member, from position `i`: the position and the state after it. */
  function AfterMemberAt(s: string, i: nat, state: ClassState): (r: Option<(nat, ClassState)>)
    requires i < |s|
    ensures r.Some? ==> i < r.value.0 <= |s| && r.value.1 != First
  {
    if s[i] == '\\' then
      if i + 1 < |s| then Some((i + 2, AfterEnd(s[i + 1], state))) else None
    else if state == RangeEnd then Some((i + 1, AfterEnd(s[i], state)))
    else if s[i] == '-' && state == AfterMember && i + 1 < |s| && s[i + 1] != ']' then Some((i + 1, RangeEnd))
    else if s[i] == '[' && i + 1 < |s| && s[i + 1] == ':' then
      match FirstBracket(s, i + 2)
      case None => None
      case Some(j) =>
        if j == i + 2 || s[j - 1] != ':' then Some((i + 1, AfterMember))
        else if s[i + 2..j - 1] in CLASS_NAMES then Some((j + 1, AfterUnit))
        else None
    else Some((i + 1, AfterMember))
  }

  /** The position of the closing bracket, from a member at `i` on. */
  function ClassEnd(s: string, i: nat, state: ClassState): (end: Option<nat>)
    ensures end.Some? ==> i <= end.value < |s| && s[end.value] == ']'
    decreases |s| - i
  {
    if i >= |s| then None
    else if Closes(s, i, state) then Some(i)
    else
      match AfterMemberAt(s, i, state)
      case None => None
      case Some((next, after)) => ClassEnd(s, next, after)
  }

  /** The closing bracket of a class whose `[` is at position `i`. */
  function ClassClose(s: string, i: nat): (end: Option<nat>)
    ensures end.Some? ==> i < end.value < |s| && s[end.value] == ']'
  {
    ClassEnd(s, ClassStart(s, i), First)
  }

  function ClassStart(s: string, i: nat): nat {
    if i + 1 < |s| && (s[i + 1] == '!' || s[i + 1] == '^') then i + 2 else i + 1
  }

  /** The element at position `i` and the position after it, if Git can read it. */
  function ElementAt(pattern: string, i: nat): (r: Option<(Element, nat)>)
    requires i < |pattern|
    ensures r.Some? ==> i < r.value.1 <= |pattern|
  {
    match pattern[i]
    case '*' => Some((Star, i + 1))
    case '?' => Some((Any, i + 1))
    case '[' =>
      (match ClassClose(pattern, i)
       case None => None
       case Some(end) => if NUL in pattern[i + 1..end] then None else Some((Class(pattern[i + 1..end]), end + 1)))
    case c =>
      if c != '\\' then Some((Exactly(c), i + 1))
      else if i + 1 < |pattern| && pattern[i + 1] != NUL then Some((Exactly(pattern[i + 1]), i + 2))
      else None
  }

  /** Git ends a pattern at the first NUL. */
  predicate AtEnd(pattern: string, i: nat) {
    i >= |pattern| || pattern[i] == NUL
  }

  function ElementsFrom(pattern: string, i: nat): Option<seq<Element>>
    decreases |pattern| - i
  {
    if AtEnd(pattern, i) then Some([])
    else
      match ElementAt(pattern, i)
      case None => None
      case Some((e, next)) =>
        match ElementsFrom(pattern, next)
        case None => None
        case Some(rest) => Some([e] + rest)
  }

  function Elements(pattern: string): Option<seq<Element>> {
    ElementsFrom(pattern, 0)
  }

  predicate Accepts(member: Membership, elements: seq<Element>, value: string)
    decreases |elements|, |value|
  {
    if elements == [] then value == ""
    else
      match elements[0]
      case Star => Accepts(member, elements[1..], value) || (value != "" && Accepts(member, elements, value[1..]))
      case Any => value != "" && Accepts(member, elements[1..], value[1..])
      case Class(body) => value != "" && member(body, value[0]) && Accepts(member, elements[1..], value[1..])
      case Exactly(c) => value != "" && value[0] == c && Accepts(member, elements[1..], value[1..])
  }

  predicate GitAccepts(member: Membership, pattern: string, value: string) {
    Elements(pattern).Some? && Accepts(member, Elements(pattern).value, value)
  }

  /** No class of the pattern, as Git reads it, has a `]` in its body: neither as a
      member nor as the end of a named class. */
  predicate BracketFree(elements: seq<Element>) {
    forall i :: 0 <= i < |elements| && elements[i].Class? ==> ']' !in elements[i].body
  }

  predicate NulFree(pattern: string, i: nat) {
    forall j :: i <= j < |pattern| ==> pattern[j] != NUL
  }

  function Relaxed(e: Element): Token {
    match e
    case Star => AnySequence
    case Any => AnyOne
    case Class(_) => AnyOne
    case Exactly(c) => Literal(c)
  }

  function RelaxedAll(elements: seq<Element>): seq<Token> {
    if elements == [] then [] else [Relaxed(elements[0])] + RelaxedAll(elements[1..])
  }

  lemma {:induction false} RelaxingAcceptsMore(member: Membership, elements: seq<Element>, value: string)
    requires Accepts(member, elements, value)
    ensures Matches(RelaxedAll(elements), value)
    decreases |elements|, |value|
  {
    if elements != [] {
      assert RelaxedAll(elements)[1..] == RelaxedAll(elements[1..]);
      if elements[0].Star? {
        if Accepts(member, elements[1..], value) {
          RelaxingAcceptsMore(member, elements[1..], value);
        } else {
          RelaxingAcceptsMore(member, elements, value[1..]);
        }
      } else {
        RelaxingAcceptsMore(member, elements[1..], value[1..]);
      }
    }
  }

  lemma ElementsUnfold(pattern: string, i: nat)
    requires !AtEnd(pattern, i) && ElementsFrom(pattern, i).Some?
    ensures ElementAt(pattern, i).Some? && ElementsFrom(pattern, ElementAt(pattern, i).value.1).Some?
    ensures ElementsFrom(pattern, i).value != [] && ElementsFrom(pattern, i).value[0] == ElementAt(pattern, i).value.0
    ensures ElementsFrom(pattern, i).value[1..] == ElementsFrom(pattern, ElementAt(pattern, i).value.1).value
  {
  }

  /** On an element without an inner bracket, the two readings take the same text. */
  lemma SameText(pattern: string, i: nat)
    requires i < |pattern| && ElementAt(pattern, i).Some?
    requires ElementAt(pattern, i).value.0.Class? ==> ']' !in ElementAt(pattern, i).value.0.body
    ensures TokenAt(pattern, i) == Relaxed(ElementAt(pattern, i).value.0)
    ensures AfterToken(pattern, i) == ElementAt(pattern, i).value.1
  {
    if pattern[i] == '[' {
      var end := ClassClose(pattern, i).value;
      assert forall j :: i + 1 <= j < end ==> pattern[j] == pattern[i + 1..end][j - i - 1];
    }
  }

  lemma {:induction false} BracketFreeTokens(pattern: string, i: nat)
    requires ElementsFrom(pattern, i).Some? && BracketFree(ElementsFrom(pattern, i).value) && NulFree(pattern, i)
    ensures TokensFrom(pattern, i) == RelaxedAll(ElementsFrom(pattern, i).value)
    decreases |pattern| - i
  {
    if i < |pattern| {
      var es := ElementsFrom(pattern, i).value;
      ElementsUnfold(pattern, i);
      assert es[0].Class? ==> ']' !in es[0].body;
      SameText(pattern, i);
      assert BracketFree(es[1..]) by {
        assert forall k :: 0 <= k < |es[1..]| ==> es[1..][k] == es[k + 1];
      }
      BracketFreeTokens(pattern, AfterToken(pattern, i));
    }
  }

  /* The other direction: a `]` inside a class makes the test miss something. */

  function Shortest(tokens: seq<Token>): nat {
    if tokens == [] then 0 else Shortest(tokens[1..]) + if tokens[0].AnySequence? then 0 else 1
  }

  lemma {:induction false} MatchesAreLongEnough(tokens: seq<Token>, value: string)
    requires Matches(tokens, value)
    ensures |value| >= Shortest(tokens)
    decreases |tokens|, |value|
  {
    if tokens != [] {
      if tokens[0].AnySequence? {
        if Matches(tokens[1..], value) {
          MatchesAreLongEnough(tokens[1..], value);
        } else {
          MatchesAreLongEnough(tokens, value[1..]);
        }
      } else {
        MatchesAreLongEnough(tokens[1..], value[1..]);
      }
    }
  }

  /** The shortest string Git accepts when every class contains everything. */
  function Witness(elements: seq<Element>): string {
    if elements == [] then ""
    else
      match elements[0]
      case Star => Witness(elements[1..])
      case Exactly(c) => [c] + Witness(elements[1..])
      case _ => "x" + Witness(elements[1..])
  }

  lemma {:induction false} WitnessIsAccepted(elements: seq<Element>)
    ensures Accepts(EVERYTHING, elements, Witness(elements))
    ensures |Witness(elements)| == Shortest(RelaxedAll(elements))
  {
    if elements != [] {
      WitnessIsAccepted(elements[1..]);
      assert RelaxedAll(elements)[1..] == RelaxedAll(elements[1..]);
      if !elements[0].Star? {
        assert Witness(elements)[1..] == Witness(elements[1..]);
      }
    }
  }

  /** After an inner bracket, members go on where the class does: the bracket is the
      first member, escaped, or ends a named class. */
  lemma {:induction false} InnerBracketResumes(s: string, i: nat, state: ClassState, g: nat) returns (after: ClassState)
    requires ClassEnd(s, i, state).Some? && i <= g < ClassEnd(s, i, state).value && s[g] == ']'
    ensures after != First && ClassEnd(s, g + 1, after) == ClassEnd(s, i, state)
    decreases |s| - i
  {
    var (next, state') := AfterMemberAt(s, i, state).value;
    if g < next {
      after := state';
    } else {
      after := InnerBracketResumes(s, next, state', g);
    }
  }

  /** What the rest of the pattern costs in characters, by its tokens. */
  function Cost(pattern: string, i: nat): nat
    decreases |pattern| - i
  {
    if i >= |pattern| then 0
    else Cost(pattern, AfterToken(pattern, i)) + if TokenAt(pattern, i).AnySequence? then 0 else 1
  }

  lemma {:induction false} CostIsShortest(pattern: string, i: nat)
    ensures Cost(pattern, i) == Shortest(TokensFrom(pattern, i))
    decreases |pattern| - i
  {
    if i < |pattern| {
      CostIsShortest(pattern, AfterToken(pattern, i));
      assert TokensFrom(pattern, i)[1..] == TokensFrom(pattern, AfterToken(pattern, i));
    }
  }

  /** Where the tokenizer goes on when it reads a token inside a class. */
  lemma InsideClass(s: string, i: nat, state: ClassState, end: nat) returns (after: ClassState)
    requires state != First && ClassEnd(s, i, state) == Some(end) && i < end
    ensures var next := AfterToken(s, i);
            && next <= end + 1 && after != First
            && (next == end + 1 ==> !TokenAt(s, i).AnySequence?)
            && (next <= end ==> ClassEnd(s, next, after) == Some(end))
  {
    var (next, state') := AfterMemberAt(s, i, state).value;
    after := state';
    if s[i] == '[' {
      var g := FirstBracket(s, i + 1).value;
      if g < end {
        after := InnerBracketResumes(s, i, state, g);
      }
    }
  }

  /** Tokenizing from inside a class spends at least one token on its end. */
  lemma {:induction false} EndCostsAToken(s: string, i: nat, state: ClassState, end: nat)
    requires state != First && ClassEnd(s, i, state) == Some(end)
    ensures Cost(s, i) >= 1 + Cost(s, end + 1)
    decreases |s| - i
  {
    if i < end {
      var after := InsideClass(s, i, state, end);
      if AfterToken(s, i) <= end {
        EndCostsAToken(s, AfterToken(s, i), after, end);
      }
    }
  }

  /** The tokenizer takes a class up to the first bracket behind its start. */
  lemma ClassToken(pattern: string, i: nat, k: nat) returns (g: nat)
    requires i < k < |pattern| && pattern[i] == '[' && pattern[k] == ']'
    ensures ClassStart(pattern, i) <= g <= k && pattern[g] == ']'
    ensures AfterToken(pattern, i) == g + 1 && TokenAt(pattern, i) == AnyOne
  {
    g := FirstBracket(pattern, i + 1).value;
  }

  /** A class with a bracket in its body costs the tokenizer more than one character. */
  lemma BracketCostsMore(pattern: string, i: nat, end: nat, k: nat)
    requires i < k < end < |pattern| && pattern[i] == '[' && pattern[k] == ']' && ClassClose(pattern, i) == Some(end)
    ensures Cost(pattern, i) > Cost(pattern, end + 1) + 1
  {
    var g := ClassToken(pattern, i, k);
    var after := InnerBracketResumes(pattern, ClassStart(pattern, i), First, g);
    EndCostsAToken(pattern, g + 1, after, end);
  }

  /** An element costs the tokenizer at least as much as Git, and more if it is a
      class with a bracket in its body. */
  lemma ElementCost(pattern: string, i: nat)
    requires i < |pattern| && ElementAt(pattern, i).Some?
    ensures var (e, next) := ElementAt(pattern, i).value;
            && Cost(pattern, i) >= Cost(pattern, next) + (if e.Star? then 0 else 1)
            && (e.Class? && ']' in e.body ==> Cost(pattern, i) > Cost(pattern, next) + 1)
  {
    var (e, next) := ElementAt(pattern, i).value;
    if e.Class? && ']' in e.body {
      var k :| 0 <= k < |e.body| && e.body[k] == ']';
      assert e.body == pattern[i + 1..next - 1] && pattern[i + 1 + k] == e.body[k];
      BracketCostsMore(pattern, i, next - 1, i + 1 + k);
    } else {
      SameText(pattern, i);
    }
  }

  lemma ElementLacksNul(pattern: string, i: nat, j: nat)
    requires !AtEnd(pattern, i) && ElementAt(pattern, i).Some? && i <= j < ElementAt(pattern, i).value.1
    ensures pattern[j] != NUL
  {
    if pattern[i] == '[' && i < j < ElementAt(pattern, i).value.1 - 1 {
      assert pattern[j] == ElementAt(pattern, i).value.0.body[j - i - 1];
    }
  }

  /** A NUL behind an element is behind the rest as well. */
  lemma NulIsBehind(pattern: string, i: nat)
    requires !AtEnd(pattern, i) && ElementAt(pattern, i).Some?
    ensures NulFree(pattern, i) <==> NulFree(pattern, ElementAt(pattern, i).value.1)
  {
    forall j | i <= j < ElementAt(pattern, i).value.1
      ensures pattern[j] != NUL
    {
      ElementLacksNul(pattern, i, j);
    }
  }

  lemma {:induction false} BracketsCostTokens(pattern: string, i: nat)
    requires ElementsFrom(pattern, i).Some?
    ensures Cost(pattern, i) >= Shortest(RelaxedAll(ElementsFrom(pattern, i).value))
    ensures !BracketFree(ElementsFrom(pattern, i).value) || !NulFree(pattern, i) ==>
              Cost(pattern, i) > Shortest(RelaxedAll(ElementsFrom(pattern, i).value))
    decreases |pattern| - i
  {
    if !AtEnd(pattern, i) {
      NulIsBehind(pattern, i);
      var es := ElementsFrom(pattern, i).value;
      ElementsUnfold(pattern, i);
      BracketsCostTokens(pattern, ElementAt(pattern, i).value.1);
      ElementCost(pattern, i);
      assert RelaxedAll(es)[1..] == RelaxedAll(es[1..]);
      assert BracketFree(es[1..]) && (es[0].Class? ==> ']' !in es[0].body) ==> BracketFree(es) by {
        assert forall k :: 1 <= k < |es| ==> es[k] == es[1..][k - 1];
      }
    }
  }

  /* The names that patterns are compared with. */

  /** ASCII, without NUL and slash: Git compares bytes, and one of these is one byte. */
  predicate NameCharacter(c: char) {
    0 < c as int < 128 && c != '/'
  }

  predicate NameText(value: string) {
    forall i :: 0 <= i < |value| ==> NameCharacter(value[i])
  }

  /** The plain characters of a pattern may stand in a name. */
  predicate Nameable(elements: seq<Element>) {
    forall i :: 0 <= i < |elements| && elements[i].Exactly? ==> NameCharacter(elements[i].c)
  }

  lemma {:induction false} AcceptedIsNameable(member: Membership, elements: seq<Element>, value: string)
    requires Accepts(member, elements, value) && NameText(value)
    ensures Nameable(elements)
    decreases |elements|, |value|
  {
    if elements != [] {
      if elements[0].Star? && !Accepts(member, elements[1..], value) {
        AcceptedIsNameable(member, elements, value[1..]);
      } else {
        AcceptedIsNameable(member, elements[1..], if elements[0].Star? then value else value[1..]);
        assert forall k :: 1 <= k < |elements| ==> elements[k] == elements[1..][k - 1];
      }
    }
  }

  lemma {:induction false} WitnessIsName(elements: seq<Element>)
    requires Nameable(elements)
    ensures NameText(Witness(elements))
  {
    if elements != [] {
      assert forall k :: 0 <= k < |elements[1..]| ==> elements[1..][k] == elements[k + 1];
      WitnessIsName(elements[1..]);
    }
  }

  /** The two readings of a pattern that Git can read and that can match a name. */
  predicate Agreeing(pattern: string) {
    Elements(pattern).Some? && Nameable(Elements(pattern).value) ==>
      BracketFree(Elements(pattern).value) && NulFree(pattern, 0)
  }

  /** Reading a class as any one character accepts every name Git accepts. */
  ghost predicate OverApproximates(pattern: string) {
    forall member: Membership, value: string ::
      NameText(value) && GitAccepts(member, pattern, value) ==> Matches(Tokens(pattern), value)
  }

  lemma AgreeingIsEnough(member: Membership, pattern: string, value: string)
    requires Agreeing(pattern) && NameText(value) && GitAccepts(member, pattern, value)
    ensures Matches(Tokens(pattern), value)
  {
    var es := Elements(pattern).value;
    AcceptedIsNameable(member, es, value);
    BracketFreeTokens(pattern, 0);
    RelaxingAcceptsMore(member, es, value);
  }

  lemma DisagreementIsMissed(pattern: string)
    requires !Agreeing(pattern)
    ensures var value := Witness(Elements(pattern).value);
            NameText(value) && GitAccepts(EVERYTHING, pattern, value) && !Matches(Tokens(pattern), value)
  {
    var es := Elements(pattern).value;
    WitnessIsName(es);
    WitnessIsAccepted(es);
    BracketsCostTokens(pattern, 0);
    CostIsShortest(pattern, 0);
    if Matches(Tokens(pattern), Witness(es)) {
      MatchesAreLongEnough(Tokens(pattern), Witness(es));
    }
  }

  /** Exactly when the conservative test is conservative, for every content that
      classes can have: Git rejects the pattern as a whole, or it can match no name, or it
      has no NUL and none of its classes has a `]` in its body. */
  lemma OverApproximationExactly(pattern: string)
    ensures OverApproximates(pattern) <==> Agreeing(pattern)
  {
    if Agreeing(pattern) {
      forall member: Membership, value: string | NameText(value) && GitAccepts(member, pattern, value)
        ensures Matches(Tokens(pattern), value)
      {
        AgreeingIsEnough(member, pattern, value);
      }
    } else {
      DisagreementIsMissed(pattern);
    }
  }

  lemma {:induction false} EverythingAcceptsRelaxed(elements: seq<Element>, value: string)
    requires Matches(RelaxedAll(elements), value)
    ensures Accepts(EVERYTHING, elements, value)
    decreases |elements|, |value|
  {
    if elements != [] {
      assert RelaxedAll(elements)[1..] == RelaxedAll(elements[1..]);
      if elements[0].Star? && !Matches(RelaxedAll(elements[1..]), value) {
        EverythingAcceptsRelaxed(elements, value[1..]);
      } else {
        EverythingAcceptsRelaxed(elements[1..], if elements[0].Star? then value else value[1..]);
      }
    }
  }

  /** What a pattern can accept, for some content of its classes. */
  lemma AcceptedSomehow(pattern: string, value: string)
    ensures (exists member :: GitAccepts(member, pattern, value)) <==>
            Elements(pattern).Some? && Matches(RelaxedAll(Elements(pattern).value), value)
  {
    if member :| GitAccepts(member, pattern, value) {
      RelaxingAcceptsMore(member, Elements(pattern).value, value);
    }
    if Elements(pattern).Some? && Matches(RelaxedAll(Elements(pattern).value), value) {
      EverythingAcceptsRelaxed(Elements(pattern).value, value);
      assert GitAccepts(EVERYTHING, pattern, value);
    }
  }
}
