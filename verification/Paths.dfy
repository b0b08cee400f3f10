/** Portable file names, manifest paths, and their order. */
module Paths {
  import opened Text

  type Name = string
  type Path = seq<Name>

  predicate Control(c: char) {
    c as int < 0x20 || 0x7f <= c as int < 0xa0
  }

  predicate Forbidden(c: char) {
    c == '\\' || c == '\0' || c == ':'
  }

  /** `portable_component`. */
  predicate PortableName(name: Name) {
    && name != "" && name != "." && name != ".."
    && forall i :: 0 <= i < |name| ==> name[i] != '/' && !Forbidden(name[i]) && !Control(name[i])
  }

  predicate SafeComponent(part: string) {
    && part != "" && part != "." && part != ".."
    && forall i :: 0 <= i < |part| ==> !Control(part[i])
  }

  /** `validate_manifest_path`. */
  predicate SafePath(text: string) {
    && text != ""
    && (forall i :: 0 <= i < |text| ==> !Forbidden(text[i]))
    && (forall k :: 0 <= k < |Split(text, '/')| ==> SafeComponent(Split(text, '/')[k]))
  }

  /** A character of a portable name: no control character (C0, DEL or C1), no separator
      of any system, no colon. */
  predicate PortableCharacter(c: char) {
    (0x20 <= c as int < 0x7f || 0xa0 <= c as int) && c != '/' && c != '\\' && c != ':'
  }

  lemma NamesExactly(name: Name)
    ensures PortableName(name) <==>
            name !in {"", ".", ".."} && forall i :: 0 <= i < |name| ==> PortableCharacter(name[i])
  {
  }

  predicate PortablePath(p: Path) {
    p != [] && forall k :: 0 <= k < |p| ==> PortableName(p[k])
  }

  /** The text of a path in a manifest. */
  function Printed(p: Path): string {
    Join(p, '/')
  }

  function Parsed(text: string): Path {
    Split(text, '/')
  }

  lemma {:induction false} PrintedCharacters(p: Path, i: nat)
    requires PortablePath(p) && i < |Printed(p)|
    ensures !Forbidden(Printed(p)[i])
  {
    if |p| > 1 {
      if i > |p[0]| {
        assert Printed(p)[i] == Printed(p[1..])[i - |p[0]| - 1];
        PrintedCharacters(p[1..], i - |p[0]| - 1);
      } else if i < |p[0]| {
        assert Printed(p)[i] == p[0][i];
      }
    }
  }

  /** A path of portable names is printed as a safe manifest path, and read back. */
  lemma PrintedIsSafe(p: Path)
    requires PortablePath(p)
    ensures SafePath(Printed(p)) && Parsed(Printed(p)) == p
  {
    SplitOfJoin(p, '/');
    forall i | 0 <= i < |Printed(p)|
      ensures !Forbidden(Printed(p)[i])
    {
      PrintedCharacters(p, i);
    }
    assert PortableName(p[0]);
  }

  /** A safe manifest path is a path of portable names, printed. */
  lemma ParsedIsPortable(text: string)
    requires SafePath(text)
    ensures PortablePath(Parsed(text)) && Printed(Parsed(text)) == text
  {
    JoinOfSplit(text, '/');
    forall k | 0 <= k < |Parsed(text)|
      ensures PortableName(Parsed(text)[k])
    {
      SplitPartsLackSeparator(text, '/', k);
      assert SafeComponent(Parsed(text)[k]);
      forall i | 0 <= i < |Parsed(text)[k]|
        ensures !Forbidden(Parsed(text)[k][i])
      {
        PartCharacters(text, k, i);
      }
    }
  }

  lemma {:induction false} PartCharacters(text: string, k: nat, i: nat)
    requires k < |Split(text, '/')| && i < |Split(text, '/')[k]|
    ensures Split(text, '/')[k][i] in text
  {
    if text != "" {
      var rest := Split(text[1..], '/');
      if text[0] == '/' {
        PartCharacters(text[1..], k - 1, i);
      } else if k > 0 {
        PartCharacters(text[1..], k, i);
      } else if i > 0 {
        PartCharacters(text[1..], 0, i - 1);
      }
    }
  }

  /** And so the check of manifest paths, in the same terms. */
  lemma TextsExactly(text: string)
    ensures SafePath(text) <==>
            forall k :: 0 <= k < |Split(text, '/')| ==>
              var part := Split(text, '/')[k];
              part !in {"", ".", ".."} && forall i :: 0 <= i < |part| ==> PortableCharacter(part[i])
  {
    var parts := Split(text, '/');
    forall k | 0 <= k < |parts|
      ensures PortableName(parts[k]) <==>
              parts[k] !in {"", ".", ".."} && forall i :: 0 <= i < |parts[k]| ==> PortableCharacter(parts[k][i])
    {
      NamesExactly(parts[k]);
    }
    if SafePath(text) {
      ParsedIsPortable(text);
    }
    if forall k :: 0 <= k < |parts| ==> PortableName(parts[k]) {
      PrintedIsSafe(parts);
      JoinOfSplit(text, '/');
    }
  }

  /** Lexicographic order of strings. */
  predicate Less(a: string, b: string) {
    b != "" && (a == "" || a[0] < b[0] || (a[0] == b[0] && Less(a[1..], b[1..])))
  }

  lemma {:induction false} LessIsStrict(a: string)
    ensures !Less(a, a)
  {
    if a != "" {
      LessIsStrict(a[1..]);
    }
  }

  lemma {:induction false} LessIsTransitive(a: string, b: string, c: string)
    requires Less(a, b) && Less(b, c)
    ensures Less(a, c)
  {
    if a != "" && a[0] == b[0] == c[0] {
      LessIsTransitive(a[1..], b[1..], c[1..]);
    }
  }

  lemma NeverBothLess(a: string, b: string)
    requires Less(a, b)
    ensures !Less(b, a)
  {
    LessIsStrict(a);
    if Less(b, a) {
      LessIsTransitive(a, b, a);
    }
  }

  lemma {:induction false} LessIsTotal(a: string, b: string)
    ensures Less(a, b) || a == b || Less(b, a)
  {
    if a != "" && b != "" && a[0] == b[0] {
      LessIsTotal(a[1..], b[1..]);
      assert a == [a[0]] + a[1..] && b == [b[0]] + b[1..];
    }
  }
}
