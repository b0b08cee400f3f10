/** Splitting and joining of slash-separated text. */
module Text {

  /** `str::split(separator)`: always at least one part. */
  function Split(s: string, separator: char): (parts: seq<string>)
    ensures |parts| >= 1
  {
    if s == "" then [""]
    else if s[0] == separator then [""] + Split(s[1..], separator)
    else
      var rest := Split(s[1..], separator);
      [[s[0]] + rest[0]] + rest[1..]
  }

  function Join(parts: seq<string>, separator: char): string {
    if parts == [] then ""
    else if |parts| == 1 then parts[0]
    else parts[0] + [separator] + Join(parts[1..], separator)
  }

  lemma {:induction false} JoinOfSplit(s: string, separator: char)
    ensures Join(Split(s, separator), separator) == s
  {
    if s == "" {
    } else {
      JoinOfSplit(s[1..], separator);
      var rest := Split(s[1..], separator);
      if s[0] == separator {
        assert Split(s, separator)[1..] == rest;
        assert [s[0]] + s[1..] == s;
      } else {
        assert Split(s, separator)[1..] == rest[1..];
        assert Join(Split(s, separator), separator) == [s[0]] + Join(rest, separator);
      }
    }
  }

  lemma {:induction false} SplitOfSeparated(head: string, tail: string, separator: char)
    requires separator !in head
    ensures Split(head + [separator] + tail, separator) == [head] + Split(tail, separator)
    ensures Split(head, separator) == [head]
  {
    if head == "" {
      assert head + [separator] + tail == [separator] + tail;
    } else {
      SplitOfSeparated(head[1..], tail, separator);
      assert (head + [separator] + tail)[1..] == head[1..] + [separator] + tail;
      assert [head[0]] + head[1..] == head;
    }
  }

  /** Joining is undone by splitting when no part contains the separator. */
  lemma {:induction false} SplitOfJoin(parts: seq<string>, separator: char)
    requires parts != [] && forall i :: 0 <= i < |parts| ==> separator !in parts[i]
    ensures Split(Join(parts, separator), separator) == parts
  {
    if |parts| == 1 {
      SplitOfSeparated(parts[0], "", separator);
      assert parts == [parts[0]];
    } else {
      var rest := parts[1..];
      assert forall i :: 0 <= i < |rest| ==> rest[i] == parts[i + 1];
      SplitOfJoin(rest, separator);
      SplitOfSeparated(parts[0], Join(rest, separator), separator);
      assert parts == [parts[0]] + rest;
    }
  }

  lemma {:induction false} SplitPartsLackSeparator(s: string, separator: char, i: nat)
    requires i < |Split(s, separator)|
    ensures separator !in Split(s, separator)[i]
  {
    if s != "" {
      var rest := Split(s[1..], separator);
      if s[0] == separator {
        if i > 0 {
          SplitPartsLackSeparator(s[1..], separator, i - 1);
        }
      } else {
        SplitPartsLackSeparator(s[1..], separator, i);
      }
    }
  }
}
