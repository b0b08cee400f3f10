/** Unpadded base64url (section 5 of RFC 4648): bytes are regrouped into six-bit
    values, which are written as letters. A final short group has zero padding bits. */
module Base64Url {
  import opened Common

  type Sextet = n: int | 0 <= n < 64

  function Letter(n: Sextet): char {
    if n < 26 then ('A' as int + n) as char
    else if n < 52 then ('a' as int + (n - 26)) as char
    else if n < 62 then ('0' as int + (n - 52)) as char
    else if n == 62 then '-'
    else '_'
  }

  function ValueOf(c: char): Option<Sextet> {
    if 'A' <= c <= 'Z' then Some(c as int - 'A' as int)
    else if 'a' <= c <= 'z' then Some(c as int - 'a' as int + 26)
    else if '0' <= c <= '9' then Some(c as int - '0' as int + 52)
    else if c == '-' then Some(62)
    else if c == '_' then Some(63)
    else None
  }

  lemma LettersInvert(n: Sextet)
    ensures ValueOf(Letter(n)) == Some(n)
  {
  }

  function Letters(values: seq<Sextet>): (text: string)
    ensures |text| == |values|
  {
    if values == [] then [] else [Letter(values[0])] + Letters(values[1..])
  }

  function Values(text: string): Option<seq<Sextet>> {
    if text == [] then Some([])
    else
      var first, rest := ValueOf(text[0]), Values(text[1..]);
      if first.None? || rest.None? then None else Some([first.value] + rest.value)
  }

  lemma {:induction false} ValuesOfLetters(values: seq<Sextet>)
    ensures Values(Letters(values)) == Some(values)
  {
    if values != [] {
      LettersInvert(values[0]);
      ValuesOfLetters(values[1..]);
      assert Letters(values)[1..] == Letters(values[1..]);
      assert values == [values[0]] + values[1..];
    }
  }

  function Group(a: Byte, b: Byte, c: Byte): seq<Sextet> {
    [a / 4, a % 4 * 16 + b / 16, b % 16 * 4 + c / 64, c % 64]
  }

  function Ungroup(w: Sextet, x: Sextet, y: Sextet, z: Sextet): seq<Byte> {
    [w * 4 + x / 16, x % 16 * 16 + y / 4, y % 4 * 64 + z]
  }

  function Regroup(bytes: seq<Byte>): seq<Sextet> {
    if |bytes| == 0 then []
    else if |bytes| == 1 then Group(bytes[0], 0, 0)[..2]
    else if |bytes| == 2 then Group(bytes[0], bytes[1], 0)[..3]
    else Group(bytes[0], bytes[1], bytes[2]) + Regroup(bytes[3..])
  }

  /** Rejects a lone trailing letter and non-zero padding bits. */
  function Bytes(values: seq<Sextet>): Option<seq<Byte>> {
    if |values| == 0 then Some([])
    else if |values| == 1 then None
    else if |values| == 2 then
      if values[1] % 16 == 0 then Some(Ungroup(values[0], values[1], 0, 0)[..1]) else None
    else if |values| == 3 then
      if values[2] % 4 == 0 then Some(Ungroup(values[0], values[1], values[2], 0)[..2]) else None
    else
      var rest := Bytes(values[4..]);
      if rest.None? then None else Some(Ungroup(values[0], values[1], values[2], values[3]) + rest.value)
  }

  lemma GroupsInvert(a: Byte, b: Byte, c: Byte)
    ensures var g := Group(a, b, c); Ungroup(g[0], g[1], g[2], g[3]) == [a, b, c]
  {
  }

  lemma {:induction false} BytesOfRegroup(bytes: seq<Byte>)
    ensures Bytes(Regroup(bytes)) == Some(bytes)
  {
    if |bytes| == 1 {
      GroupsInvert(bytes[0], 0, 0);
      assert bytes == [bytes[0], 0, 0][..1];
    } else if |bytes| == 2 {
      GroupsInvert(bytes[0], bytes[1], 0);
      assert bytes == [bytes[0], bytes[1], 0][..2];
    } else if |bytes| > 2 {
      GroupsInvert(bytes[0], bytes[1], bytes[2]);
      BytesOfRegroup(bytes[3..]);
      assert Regroup(bytes)[4..] == Regroup(bytes[3..]);
      assert bytes == [bytes[0], bytes[1], bytes[2]] + bytes[3..];
    }
  }

  function Encode(bytes: seq<Byte>): string {
    Letters(Regroup(bytes))
  }

  function Decode(text: string): Option<seq<Byte>> {
    match Values(text)
    case None => None
    case Some(values) => Bytes(values)
  }

  lemma DecodeOfEncode(bytes: seq<Byte>)
    ensures Decode(Encode(bytes)) == Some(bytes)
  {
    ValuesOfLetters(Regroup(bytes));
    BytesOfRegroup(bytes);
  }

  lemma {:induction false} EncodedLength(bytes: seq<Byte>)
    ensures |Encode(bytes)| == (4 * |bytes| + 2) / 3
  {
    if |bytes| > 2 {
      EncodedLength(bytes[3..]);
    }
  }

  /* And the other way round: only what was encoded is decoded. */

  lemma ValuesInvert(c: char)
    ensures ValueOf(c).Some? ==> Letter(ValueOf(c).value) == c
  {
  }

  lemma {:induction false} LettersOfValues(text: string)
    requires Values(text).Some?
    ensures Letters(Values(text).value) == text
  {
    if text != [] {
      ValuesInvert(text[0]);
      LettersOfValues(text[1..]);
      var values := Values(text).value;
      assert values[1..] == Values(text[1..]).value;
      assert text == [text[0]] + text[1..];
    }
  }

  lemma UpperBits(w: Sextet, x: Sextet)
    ensures (w * 4 + x / 16) / 4 == w && (w * 4 + x / 16) % 4 == x / 16
  {
  }

  lemma MiddleBits(x: Sextet, y: Sextet)
    ensures (x % 16 * 16 + y / 4) / 16 == x % 16 && (x % 16 * 16 + y / 4) % 16 == y / 4
  {
  }

  lemma LowerBits(y: Sextet, z: Sextet)
    ensures (y % 4 * 64 + z) / 64 == y % 4 && (y % 4 * 64 + z) % 64 == z
  {
  }

  lemma UngroupsInvert(w: Sextet, x: Sextet, y: Sextet, z: Sextet)
    ensures var b := Ungroup(w, x, y, z); Group(b[0], b[1], b[2]) == [w, x, y, z]
  {
    UpperBits(w, x);
    MiddleBits(x, y);
    LowerBits(y, z);
    assert x / 16 * 16 + x % 16 == x && y / 4 * 4 + y % 4 == y;
  }

  lemma {:induction false} RegroupOfBytes(values: seq<Sextet>)
    requires Bytes(values).Some?
    ensures Regroup(Bytes(values).value) == values
  {
    if |values| == 2 {
      UngroupsInvert(values[0], values[1], 0, 0);
      assert values == [values[0], values[1]];
    } else if |values| == 3 {
      UngroupsInvert(values[0], values[1], values[2], 0);
      assert values == [values[0], values[1], values[2]];
    } else if |values| > 3 {
      UngroupsInvert(values[0], values[1], values[2], values[3]);
      RegroupOfBytes(values[4..]);
      var bytes := Bytes(values).value;
      assert bytes[3..] == Bytes(values[4..]).value;
      assert values == [values[0], values[1], values[2], values[3]] + values[4..];
    }
  }

  /** Every text that decodes is the encoding of what it decodes to. */
  lemma EncodeOfDecode(text: string)
    requires Decode(text).Some?
    ensures Encode(Decode(text).value) == text
  {
    LettersOfValues(text);
    RegroupOfBytes(Values(text).value);
  }
}
