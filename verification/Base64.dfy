/** Base64 as in section 4 of RFC 4648, padded, with the canonical form section 3.5 asks for. */
module Base64 {
  import opened Common

  type Sextet = v: int | 0 <= v < 64

  function Char(v: Sextet): char {
    if v < 26 then (65 + v) as char
    else if v < 52 then (71 + v) as char
    else if v < 62 then (v - 4) as char
    else if v == 62 then '+' else '/'
  }

  function Value(c: char): Option<Sextet> {
    if 'A' <= c <= 'Z' then Some(c as int - 65)
    else if 'a' <= c <= 'z' then Some(c as int - 71)
    else if '0' <= c <= '9' then Some(c as int + 4)
    else if c == '+' then Some(62)
    else if c == '/' then Some(63)
    else None
  }

  /** The alphabet of table 1 in section 4. */
  lemma AlphabetIs(v: Sextet)
    ensures Char(v) == if v < 26 then "ABCDEFGHIJKLMNOPQRSTUVWXYZ"[v]
                       else if v < 52 then "abcdefghijklmnopqrstuvwxyz"[v - 26]
                       else "0123456789+/"[v - 52]
  {
  }

  lemma ValueOfChar(v: Sextet)
    ensures Value(Char(v)) == Some(v) && Char(v) != '='
  {
  }

  lemma CharOfValue(c: char)
    ensures Value(c).Some? ==> Char(Value(c).value) == c && c != '='
  {
  }

  // Three bytes are four sextets.
  function First(x: Byte): Sextet { x / 4 }
  function Second(x: Byte, y: Byte): Sextet { x % 4 * 16 + y / 16 }
  function Third(y: Byte, z: Byte): Sextet { y % 16 * 4 + z / 64 }
  function Fourth(z: Byte): Sextet { z % 64 }

  function High(v0: Sextet, v1: Sextet): Byte { v0 * 4 + v1 / 16 }
  function Middle(v1: Sextet, v2: Sextet): Byte { v1 % 16 * 16 + v2 / 4 }
  function Low(v2: Sextet, v3: Sextet): Byte { v2 % 4 * 64 + v3 }

  lemma BytesOfSextets(x: Byte, y: Byte, z: Byte)
    ensures High(First(x), Second(x, y)) == x
    ensures Middle(Second(x, y), Third(y, z)) == y
    ensures Low(Third(y, z), Fourth(z)) == z
    ensures Second(x, 0) % 16 == 0 && Third(y, 0) % 4 == 0
  {
  }

  lemma SextetsOfBytes(v0: Sextet, v1: Sextet, v2: Sextet, v3: Sextet)
    ensures First(High(v0, v1)) == v0
    ensures Second(High(v0, v1), Middle(v1, v2)) == v1
    ensures Third(Middle(v1, v2), Low(v2, v3)) == v2
    ensures Fourth(Low(v2, v3)) == v3
    ensures v1 % 16 == 0 ==> Second(High(v0, v1), 0) == v1
    ensures v2 % 4 == 0 ==> Third(Middle(v1, v2), 0) == v2
  {
  }

  function Encode(b: Text): string {
    if |b| == 0 then ""
    else if |b| == 1 then [Char(First(b[0])), Char(Second(b[0], 0)), '=', '=']
    else if |b| == 2 then [Char(First(b[0])), Char(Second(b[0], b[1])), Char(Third(b[1], 0)), '=']
    else
      [Char(First(b[0])), Char(Second(b[0], b[1])), Char(Third(b[1], b[2])), Char(Fourth(b[2]))] + Encode(b[3..])
  }

  function Decode(s: string): Option<Text> {
    if |s| == 0 then Some([])
    else if |s| < 4 then None
    else
      var v0, v1, v2, v3 := Value(s[0]), Value(s[1]), Value(s[2]), Value(s[3]);
      if v0.None? || v1.None? then None
      else if |s| == 4 && s[2] == '=' && s[3] == '=' then
        if v1.value % 16 == 0 then Some([High(v0.value, v1.value)]) else None
      else if v2.None? then None
      else if |s| == 4 && s[3] == '=' then
        if v2.value % 4 == 0 then Some([High(v0.value, v1.value), Middle(v1.value, v2.value)]) else None
      else if v3.None? then None
      else
        var rest := Decode(s[4..]);
        if rest.None? then None
        else Some([High(v0.value, v1.value), Middle(v1.value, v2.value), Low(v2.value, v3.value)] + rest.value)
  }

  lemma Quad(s: string, v0: Sextet, v1: Sextet, v2: Sextet, v3: Sextet)
    requires |s| >= 4 && s[..4] == [Char(v0), Char(v1), Char(v2), Char(v3)]
    ensures Decode(s).Some? <==> Decode(s[4..]).Some?
    ensures Decode(s).Some? ==> Decode(s).value == [High(v0, v1), Middle(v1, v2), Low(v2, v3)] + Decode(s[4..]).value
  {
    assert s[0] == s[..4][0] && s[1] == s[..4][1] && s[2] == s[..4][2] && s[3] == s[..4][3];
    ValueOfChar(v0);
    ValueOfChar(v1);
    ValueOfChar(v2);
    ValueOfChar(v3);
  }

  lemma LastOne(s: string, v0: Sextet, v1: Sextet, b: Text)
    requires s == [Char(v0), Char(v1), '=', '='] && v1 % 16 == 0
    requires |b| == 1 && b[0] == High(v0, v1)
    ensures Decode(s) == Some(b)
  {
    ValueOfChar(v0);
    ValueOfChar(v1);
    assert Value(s[0]) == Some(v0) && Value(s[1]) == Some(v1);
    assert b == [High(v0, v1)];
  }

  lemma LastTwo(s: string, v0: Sextet, v1: Sextet, v2: Sextet, b: Text)
    requires s == [Char(v0), Char(v1), Char(v2), '='] && v2 % 4 == 0
    requires |b| == 2 && b[0] == High(v0, v1) && b[1] == Middle(v1, v2)
    ensures Decode(s) == Some(b)
  {
    ValueOfChar(v0);
    ValueOfChar(v1);
    ValueOfChar(v2);
    assert Value(s[0]) == Some(v0) && Value(s[1]) == Some(v1) && Value(s[2]) == Some(v2);
    assert b == [High(v0, v1), Middle(v1, v2)];
  }

  lemma Triple(s: string, v0: Sextet, v1: Sextet, v2: Sextet, v3: Sextet, b: Text)
    requires |s| >= 4 && s[..4] == [Char(v0), Char(v1), Char(v2), Char(v3)]
    requires |b| > 2 && b[0] == High(v0, v1) && b[1] == Middle(v1, v2) && b[2] == Low(v2, v3)
    requires Decode(s[4..]) == Some(b[3..])
    ensures Decode(s) == Some(b)
  {
    Quad(s, v0, v1, v2, v3);
    assert b == [High(v0, v1), Middle(v1, v2), Low(v2, v3)] + b[3..];
  }

  lemma {:induction false} DecodeOfEncode(b: Text)
    ensures Decode(Encode(b)) == Some(b)
    decreases |b|
  {
    hide Char, Value, First, Second, Third, Fourth, High, Middle, Low;
    var s := Encode(b);
    if |b| == 1 {
      BytesOfSextets(b[0], 0, 0);
      LastOne(s, First(b[0]), Second(b[0], 0), b);
    } else if |b| == 2 {
      BytesOfSextets(b[0], b[1], 0);
      LastTwo(s, First(b[0]), Second(b[0], b[1]), Third(b[1], 0), b);
    } else if |b| > 2 {
      BytesOfSextets(b[0], b[1], b[2]);
      DecodeOfEncode(b[3..]);
      assert s[4..] == Encode(b[3..]);
      Triple(s, First(b[0]), Second(b[0], b[1]), Third(b[1], b[2]), Fourth(b[2]), b);
    }
  }

  lemma {:induction false} EncodeOfDecode(s: string)
    ensures Decode(s).Some? ==> Encode(Decode(s).value) == s
    decreases |s|
  {
    hide Char, Value, First, Second, Third, Fourth, High, Middle, Low;
    if Decode(s).Some? && |s| > 0 {
      CharOfValue(s[0]);
      CharOfValue(s[1]);
      CharOfValue(s[2]);
      CharOfValue(s[3]);
      var v0, v1 := Value(s[0]).value, Value(s[1]).value;
      if |s| == 4 && s[3] == '=' {
        assert s == [s[0], s[1], s[2], s[3]];
        SextetsOfBytes(v0, v1, if s[2] == '=' then 0 else Value(s[2]).value, 0);
      } else {
        var v2, v3 := Value(s[2]).value, Value(s[3]).value;
        SextetsOfBytes(v0, v1, v2, v3);
        EncodeOfDecode(s[4..]);
        var rest := Decode(s[4..]).value;
        var b := [High(v0, v1), Middle(v1, v2), Low(v2, v3)] + rest;
        assert b[3..] == rest;
        assert s == [s[0], s[1], s[2], s[3]] + s[4..];
      }
    }
  }

  lemma Digits(v0: Sextet, v1: Sextet, v2: Sextet, v3: Sextet, n: int)
    requires n == v0 * 262144 + v1 * 4096 + v2 * 64 + v3
    ensures v0 == n / 262144 && v1 == n / 4096 % 64 && v2 == n / 64 % 64 && v3 == n % 64
  {
    assert n / 64 == v0 * 4096 + v1 * 64 + v2;
    assert n / 4096 == v0 * 64 + v1;
  }

  function At(b: Text, i: nat): int {
    if i < |b| then b[i] else 0
  }

  /** The 24 bits of a group of three bytes, the last group filled up with zeros. */
  function Bits(b: Text, i: nat): int {
    At(b, 3 * i) * 65536 + At(b, 3 * i + 1) * 256 + At(b, 3 * i + 2)
  }

  lemma FirstGroup(b: Text)
    requires |b| > 0
    ensures
      var n := Bits(b, 0);
      && 0 <= n < 16777216 && 4 <= |Encode(b)|
      && Encode(b)[..4] == [Char(n / 262144), Char(n / 4096 % 64), if 1 < |b| then Char(n / 64 % 64) else '=',
                            if 2 < |b| then Char(n % 64) else '=']
  {
    hide Char;
    var y: Byte, z: Byte := At(b, 1), At(b, 2);
    Digits(First(b[0]), Second(b[0], y), Third(y, z), Fourth(z), Bits(b, 0));
  }

  lemma Skip(b: Text, i: nat)
    requires |b| > 2
    ensures At(b[3..], i) == At(b, 3 + i)
  {
  }

  lemma NextBits(b: Text, i: nat)
    requires |b| > 2
    ensures Bits(b[3..], i) == Bits(b, i + 1)
  {
    hide At;
    Skip(b, 3 * i);
    Skip(b, 3 * i + 1);
    Skip(b, 3 * i + 2);
  }

  lemma EncodeStep(b: Text)
    requires |b| > 2
    ensures |Encode(b)| >= 4 && Encode(b) == Encode(b)[..4] + Encode(b[3..])
  {
    hide Char, First, Second, Third, Fourth;
    var four := [Char(First(b[0])), Char(Second(b[0], b[1])), Char(Third(b[1], b[2])), Char(Fourth(b[2]))];
    assert Encode(b) == four + Encode(b[3..]);
    assert (four + Encode(b[3..]))[..4] == four;
  }

  lemma SliceAfter(head: string, rest: string, k: nat)
    requires |head| == 4 && k + 4 <= |rest|
    ensures (head + rest)[4 + k..4 + k + 4] == rest[k..k + 4]
  {
  }

  /** Each group is written as four characters of six bits, the first bits first; a character that
      would hold nothing but filling is "=". */
  lemma {:induction false} Layout(b: Text, i: nat)
    requires 3 * i < |b|
    ensures
      var n := Bits(b, i);
      && 0 <= n < 16777216 && 4 * i + 4 <= |Encode(b)|
      && Encode(b)[4 * i..4 * i + 4] == [Char(n / 262144), Char(n / 4096 % 64),
                                         if 3 * i + 1 < |b| then Char(n / 64 % 64) else '=',
                                         if 3 * i + 2 < |b| then Char(n % 64) else '=']
    decreases |b|
  {
    hide Char, Encode, Bits;
    if i == 0 {
      FirstGroup(b);
    } else {
      Layout(b[3..], i - 1);
      NextBits(b, i - 1);
      EncodeStep(b);
      SliceAfter(Encode(b)[..4], Encode(b[3..]), 4 * (i - 1));
    }
  }

  /** The decoder accepts exactly the encoder's outputs. */
  lemma DecodeIff(s: string, b: Text)
    ensures Decode(s) == Some(b) <==> s == Encode(b)
  {
    DecodeOfEncode(b);
    EncodeOfDecode(s);
  }

  lemma {:induction false} EncodedLength(b: Text)
    ensures |Encode(b)| == (|b| + 2) / 3 * 4 && |b| <= |Encode(b)|
    decreases |b|
  {
    hide Char, First, Second, Third, Fourth;
    if |b| > 2 {
      EncodedLength(b[3..]);
    }
  }
}
