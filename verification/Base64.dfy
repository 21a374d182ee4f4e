/** The base 64 encoding of section 4 of RFC 4648. */
module Base64 {
  import opened Common

  type Sextet = n: nat | n < 64

  /** Table 1 of RFC 4648. */
  function Letter(n: Sextet): char {
    if n < 26 then 'A' + n as char
    else if n < 52 then 'a' + (n - 26) as char
    else if n < 62 then '0' + (n - 52) as char
    else if n == 62 then '+' else '/'
  }

  function Value(c: char): Option<Sextet> {
    if 'A' <= c <= 'Z' then Some(c as int - 'A' as int)
    else if 'a' <= c <= 'z' then Some(26 + c as int - 'a' as int)
    else if '0' <= c <= '9' then Some(52 + c as int - '0' as int)
    else if c == '+' then Some(62)
    else if c == '/' then Some(63)
    else None
  }

  lemma LetterValue(n: Sextet)
    ensures Value(Letter(n)) == Some(n) && Letter(n) != '='
  {}

  function Encode(data: bytes): string {
    if |data| == 0 then []
    else if |data| == 1 then
      [Letter(data[0] / 4), Letter((data[0] % 4) * 16), '=', '=']
    else if |data| == 2 then
      [Letter(data[0] / 4), Letter((data[0] % 4) * 16 + data[1] / 16), Letter((data[1] % 16) * 4), '=']
    else
      [Letter(data[0] / 4), Letter((data[0] % 4) * 16 + data[1] / 16),
       Letter((data[1] % 16) * 4 + data[2] / 64), Letter(data[2] % 64)]
      + Encode(data[3..])
  }

  /** The bytes of one group of four characters; padding is only allowed in the last group. */
  function DecodeGroup(s: string, last: bool): Option<bytes>
    requires |s| == 4
  {
    var a, b := Value(s[0]), Value(s[1]);
    if a == None || b == None then None
    else if last && s[2] == '=' && s[3] == '=' then
      Some([a.value * 4 + b.value / 16])
    else
      var c := Value(s[2]);
      if c == None then None
      else if last && s[3] == '=' then
        Some([a.value * 4 + b.value / 16, (b.value % 16) * 16 + c.value / 4])
      else
        var d := Value(s[3]);
        if d == None then None
        else Some([a.value * 4 + b.value / 16, (b.value % 16) * 16 + c.value / 4, (c.value % 4) * 64 + d.value])
  }

  /** `b64decode(s, validate=True)`: groups of four letters of the alphabet, padded at the end. */
  function Decode(s: string): Option<bytes> {
    if s == [] then Some([])
    else if |s| < 4 then None
    else
      var first := DecodeGroup(s[..4], |s| == 4);
      if first == None then None
      else
        var rest := Decode(s[4..]);
        if rest == None then None else Some(first.value + rest.value)
  }

  lemma GroupOf3(x: byte, y: byte, z: byte, last: bool)
    ensures DecodeGroup([Letter(x / 4), Letter((x % 4) * 16 + y / 16), Letter((y % 16) * 4 + z / 64), Letter(z % 64)], last)
         == Some([x, y, z])
  {
    hide Letter, Value;
    LetterValue(x / 4);
    LetterValue((x % 4) * 16 + y / 16);
    LetterValue((y % 16) * 4 + z / 64);
    LetterValue(z % 64);
    Sextets(x, y, z);
  }

  lemma Sextets(x: byte, y: byte, z: byte)
    ensures var a, b, c, d := x / 4, (x % 4) * 16 + y / 16, (y % 16) * 4 + z / 64, z % 64;
            && a * 4 + b / 16 == x && (b % 16) * 16 + c / 4 == y && (c % 4) * 64 + d == z
  {
    assert ((x % 4) * 16 + y / 16) / 16 == x % 4 && ((x % 4) * 16 + y / 16) % 16 == y / 16;
    assert ((y % 16) * 4 + z / 64) / 4 == y % 16 && ((y % 16) * 4 + z / 64) % 4 == z / 64;
  }

  lemma GroupOf2(x: byte, y: byte)
    ensures DecodeGroup([Letter(x / 4), Letter((x % 4) * 16 + y / 16), Letter((y % 16) * 4), '='], true) == Some([x, y])
  {
    hide Letter, Value;
    LetterValue(x / 4);
    LetterValue((x % 4) * 16 + y / 16);
    LetterValue((y % 16) * 4);
    Sextets(x, y, 0);
  }

  lemma GroupOf1(x: byte)
    ensures DecodeGroup([Letter(x / 4), Letter((x % 4) * 16), '=', '='], true) == Some([x])
  {
    hide Letter, Value;
    LetterValue(x / 4);
    LetterValue((x % 4) * 16);
    Sextets(x, 0, 0);
  }

  /** Decoding reverses encoding, and the encoded text is a whole number of four-character groups. */
  lemma {:induction false} EncodeDecodes(data: bytes)
    ensures Decode(Encode(data)) == Some(data)
    ensures |Encode(data)| == 4 * ((|data| + 2) / 3)
  {
    hide Letter, DecodeGroup;
    var s := Encode(data);
    if |data| == 0 {
    } else if |data| == 1 {
      GroupOf1(data[0]);
      assert s[..4] == s && s[4..] == [] && [data[0]] + [] == data;
    } else if |data| == 2 {
      GroupOf2(data[0], data[1]);
      assert s[..4] == s && s[4..] == [] && [data[0], data[1]] + [] == data;
    } else {
      var rest := data[3..];
      EncodeDecodes(rest);
      GroupOf3(data[0], data[1], data[2], |s| == 4);
      assert s[4..] == Encode(rest);
      assert [data[0], data[1], data[2]] + rest == data;
    }
  }

  /** The alphabet runs from A to Z, from a to z and from 0 to 9, and ends in + and /. */
  lemma AlphabetIs(n: Sextet)
    ensures Letter(0) == 'A' && Letter(26) == 'a' && Letter(52) == '0' && Letter(62) == '+' && Letter(63) == '/'
    ensures n < 61 && n != 25 && n != 51 ==> Letter(n + 1) as int == Letter(n) as int + 1
  {}

  /** The bits of a group are those of its bytes, first byte first. */
  lemma GroupBits(data: bytes)
    requires |data| == 3
    ensures |Encode(data)| == 4
    ensures forall i :: 0 <= i < 4 ==> Value(Encode(data)[i]).Some?
    ensures (data[0] as int) * 0x1_0000 + (data[1] as int) * 0x100 + data[2] as int
         == Value(Encode(data)[0]).value * 0x4_0000 + Value(Encode(data)[1]).value * 0x1000
            + Value(Encode(data)[2]).value * 0x40 + Value(Encode(data)[3]).value
  {
    hide Letter, Value;
    var x, y, z := data[0], data[1], data[2];
    LetterValue(x / 4);
    LetterValue((x % 4) * 16 + y / 16);
    LetterValue((y % 16) * 4 + z / 64);
    LetterValue(z % 64);
    assert Encode(data[3..]) == [];
    var s := Encode(data);
    assert s == [Letter(x / 4), Letter((x % 4) * 16 + y / 16), Letter((y % 16) * 4 + z / 64), Letter(z % 64)];
  }

  /** The test vectors of section 10 of RFC 4648 for one, two and three bytes: f, fo and foo. */
  lemma TestVectors()
    ensures Encode([]) == "" && Encode([102]) == "Zg==" && Encode([102, 111]) == "Zm8="
    ensures Encode([102, 111, 111]) == "Zm9v"
  {
    assert Encode([102, 111, 111][3..]) == [];
  }

  /** What is decoded has the letters of the alphabet, in groups of four, with at most two signs of padding at its end. */
  lemma {:induction false} DecodesLetters(s: string, i: nat)
    requires Decode(s).Some? && i < |s|
    ensures |s| % 4 == 0
    ensures s[i] == '=' ==> i == |s| - 1 || (i == |s| - 2 && s[i + 1] == '=')
    ensures s[i] != '=' ==> exists n: Sextet :: Letter(n) == s[i]
    decreases |s|
  {
    if i < 4 {
      if s[i] != '=' {
        ValueLetter(s[i]);
      }
      if |s| > 4 {
        DecodesLetters(s[4..], 0);
      }
    } else {
      DecodesLetters(s[4..], i - 4);
      assert s[4..][i - 4] == s[i];
    }
  }

  lemma ValueLetter(c: char)
    ensures Value(c).Some? ==> Letter(Value(c).value) == c
  {}
}
