/** Base 64 encoding as defined in section 4 of RFC 4648 (the alphabet
    A-Z a-z 0-9 + /, with '=' padding), which `base64.b64encode` produces
    for attachment contents. The decoder exists to state what the encoding
    preserves. */
module Base64 {
  import opened Values

  /** The character of the base 64 alphabet with value `i`. */
  function CharOf(i: int): char
    requires 0 <= i < 64
  {
    if i < 26 then ('A' as int + i) as char
    else if i < 52 then ('a' as int + (i - 26)) as char
    else if i < 62 then ('0' as int + (i - 52)) as char
    else if i == 62 then '+'
    else '/'
  }

  /** The value of a character of the alphabet; `None` for any other character, '=' included. */
  function ValueOf(c: char): Option<int>
  {
    if 'A' <= c <= 'Z' then Some(c as int - 'A' as int)
    else if 'a' <= c <= 'z' then Some(c as int - 'a' as int + 26)
    else if '0' <= c <= '9' then Some(c as int - '0' as int + 52)
    else if c == '+' then Some(62)
    else if c == '/' then Some(63)
    else None
  }

  predicate InAlphabet(c: char) {
    ValueOf(c).Some?
  }

  lemma ValueOfCharOf(i: int)
    requires 0 <= i < 64
    ensures ValueOf(CharOf(i)) == Some(i)
  {
  }

  /** Characters the encoder may emit: the alphabet and the pad, all 7-bit ASCII. */
  predicate EncodedChar(c: char) {
    (InAlphabet(c) || c == '=') && c as int < 128
  }

  /** The four characters for three input octets. */
  function EncodeGroup(a: byte, b: byte, c: byte): (r: string)
    ensures |r| == 4 && forall i :: 0 <= i < 4 ==> EncodedChar(r[i]) && r[i] != '='
  {
    var x, y, z := a as int, b as int, c as int;
    [CharOf(x / 4), CharOf((x % 4) * 16 + y / 16), CharOf((y % 16) * 4 + z / 64), CharOf(z % 64)]
  }

  /** `base64.b64encode(s).decode('ascii')`. */
  function Encode(s: seq<byte>): (r: string)
    ensures |r| == 4 * ((|s| + 2) / 3)
    ensures forall i :: 0 <= i < |r| ==> EncodedChar(r[i])
    decreases |s|
  {
    if |s| == 0 then ""
    else if |s| == 1 then
      var x := s[0] as int;
      [CharOf(x / 4), CharOf((x % 4) * 16), '=', '=']
    else if |s| == 2 then
      var x, y := s[0] as int, s[1] as int;
      [CharOf(x / 4), CharOf((x % 4) * 16 + y / 16), CharOf((y % 16) * 4), '=']
    else
      assert (|s| + 2) / 3 == (|s| - 1) / 3 + 1;
      EncodeGroup(s[0], s[1], s[2]) + Encode(s[3..])
  }

  /** The test vectors of section 10 of RFC 4648 up to one group: "",
      "f", "fo" and "foo" as bytes. */
  lemma RfcTestVectors()
    ensures Encode([]) == ""
    ensures Encode([102]) == "Zg=="
    ensures Encode([102, 111]) == "Zm8="
    ensures Encode([102, 111, 111]) == "Zm9v"
  {
  }

  /** A whole first group is encoded on its own. */
  lemma EncodeFirstGroup(s: seq<byte>, t: seq<byte>)
    requires |s| == 3
    ensures Encode(s + t) == Encode(s) + Encode(t)
  {
    assert (s + t)[3..] == t;
    assert s[3..] == [];
    assert (s + t)[..3] == s;
  }

  /** The longer test vectors of section 10 of RFC 4648: "foob", "fooba"
      and "foobar" as bytes, "foo" followed by a shorter vector. */
  lemma RfcLongTestVectors()
    ensures Encode([102, 111, 111, 98]) == "Zm9vYg=="
    ensures Encode([102, 111, 111, 98, 97]) == "Zm9vYmE="
    ensures Encode([102, 111, 111, 98, 97, 114]) == "Zm9vYmFy"
  {
    RfcTestVectors();
    var foo: seq<byte> := [102, 111, 111];
    EncodeFirstGroup(foo, [98]);
    EncodeFirstGroup(foo, [98, 97]);
    EncodeFirstGroup(foo, [98, 97, 114]);
    assert foo + [98] == [102, 111, 111, 98];
    assert foo + [98, 97] == [102, 111, 111, 98, 97];
    assert foo + [98, 97, 114] == [102, 111, 111, 98, 97, 114];
    BarVectors();
  }

  /** The tails of the longer vectors: "b", "ba" and "bar". */
  lemma BarVectors()
    ensures Encode([98]) == "Yg==" && Encode([98, 97]) == "YmE=" && Encode([98, 97, 114]) == "YmFy"
  {
  }

  /** The three octets packed in four sextets. */
  function DecodeGroup(w: int, x: int, y: int, z: int): (r: seq<byte>)
    requires 0 <= w < 64 && 0 <= x < 64 && 0 <= y < 64 && 0 <= z < 64
    ensures |r| == 3
  {
    [(w * 4 + x / 16) as byte, ((x % 16) * 16 + y / 4) as byte, ((y % 4) * 64 + z) as byte]
  }

  /** Decodes a final group of four characters, which may end in one or two pads. */
  function DecodeLast(q: string): Option<seq<byte>>
    requires |q| == 4
  {
    if InAlphabet(q[0]) && InAlphabet(q[1]) && q[2] == '=' && q[3] == '=' then
      var w, x := ValueOf(q[0]).value, ValueOf(q[1]).value;
      Some([(w * 4 + x / 16) as byte])
    else if InAlphabet(q[0]) && InAlphabet(q[1]) && InAlphabet(q[2]) && q[3] == '=' then
      var w, x, y := ValueOf(q[0]).value, ValueOf(q[1]).value, ValueOf(q[2]).value;
      Some([(w * 4 + x / 16) as byte, ((x % 16) * 16 + y / 4) as byte])
    else if InAlphabet(q[0]) && InAlphabet(q[1]) && InAlphabet(q[2]) && InAlphabet(q[3]) then
      Some(DecodeGroup(ValueOf(q[0]).value, ValueOf(q[1]).value, ValueOf(q[2]).value, ValueOf(q[3]).value))
    else
      None
  }

  /** Decodes padded base 64; `None` when the text is not of that form. */
  function Decode(t: string): Option<seq<byte>>
    decreases |t|
  {
    if |t| == 0 then Some([])
    else if |t| < 4 then None
    else if |t| == 4 then DecodeLast(t)
    else if InAlphabet(t[0]) && InAlphabet(t[1]) && InAlphabet(t[2]) && InAlphabet(t[3]) then
      match Decode(t[4..])
      case None => None
      case Some(rest) =>
        Some(DecodeGroup(ValueOf(t[0]).value, ValueOf(t[1]).value, ValueOf(t[2]).value, ValueOf(t[3]).value) + rest)
    else None
  }

  lemma GroupRoundTrip(a: byte, b: byte, c: byte)
    ensures var g := EncodeGroup(a, b, c);
      && InAlphabet(g[0]) && InAlphabet(g[1]) && InAlphabet(g[2]) && InAlphabet(g[3])
      && DecodeGroup(ValueOf(g[0]).value, ValueOf(g[1]).value, ValueOf(g[2]).value, ValueOf(g[3]).value) == [a, b, c]
  {
    var x, y, z := a as int, b as int, c as int;
    var w, u, v, t := x / 4, (x % 4) * 16 + y / 16, (y % 16) * 4 + z / 64, z % 64;
    ValueOfCharOf(w);
    ValueOfCharOf(u);
    ValueOfCharOf(v);
    ValueOfCharOf(t);
    ThreeOctetArith(x, y, z);
    var d := DecodeGroup(w, u, v, t);
    assert d[0] == a && d[1] == b && d[2] == c;
    assert d == [a, b, c];
  }

  lemma ThreeOctetArith(x: int, y: int, z: int)
    requires 0 <= x < 256 && 0 <= y < 256 && 0 <= z < 256
    ensures (x / 4) * 4 + ((x % 4) * 16 + y / 16) / 16 == x
    ensures (((x % 4) * 16 + y / 16) % 16) * 16 + ((y % 16) * 4 + z / 64) / 4 == y
    ensures (((y % 16) * 4 + z / 64) % 4) * 64 + z % 64 == z
  {
    var h, l := x % 4, y / 16;
    assert (h * 16 + l) / 16 == h && (h * 16 + l) % 16 == l;
    var h', l' := y % 16, z / 64;
    assert (h' * 4 + l') / 4 == h' && (h' * 4 + l') % 4 == l';
  }

  lemma OneOctetArith(x: int)
    requires 0 <= x < 256
    ensures (x / 4) * 4 + ((x % 4) * 16) / 16 == x
  {
    var h := x % 4;
    assert (h * 16) / 16 == h;
  }

  lemma TwoOctetArith(x: int, y: int)
    requires 0 <= x < 256 && 0 <= y < 256
    ensures (x / 4) * 4 + ((x % 4) * 16 + y / 16) / 16 == x
    ensures (((x % 4) * 16 + y / 16) % 16) * 16 + ((y % 16) * 4) / 4 == y
  {
    var h, l := x % 4, y / 16;
    assert (h * 16 + l) / 16 == h && (h * 16 + l) % 16 == l;
    var h' := y % 16;
    assert (h' * 4) / 4 == h';
  }

  lemma DecodeLastOne(w: int, u: int)
    requires 0 <= w < 64 && 0 <= u < 64
    ensures DecodeLast([CharOf(w), CharOf(u), '=', '=']) == Some([(w * 4 + u / 16) as byte])
  {
    ValueOfCharOf(w);
    ValueOfCharOf(u);
  }

  lemma OneOctetRoundTrip(s: seq<byte>)
    requires |s| == 1
    ensures Decode(Encode(s)) == Some(s)
  {
    var x := s[0] as int;
    var w, u := x / 4, (x % 4) * 16;
    var q := [CharOf(w), CharOf(u), '=', '='];
    assert Encode(s) == q;
    assert Decode(q) == DecodeLast(q);
    DecodeLastOne(w, u);
    OneOctetArith(x);
    assert [(w * 4 + u / 16) as byte] == s;
  }

  lemma DecodeLastTwo(w: int, u: int, v: int)
    requires 0 <= w < 64 && 0 <= u < 64 && 0 <= v < 64
    ensures DecodeLast([CharOf(w), CharOf(u), CharOf(v), '='])
         == Some([(w * 4 + u / 16) as byte, ((u % 16) * 16 + v / 4) as byte])
  {
    ValueOfCharOf(w);
    ValueOfCharOf(u);
    ValueOfCharOf(v);
  }

  lemma TwoOctetRoundTrip(s: seq<byte>)
    requires |s| == 2
    ensures Decode(Encode(s)) == Some(s)
  {
    var x, y := s[0] as int, s[1] as int;
    var w, u, v := x / 4, (x % 4) * 16 + y / 16, (y % 16) * 4;
    var q := [CharOf(w), CharOf(u), CharOf(v), '='];
    assert Encode(s) == q;
    assert Decode(q) == DecodeLast(q);
    DecodeLastTwo(w, u, v);
    TwoOctetArith(x, y);
    assert [(w * 4 + u / 16) as byte, ((u % 16) * 16 + v / 4) as byte] == s;
  }

  /** Decoding what the encoder produced gives back the octets: the encoding loses nothing. */
  lemma {:induction false} DecodeEncode(s: seq<byte>)
    ensures Decode(Encode(s)) == Some(s)
    decreases |s|
  {
    if |s| == 0 {
    } else if |s| == 1 {
      OneOctetRoundTrip(s);
    } else if |s| == 2 {
      TwoOctetRoundTrip(s);
    } else {
      var g := EncodeGroup(s[0], s[1], s[2]);
      GroupRoundTrip(s[0], s[1], s[2]);
      var rest := Encode(s[3..]);
      assert Encode(s) == g + rest;
      if |s| == 3 {
        assert rest == "";
        assert Encode(s) == g;
        assert s == [s[0], s[1], s[2]];
      } else {
        DecodeEncode(s[3..]);
        var t := g + rest;
        assert |t| > 4;
        assert t[..4] == g && t[4..] == rest;
        assert s == [s[0], s[1], s[2]] + s[3..];
      }
    }
  }

  /** Encoding is injective: different contents never share an encoding. */
  lemma EncodeInjective(s: seq<byte>, s': seq<byte>)
    requires Encode(s) == Encode(s')
    ensures s == s'
  {
    DecodeEncode(s);
    DecodeEncode(s');
  }
}
