/**
 The Base64 encoder of the V8 bridge, against section 4 of RFC 4648. Shifts and masks of a 24-bit word
 are written as division and remainder by powers of two.
 */
module Base64 {
  import opened Wrappers

  const UPPER: string := "ABCDEFGHIJKLMNOPQRSTUVWXYZ"
  const LOWER: string := "abcdefghijklmnopqrstuvwxyz"
  const DIGITS: string := "0123456789"
  const ALPHABET: string := UPPER + LOWER + DIGITS + "+/"

  /** The symbol of a 6-bit value. */
  function Symbol(v: nat): char
    requires v < 64
  {
    ALPHABET[v]
  }

  /** The value a symbol stands for, table 1 of RFC 4648. */
  function Value(c: char): (v: Option<nat>)
    ensures v.Some? ==> v.value < 64
  {
    if 'A' <= c <= 'Z' then Some(c as nat - 'A' as nat)
    else if 'a' <= c <= 'z' then Some(c as nat - 'a' as nat + 26)
    else if '0' <= c <= '9' then Some(c as nat - '0' as nat + 52)
    else if c == '+' then Some(62)
    else if c == '/' then Some(63)
    else None
  }

  lemma Letters(v: nat)
    requires v < 26
    ensures UPPER[v] == 'A' + v as char && LOWER[v] == 'a' + v as char
  {
  }

  lemma Digits(v: nat)
    requires v < 10
    ensures DIGITS[v] == '0' + v as char
  {
  }

  /** The table, row by row. */
  lemma SymbolInRow(v: nat)
    requires v < 64
    ensures Symbol(v) ==
      if v < 26 then UPPER[v] else if v < 52 then LOWER[v - 26] else if v < 62 then DIGITS[v - 52]
      else if v == 62 then '+' else '/'
  {
  }

  /** The same without the table. */
  lemma SymbolByRange(v: nat)
    requires v < 64
    ensures Symbol(v) ==
      if v < 26 then 'A' + v as char else if v < 52 then 'a' + (v - 26) as char
      else if v < 62 then '0' + (v - 52) as char else if v == 62 then '+' else '/'
  {
    hide *;
    SymbolInRow(v);
    if v < 26 { Letters(v); } else if v < 52 { Letters(v - 26); } else if v < 62 { Digits(v - 52); }
  }

  lemma SymbolValue(v: nat)
    requires v < 64
    ensures Value(Symbol(v)) == Some(v)
  {
    hide Symbol;
    SymbolByRange(v);
  }

  lemma ValueSymbol(c: char)
    requires Value(c).Some?
    ensures Symbol(Value(c).value) == c
  {
    hide Symbol;
    SymbolByRange(Value(c).value);
  }

  /** The four 6-bit groups of three bytes. */
  function Sextets(a: byte, b: byte, c: byte): (q: (nat, nat, nat, nat))
    ensures q.0 < 64 && q.1 < 64 && q.2 < 64 && q.3 < 64
  {
    (a as nat / 4, a as nat % 4 * 16 + b as nat / 16, b as nat % 16 * 4 + c as nat / 64, c as nat % 64)
  }

  // Quotients and remainders of a number in two digits.

  lemma By4(h: nat, l: nat)
    requires l < 4
    ensures (h * 4 + l) / 4 == h && (h * 4 + l) % 4 == l
  {
  }

  lemma By16(h: nat, l: nat)
    requires l < 16
    ensures (h * 16 + l) / 16 == h && (h * 16 + l) % 16 == l
  {
  }

  lemma By64(h: nat, l: nat)
    requires l < 64
    ensures (h * 64 + l) / 64 == h && (h * 64 + l) % 64 == l
  {
  }

  lemma By4096(h: nat, l: nat)
    requires l < 0x1000
    ensures (h * 0x1000 + l) / 0x1000 == h
  {
  }

  lemma By262144(h: nat, l: nat)
    requires l < 0x4_0000
    ensures (h * 0x4_0000 + l) / 0x4_0000 == h
  {
  }

  function Word(a: nat, b: nat, c: nat): nat {
    a * 0x1_0000 + b * 0x100 + c
  }

  lemma WordFirst(a: nat, b: nat, c: nat)
    requires a < 256 && b < 256 && c < 256
    ensures Word(a, b, c) / 0x4_0000 % 64 == a / 4
  {
    assert Word(a, b, c) == a / 4 * 0x4_0000 + (a % 4 * 0x1_0000 + b * 0x100 + c);
    By262144(a / 4, a % 4 * 0x1_0000 + b * 0x100 + c);
  }

  lemma WordSecond(a: nat, b: nat, c: nat)
    requires a < 256 && b < 256 && c < 256
    ensures Word(a, b, c) / 0x1000 % 64 == a % 4 * 16 + b / 16
  {
    assert Word(a, b, c) == (a * 16 + b / 16) * 0x1000 + (b % 16 * 0x100 + c);
    By4096(a * 16 + b / 16, b % 16 * 0x100 + c);
    assert a * 16 + b / 16 == a / 4 * 64 + (a % 4 * 16 + b / 16);
    By64(a / 4, a % 4 * 16 + b / 16);
  }

  lemma WordThird(a: nat, b: nat, c: nat)
    requires a < 256 && b < 256 && c < 256
    ensures Word(a, b, c) / 64 % 64 == b % 16 * 4 + c / 64
  {
    assert Word(a, b, c) == (a * 1024 + b * 4 + c / 64) * 64 + c % 64;
    By64(a * 1024 + b * 4 + c / 64, c % 64);
    assert a * 1024 + b * 4 + c / 64 == (a * 16 + b / 16) * 64 + (b % 16 * 4 + c / 64);
    By64(a * 16 + b / 16, b % 16 * 4 + c / 64);
  }

  lemma WordFourth(a: nat, b: nat, c: nat)
    requires a < 256 && b < 256 && c < 256
    ensures Word(a, b, c) % 64 == c % 64
  {
    assert Word(a, b, c) == (a * 1024 + b * 4 + c / 64) * 64 + c % 64;
    By64(a * 1024 + b * 4 + c / 64, c % 64);
  }

  /** They are the groups of the 24-bit word that holds the three bytes. */
  lemma WordSextets(a: nat, b: nat, c: nat)
    requires a < 256 && b < 256 && c < 256
    ensures var w := a * 0x1_0000 + b * 0x100 + c;
      && w / 0x4_0000 % 64 == a / 4
      && w / 0x1000 % 64 == a % 4 * 16 + b / 16
      && w / 64 % 64 == b % 16 * 4 + c / 64
      && w % 64 == c % 64
  {
    WordFirst(a, b, c);
    WordSecond(a, b, c);
    WordThird(a, b, c);
    WordFourth(a, b, c);
  }

  function Quad(a: byte, b: byte, c: byte): (q: string)
    ensures |q| == 4
  {
    var x := Sextets(a, b, c);
    [Symbol(x.0), Symbol(x.1), Symbol(x.2), Symbol(x.3)]
  }

  function Encode(bs: seq<byte>): string {
    if |bs| == 0 then ""
    else if |bs| == 1 then Quad(bs[0], 0, 0)[..2] + "=="
    else if |bs| == 2 then Quad(bs[0], bs[1], 0)[..3] + "="
    else Quad(bs[0], bs[1], bs[2]) + Encode(bs[3..])
  }

  lemma EncodeChunk(before: string, input: seq<byte>, i: nat)
    requires i + 3 <= |input|
    ensures before + Encode(input[i..]) == before + Quad(input[i], input[i + 1], input[i + 2]) + Encode(input[i + 3..])
  {
    var rest := input[i..];
    assert rest[3..] == input[i + 3..];
    Associate(before, Quad(rest[0], rest[1], rest[2]), Encode(rest[3..]));
  }

  lemma Associate(a: string, b: string, c: string)
    ensures a + (b + c) == a + b + c
  {
  }

  lemma EncodeMore(bs: seq<byte>)
    requires |bs| >= 3
    ensures Encode(bs) == Quad(bs[0], bs[1], bs[2]) + Encode(bs[3..])
    ensures (|bs| - 3) % 3 == |bs| % 3
  {
  }

  lemma EncodeRest(bs: seq<byte>)
    requires |bs| < 3
    ensures |bs| == 0 ==> Encode(bs) == ""
    ensures |bs| == 1 ==> Encode(bs) == Quad(bs[0], 0, 0)[..2] + "=="
    ensures |bs| == 2 ==> Encode(bs) == Quad(bs[0], bs[1], 0)[..3] + "="
  {
  }

  /** Pushes the first `n` symbols of the 24-bit word `b`. */
  method PushSymbols(result: string, b: nat, n: nat) returns (longer: string)
    requires n <= 4 && b < 0x100_0000
    ensures longer == result +
      [Symbol(b / 0x4_0000 % 64), Symbol(b / 0x1000 % 64), Symbol(b / 64 % 64), Symbol(b % 64)][..n]
  {
    longer := result;
    if n >= 1 { longer := longer + [Symbol(b / 0x4_0000 % 64)]; }
    if n >= 2 { longer := longer + [Symbol(b / 0x1000 % 64)]; }
    if n >= 3 { longer := longer + [Symbol(b / 64 % 64)]; }
    if n >= 4 { longer := longer + [Symbol(b % 64)]; }
  }

  method PushBytes(result: string, a: byte, b: byte, c: byte, n: nat) returns (longer: string)
    requires n <= 4
    ensures longer == result + Quad(a, b, c)[..n]
  {
    WordSextets(a as nat, b as nat, c as nat);
    longer := PushSymbols(result, a as nat * 0x1_0000 + b as nat * 0x100 + c as nat, n);
  }

  /** The encoder: whole chunks of three, then the remainder. */
  method Base64Encode(input: seq<byte>) returns (result: string)
    ensures result == Encode(input)
  {
    result := "";
    hide Quad;
    var i := 0;
    while i + 3 <= |input|
      invariant i <= |input|
      invariant result + Encode(input[i..]) == Encode(input)
    {
      EncodeChunk(result, input, i);
      result := PushBytes(result, input[i], input[i + 1], input[i + 2], 4);
      i := i + 3;
    }
    var remainder := input[i..];
    EncodeRest(remainder);
    if |remainder| == 1 {
      Associate(result, Quad(remainder[0], 0, 0)[..2], "==");
      result := PushBytes(result, remainder[0], 0, 0, 2);
      result := result + "==";
    } else if |remainder| == 2 {
      Associate(result, Quad(remainder[0], remainder[1], 0)[..3], "=");
      result := PushBytes(result, remainder[0], remainder[1], 0, 3);
      result := result + "=";
    }
  }

  // The reader.

  function ReadWord(p: nat, q: nat, r: nat, s: nat): (bs: seq<byte>)
    requires p < 64 && q < 64 && r < 64 && s < 64
    ensures |bs| == 3
  {
    [(p * 4 + q / 16) as byte, (q % 16 * 16 + r / 4) as byte, (r % 4 * 64 + s) as byte]
  }

  /** The last four characters, padded or not; unused bits must be zero. */
  function ReadLast(s: string): Option<seq<byte>>
    requires |s| == 4
  {
    match (Value(s[0]), Value(s[1]))
    case (Some(p), Some(q)) =>
      if s[2] == '=' && s[3] == '=' then
        if q % 16 == 0 then Some(ReadWord(p, q, 0, 0)[..1]) else None
      else (match Value(s[2])
            case None => None
            case Some(r) =>
              if s[3] == '=' then
                if r % 4 == 0 then Some(ReadWord(p, q, r, 0)[..2]) else None
              else match Value(s[3])
                   case None => None
                   case Some(t) => Some(ReadWord(p, q, r, t)))
    case _ => None
  }

  function Decode(s: string): Option<seq<byte>> {
    if |s| == 0 then Some([])
    else if |s| < 4 then None
    else if |s| == 4 then ReadLast(s)
    else match (Value(s[0]), Value(s[1]), Value(s[2]), Value(s[3]), Decode(s[4..]))
         case (Some(p), Some(q), Some(r), Some(t), Some(rest)) => Some(ReadWord(p, q, r, t) + rest)
         case _ => None
  }

  // Both directions.

  lemma BytesRead(a: byte, b: byte, c: byte)
    ensures var x := Sextets(a, b, c); ReadWord(x.0, x.1, x.2, x.3) == [a, b, c]
  {
  }

  lemma QuadReads(a: byte, b: byte, c: byte)
    ensures var x, q := Sextets(a, b, c), Quad(a, b, c);
      && Value(q[0]) == Some(x.0) && Value(q[1]) == Some(x.1) && Value(q[2]) == Some(x.2) && Value(q[3]) == Some(x.3)
      && ReadWord(x.0, x.1, x.2, x.3) == [a, b, c]
  {
    var x := Sextets(a, b, c);
    BytesRead(a, b, c);
    hide Symbol, Value, ReadWord, Sextets;
    SymbolValue(x.0);
    SymbolValue(x.1);
    SymbolValue(x.2);
    SymbolValue(x.3);
  }

  lemma DecodeQuad(a: byte, b: byte, c: byte, t: string, rest: seq<byte>)
    requires Decode(t) == Some(rest)
    ensures Decode(Quad(a, b, c) + t) == Some([a, b, c] + rest)
  {
    QuadReads(a, b, c);
    var s := Quad(a, b, c) + t;
    assert s[4..] == t;
    if |s| == 4 {
      assert s == Quad(a, b, c) && rest == [];
      assert [a, b, c] + [] == [a, b, c];
    }
  }

  lemma DecodePadded(a: byte, b: byte)
    ensures Decode(Quad(a, 0, 0)[..2] + "==") == Some([a])
    ensures Decode(Quad(a, b, 0)[..3] + "=") == Some([a, b])
  {
    QuadReads(a, 0, 0);
    QuadReads(a, b, 0);
    assert [a, 0, 0][..1] == [a] && [a, b, 0][..2] == [a, b];
  }

  lemma DecodeNothing()
    ensures Decode("") == Some([])
  {
  }

  /** Reading back what was encoded gives the input, for every byte string. */
  lemma {:induction false} DecodeEncode(bs: seq<byte>)
    ensures Decode(Encode(bs)) == Some(bs)
  {
    hide Encode, Decode, Quad;
    if |bs| < 3 {
      EncodeRest(bs);
      if |bs| > 0 {
        DecodePadded(bs[0], bs[|bs| - 1]);
        assert bs == if |bs| == 1 then [bs[0]] else [bs[0], bs[1]];
      } else {
        DecodeNothing();
      }
    } else {
      DecodeEncode(bs[3..]);
      EncodeMore(bs);
      DecodeQuad(bs[0], bs[1], bs[2], Encode(bs[3..]), bs[3..]);
      assert [bs[0], bs[1], bs[2]] + bs[3..] == bs;
    }
  }

  /** The groups of the three bytes that four groups make up are those groups. */
  lemma GroupsBack(p: nat, q: nat, r: nat, s: nat)
    requires p < 64 && q < 64 && r < 64 && s < 64
    ensures var x, y, z := p * 4 + q / 16, q % 16 * 16 + r / 4, r % 4 * 64 + s;
      x / 4 == p && x % 4 * 16 + y / 16 == q && y % 16 * 4 + z / 64 == r && z % 64 == s
  {
    By4(p, q / 16);
    By16(q % 16, r / 4);
    By64(r % 4, s);
  }

  lemma WordReads(p: nat, q: nat, r: nat, s: nat)
    requires p < 64 && q < 64 && r < 64 && s < 64
    ensures var bs := ReadWord(p, q, r, s);
      Quad(bs[0], bs[1], bs[2]) == [Symbol(p), Symbol(q), Symbol(r), Symbol(s)]
    ensures q % 16 == 0 ==> ReadWord(p, q, 0, 0)[1] == 0 && ReadWord(p, q, 0, 0)[2] == 0
    ensures r % 4 == 0 ==> ReadWord(p, q, r, 0)[2] == 0
  {
    hide Symbol;
    var bs := ReadWord(p, q, r, s);
    GroupsBack(p, q, r, s);
    assert Sextets(bs[0], bs[1], bs[2]) == (p, q, r, s);
  }

  lemma LastReads(s: string)
    requires |s| == 4 && ReadLast(s).Some?
    ensures Encode(ReadLast(s).value) == s
  {
    hide Quad, Value, Symbol, ReadWord;
    var p, q := Value(s[0]).value, Value(s[1]).value;
    ValueSymbol(s[0]);
    ValueSymbol(s[1]);
    if s[2] == '=' && s[3] == '=' {
      WordReads(p, q, 0, 0);
    } else {
      ValueSymbol(s[2]);
      if s[3] == '=' {
        WordReads(p, q, Value(s[2]).value, 0);
      } else {
        ValueSymbol(s[3]);
        WordReads(p, q, Value(s[2]).value, Value(s[3]).value);
      }
    }
  }

  lemma EncodeWord(word: seq<byte>, rest: seq<byte>)
    requires |word| == 3
    ensures Encode(word + rest) == Quad(word[0], word[1], word[2]) + Encode(rest)
  {
    assert (word + rest)[3..] == rest;
  }

  /** The encoder has an inverse on every text the reader accepts: each is the encoding of its bytes. */
  lemma {:induction false} EncodeDecode(s: string)
    requires Decode(s).Some?
    ensures Encode(Decode(s).value) == s
  {
    if |s| == 4 {
      hide Encode, ReadLast;
      LastReads(s);
    } else if |s| > 4 {
      EncodeDecode(s[4..]);
      hide Encode, Quad, Value, Symbol, ReadWord, ReadLast;
      var p, q, r, t := Value(s[0]).value, Value(s[1]).value, Value(s[2]).value, Value(s[3]).value;
      ValueSymbol(s[0]);
      ValueSymbol(s[1]);
      ValueSymbol(s[2]);
      ValueSymbol(s[3]);
      WordReads(p, q, r, t);
      EncodeWord(ReadWord(p, q, r, t), Decode(s[4..]).value);
      assert s == [s[0], s[1], s[2], s[3]] + s[4..];
    } else {
      EncodeRest([]);
    }
  }

  lemma EncodeInjective(a: seq<byte>, b: seq<byte>)
    requires Encode(a) == Encode(b)
    ensures a == b
  {
    DecodeEncode(a);
    DecodeEncode(b);
  }

  /** `body` symbols of the alphabet followed by padding. */
  predicate Shaped(s: string, body: nat) {
    && body <= |s|
    && (forall i :: 0 <= i < body ==> Value(s[i]).Some?)
    && (forall i :: body <= i < |s| ==> s[i] == '=')
  }

  lemma ShapedQuad(a: byte, b: byte, c: byte, t: string, body: nat)
    requires Shaped(t, body)
    ensures Shaped(Quad(a, b, c) + t, body + 4)
  {
    QuadReads(a, b, c);
  }

  lemma {:induction false} EncodeLength(bs: seq<byte>)
    ensures |Encode(bs)| == (|bs| + 2) / 3 * 4
  {
    hide Quad, Encode;
    if |bs| >= 3 {
      EncodeLength(bs[3..]);
      EncodeMore(bs);
    } else {
      EncodeRest(bs);
    }
  }

  /** How many padding characters an input of this length needs. */
  function Padding(n: nat): nat {
    if n % 3 == 0 then 0 else 3 - n % 3
  }

  lemma PaddingRepeats(n: nat)
    requires n >= 3
    ensures Padding(n - 3) == Padding(n)
  {
  }

  lemma ShapedPadded(a: byte, b: byte)
    ensures Shaped(Quad(a, 0, 0)[..2] + "==", 2)
    ensures Shaped(Quad(a, b, 0)[..3] + "=", 3)
  {
    QuadReads(a, 0, 0);
    QuadReads(a, b, 0);
    hide Quad, Value, ReadWord, Sextets;
  }

  lemma PaddingOfRest(bs: seq<byte>)
    requires |bs| < 3
    ensures |Encode(bs)| >= Padding(|bs|) && Shaped(Encode(bs), |Encode(bs)| - Padding(|bs|))
  {
    hide Encode, Quad, Value;
    EncodeRest(bs);
    if |bs| == 0 {
      assert Padding(0) == 0;
    } else {
      ShapedPadded(bs[0], bs[|bs| - 1]);
      assert Padding(1) == 2 && Padding(2) == 1;
      hide Padding, Shaped;
    }
  }

  lemma {:induction false} PaddingAtEnd(bs: seq<byte>)
    ensures |Encode(bs)| >= Padding(|bs|) && Shaped(Encode(bs), |Encode(bs)| - Padding(|bs|))
  {
    hide Quad, Encode, Shaped, Padding;
    if |bs| >= 3 {
      PaddingAtEnd(bs[3..]);
      PaddingRepeats(|bs|);
      EncodeMore(bs);
      ShapedQuad(bs[0], bs[1], bs[2], Encode(bs[3..]), |Encode(bs[3..])| - Padding(|bs|));
    } else {
      PaddingOfRest(bs);
    }
  }

  /** The encoding fills exactly the capacity reserved for it, and padding is confined to its end. */
  lemma {:induction false} EncodeShape(bs: seq<byte>)
    ensures |Encode(bs)| == (|bs| + 2) / 3 * 4
    ensures |Encode(bs)| >= Padding(|bs|) && Shaped(Encode(bs), |Encode(bs)| - Padding(|bs|))
  {
    hide Encode, Shaped, Padding;
    EncodeLength(bs);
    PaddingAtEnd(bs);
  }

  /** Only symbols of the alphabet and padding. */
  lemma EncodeSymbols(bs: seq<byte>)
    ensures forall c :: c in Encode(bs) ==> Value(c).Some? || c == '='
  {
    EncodeShape(bs);
    hide Encode, Value;
  }
}
