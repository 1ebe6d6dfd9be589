/**
 Base64 without padding (sections 3.2, 3.5 and 4 of RFC 4648): Go's RawStdEncoding, whose
 strict decoder wants the unused bits to be zero and passes over line breaks.
 */
module Base64 {
  import opened Wrappers
  import opened Text

  type Sextet = x: int | 0 <= x < 64

  function Letter(n: Sextet): char {
    if n < 26 then 'A' + n as char
    else if n < 52 then 'a' + (n - 26) as char
    else if n < 62 then '0' + (n - 52) as char
    else if n == 62 then '+' else '/'
  }

  predicate IsLetter(c: char) {
    'A' <= c <= 'Z' || 'a' <= c <= 'z' || '0' <= c <= '9' || c == '+' || c == '/'
  }

  function SextetOf(c: char): Sextet
    requires IsLetter(c)
  {
    if 'A' <= c <= 'Z' then (c - 'A') as int
    else if 'a' <= c <= 'z' then (c - 'a') as int + 26
    else if '0' <= c <= '9' then (c - '0') as int + 52
    else if c == '+' then 62 else 63
  }

  function Sextet0(a: byte): Sextet {
    a as int / 4
  }

  function Sextet1(a: byte, b: byte): Sextet {
    a as int % 4 * 16 + b as int / 16
  }

  function Sextet2(b: byte, c: byte): Sextet {
    b as int % 16 * 4 + c as int / 64
  }

  function Sextet3(c: byte): Sextet {
    c as int % 64
  }

  /** Eight-bit groups as six-bit groups, with zero bits to fill the last one. */
  function Sextets(bytes: seq<byte>): (s: seq<Sextet>)
    ensures |s| == (4 * |bytes| + 2) / 3
  {
    if bytes == [] then []
    else if |bytes| == 1 then [Sextet0(bytes[0]), Sextet1(bytes[0], 0)]
    else if |bytes| == 2 then [Sextet0(bytes[0]), Sextet1(bytes[0], bytes[1]), Sextet2(bytes[1], 0)]
    else
      [Sextet0(bytes[0]), Sextet1(bytes[0], bytes[1]), Sextet2(bytes[1], bytes[2]), Sextet3(bytes[2])]
      + Sextets(bytes[3..])
  }

  function First(w: Sextet, x: Sextet): byte {
    (w * 4 + x / 16) as byte
  }

  function Second(x: Sextet, y: Sextet): byte {
    (x % 16 * 16 + y / 4) as byte
  }

  function Third(y: Sextet, z: Sextet): byte {
    (y % 4 * 64 + z) as byte
  }

  /** Six-bit groups as bytes; a last group of one sextet, or with unused bits set, is an error. */
  function Bytes(s: seq<Sextet>): Option<seq<byte>> {
    if s == [] then Some([])
    else if |s| == 1 then None
    else if |s| == 2 then (if s[1] % 16 == 0 then Some([First(s[0], s[1])]) else None)
    else if |s| == 3 then (if s[2] % 4 == 0 then Some([First(s[0], s[1]), Second(s[1], s[2])]) else None)
    else
      match Bytes(s[4..])
      case None => None
      case Some(rest) => Some([First(s[0], s[1]), Second(s[1], s[2]), Third(s[2], s[3])] + rest)
  }

  predicate AllLetters(s: string) {
    forall i | 0 <= i < |s| :: IsLetter(s[i])
  }

  function Letters(sextets: seq<Sextet>): string {
    seq(|sextets|, i requires 0 <= i < |sextets| => Letter(sextets[i]))
  }

  function SextetsOf(s: string): seq<Sextet>
    requires AllLetters(s)
  {
    seq(|s|, i requires 0 <= i < |s| => SextetOf(s[i]))
  }

  function Encode(bytes: seq<byte>): string {
    Letters(Sextets(bytes))
  }

  function WithoutBreaks(s: string): string {
    if s == "" then ""
    else if s[0] == '\r' || s[0] == '\n' then WithoutBreaks(s[1..])
    else [s[0]] + WithoutBreaks(s[1..])
  }

  function Decode(s: string): Option<seq<byte>> {
    var text := WithoutBreaks(s);
    if AllLetters(text) then Bytes(SextetsOf(text)) else None
  }

  /** Letters stand for sextets one to one. */
  lemma LettersAndSextets(s: string, sextets: seq<Sextet>)
    ensures AllLetters(Letters(sextets)) && SextetsOf(Letters(sextets)) == sextets
    ensures AllLetters(s) ==> Letters(SextetsOf(s)) == s
  {
  }

  /** The bits of three bytes are kept in four sextets. */
  lemma SameBits(a: byte, b: byte, c: byte)
    ensures First(Sextet0(a), Sextet1(a, b)) == a
    ensures Second(Sextet1(a, b), Sextet2(b, c)) == b
    ensures Third(Sextet2(b, c), Sextet3(c)) == c
    ensures Sextet1(a, 0) % 16 == 0 && Sextet2(b, 0) % 4 == 0
  {
  }

  /** The bits of four sextets are kept in three bytes. */
  lemma SameBitsBack(w: Sextet, x: Sextet, y: Sextet, z: Sextet)
    ensures Sextet0(First(w, x)) == w
    ensures Sextet1(First(w, x), Second(x, y)) == x
    ensures Sextet2(Second(x, y), Third(y, z)) == y
    ensures Sextet3(Third(y, z)) == z
    ensures x % 16 == 0 ==> Sextet1(First(w, x), 0) == x
    ensures y % 4 == 0 ==> Sextet2(Second(x, y), 0) == y
  {
  }

  lemma {:induction false} BytesOfSextets(bytes: seq<byte>)
    ensures Bytes(Sextets(bytes)) == Some(bytes)
  {
    hide First, Second, Third, Sextet0, Sextet1, Sextet2, Sextet3;
    if bytes != [] {
      SameBits(bytes[0], if |bytes| > 1 then bytes[1] else 0, if |bytes| > 2 then bytes[2] else 0);
      if |bytes| > 2 {
        BytesOfSextets(bytes[3..]);
        assert Sextets(bytes)[4..] == Sextets(bytes[3..]);
        assert bytes == [bytes[0], bytes[1], bytes[2]] + bytes[3..];
      } else if |bytes| == 2 {
        assert bytes == [bytes[0], bytes[1]];
      } else {
        assert bytes == [bytes[0]];
      }
    }
  }

  lemma {:induction false} SextetsOfBytes(s: seq<Sextet>)
    requires Bytes(s).Some?
    ensures Sextets(Bytes(s).value) == s
  {
    hide First, Second, Third, Sextet0, Sextet1, Sextet2, Sextet3;
    if s != [] {
      SameBitsBack(s[0], s[1], if |s| > 2 then s[2] else 0, if |s| > 3 then s[3] else 0);
      if |s| > 3 {
        SextetsOfBytes(s[4..]);
        var bytes := Bytes(s).value;
        assert bytes[3..] == Bytes(s[4..]).value;
        assert s == [s[0], s[1], s[2], s[3]] + s[4..];
      }
    }
  }

  lemma {:induction false} NoBreaksInLetters(s: string)
    requires AllLetters(s)
    ensures WithoutBreaks(s) == s
  {
    if s != "" {
      NoBreaksInLetters(s[1..]);
    }
  }

  /** Decoding what Encode printed gives the bytes back. */
  lemma RoundTrip(bytes: seq<byte>)
    ensures Decode(Encode(bytes)) == Some(bytes)
  {
    LettersAndSextets("", Sextets(bytes));
    NoBreaksInLetters(Encode(bytes));
    BytesOfSextets(bytes);
  }

  /** The strict decoder accepts only canonical text: but for line breaks, what Encode prints. */
  lemma Canonical(s: string)
    requires Decode(s).Some?
    ensures Encode(Decode(s).value) == WithoutBreaks(s)
  {
    LettersAndSextets(WithoutBreaks(s), []);
    SextetsOfBytes(SextetsOf(WithoutBreaks(s)));
  }

  /** The alphabet of section 4 of RFC 4648: A to Z, a to z, 0 to 9, plus and slash. */
  lemma AlphabetIs(n: Sextet)
    ensures Letter(0) == 'A' && Letter(25) == 'Z' && Letter(26) == 'a' && Letter(51) == 'z'
    ensures Letter(52) == '0' && Letter(61) == '9' && Letter(62) == '+' && Letter(63) == '/'
    ensures n !in {25, 51, 61, 62, 63} ==> Letter(n + 1) == Letter(n) + 1 as char
  {
  }

  /** The test vectors of section 10 of RFC 4648, without their padding. */
  lemma Vectors()
    ensures Encode([]) == "" && Encode([102]) == "Zg" && Encode([102, 111]) == "Zm8"
    ensures Encode([102, 111, 111]) == "Zm9v" && Encode([102, 111, 111, 98]) == "Zm9vYg"
    ensures Encode([102, 111, 111, 98, 97, 114]) == "Zm9vYmFy"
  {
    assert Sextets([]) == [];
    assert Sextets([102]) == [25, 32];
    assert Sextets([102, 111]) == [25, 38, 60];
    assert Sextets([102, 111, 111]) == [25, 38, 61, 47];
    assert [102, 111, 111, 98][3..] == [98];
    assert Sextets([102, 111, 111, 98]) == [25, 38, 61, 47, 24, 32];
    assert [102, 111, 111, 98, 97, 114][3..] == [98, 97, 114];
    assert Sextets([98, 97, 114]) == [24, 38, 5, 50];
    assert Sextets([102, 111, 111, 98, 97, 114]) == [25, 38, 61, 47, 24, 38, 5, 50];
  }

  /** The decoder passes over carriage returns and line feeds, wherever they stand, and over nothing else. */
  lemma {:induction false} BreaksArePassedOver(s: string, c: char, t: string)
    ensures WithoutBreaks(s + [c] + t)
         == if c == '\r' || c == '\n' then WithoutBreaks(s + t) else WithoutBreaks(s) + [c] + WithoutBreaks(t)
  {
    if s == "" {
      assert s + [c] + t == [c] + t && ([c] + t)[1..] == t && s + t == t;
    } else {
      assert (s + [c] + t)[1..] == s[1..] + [c] + t && (s + t)[1..] == s[1..] + t;
      BreaksArePassedOver(s[1..], c, t);
    }
  }
}
