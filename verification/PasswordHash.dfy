/**
 Self-describing Argon2id password hashes: printing, parsing, verifying and the decision to
 rehash. Argon2id itself is an uninterpreted function, and the random salt is a parameter.
 */
module PasswordHash {
  import opened Wrappers
  import opened Text
  import Decimal
  import Base64

  const SaltLength := 16
  const KeyLength := 32

  datatype Parameters = Parameters(
    memory: nat,
    iterations: nat,
    parallelism: nat,
    saltLength: nat,
    keyLength: nat)

  const DefaultParameters := Parameters(19 * 1024, 2, 1, SaltLength, KeyLength)

  datatype Parsed = Parsed(params: Parameters, salt: seq<byte>, key: seq<byte>)

  /** Argon2id: password, salt and parameters give a key. */
  type Derive = (seq<byte>, seq<byte>, Parameters) -> seq<byte>

  /** The parameters that the parser accepts. */
  predicate InRange(p: Parameters) {
    1024 <= p.memory <= 1024 * 1024
    && 1 <= p.iterations <= 10
    && 1 <= p.parallelism <= 16
    && p.saltLength == SaltLength
    && p.keyLength == KeyLength
  }

  function PrintParameters(p: Parameters): string {
    "m=" + Decimal.Print(p.memory) + ",t=" + Decimal.Print(p.iterations)
    + ",p=" + Decimal.Print(p.parallelism)
  }

  function Format(p: Parameters, salt: seq<byte>, key: seq<byte>): string {
    "$argon2id$v=" + Decimal.Print(19) + "$" + PrintParameters(p)
    + "$" + Base64.Encode(salt) + "$" + Base64.Encode(key)
  }

  function Hash(derive: Derive, p: Parameters, password: seq<byte>, salt: seq<byte>): string {
    Format(p, salt, derive(password, salt, p))
  }

  predicate HasPrefix(s: string, prefix: string) {
    |prefix| <= |s| && s[..|prefix|] == prefix
  }

  function ParseParameter(s: string, prefix: string, minimum: nat, maximum: nat, bound: nat): Option<nat> {
    if !HasPrefix(s, prefix) then None
    else
      match Decimal.Parse(s[|prefix|..], bound)
      case None => None
      case Some(n) => if n < minimum || maximum < n then None else Some(n)
  }

  function ParseParameters(s: string): Option<Parameters> {
    var parts := Split(s, ',');
    if |parts| != 3 then None
    else
      match (ParseParameter(parts[0], "m=", 1024, 1024 * 1024, 0x1_0000_0000),
             ParseParameter(parts[1], "t=", 1, 10, 0x1_0000_0000),
             ParseParameter(parts[2], "p=", 1, 16, 0x100))
      case (Some(memory), Some(iterations), Some(parallelism)) =>
        Some(Parameters(memory, iterations, parallelism, SaltLength, KeyLength))
      case _ => None
  }

  function Parse(s: string): Option<Parsed> {
    var parts := Split(s, '$');
    if |parts| != 6 || parts[0] != "" || parts[1] != "argon2id" || parts[2] != "v=19" then None
    else
      match (ParseParameters(parts[3]), Base64.Decode(parts[4]), Base64.Decode(parts[5]))
      case (Some(params), Some(salt), Some(key)) =>
        if |salt| == params.saltLength && |key| == params.keyLength
        then Some(Parsed(params, salt, key)) else None
      case _ => None
  }

  /** None is ErrInvalidPasswordHash. */
  function Verify(derive: Derive, password: seq<byte>, encoded: string): Option<bool> {
    match Parse(encoded)
    case None => None
    case Some(parsed) => Some(derive(password, parsed.salt, parsed.params) == parsed.key)
  }

  predicate NeedsRehash(current: Parameters, encoded: string) {
    match Parse(encoded)
    case None => true
    case Some(parsed) => parsed.params != current
  }

  // Printed parts

  function Numeral(prefix: string, n: nat): string {
    prefix + Decimal.Print(n)
  }

  function ParameterParts(p: Parameters): seq<string> {
    [Numeral("m=", p.memory), Numeral("t=", p.iterations), Numeral("p=", p.parallelism)]
  }

  function Parts(p: Parameters, salt: seq<byte>, key: seq<byte>): seq<string> {
    ["", "argon2id", "v=19", PrintParameters(p), Base64.Encode(salt), Base64.Encode(key)]
  }

  lemma SplitOfThree(a: string, b: string, c: string, sep: char)
    requires sep !in a && sep !in b && sep !in c
    ensures Split(a + [sep] + b + [sep] + c, sep) == [a, b, c]
  {
    assert a + [sep] + b + [sep] + c == a + [sep] + (b + [sep] + c);
    SplitFirst(a, b + [sep] + c, sep);
    SplitFirst(b, c, sep);
    SplitWhole(c, sep);
  }

  lemma SplitOfParameters(p: Parameters)
    ensures Split(PrintParameters(p), ',') == ParameterParts(p)
    ensures '$' !in PrintParameters(p)
  {
    var m, t, n := Numeral("m=", p.memory), Numeral("t=", p.iterations), Numeral("p=", p.parallelism);
    assert PrintParameters(p) == m + [','] + t + [','] + n;
    SplitOfThree(m, t, n, ',');
  }

  lemma NoDollarInBase64(bytes: seq<byte>)
    ensures '$' !in Base64.Encode(bytes)
  {
    Base64.LettersAndSextets("", Base64.Sextets(bytes));
  }

  lemma SplitOfFormat(p: Parameters, salt: seq<byte>, key: seq<byte>)
    ensures Split(Format(p, salt, key), '$') == Parts(p, salt, key)
  {
    hide Split, PrintParameters, Base64.Encode;
    var parameters, first, last := PrintParameters(p), Base64.Encode(salt), Base64.Encode(key);
    SplitOfParameters(p);
    NoDollarInBase64(salt);
    NoDollarInBase64(key);
    assert Decimal.Print(19) == "19" by {
      assert Decimal.Print(1) == "1";
    }
    var tail := parameters + ['$'] + first + ['$'] + last;
    SplitOfThree(parameters, first, last, '$');
    SplitFirst("v=19", tail, '$');
    SplitFirst("argon2id", "v=19" + ['$'] + tail, '$');
    SplitFirst("", "argon2id" + ['$'] + ("v=19" + ['$'] + tail), '$');
    assert Format(p, salt, key) == "" + ['$'] + ("argon2id" + ['$'] + ("v=19" + ['$'] + tail)) by {
      hide *;
      FormatText(parameters, first, last);
    }
  }

  lemma FormatText(parameters: string, first: string, last: string)
    ensures "$argon2id$v=" + "19" + "$" + parameters + "$" + first + "$" + last
         == "" + ['$'] + ("argon2id" + ['$'] + ("v=19" + ['$'] + (parameters + ['$'] + first + ['$'] + last)))
  {
  }

  lemma ParseNumeral(prefix: string, n: nat, minimum: nat, maximum: nat, bound: nat)
    requires maximum < bound
    ensures ParseParameter(Numeral(prefix, n), prefix, minimum, maximum, bound)
         == if minimum <= n <= maximum then Some(n) else None
  {
    var s := Numeral(prefix, n);
    assert s[..|prefix|] == prefix && s[|prefix|..] == Decimal.Print(n);
    Decimal.ValueOfPrint(n);
  }

  /**
   Parsing what was printed gives back exactly what was printed when the parameters are in range,
   and an error when they are not, for every salt and key of the declared lengths.
   */
  lemma ParseOfFormat(p: Parameters, salt: seq<byte>, key: seq<byte>)
    requires |salt| == p.saltLength && |key| == p.keyLength
    ensures Parse(Format(p, salt, key)) == if InRange(p) then Some(Parsed(p, salt, key)) else None
    ensures Parse(Format(p, salt, key)).Some?
       <==> 1024 <= p.memory <= 1_048_576 && 1 <= p.iterations <= 10 && 1 <= p.parallelism <= 16
            && |salt| == 16 && |key| == 32
  {
    SplitOfFormat(p, salt, key);
    SplitOfParameters(p);
    ParseNumeral("m=", p.memory, 1024, 1024 * 1024, 0x1_0000_0000);
    ParseNumeral("t=", p.iterations, 1, 10, 0x1_0000_0000);
    ParseNumeral("p=", p.parallelism, 1, 16, 0x100);
    Base64.RoundTrip(salt);
    Base64.RoundTrip(key);
    hide Split, Format, PrintParameters, ParseParameter, Base64.Encode, Base64.Decode, Numeral;
  }

  /** Verify answers, for any password, whether it derives the same key as the hashed one. */
  lemma VerifyOfHash(derive: Derive, p: Parameters, password: seq<byte>, attempt: seq<byte>, salt: seq<byte>)
    requires InRange(p) && |salt| == p.saltLength && |derive(password, salt, p)| == p.keyLength
    ensures Verify(derive, attempt, Hash(derive, p, password, salt))
         == Some(derive(attempt, salt, p) == derive(password, salt, p))
    ensures Verify(derive, password, Hash(derive, p, password, salt)) == Some(true)
  {
    ParseOfFormat(p, salt, derive(password, salt, p));
  }

  /** A hash is due for renewal exactly when the hasher's parameters have changed since. */
  lemma NeedsRehashIff(derive: Derive, p: Parameters, current: Parameters, password: seq<byte>, salt: seq<byte>)
    requires InRange(p) && |salt| == p.saltLength && |derive(password, salt, p)| == p.keyLength
    ensures NeedsRehash(current, Hash(derive, p, password, salt)) <==> p != current
  {
    ParseOfFormat(p, salt, derive(password, salt, p));
  }

  /** Whatever text is accepted, the parameters handed to Argon2id are in range. */
  lemma ParsedIsInRange(s: string)
    requires Parse(s).Some?
    ensures InRange(Parse(s).value.params)
    ensures |Parse(s).value.salt| == SaltLength && |Parse(s).value.key| == KeyLength
  {
  }

  // Canonical text

  /** A numeral after a prefix of two characters does not start with a zero. */
  predicate Unpadded(s: string) {
    |s| > 2 && s[2] != '0'
  }

  /** No numeral has a leading zero, and the base64 text has no line breaks. */
  predicate IsCanonical(s: string) {
    var parts := Split(s, '$');
    |parts| == 6
    && (forall numeral | numeral in Split(parts[3], ',') :: Unpadded(numeral))
    && Base64.WithoutBreaks(parts[4]) == parts[4]
    && Base64.WithoutBreaks(parts[5]) == parts[5]
  }

  lemma NumeralOfParsed(s: string, prefix: string, minimum: nat, maximum: nat, bound: nat)
    requires |prefix| == 2 && minimum > 0
    requires ParseParameter(s, prefix, minimum, maximum, bound).Some?
    ensures Unpadded(s)
       <==> Numeral(prefix, ParseParameter(s, prefix, minimum, maximum, bound).value) == s
  {
    var n := ParseParameter(s, prefix, minimum, maximum, bound).value;
    var digits := s[2..];
    assert s == prefix + digits && digits == s[|prefix|..];
    Decimal.NoLeadingZero(n);
    if Unpadded(s) {
      Decimal.PrintOfValue(digits);
    } else {
      assert digits[0] == '0';
      assert Numeral(prefix, n)[2] == Decimal.Print(n)[0];
    }
  }

  lemma ParametersOfParsed(s: string)
    requires ParseParameters(s).Some?
    ensures (forall numeral | numeral in Split(s, ',') :: Unpadded(numeral))
       <==> PrintParameters(ParseParameters(s).value) == s
  {
    var parts := Split(s, ',');
    var p := ParseParameters(s).value;
    NumeralOfParsed(parts[0], "m=", 1024, 1024 * 1024, 0x1_0000_0000);
    NumeralOfParsed(parts[1], "t=", 1, 10, 0x1_0000_0000);
    NumeralOfParsed(parts[2], "p=", 1, 16, 0x100);
    SplitOfParameters(p);
    JoinOfSplit(s, ',');
    JoinOfSplit(PrintParameters(p), ',');
    hide ParseParameter, Split, Unpadded, Numeral;
    assert parts == [parts[0], parts[1], parts[2]];
    assert ParameterParts(p) == parts <==> PrintParameters(p) == s by {
      hide ParseParameters, PrintParameters, ParameterParts;
    }
  }

  lemma EncodedWithoutBreaks(s: string)
    requires Base64.Decode(s).Some?
    ensures Base64.Encode(Base64.Decode(s).value) == s <==> Base64.WithoutBreaks(s) == s
  {
    Base64.Canonical(s);
  }

  /**
   Different texts can stand for one hash: the parser reads leading zeros and skips line breaks.
   An accepted text is the one that is printed for what it holds exactly when it has neither.
   */
  lemma ReprintedIff(s: string)
    requires Parse(s).Some?
    ensures var parsed := Parse(s).value;
            Format(parsed.params, parsed.salt, parsed.key) == s <==> IsCanonical(s)
  {
    var parts := Split(s, '$');
    var parsed := Parse(s).value;
    var text := Format(parsed.params, parsed.salt, parsed.key);
    ParametersOfParsed(parts[3]);
    EncodedWithoutBreaks(parts[4]);
    EncodedWithoutBreaks(parts[5]);
    SplitOfFormat(parsed.params, parsed.salt, parsed.key);
    JoinOfSplit(s, '$');
    JoinOfSplit(text, '$');
    hide Split, Format, PrintParameters, ParseParameters, Unpadded, Base64.Encode, Base64.Decode,
         Base64.WithoutBreaks;
    assert parts == [parts[0], parts[1], parts[2], parts[3], parts[4], parts[5]];
    assert Parts(parsed.params, parsed.salt, parsed.key) == parts <==> text == s by {
      hide Parse, Parts;
    }
  }

  /** A hash text with a zero before the memory cost. */
  function PaddedParameters(p: Parameters): seq<string> {
    [Numeral("m=0", p.memory), Numeral("t=", p.iterations), Numeral("p=", p.parallelism)]
  }

  function PaddedParts(p: Parameters, salt: seq<byte>, key: seq<byte>): seq<string> {
    ["", "argon2id", "v=19", Join(PaddedParameters(p), ','), Base64.Encode(salt), Base64.Encode(key)]
  }

  function Padded(p: Parameters, salt: seq<byte>, key: seq<byte>): string {
    Join(PaddedParts(p, salt, key), '$')
  }

  lemma PaddedMemory(p: Parameters)
    requires InRange(p)
    ensures ParseParameter(Numeral("m=0", p.memory), "m=", 1024, 1024 * 1024, 0x1_0000_0000) == Some(p.memory)
  {
    var s, digits := Numeral("m=0", p.memory), "0" + Decimal.Print(p.memory);
    assert s == "m=" + digits && s[..2] == "m=" && s[2..] == digits;
    Decimal.ValueOfPrint(p.memory);
    Decimal.ValueWithZero(Decimal.Print(p.memory));
  }

  lemma SplitOfPadded(p: Parameters, salt: seq<byte>, key: seq<byte>)
    ensures Split(Padded(p, salt, key), '$') == PaddedParts(p, salt, key)
    ensures Split(Join(PaddedParameters(p), ','), ',') == PaddedParameters(p)
  {
    SplitOfJoin(PaddedParameters(p), ',');
    var m, t, n := Numeral("m=0", p.memory), Numeral("t=", p.iterations), Numeral("p=", p.parallelism);
    JoinOfThree(m, t, n, ',');
    NoDollarInBase64(salt);
    NoDollarInBase64(key);
    hide Base64.Encode, Join, Split;
    SplitOfJoin(PaddedParts(p, salt, key), '$');
  }

  lemma JoinOfThree(a: string, b: string, c: string, sep: char)
    ensures Join([a, b, c], sep) == a + [sep] + (b + [sep] + c)
  {
    assert [a, b, c][1..] == [b, c] && [b, c][1..] == [c];
    assert Join([b, c], sep) == b + [sep] + Join([c], sep);
  }

  lemma PaddedParametersAreRead(p: Parameters)
    requires InRange(p)
    ensures ParseParameters(Join(PaddedParameters(p), ',')) == Some(p)
  {
    SplitOfPadded(p, [], []);
    PaddedMemory(p);
    ParseNumeral("t=", p.iterations, 1, 10, 0x1_0000_0000);
    ParseNumeral("p=", p.parallelism, 1, 16, 0x100);
    hide Split, Join, Padded, ParseParameter, Numeral;
  }

  /** Several texts do stand for one hash: whatever was printed is also read with a zero put in. */
  lemma LeadingZeroIsRead(p: Parameters, salt: seq<byte>, key: seq<byte>)
    requires InRange(p) && |salt| == p.saltLength && |key| == p.keyLength
    ensures Parse(Padded(p, salt, key)) == Some(Parsed(p, salt, key)) == Parse(Format(p, salt, key))
    ensures Padded(p, salt, key) != Format(p, salt, key)
  {
    hide ParseParameters, Join, Split, Format, Padded, Base64.Encode, Base64.Decode, PrintParameters;
    ParseOfFormat(p, salt, key);
    SplitOfPadded(p, salt, key);
    PaddedParametersAreRead(p);
    Base64.RoundTrip(salt);
    Base64.RoundTrip(key);
    SplitOfFormat(p, salt, key);
    SplitOfParameters(p);
    Decimal.NoLeadingZero(p.memory);
    assert PaddedParameters(p)[0] != ParameterParts(p)[0] by {
      assert Numeral("m=0", p.memory)[2] == '0' && Numeral("m=", p.memory)[2] == Decimal.Print(p.memory)[0];
    }
    hide PaddedParameters, ParameterParts;
  }

  lemma DefaultNumerals()
    ensures Decimal.Print(19) == "19" && Decimal.Print(19456) == "19456"
    ensures Decimal.Print(2) == "2" && Decimal.Print(1) == "1"
  {
    assert Decimal.Print(1) == "1";
    assert Decimal.Print(194) == "194" && Decimal.Print(1945) == "1945";
  }

  lemma DefaultPrinted()
    ensures PrintParameters(DefaultParameters) == "m=19456,t=2,p=1"
  {
    DefaultNumerals();
    hide Decimal.Print;
    assert "m=" + "19456" + ",t=" + "2" + ",p=" + "1" == "m=19456,t=2,p=1";
  }

  lemma DefaultConcatenated(x: string, y: string)
    ensures "$argon2id$v=" + "19" + "$" + "m=19456,t=2,p=1" + "$" + x + "$" + y
         == "$argon2id$v=19$m=19456,t=2,p=1$" + x + "$" + y
  {
  }

  /** The text of a hash with the default parameters. */
  lemma DefaultText(salt: seq<byte>, key: seq<byte>)
    ensures Format(DefaultParameters, salt, key)
         == "$argon2id$v=19$m=19456,t=2,p=1$" + Base64.Encode(salt) + "$" + Base64.Encode(key)
  {
    hide Base64.Encode, Decimal.Print, PrintParameters;
    DefaultNumerals();
    DefaultPrinted();
    DefaultConcatenated(Base64.Encode(salt), Base64.Encode(key));
  }

  /** A text that is no hash is an error to verify, and always due for renewal. */
  lemma UnreadableNeedsRehash(derive: Derive, current: Parameters, password: seq<byte>, encoded: string)
    requires Parse(encoded).None?
    ensures NeedsRehash(current, encoded) && Verify(derive, password, encoded) == None
  {
    hide Parse;
  }
}
