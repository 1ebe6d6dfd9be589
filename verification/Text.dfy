/** Bytes, and splitting and joining strings as Go's `strings` package does. */
module Text {

  newtype byte = x: int | 0 <= x < 256

  /** unicode.IsSpace, on the code points of a string. */
  predicate IsSpace(c: char) {
    c in [' ', '\t', '\n', '\U{b}', '\U{c}', '\r', '\U{85}', '\U{a0}', '\U{1680}', '\U{2028}', '\U{2029}',
          '\U{202f}', '\U{205f}', '\U{3000}']
    || '\U{2000}' <= c <= '\U{200a}'
  }

  /** len: the bytes of a string of code points in UTF-8 (section 3 of RFC 3629). */
  function Utf8Length(s: string): nat {
    if s == "" then 0
    else
      (if s[0] < '\U{80}' then 1 else if s[0] < '\U{800}' then 2 else if s[0] < '\U{10000}' then 3 else 4)
      + Utf8Length(s[1..])
  }

  /** strings.Split with a separator of one character. */
  function Split(s: string, sep: char): (parts: seq<string>)
    ensures |parts| >= 1
  {
    if s == "" then [""]
    else
      var rest := Split(s[1..], sep);
      if s[0] == sep then [""] + rest else [[s[0]] + rest[0]] + rest[1..]
  }

  /** strings.Join with a separator of one character. */
  function Join(parts: seq<string>, sep: char): string {
    if parts == [] then ""
    else if |parts| == 1 then parts[0]
    else parts[0] + [sep] + Join(parts[1..], sep)
  }

  lemma {:induction false} SplitWhole(s: string, sep: char)
    requires sep !in s
    ensures Split(s, sep) == [s]
  {
    if s != "" {
      SplitWhole(s[1..], sep);
      assert [s[0]] + s[1..] == s;
    }
  }

  lemma {:induction false} SplitFirst(first: string, rest: string, sep: char)
    requires sep !in first
    ensures Split(first + [sep] + rest, sep) == [first] + Split(rest, sep)
  {
    var s := first + [sep] + rest;
    if first == "" {
      assert s[1..] == rest;
    } else {
      assert s[1..] == first[1..] + [sep] + rest;
      SplitFirst(first[1..], rest, sep);
      assert [first[0]] + first[1..] == first;
    }
  }

  /** Parts without the separator survive joining and splitting. */
  lemma {:induction false} SplitOfJoin(parts: seq<string>, sep: char)
    requires parts != [] && forall part | part in parts :: sep !in part
    ensures Split(Join(parts, sep), sep) == parts
  {
    if |parts| == 1 {
      SplitWhole(parts[0], sep);
    } else {
      SplitFirst(parts[0], Join(parts[1..], sep), sep);
      SplitOfJoin(parts[1..], sep);
    }
  }

  /** Any string is the join of its parts, and no part holds the separator. */
  lemma {:induction false} JoinOfSplit(s: string, sep: char)
    ensures Join(Split(s, sep), sep) == s
    ensures forall part | part in Split(s, sep) :: sep !in part
  {
    if s != "" {
      JoinOfSplit(s[1..], sep);
      var rest := Split(s[1..], sep);
      if s[0] == sep {
        assert Split(s, sep)[1..] == rest;
      } else {
        assert Split(s, sep)[1..] == rest[1..];
        assert s == [s[0]] + s[1..];
      }
    }
  }

  predicate IsAlphanumeric(c: char) {
    'a' <= c <= 'z' || '0' <= c <= '9'
  }

  predicate IsSeparator(c: char) {
    c == '.' || c == '_' || c == '-'
  }

  predicate SeparatorsAt(s: string, i: nat)
    requires i < |s| - 1
  {
    IsSeparator(s[i]) && IsSeparator(s[i + 1])
  }

  /** Words of lower-case letters and digits, with single separators between them. */
  predicate IsName(s: string) {
    s != "" && IsAlphanumeric(s[0]) && IsAlphanumeric(s[|s| - 1])
    && (forall i | 0 <= i < |s| :: IsAlphanumeric(s[i]) || IsSeparator(s[i]))
    && (forall i | 0 <= i < |s| - 1 :: !SeparatorsAt(s, i))
  }

  /** The byte order of strings. */
  predicate Less(a: string, b: string) {
    b != "" && (a == "" || a[0] < b[0] || (a[0] == b[0] && Less(a[1..], b[1..])))
  }

  lemma {:induction false} LessIsTransitive(a: string, b: string, c: string)
    requires Less(a, b) && Less(b, c)
    ensures Less(a, c)
  {
    if a != "" && a[0] == b[0] == c[0] {
      LessIsTransitive(a[1..], b[1..], c[1..]);
    }
  }

  lemma {:induction false} LessIsTotal(a: string, b: string)
    ensures !(Less(a, b) && Less(b, a)) && !Less(a, a)
    ensures a != b ==> Less(a, b) || Less(b, a)
  {
    if a != "" && b != "" {
      LessIsTotal(a[1..], b[1..]);
      if a[1..] == b[1..] && a[0] == b[0] {
        assert a == [a[0]] + a[1..] == b;
      }
    }
    if a != "" {
      LessIsTotal(a[1..], a[1..]);
    }
  }

  /** The first difference decides: strings are ordered as in a dictionary. */
  lemma {:induction false} LessAtDifference(common: string, x: char, y: char, s: string, t: string)
    requires x < y
    ensures Less(common + [x] + s, common + [y] + t) && !Less(common + [y] + t, common + [x] + s)
  {
    var a, b := common + [x] + s, common + [y] + t;
    if common != "" {
      assert a[1..] == common[1..] + [x] + s && b[1..] == common[1..] + [y] + t;
      LessAtDifference(common[1..], x, y, s, t);
    }
  }

  /** A string comes after every part that it starts with. */
  lemma {:induction false} LessThanLonger(s: string, more: string)
    requires more != ""
    ensures Less(s, s + more) && !Less(s + more, s)
  {
    if s != "" {
      assert (s + more)[1..] == s[1..] + more;
      LessThanLonger(s[1..], more);
    }
  }

  /**
   Names are what `^[a-z0-9]+(?:[._-][a-z0-9]+)*$` matches: a word is a name; a word, one of the three
   separators and a name make a name, and nothing else that starts with a word and a separator does.
   */
  lemma NameGrammar(word: string, separator: char, rest: string)
    requires word != "" && forall c | c in word :: 'a' <= c <= 'z' || '0' <= c <= '9'
    ensures IsName(word)
    ensures separator in "._-" ==> (IsName(word + [separator] + rest) <==> IsName(rest))
    ensures separator !in "._-" && !('a' <= separator <= 'z' || '0' <= separator <= '9') ==>
              !IsName(word + [separator] + rest)
  {
    assert forall i | 0 <= i < |word| :: word[i] in word;
    assert IsSeparator(separator) <==> separator in "._-";
    if IsSeparator(separator) {
      JoinedName(word, separator, rest);
    } else if !IsAlphanumeric(separator) {
      assert (word + [separator] + rest)[|word|] == separator;
    }
  }

  lemma JoinedName(word: string, separator: char, rest: string)
    requires word != "" && IsSeparator(separator)
    requires forall i | 0 <= i < |word| :: IsAlphanumeric(word[i])
    ensures IsName(word + [separator] + rest) <==> IsName(rest)
  {
    var s, n := word + [separator] + rest, |word| + 1;
    assert forall i | 0 <= i < |rest| :: rest[i] == s[n + i];
    if IsName(s) {
      assert rest != "" by {
        assert s[|s| - 1] != separator;
      }
      assert !SeparatorsAt(s, |word|);
      forall i | 0 <= i < |rest| - 1 ensures !SeparatorsAt(rest, i) {
        assert !SeparatorsAt(s, n + i);
      }
    }
    if IsName(rest) {
      forall i | 0 <= i < |s| - 1 ensures !SeparatorsAt(s, i) {
        if i >= n {
          assert !SeparatorsAt(rest, i - n);
        }
      }
    }
  }

  /** A name starts with a word. */
  lemma NameStartsWithWord(s: string)
    ensures IsName(s) ==> s != "" && ('a' <= s[0] <= 'z' || '0' <= s[0] <= '9')
  {
  }

  /** The code points with the property White_Space. */
  lemma SpacesAre(c: char)
    ensures IsSpace(c)
       <==> var n := c as int;
            9 <= n <= 13 || n == 32 || n == 133 || n == 160 || n == 5760 || 8192 <= n <= 8202
            || n == 8232 || n == 8233 || n == 8239 || n == 8287 || n == 12288
  {
  }

  /** A code point takes one byte below 128, two below 2048, three below 65536, and four from there on. */
  lemma Utf8LengthIs(c: char, s: string)
    ensures Utf8Length("") == 0
    ensures var n := c as int;
            Utf8Length([c] + s) - Utf8Length(s)
            == if n <= 127 then 1 else if n <= 2047 then 2 else if n <= 65535 then 3 else 4
  {
    assert ([c] + s)[1..] == s;
  }
}
