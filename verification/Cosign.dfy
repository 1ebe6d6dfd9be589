/**
 Signature material of an image: the pre-authentication encoding (PAE) of the DSSE protocol,
 version 1, and the marking of attachments by the candidate public keys of a trust policy.
 The signature algorithms and the SHA-256 digest are an uninterpreted function.
 */
module Cosign {
  import opened Wrappers
  import opened Text
  import Decimal

  const Space: byte := 32

  /** "DSSEv1" in ASCII. */
  const Version: seq<byte> := [68, 83, 83, 69, 118, 49]

  /** A length as `%d` prints it. */
  function Numeral(n: nat): (s: seq<byte>)
    ensures Space !in s
  {
    var digits := Decimal.Print(n);
    seq(|digits|, i requires 0 <= i < |digits| => digits[i] as int as byte)
  }

  /** A counted field: the length of the bytes, a space, and the bytes. */
  function Field(bytes: seq<byte>): seq<byte> {
    Numeral(|bytes|) + [Space] + bytes
  }

  function Encoding(payloadType: seq<byte>, payload: seq<byte>): seq<byte> {
    Version + [Space] + Field(payloadType) + [Space] + Field(payload)
  }

  lemma NumeralIsInjective(m: nat, n: nat)
    requires Numeral(m) == Numeral(n)
    ensures m == n
  {
    var x, y := Decimal.Print(m), Decimal.Print(n);
    forall i | 0 <= i < |x| ensures x[i] == y[i] {
      assert Numeral(m)[i] as int == x[i] as int && Numeral(n)[i] as int == y[i] as int;
    }
    assert x == y;
    Decimal.PrintIsInjective(m, n);
  }

  /** A text without spaces ends at the first space. */
  lemma NumeralEnds(digits: seq<byte>, rest: seq<byte>, digits': seq<byte>, rest': seq<byte>)
    requires Space !in digits && Space !in digits'
    requires digits + [Space] + rest == digits' + [Space] + rest'
    ensures digits == digits' && rest == rest'
  {
    var whole := digits + [Space] + rest;
    assert whole[|digits|] == Space && whole[|digits'|] == Space;
    assert forall k | 0 <= k < |digits| :: whole[k] == digits[k] != Space;
    assert forall k | 0 <= k < |digits'| :: whole[k] == digits'[k] != Space;
    assert digits == whole[..|digits|] == digits';
    assert rest == whole[|digits| + 1..] == rest';
  }

  /** Bytes of known length end where the length says, whatever they are. */
  lemma CountedEnds(bytes: seq<byte>, rest: seq<byte>, bytes': seq<byte>, rest': seq<byte>)
    requires |bytes| == |bytes'| && bytes + rest == bytes' + rest'
    ensures bytes == bytes' && rest == rest'
  {
    var whole := bytes + rest;
    assert bytes == whole[..|bytes|] == bytes';
    assert rest == whole[|bytes|..] == rest';
  }

  /** A counted field is told apart from all that follows it. */
  lemma FieldEnds(bytes: seq<byte>, rest: seq<byte>, bytes': seq<byte>, rest': seq<byte>)
    requires Field(bytes) + rest == Field(bytes') + rest'
    ensures bytes == bytes' && rest == rest'
  {
    var n, n' := Numeral(|bytes|), Numeral(|bytes'|);
    assert n + [Space] + (bytes + rest) == Field(bytes) + rest;
    assert n' + [Space] + (bytes' + rest') == Field(bytes') + rest';
    NumeralEnds(n, bytes + rest, n', bytes' + rest');
    NumeralIsInjective(|bytes|, |bytes'|);
    CountedEnds(bytes, rest, bytes', rest');
  }

  /** The encoding fixes both the type and the payload, for all bytes. */
  lemma EncodingIsInjective(
      payloadType: seq<byte>, payload: seq<byte>, payloadType': seq<byte>, payload': seq<byte>)
    requires Encoding(payloadType, payload) == Encoding(payloadType', payload')
    ensures payloadType == payloadType' && payload == payload'
  {
    hide Field;
    var head := Version + [Space];
    var rest, rest' := [Space] + Field(payload), [Space] + Field(payload');
    assert head + (Field(payloadType) + rest) == Encoding(payloadType, payload);
    assert head + (Field(payloadType') + rest') == Encoding(payloadType', payload');
    CountedEnds(head, Field(payloadType) + rest, head, Field(payloadType') + rest');
    FieldEnds(payloadType, rest, payloadType', rest');
    CountedEnds([Space], Field(payload), [Space], Field(payload'));
    assert Field(payload) + [] == Field(payload') + [];
    FieldEnds(payload, [], payload', []);
  }

  /** For twelve bytes of the type "t" the encoding begins "DSSEv1 1 t 12 ", and the payload follows. */
  lemma EncodingOfTwelve(payload: seq<byte>)
    requires |payload| == 12
    ensures Encoding([116], payload) == [68, 83, 83, 69, 118, 49, 32, 49, 32, 116, 32, 49, 50, 32] + payload
  {
    assert Decimal.Print(1) == "1" && Decimal.Print(12) == "12";
    assert Numeral(1) == [49] && Numeral(12) == [49, 50];
  }

  /** What a discovered record signs: a bare payload, or a typed one in an envelope. */
  datatype Record = Bare(payload: seq<byte>) | Enveloped(payloadType: seq<byte>, payload: seq<byte>)

  function SignedPayload(r: Record): seq<byte> {
    match r
    case Bare(payload) => payload
    case Enveloped(payloadType, payload) => Encoding(payloadType, payload)
  }

  /** A JSON text starts with white space or a value (sections 2 and 3 of RFC 8259). */
  predicate MayStartJson(payload: seq<byte>) {
    payload != [] && payload[0] in
    { 0x20, 0x09, 0x0A, 0x0D, 0x5B, 0x7B, 0x22, 0x2D, 0x66, 0x6E, 0x74,
      0x30, 0x31, 0x32, 0x33, 0x34, 0x35, 0x36, 0x37, 0x38, 0x39 }
  }

  /** A bare JSON payload is never taken for an envelope: the signed bytes fix the record. */
  lemma SignedPayloadFixesRecord(r: Record, r': Record)
    requires MayStartJson(r.payload) && MayStartJson(r'.payload)
    requires SignedPayload(r) == SignedPayload(r')
    ensures r == r'
  {
    if r.Enveloped? {
      assert SignedPayload(r)[0] == 68;
    }
    if r'.Enveloped? {
      assert SignedPayload(r')[0] == 68;
    }
    if r.Enveloped? && r'.Enveloped? {
      EncodingIsInjective(r.payloadType, r.payload, r'.payloadType, r'.payload);
    }
  }

  /** Keys, with what they verify and the hint their fingerprint gives, both uninterpreted. */
  type Key = nat

  type Check = (Key, seq<byte>, seq<byte>) -> bool

  type Hint = Key -> string

  datatype Attachment = Attachment(
    signedPayload: seq<byte>,
    signature: seq<byte>,
    keyHint: string,
    verifiedBy: Option<Key>,
    invalidBy: Option<Key>)

  /** verifyPublicKeySignature: nothing signs an empty payload, and no signature is empty. */
  predicate Verifies(check: Check, key: Key, item: Attachment) {
    item.signedPayload != [] && item.signature != [] && check(key, item.signedPayload, item.signature)
  }

  predicate Undecided(item: Attachment) {
    item.verifiedBy.None? && item.invalidBy.None?
  }

  /**
   If a signature is good for one message only under a key, then what the key verifies for an
   attachment fixes the record that was signed.
   */
  lemma VerificationFixesRecord(check: Check, key: Key, r: Record, r': Record, item: Attachment)
    requires forall x, y | check(key, x, item.signature) && check(key, y, item.signature) :: x == y
    requires MayStartJson(r.payload) && MayStartJson(r'.payload)
    requires Verifies(check, key, item.(signedPayload := SignedPayload(r)))
    requires Verifies(check, key, item.(signedPayload := SignedPayload(r')))
    ensures r == r'
  {
    SignedPayloadFixesRecord(r, r');
  }

  /** One candidate key and one attachment: a decided attachment is left alone. */
  function Marked(check: Check, hint: Hint, key: Key, item: Attachment): Attachment {
    if !Undecided(item) then item
    else if Verifies(check, key, item) then item.(verifiedBy := Some(key))
    else if item.keyHint == hint(key) then item.(invalidBy := Some(key))
    else item
  }

  function MarkedByAll(check: Check, hint: Hint, keys: seq<Key>, item: Attachment): Attachment {
    if keys == [] then item
    else
      var before := |keys| - 1;
      Marked(check, hint, keys[before], MarkedByAll(check, hint, keys[..before], item))
  }

  /** verifyCandidate for a public key: every attachment is tried in place. */
  method VerifyCandidate(check: Check, hint: Hint, key: Key, attachments: array<Attachment>)
    modifies attachments
    ensures forall i | 0 <= i < attachments.Length ::
              attachments[i] == Marked(check, hint, key, old(attachments[i]))
  {
    for index := 0 to attachments.Length
      invariant forall i | 0 <= i < index ::
                  attachments[i] == Marked(check, hint, key, old(attachments[i]))
      invariant forall i | index <= i < attachments.Length :: attachments[i] == old(attachments[i])
    {
      var item := attachments[index];
      if Undecided(item) {
        if !Verifies(check, key, item) {
          if item.keyHint == hint(key) {
            attachments[index] := item.(invalidBy := Some(key));
          }
        } else {
          attachments[index] := item.(verifiedBy := Some(key));
        }
      }
    }
  }

  /** All candidate keys in turn, over the attachments as they were discovered. */
  method VerifyKeys(check: Check, hint: Hint, keys: seq<Key>, attachments: array<Attachment>)
    modifies attachments
    ensures forall i | 0 <= i < attachments.Length ::
              attachments[i] == MarkedByAll(check, hint, keys, old(attachments[i]))
  {
    for k := 0 to |keys|
      invariant forall i | 0 <= i < attachments.Length ::
                  attachments[i] == MarkedByAll(check, hint, keys[..k], old(attachments[i]))
    {
      VerifyCandidate(check, hint, keys[k], attachments);
      assert keys[..k + 1][..k] == keys[..k];
    }
    assert keys[..|keys|] == keys;
  }

  /** A key decides an attachment when it verifies it, or is named by it. */
  predicate Decides(check: Check, hint: Hint, key: Key, item: Attachment) {
    Verifies(check, key, item) || item.keyHint == hint(key)
  }

  /** keys[i] is the first to decide the attachment. */
  predicate DecidesFirst(check: Check, hint: Hint, keys: seq<Key>, item: Attachment, i: int) {
    0 <= i < |keys| && Decides(check, hint, keys[i], item)
    && forall j | 0 <= j < i :: !Decides(check, hint, keys[j], item)
  }

  /** The first key that decides an attachment settles it, and it alone. */
  lemma {:induction false} FirstDecides(
      check: Check, hint: Hint, keys: seq<Key>, item: Attachment, i: nat)
    requires Undecided(item) && DecidesFirst(check, hint, keys, item, i)
    ensures MarkedByAll(check, hint, keys, item)
         == if Verifies(check, keys[i], item)
            then item.(verifiedBy := Some(keys[i])) else item.(invalidBy := Some(keys[i]))
  {
    var before := keys[..|keys| - 1];
    if i == |keys| - 1 {
      NoneDecides(check, hint, before, item);
    } else {
      FirstDecides(check, hint, before, item, i);
    }
  }

  lemma {:induction false} NoneDecides(check: Check, hint: Hint, keys: seq<Key>, item: Attachment)
    requires forall key | key in keys :: !Decides(check, hint, key, item)
    ensures MarkedByAll(check, hint, keys, item) == item
  {
    if keys != [] {
      assert !Decides(check, hint, keys[|keys| - 1], item);
      NoneDecides(check, hint, keys[..|keys| - 1], item);
    }
  }

  lemma {:induction false} FirstDecidesExists(
      check: Check, hint: Hint, keys: seq<Key>, item: Attachment) returns (i: nat)
    requires exists key | key in keys :: Decides(check, hint, key, item)
    ensures DecidesFirst(check, hint, keys, item, i)
  {
    if Decides(check, hint, keys[0], item) {
      i := 0;
    } else {
      var rest := FirstDecidesExists(check, hint, keys[1..], item);
      i := rest + 1;
      forall j | 0 <= j < i ensures !Decides(check, hint, keys[j], item) {
        if j > 0 {
          assert keys[j] == keys[1..][j - 1];
        }
      }
    }
  }

  /** Verified exactly when the first deciding key verifies, invalid exactly when it does not. */
  lemma VerifiedIff(check: Check, hint: Hint, keys: seq<Key>, item: Attachment, key: Key)
    requires Undecided(item)
    ensures MarkedByAll(check, hint, keys, item).verifiedBy == Some(key)
       <==> exists i :: DecidesFirst(check, hint, keys, item, i) && keys[i] == key
                        && Verifies(check, key, item)
    ensures MarkedByAll(check, hint, keys, item).invalidBy == Some(key)
       <==> exists i :: DecidesFirst(check, hint, keys, item, i) && keys[i] == key
                        && !Verifies(check, key, item)
  {
    if exists k | k in keys :: Decides(check, hint, k, item) {
      var first := FirstDecidesExists(check, hint, keys, item);
      FirstDecides(check, hint, keys, item, first);
    } else {
      NoneDecides(check, hint, keys, item);
    }
  }

  /**
   An attachment is valid by a candidate exactly when that key's signature check accepts its signed
   payload and signature, neither of them empty, and no earlier candidate's check accepted it or bore
   the hint it names. It is invalid by a candidate exactly when it names that key, whose check fails.
   */
  lemma VerdictIs(check: Check, hint: Hint, keys: seq<Key>, item: Attachment, i: nat)
    requires Undecided(item) && i < |keys|
    requires forall j | 0 <= j < i ::
               !(item.signedPayload != [] && item.signature != [] && check(keys[j], item.signedPayload, item.signature))
               && item.keyHint != hint(keys[j])
    ensures item.signedPayload != [] && item.signature != [] && check(keys[i], item.signedPayload, item.signature) ==>
              MarkedByAll(check, hint, keys, item) == item.(verifiedBy := Some(keys[i]))
    ensures !(item.signedPayload != [] && item.signature != [] && check(keys[i], item.signedPayload, item.signature))
            && item.keyHint == hint(keys[i]) ==>
              MarkedByAll(check, hint, keys, item) == item.(invalidBy := Some(keys[i]))
  {
    if Decides(check, hint, keys[i], item) {
      FirstDecides(check, hint, keys, item, i);
    }
  }

  /** An attachment that no candidate's check accepts, and that names none, stays undecided. */
  lemma NoVerdict(check: Check, hint: Hint, keys: seq<Key>, item: Attachment)
    requires forall key | key in keys ::
               !(item.signedPayload != [] && item.signature != [] && check(key, item.signedPayload, item.signature))
               && item.keyHint != hint(key)
    ensures MarkedByAll(check, hint, keys, item) == item
  {
    NoneDecides(check, hint, keys, item);
  }

  predicate SomeVerifies(check: Check, keys: seq<Key>, item: Attachment) {
    exists key :: key in keys && Verifies(check, key, item)
  }

  /** A key that the attachment names but that does not verify it. */
  predicate Misnamed(check: Check, hint: Hint, key: Key, item: Attachment) {
    item.keyHint == hint(key) && !Verifies(check, key, item)
  }

  ghost predicate VerifiedInEveryOrder(check: Check, hint: Hint, keys: seq<Key>, item: Attachment) {
    forall order: seq<Key> | multiset(order) == multiset(keys) ::
      MarkedByAll(check, hint, order, item).verifiedBy.Some?
  }

  /** Verified in every order means some key verifies and no candidate is misnamed. */
  lemma VerifiedInEveryOrderIff(check: Check, hint: Hint, keys: seq<Key>, item: Attachment)
    requires Undecided(item)
    ensures VerifiedInEveryOrder(check, hint, keys, item)
       <==> SomeVerifies(check, keys, item)
            && forall key | key in keys :: !Misnamed(check, hint, key, item)
  {
    if SomeVerifies(check, keys, item)
       && forall key | key in keys :: !Misnamed(check, hint, key, item) {
      forall order: seq<Key> | multiset(order) == multiset(keys)
        ensures MarkedByAll(check, hint, order, item).verifiedBy.Some?
      {
        SameMembers(order, keys);
        var first := FirstDecidesExists(check, hint, order, item);
        FirstDecides(check, hint, order, item, first);
        assert order[first] in keys;
      }
    }
    if !SomeVerifies(check, keys, item) {
      NoneVerifies(check, hint, keys, item);
    }
    forall key | key in keys && Misnamed(check, hint, key, item)
      ensures !VerifiedInEveryOrder(check, hint, keys, item)
    {
      MisnamedFirst(check, hint, keys, item, key);
    }
  }

  ghost predicate VerifiedInSomeOrder(check: Check, hint: Hint, keys: seq<Key>, item: Attachment) {
    exists order: seq<Key> :: multiset(order) == multiset(keys)
                              && MarkedByAll(check, hint, order, item).verifiedBy.Some?
  }

  /**
   The order of the candidates matters, some verifying the attachment and some not, exactly when
   one candidate verifies it and another is named by it without verifying it.
   */
  lemma OrderMattersIff(check: Check, hint: Hint, keys: seq<Key>, item: Attachment)
    requires Undecided(item)
    ensures VerifiedInSomeOrder(check, hint, keys, item) && !VerifiedInEveryOrder(check, hint, keys, item)
       <==> SomeVerifies(check, keys, item) && exists key :: key in keys && Misnamed(check, hint, key, item)
  {
    VerifiedInEveryOrderIff(check, hint, keys, item);
    VerifiedInSomeOrderIff(check, hint, keys, item);
    hide VerifiedInSomeOrder, VerifiedInEveryOrder, SomeVerifies, Misnamed;
  }

  /** Some order verifies the attachment exactly when some candidate does. */
  lemma VerifiedInSomeOrderIff(check: Check, hint: Hint, keys: seq<Key>, item: Attachment)
    requires Undecided(item)
    ensures VerifiedInSomeOrder(check, hint, keys, item) <==> SomeVerifies(check, keys, item)
  {
    hide MarkedByAll;
    forall order: seq<Key> | multiset(order) == multiset(keys)
      ensures MarkedByAll(check, hint, order, item).verifiedBy.Some? ==> SomeVerifies(check, keys, item)
    {
      SameMembers(order, keys);
      if !SomeVerifies(check, order, item) {
        NoneVerifies(check, hint, order, item);
      }
    }
    if key :| key in keys && Verifies(check, key, item) {
      var order := FirstInOrder(keys, key);
      FirstDecides(check, hint, order, item, 0);
    }
  }

  lemma FirstInOrder(keys: seq<Key>, key: Key) returns (order: seq<Key>)
    requires key in keys
    ensures multiset(order) == multiset(keys) && order != [] && order[0] == key
  {
    var i :| 0 <= i < |keys| && keys[i] == key;
    order := [key] + (keys[..i] + keys[i + 1..]);
    assert keys == keys[..i] + [key] + keys[i + 1..];
  }

  /** Key 1 verifies an attachment that names key 2: valid in one order, invalid in the other. */
  lemma TwoOrdersDiffer()
    ensures var check: Check, hint: Hint := (key, message, signature) => key == 1, key => if key == 2 then "b" else "a";
            var item := Attachment([1], [1], "b", None, None);
            && MarkedByAll(check, hint, [1, 2], item) == item.(verifiedBy := Some(1))
            && MarkedByAll(check, hint, [2, 1], item) == item.(invalidBy := Some(2))
  {
    var check: Check, hint: Hint := (key, message, signature) => key == 1, key => if key == 2 then "b" else "a";
    var item := Attachment([1], [1], "b", None, None);
    FirstDecides(check, hint, [1, 2], item, 0);
    FirstDecides(check, hint, [2, 1], item, 0);
  }

  /** A misnamed key tried first marks the attachment invalid. */
  lemma MisnamedFirst(check: Check, hint: Hint, keys: seq<Key>, item: Attachment, key: Key)
    requires Undecided(item) && key in keys && Misnamed(check, hint, key, item)
    ensures !VerifiedInEveryOrder(check, hint, keys, item)
  {
    var order := FirstInOrder(keys, key);
    FirstDecides(check, hint, order, item, 0);
  }

  lemma SameMembers(order: seq<Key>, keys: seq<Key>)
    requires multiset(order) == multiset(keys)
    ensures forall key :: key in order <==> key in keys
  {
    forall key ensures key in order <==> key in keys {
      assert key in order <==> key in multiset(order);
      assert key in keys <==> key in multiset(keys);
    }
  }

  lemma {:induction false} NoneVerifies(check: Check, hint: Hint, keys: seq<Key>, item: Attachment)
    requires Undecided(item) && !SomeVerifies(check, keys, item)
    ensures MarkedByAll(check, hint, keys, item).verifiedBy.None?
    ensures var marked := MarkedByAll(check, hint, keys, item);
            marked.signedPayload == item.signedPayload && marked.signature == item.signature
  {
    if keys != [] {
      NoneVerifies(check, hint, keys[..|keys| - 1], item);
      assert keys[|keys| - 1] in keys;
    }
  }
}
