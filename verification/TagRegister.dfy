/**
 A tag as a last-writer register: deliveries of pushes of one tag name, by digest and
 observation time. The register forgets that an artifact was observed again while the tag
 pointed at it, so the newest observation wins only under conditions.
 */
module TagRegister {
  import opened Wrappers

  type Time = nat
  type Digest = string

  datatype Tag = Tag(digest: Digest, createdAt: Time, updatedAt: Time)

  datatype Delivery = Delivery(digest: Digest, at: Time)

  /** The tag after one delivery. Another artifact takes it over only at a later time. */
  function Moved(current: Option<Tag>, d: Delivery): Tag {
    match current
    case None => Tag(d.digest, d.at, d.at)
    case Some(tag) =>
      if tag.digest != d.digest && d.at > tag.updatedAt then tag.(digest := d.digest, updatedAt := d.at) else tag
  }

  function Delivered(current: Option<Tag>, ds: seq<Delivery>): Option<Tag> {
    if ds == [] then current
    else Some(Moved(Delivered(current, ds[..|ds| - 1]), ds[|ds| - 1]))
  }

  /** No run moves a tag back in time, and creation is remembered. */
  lemma {:induction false} TagMovesForward(tag: Tag, ds: seq<Delivery>)
    ensures var after := Delivered(Some(tag), ds).value;
            && after.createdAt == tag.createdAt && tag.updatedAt <= after.updatedAt
            && (after.digest != tag.digest ==> tag.updatedAt < after.updatedAt)
            && (after.updatedAt == tag.updatedAt ==> after == tag)
  {
    if ds != [] {
      TagMovesForward(tag, ds[..|ds| - 1]);
    }
  }

  // Redelivery

  /** Every delivery in the list is of the tagged artifact or no newer than the tag. */
  ghost predicate Settled(tag: Tag, ds: seq<Delivery>) {
    forall d | d in ds :: d.digest == tag.digest || d.at <= tag.updatedAt
  }

  /** Redelivering from a list in any order changes nothing, whatever is chosen, exactly when the tag is settled for it. */
  lemma RedeliveryIsNoopIff(tag: Tag, ds: seq<Delivery>)
    ensures Settled(tag, ds) <==>
              forall again: seq<Delivery> | (forall d | d in again :: d in ds) :: Delivered(Some(tag), again) == Some(tag)
  {
    if Settled(tag, ds) {
      forall again: seq<Delivery> | forall d | d in again :: d in ds
        ensures Delivered(Some(tag), again) == Some(tag)
      {
        SettledIsStable(tag, ds, again);
      }
    } else {
      var d :| d in ds && d.digest != tag.digest && d.at > tag.updatedAt;
      assert Delivered(Some(tag), [d]) == Some(Moved(Delivered(Some(tag), [d][..0]), d));
    }
  }

  lemma {:induction false} SettledIsStable(tag: Tag, ds: seq<Delivery>, again: seq<Delivery>)
    requires Settled(tag, ds) && forall d | d in again :: d in ds
    ensures Delivered(Some(tag), again) == Some(tag)
  {
    if again != [] {
      SettledIsStable(tag, ds, again[..|again| - 1]);
    }
  }

  ghost predicate Increasing(ds: seq<Delivery>) {
    forall i, j | 0 <= i < j < |ds| :: ds[i].at < ds[j].at
  }

  /** First deliveries at strictly increasing times leave the tag on the last one, settled for all of them. */
  lemma {:induction false} IncreasingSettles(ds: seq<Delivery>)
    requires ds != [] && Increasing(ds)
    ensures Delivered(None, ds).Some?
    ensures Delivered(None, ds).value.digest == ds[|ds| - 1].digest
    ensures Delivered(None, ds).value.updatedAt <= ds[|ds| - 1].at
    ensures Settled(Delivered(None, ds).value, ds)
  {
    var before := ds[..|ds| - 1];
    if before != [] {
      IncreasingSettles(before);
      assert forall d | d in ds :: d in before || d == ds[|ds| - 1];
    }
  }

  /** After them any redelivery, in any order and number, is a no-op. */
  lemma RedeliveryAfterIncreasing(ds: seq<Delivery>, again: seq<Delivery>)
    requires ds != [] && Increasing(ds) && forall d | d in again :: d in ds
    ensures Delivered(None, ds).Some? && Delivered(None, ds).value.digest == ds[|ds| - 1].digest
    ensures Delivered(Delivered(None, ds), again) == Delivered(None, ds)
  {
    IncreasingSettles(ds);
    SettledIsStable(Delivered(None, ds).value, ds, again);
  }

  // The newest observation

  ghost predicate IsNewest(ds: seq<Delivery>, d: Delivery) {
    d in ds && forall e | e in ds :: e.at <= d.at
  }

  /** One time for each artifact, and another for every other one. */
  ghost predicate OneTimeEach(ds: seq<Delivery>) {
    forall d, e | d in ds && e in ds :: d.digest == e.digest <==> d.at == e.at
  }

  /** With one time for each artifact every delivery order, with repetitions, ends at the newest. */
  lemma {:induction false} NewestWinsWithOneTimeEach(ds: seq<Delivery>, newest: Delivery)
    requires OneTimeEach(ds) && IsNewest(ds, newest)
    ensures Delivered(None, ds).Some?
    ensures Delivered(None, ds).value.digest == newest.digest && Delivered(None, ds).value.updatedAt == newest.at
  {
    var before, last := ds[..|ds| - 1], ds[|ds| - 1];
    if before != [] {
      var at := NewestOf(before);
      assert OneTimeEach(before);
      NewestWinsWithOneTimeEach(before, at);
      assert at in ds && last in ds && forall d | d in ds :: d in before || d == last;
    }
  }

  lemma {:induction false} NewestOf(ds: seq<Delivery>) returns (d: Delivery)
    requires ds != []
    ensures IsNewest(ds, d)
  {
    d := ds[|ds| - 1];
    if |ds| > 1 {
      var e := NewestOf(ds[..|ds| - 1]);
      d := if e.at > d.at then e else d;
    }
  }

  /** Without such a condition the newest observation may lose: A at 1, A at 10, B at 5 ends at B. */
  lemma NewestMayLose()
    ensures var ds := [Delivery("A", 1), Delivery("A", 10), Delivery("B", 5)];
            IsNewest(ds, ds[1]) && Delivered(None, ds).Some? && Delivered(None, ds).value.digest == "B"
  {
    var ds := [Delivery("A", 1), Delivery("A", 10), Delivery("B", 5)];
    assert ds[..2] == [ds[0], ds[1]] && ds[..2][..1] == [ds[0]] && ds[..2][..1][..0] == [];
    assert Delivered(None, ds[..2][..1]) == Some(Moved(None, ds[0]));
    assert Delivered(None, ds[..2]) == Some(Tag("A", 1, 1));
  }

  /**
   Exactly when a delivery takes the tag off the newest observation: it is of another artifact
   and its time lies after the tag's but before the newest one. Ties in time are set aside.
   */
  lemma NewestLosesIff(ds: seq<Delivery>, newest: Delivery, d: Delivery)
    requires IsNewest(ds, newest) && Delivered(None, ds).Some? && Delivered(None, ds).value.digest == newest.digest
    requires forall e, f | e in ds + [d] && f in ds + [d] && e.at == f.at :: e.digest == f.digest
    ensures var tag := Delivered(None, ds).value;
            Delivered(None, ds + [d]).Some? &&
            ((exists e :: IsNewest(ds + [d], e) && e.digest == Delivered(None, ds + [d]).value.digest)
             <==> !(d.digest != tag.digest && tag.updatedAt < d.at < newest.at))
  {
    assert (ds + [d])[..|ds|] == ds;
    var after := Delivered(None, ds + [d]).value;
    assert forall e :: e in ds + [d] <==> e in ds || e == d;
    if d.at >= newest.at {
      assert IsNewest(ds + [d], d);
      if d.at == newest.at {
        assert newest in ds + [d];
      } else {
        UpdatedByNewest(ds, newest);
      }
    } else {
      assert IsNewest(ds + [d], newest);
    }
  }

  lemma {:induction false} UpdatedByNewest(ds: seq<Delivery>, newest: Delivery)
    requires IsNewest(ds, newest)
    ensures Delivered(None, ds).value.updatedAt <= newest.at
  {
    if |ds| > 1 {
      var e := NewestOf(ds[..|ds| - 1]);
      UpdatedByNewest(ds[..|ds| - 1], e);
      assert e in ds && ds[|ds| - 1] in ds;
    }
  }

  // When the newest observation wins in every order

  /** The same deliveries, in any order and any number. */
  ghost predicate SameDeliveries(order: seq<Delivery>, ds: seq<Delivery>) {
    forall d :: d in order <==> d in ds
  }

  /** Every order of the deliveries, with any repetitions, leaves the tag on this artifact. */
  ghost predicate AlwaysEndsAt(ds: seq<Delivery>, digest: Digest) {
    forall order: seq<Delivery> | SameDeliveries(order, ds) ::
      Delivered(None, order).Some? && Delivered(None, order).value.digest == digest
  }

  /** Another artifact was observed before the newest observation, and no later than any of its artifact's. */
  ghost predicate NeverAhead(ds: seq<Delivery>, newest: Delivery, d: Delivery) {
    d.at < newest.at && forall e | e in ds && e.digest == newest.digest :: d.at <= e.at
  }

  /**
   The newest observation wins in every delivery order exactly when every other artifact's
   observations lie before it and at or before all the earlier ones of its own artifact.
   */
  lemma NewestWinsIff(ds: seq<Delivery>, newest: Delivery)
    requires IsNewest(ds, newest)
    ensures AlwaysEndsAt(ds, newest.digest)
       <==> forall d | d in ds && d.digest != newest.digest :: NeverAhead(ds, newest, d)
  {
    hide Delivered;
    if forall d | d in ds && d.digest != newest.digest :: NeverAhead(ds, newest, d) {
      forall order: seq<Delivery> | SameDeliveries(order, ds)
        ensures Delivered(None, order).Some? && Delivered(None, order).value.digest == newest.digest
      {
        NewestIsKept(ds, newest, order);
      }
    } else {
      var d :| d in ds && d.digest != newest.digest && !NeverAhead(ds, newest, d);
      OtherMayWin(ds, newest, d);
    }
  }

  /** A tag's time is that of a delivery of its artifact; once the newest has come, it stays. */
  lemma {:induction false} NewestIsKept(ds: seq<Delivery>, newest: Delivery, order: seq<Delivery>)
    requires IsNewest(ds, newest) && order != [] && forall d | d in order :: d in ds
    requires forall d | d in ds && d.digest != newest.digest :: NeverAhead(ds, newest, d)
    ensures Delivered(None, order).Some?
    ensures exists e :: e in order && e.digest == Delivered(None, order).value.digest
                        && e.at == Delivered(None, order).value.updatedAt
    ensures newest in order ==> Delivered(None, order).value.digest == newest.digest
  {
    var before, last := order[..|order| - 1], order[|order| - 1];
    if before == [] {
      assert Delivered(None, before) == None;
      assert last in order;
    } else {
      NewestIsKept(ds, newest, before);
      var tag := Delivered(None, before).value;
      var e :| e in before && e.digest == tag.digest && e.at == tag.updatedAt;
      assert e in order && last in order && e in ds;
    }
  }

  lemma {:induction false} DeliveredInTwo(current: Option<Tag>, xs: seq<Delivery>, ys: seq<Delivery>)
    ensures Delivered(current, xs + ys) == Delivered(Delivered(current, xs), ys)
  {
    if ys == [] {
      assert xs + ys == xs;
    } else {
      assert (xs + ys)[..|xs + ys| - 1] == xs + ys[..|ys| - 1];
      DeliveredInTwo(current, xs, ys[..|ys| - 1]);
    }
  }

  lemma DeliveredOne(current: Option<Tag>, d: Delivery)
    ensures Delivered(current, [d]) == Some(Moved(current, d))
  {
    assert [d][..0] == [];
  }

  /** The deliveries of one artifact, or of all the others. */
  function Select(ds: seq<Delivery>, digest: Digest, same: bool): seq<Delivery> {
    if ds == [] then []
    else
      var last := ds[|ds| - 1];
      Select(ds[..|ds| - 1], digest, same) + if (last.digest == digest) == same then [last] else []
  }

  lemma {:induction false} SelectedAre(ds: seq<Delivery>, digest: Digest, same: bool)
    ensures forall d :: d in Select(ds, digest, same) <==> d in ds && (d.digest == digest) == same
  {
    if ds != [] {
      SelectedAre(ds[..|ds| - 1], digest, same);
      assert ds == ds[..|ds| - 1] + [ds[|ds| - 1]];
    }
  }

  /** The latest delivery of an artifact other than the given one. */
  lemma LatestOther(ds: seq<Delivery>, digest: Digest) returns (d: Delivery)
    requires exists d :: d in ds && d.digest != digest
    ensures d in ds && d.digest != digest && forall e | e in ds && e.digest != digest :: e.at <= d.at
  {
    SelectedAre(ds, digest, false);
    d := NewestOf(Select(ds, digest, false));
  }

  /** An artifact that was ahead somewhere takes the tag from the newest observation in some order. */
  lemma OtherMayWin(ds: seq<Delivery>, newest: Delivery, d: Delivery)
    requires IsNewest(ds, newest) && d in ds && d.digest != newest.digest && !NeverAhead(ds, newest, d)
    ensures !AlwaysEndsAt(ds, newest.digest)
  {
    if d.at >= newest.at {
      TieMayWin(ds, d);
    } else {
      var e :| e in ds && e.digest == newest.digest && d.at > e.at;
      var other := LatestOther(ds, newest.digest);
      EarlyTagMayLose(ds, e, other);
    }
  }

  /** A delivery at the newest time keeps the tag when it comes first. */
  lemma TieMayWin(ds: seq<Delivery>, d: Delivery)
    requires IsNewest(ds, d)
    ensures exists order: seq<Delivery> :: SameDeliveries(order, ds) && Delivered(None, order).Some?
                                           && Delivered(None, order).value.digest == d.digest
  {
    var order := [d] + ds;
    DeliveredOne(None, d);
    DeliveredInTwo(None, [d], ds);
    SettledIsStable(Tag(d.digest, d.at, d.at), ds, ds);
    assert SameDeliveries(order, ds);
  }

  /**
   First e and the other deliveries of its artifact, which do not renew the tag's time; then the
   latest delivery of another artifact, and the rest.
   */
  lemma EarlyTagMayLose(ds: seq<Delivery>, e: Delivery, other: Delivery)
    requires e in ds && other in ds && other.digest != e.digest && other.at > e.at
    requires forall d | d in ds && d.digest != e.digest :: d.at <= other.at
    ensures exists order: seq<Delivery> :: SameDeliveries(order, ds) && Delivered(None, order).Some?
                                           && Delivered(None, order).value.digest == other.digest
  {
    var own, rest := Select(ds, e.digest, true), Select(ds, e.digest, false);
    SelectedAre(ds, e.digest, true);
    SelectedAre(ds, e.digest, false);
    hide Delivered, Select;
    var first, second := Tag(e.digest, e.at, e.at), Tag(other.digest, e.at, other.at);
    DeliveredOne(None, e);
    SettledIsStable(first, own, own);
    DeliveredInTwo(None, [e], own);
    DeliveredOne(Some(first), other);
    DeliveredInTwo(None, [e] + own, [other]);
    SettledIsStable(second, rest, rest);
    DeliveredInTwo(None, [e] + own + [other], rest);
    var order := [e] + own + [other] + rest;
    assert SameDeliveries(order, ds);
    assert Delivered(None, order) == Some(second);
  }

  // A failed attempt, and the whole list again

  /**
   Delivering a list again after some of it was delivered changes nothing for the tag, however
   the list goes on, exactly when the tag was settled for the part that is repeated.
   */
  lemma RepeatedPartIff(current: Option<Tag>, part: seq<Delivery>)
    requires part != []
    ensures (forall rest: seq<Delivery> :: Delivered(current, part + (part + rest)) == Delivered(current, part + rest))
       <==> Settled(Delivered(current, part).value, part)
  {
    var tag := Delivered(current, part).value;
    forall rest: seq<Delivery>
      ensures Settled(tag, part) ==> Delivered(current, part + (part + rest)) == Delivered(current, part + rest)
    {
      DeliveredInTwo(current, part, part + rest);
      DeliveredInTwo(Some(tag), part, rest);
      DeliveredInTwo(current, part, rest);
      if Settled(tag, part) {
        SettledIsStable(tag, part, part);
      }
    }
    if !Settled(tag, part) {
      DeliveredInTwo(current, part, part);
      UnsettledMoves(tag, part);
      assert part + (part + []) == part + part && part + [] == part;
    }
  }

  /** Redelivering a list for which a tag is not settled moves the tag. */
  lemma {:induction false} UnsettledMoves(tag: Tag, ds: seq<Delivery>)
    requires !Settled(tag, ds)
    ensures Delivered(Some(tag), ds).value.updatedAt > tag.updatedAt
  {
    var before, last := ds[..|ds| - 1], ds[|ds| - 1];
    assert ds == before + [last];
    if Settled(tag, before) {
      SettledIsStable(tag, before, before);
    } else {
      UnsettledMoves(tag, before);
    }
  }

  /** The first delivery creates the tag at its time; only a strictly later one of another artifact changes it. */
  lemma DeliveryIs(current: Option<Tag>, d: Delivery)
    ensures current.None? ==> Delivered(current, [d]) == Some(Tag(d.digest, d.at, d.at))
    ensures current.Some? && d.digest != current.value.digest && d.at > current.value.updatedAt ==>
              Delivered(current, [d]) == Some(Tag(d.digest, current.value.createdAt, d.at))
    ensures current.Some? && (d.digest == current.value.digest || d.at <= current.value.updatedAt) ==>
              Delivered(current, [d]) == current
  {
    DeliveredOne(current, d);
  }
}
