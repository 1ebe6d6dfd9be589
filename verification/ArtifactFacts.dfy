/**
 Reconciling push observations into artifact facts, seen by digest. Facts only grow: an
 observation adds what was unknown, must agree with what is known, and can only make the
 discovery time earlier. Reconciling is therefore a least upper bound in the order of
 information, and the order and repetition of deliveries cannot matter.
 */
module ArtifactFacts {
  import opened Wrappers

  type Time = nat
  type Digest = string

  const ZeroTime: Time := 0

  datatype Kind = Manifest | Index
  datatype Error = InvalidArtifact | InvalidDigest | Conflict

  /** An artifact of a repository, as the table's unique index names it. */
  datatype Key = Key(repository: string, digest: Digest)

  datatype Platform = Platform(os: string, architecture: string, variant: string)

  datatype Metadata = Metadata(mediaType: Option<string>, sizeBytes: Option<int>, sourceCreatedAt: Option<Time>)

  datatype Descriptor = Descriptor(digest: Digest, mediaType: Option<string>, sizeBytes: Option<int>,
                                   platform: Option<Platform>)

  /** One normalised observation of a push. */
  datatype Observation = Observation(
    repository: string, digest: Digest, kind: Kind, metadata: Metadata,
    descriptors: Option<seq<Descriptor>>, tag: Option<string>, observedAt: Time)

  /** One entry of an index's descriptor list. */
  datatype Child = Child(digest: Digest, os: Option<string>, architecture: Option<string>, variant: Option<string>)

  /** What is known of an artifact. The children of an index are known once, and then frozen. */
  datatype Facts = Facts(kind: Kind, metadata: Metadata, discoveredAt: Time, children: Option<seq<Child>>)

  type View = map<Key, Facts>

  predicate ValidDigest(value: Digest) {
    && |value| == 71
    && value[..7] == "sha256:"
    && forall i | 7 <= i < 71 :: '0' <= value[i] <= '9' || 'a' <= value[i] <= 'f'
  }

  // Merging

  predicate Agrees<T(==)>(current: Option<T>, incoming: Option<T>) {
    current.None? || incoming.None? || current == incoming
  }

  function Merged<T>(current: Option<T>, incoming: Option<T>): Option<T> {
    if current.Some? then current else incoming
  }

  predicate MetadataAgrees(a: Metadata, b: Metadata) {
    Agrees(a.mediaType, b.mediaType) && Agrees(a.sizeBytes, b.sizeBytes) && Agrees(a.sourceCreatedAt, b.sourceCreatedAt)
  }

  function MergedMetadata(a: Metadata, b: Metadata): Metadata {
    Metadata(Merged(a.mediaType, b.mediaType), Merged(a.sizeBytes, b.sizeBytes),
             Merged(a.sourceCreatedAt, b.sourceCreatedAt))
  }

  function Earlier(a: Time, b: Time): Time {
    if a <= b then a else b
  }

  /** Inserts an artifact or merges one more observation of it. */
  function MergeArtifact(v: View, key: Key, kind: Kind, metadata: Metadata, at: Time)
    : (r: Result<View, Error>)
    ensures r.Success? ==> r.value.Keys == v.Keys + {key}
  {
    if key !in v then
      if ValidDigest(key.digest) then Success(v[key := Facts(kind, metadata, at, None)]) else Failure(InvalidDigest)
    else if v[key].kind != kind || !MetadataAgrees(v[key].metadata, metadata) then
      Failure(Conflict)
    else
      Success(v[key := v[key].(metadata := MergedMetadata(v[key].metadata, metadata),
                               discoveredAt := Earlier(v[key].discoveredAt, at))])
  }

  function ChildMetadata(d: Descriptor): Metadata {
    Metadata(d.mediaType, d.sizeBytes, None)
  }

  function ChildOf(d: Descriptor): Child {
    match d.platform
    case None => Child(d.digest, None, None, None)
    case Some(p) => Child(d.digest, Some(p.os), Some(p.architecture), if p.variant == "" then None else Some(p.variant))
  }

  function ChildrenOf(items: seq<Descriptor>): seq<Child> {
    seq(|items|, i requires 0 <= i < |items| => ChildOf(items[i]))
  }

  /** Merges the manifests an index lists, in order. */
  function MergeChildren(v: View, repository: string, items: seq<Descriptor>, at: Time)
    : (r: Result<View, Error>)
    ensures r.Success? ==> v.Keys <= r.value.Keys
  {
    if items == [] then Success(v)
    else
      var last := items[|items| - 1];
      match MergeChildren(v, repository, items[..|items| - 1], at)
      case Failure(e) => Failure(e)
      case Success(w) => MergeArtifact(w, Key(repository, last.digest), Manifest, ChildMetadata(last), at)
  }

  function ParentKey(o: Observation): Key {
    Key(o.repository, o.digest)
  }

  /** Adds the descriptor list of a known index, or compares it with the list that is frozen. */
  function ReconciledList(v: View, key: Key, items: seq<Descriptor>, at: Time): Result<View, Error>
    requires key in v
  {
    if v[key].kind != Index then Failure(InvalidArtifact)
    else
      match MergeChildren(v, key.repository, items, at)
      case Failure(e) => Failure(e)
      case Success(w) =>
        if v[key].children.None? then Success(w[key := w[key].(children := Some(ChildrenOf(items)))])
        else if v[key].children == Some(ChildrenOf(items)) then Success(w)
        else Failure(Conflict)
  }

  /** The facts after one reconciliation, or the error that rolls it back. */
  function Reconciled(v: View, o: Observation): Result<View, Error> {
    if o.repository == "" || o.observedAt == ZeroTime then Failure(InvalidArtifact)
    else if !ValidDigest(o.digest) then Failure(InvalidDigest)
    else
      match MergeArtifact(v, ParentKey(o), o.kind, o.metadata, o.observedAt)
      case Failure(e) => Failure(e)
      case Success(w) =>
        if o.descriptors.None? then Success(w)
        else ReconciledList(w, ParentKey(o), o.descriptors.value, o.observedAt)
  }

  /** Reconciles a list of observations, each of which must succeed. */
  function ReconciledAll(v: View, os: seq<Observation>): Result<View, Error> {
    if os == [] then Success(v)
    else
      match ReconciledAll(v, os[..|os| - 1])
      case Failure(e) => Failure(e)
      case Success(w) => Reconciled(w, os[|os| - 1])
  }

  // The order of information

  ghost predicate Known<T(!new)>(a: Option<T>, b: Option<T>) {
    a.Some? ==> a == b
  }

  ghost predicate Below(a: Facts, b: Facts) {
    && a.kind == b.kind
    && Known(a.metadata.mediaType, b.metadata.mediaType)
    && Known(a.metadata.sizeBytes, b.metadata.sizeBytes)
    && Known(a.metadata.sourceCreatedAt, b.metadata.sourceCreatedAt)
    && b.discoveredAt <= a.discoveredAt
    && Known(a.children, b.children)
  }

  ghost predicate ViewBelow(v: View, w: View) {
    v.Keys <= w.Keys && forall key | key in v :: Below(v[key], w[key])
  }

  ghost predicate ViewOk(v: View) {
    forall key | key in v :: ValidDigest(key.digest)
  }

  ghost predicate CoversArtifact(w: View, key: Key, kind: Kind, metadata: Metadata, at: Time) {
    key in w && Below(Facts(kind, metadata, at, None), w[key])
  }

  ghost predicate CoversChildren(w: View, repository: string, items: seq<Descriptor>, at: Time) {
    forall i | 0 <= i < |items| ::
      CoversArtifact(w, Key(repository, items[i].digest), Manifest, ChildMetadata(items[i]), at)
  }

  /** The view knows everything the observation says. */
  ghost predicate Covers(w: View, o: Observation) {
    && o.repository != "" && o.observedAt != ZeroTime
    && CoversArtifact(w, ParentKey(o), o.kind, o.metadata, o.observedAt)
    && (o.descriptors.Some? ==>
          && o.kind == Index
          && CoversChildren(w, o.repository, o.descriptors.value, o.observedAt)
          && w[ParentKey(o)].children == Some(ChildrenOf(o.descriptors.value)))
  }

  lemma BelowAntisymmetric(v: View, w: View)
    requires ViewBelow(v, w) && ViewBelow(w, v)
    ensures v == w
  {
    assert forall key | key in v :: v[key].metadata == w[key].metadata && v[key] == w[key];
  }

  lemma CoversUpward(v: View, w: View, o: Observation)
    requires ViewBelow(v, w) && Covers(v, o)
    ensures Covers(w, o)
  {
    hide ChildrenOf;
  }

  // Each step is a least upper bound

  lemma MergeIsUpperBound(v: View, key: Key, kind: Kind, metadata: Metadata, at: Time)
    requires ViewOk(v) && MergeArtifact(v, key, kind, metadata, at).Success?
    ensures var w := MergeArtifact(v, key, kind, metadata, at).value;
            ViewOk(w) && ViewBelow(v, w) && CoversArtifact(w, key, kind, metadata, at)
  {
  }

  lemma MergeIsLeast(v: View, key: Key, kind: Kind, metadata: Metadata, at: Time, w: View)
    requires ViewOk(w) && ViewBelow(v, w) && CoversArtifact(w, key, kind, metadata, at)
    ensures MergeArtifact(v, key, kind, metadata, at).Success?
    ensures ViewBelow(MergeArtifact(v, key, kind, metadata, at).value, w)
  {
  }

  lemma {:induction false} ChildrenAreUpperBound(v: View, repository: string, items: seq<Descriptor>, at: Time)
    requires ViewOk(v) && MergeChildren(v, repository, items, at).Success?
    ensures var w := MergeChildren(v, repository, items, at).value;
            ViewOk(w) && ViewBelow(v, w) && CoversChildren(w, repository, items, at)
  {
    if items != [] {
      var before, last := items[..|items| - 1], items[|items| - 1];
      ChildrenAreUpperBound(v, repository, before, at);
      var w := MergeChildren(v, repository, before, at).value;
      MergeIsUpperBound(w, Key(repository, last.digest), Manifest, ChildMetadata(last), at);
      var u := MergeChildren(v, repository, items, at).value;
      forall i | 0 <= i < |items|
        ensures CoversArtifact(u, Key(repository, items[i].digest), Manifest, ChildMetadata(items[i]), at)
      {
        if i < |before| {
          assert CoversArtifact(w, Key(repository, before[i].digest), Manifest, ChildMetadata(before[i]), at);
        }
      }
    }
  }

  /** Merging manifests leaves every descriptor list as it was. */
  lemma {:induction false} MergeKeepsLists(v: View, repository: string, items: seq<Descriptor>, at: Time, key: Key)
    requires key in v && MergeChildren(v, repository, items, at).Success?
    ensures MergeChildren(v, repository, items, at).value[key].children == v[key].children
    ensures MergeChildren(v, repository, items, at).value[key].kind == v[key].kind
  {
    if items != [] {
      MergeKeepsLists(v, repository, items[..|items| - 1], at, key);
    }
  }

  lemma {:induction false} ChildrenAreLeast(v: View, repository: string, items: seq<Descriptor>, at: Time, w: View)
    requires ViewOk(w) && ViewBelow(v, w) && CoversChildren(w, repository, items, at)
    ensures MergeChildren(v, repository, items, at).Success?
    ensures ViewBelow(MergeChildren(v, repository, items, at).value, w)
  {
    if items != [] {
      var before, last := items[..|items| - 1], items[|items| - 1];
      assert CoversArtifact(w, Key(repository, last.digest), Manifest, ChildMetadata(last), at);
      assert forall i | 0 <= i < |before| :: before[i] == items[i];
      ChildrenAreLeast(v, repository, before, at, w);
      MergeIsLeast(MergeChildren(v, repository, before, at).value, Key(repository, last.digest), Manifest,
                   ChildMetadata(last), at, w);
    }
  }

  lemma ReconciledIsUpperBound(v: View, o: Observation)
    requires ViewOk(v) && Reconciled(v, o).Success?
    ensures ViewOk(Reconciled(v, o).value) && ViewBelow(v, Reconciled(v, o).value) && Covers(Reconciled(v, o).value, o)
  {
    hide ValidDigest, ChildrenOf, MergeArtifact, MergeChildren, ChildMetadata;
    MergeIsUpperBound(v, ParentKey(o), o.kind, o.metadata, o.observedAt);
    if o.descriptors.Some? {
      var v1 := MergeArtifact(v, ParentKey(o), o.kind, o.metadata, o.observedAt).value;
      ChildrenAreUpperBound(v1, o.repository, o.descriptors.value, o.observedAt);
    }
  }

  lemma ReconciledIsLeast(v: View, o: Observation, w: View)
    requires ViewOk(w) && ViewBelow(v, w) && Covers(w, o)
    ensures Reconciled(v, o).Success? && ViewBelow(Reconciled(v, o).value, w)
  {
    hide ValidDigest, ChildrenOf, MergeArtifact, MergeChildren, ChildMetadata;
    MergeIsLeast(v, ParentKey(o), o.kind, o.metadata, o.observedAt, w);
    if o.descriptors.Some? {
      var v1 := MergeArtifact(v, ParentKey(o), o.kind, o.metadata, o.observedAt).value;
      ChildrenAreLeast(v1, o.repository, o.descriptors.value, o.observedAt, w);
    }
  }

  // Whole lists

  lemma {:induction false} AllAreUpperBound(v: View, os: seq<Observation>)
    requires ViewOk(v) && ReconciledAll(v, os).Success?
    ensures var w := ReconciledAll(v, os).value;
            ViewOk(w) && ViewBelow(v, w) && forall o | o in os :: Covers(w, o)
  {
    if os != [] {
      var before, last := os[..|os| - 1], os[|os| - 1];
      AllAreUpperBound(v, before);
      var w := ReconciledAll(v, before).value;
      ReconciledIsUpperBound(w, last);
      forall o | o in os ensures Covers(ReconciledAll(v, os).value, o) {
        if o in before {
          CoversUpward(w, ReconciledAll(v, os).value, o);
        }
      }
    }
  }

  lemma {:induction false} AllAreLeast(v: View, os: seq<Observation>, w: View)
    requires ViewOk(w) && ViewBelow(v, w) && forall o | o in os :: Covers(w, o)
    ensures ReconciledAll(v, os).Success? && ViewBelow(ReconciledAll(v, os).value, w)
  {
    if os != [] {
      AllAreLeast(v, os[..|os| - 1], w);
      ReconciledIsLeast(ReconciledAll(v, os[..|os| - 1]).value, os[|os| - 1], w);
    }
  }

  /** A list reconciles exactly when some view above the present one knows everything in it. */
  lemma ReconcilesIff(v: View, os: seq<Observation>)
    requires ViewOk(v)
    ensures ReconciledAll(v, os).Success? <==>
              exists w :: ViewOk(w) && ViewBelow(v, w) && forall o | o in os :: Covers(w, o)
  {
    if ReconciledAll(v, os).Success? {
      AllAreUpperBound(v, os);
    }
    if w :| ViewOk(w) && ViewBelow(v, w) && forall o | o in os :: Covers(w, o) {
      AllAreLeast(v, os, w);
    }
  }

  /**
   Confluence: if a list of observations succeeds in one order, the same observations succeed
   in every order and with any repetition, and leave the same facts.
   */
  lemma Confluence(v: View, xs: seq<Observation>, ys: seq<Observation>)
    requires ViewOk(v) && ReconciledAll(v, xs).Success?
    requires forall o :: o in xs <==> o in ys
    ensures ReconciledAll(v, ys) == ReconciledAll(v, xs)
  {
    hide Reconciled, Covers, ReconciledAll;
    AllAreUpperBound(v, xs);
    AllAreLeast(v, ys, ReconciledAll(v, xs).value);
    AllAreUpperBound(v, ys);
    AllAreLeast(v, xs, ReconciledAll(v, ys).value);
    BelowAntisymmetric(ReconciledAll(v, xs).value, ReconciledAll(v, ys).value);
  }

  /** Delivering again what has been reconciled changes no facts. */
  lemma RedeliveryIsNeutral(v: View, xs: seq<Observation>, o: Observation)
    requires ViewOk(v) && ReconciledAll(v, xs).Success? && o in xs
    ensures Reconciled(ReconciledAll(v, xs).value, o) == ReconciledAll(v, xs)
  {
    Confluence(v, xs, xs + [o]);
    assert (xs + [o])[..|xs|] == xs;
  }

  // Discovery times

  ghost predicate Lists(items: seq<Descriptor>, repository: string, key: Key) {
    exists i :: 0 <= i < |items| && key == Key(repository, items[i].digest)
  }

  /** The observation is of the artifact, or of an index that lists it. */
  ghost predicate Mentions(o: Observation, key: Key) {
    key == ParentKey(o) || (o.descriptors.Some? && Lists(o.descriptors.value, o.repository, key))
  }

  lemma {:induction false} ChildrenKeepTimes(v: View, repository: string, items: seq<Descriptor>, at: Time, key: Key)
    requires MergeChildren(v, repository, items, at).Success? && key in MergeChildren(v, repository, items, at).value
    ensures var w := MergeChildren(v, repository, items, at).value;
            (key in v && w[key].discoveredAt == v[key].discoveredAt)
            || (Lists(items, repository, key) && w[key].discoveredAt == at)
  {
    if items != [] {
      var before, last := items[..|items| - 1], items[|items| - 1];
      if key in MergeChildren(v, repository, before, at).value {
        ChildrenKeepTimes(v, repository, before, at, key);
      }
      assert forall i | 0 <= i < |before| :: before[i] == items[i];
      assert last == items[|items| - 1];
    }
  }

  lemma ReconciledKeepsTimes(v: View, o: Observation, key: Key)
    requires Reconciled(v, o).Success? && key in Reconciled(v, o).value
    ensures var w := Reconciled(v, o).value;
            (key in v && w[key].discoveredAt == v[key].discoveredAt)
            || (Mentions(o, key) && w[key].discoveredAt == o.observedAt)
  {
    hide ValidDigest, ChildrenOf;
    if o.descriptors.Some? {
      var v1 := MergeArtifact(v, ParentKey(o), o.kind, o.metadata, o.observedAt).value;
      ChildrenKeepTimes(v1, o.repository, o.descriptors.value, o.observedAt, key);
    }
  }

  /** A covered mention is in the view, and no later than it. */
  lemma CoveredMention(w: View, o: Observation, key: Key)
    requires Covers(w, o) && Mentions(o, key)
    ensures key in w && w[key].discoveredAt <= o.observedAt
  {
    if key != ParentKey(o) {
      var i :| 0 <= i < |o.descriptors.value| && key == Key(o.repository, o.descriptors.value[i].digest);
      assert CoversArtifact(w, key, Manifest, ChildMetadata(o.descriptors.value[i]), o.observedAt);
    }
  }

  /** From an empty table the known artifacts are those mentioned, discovered at their earliest mention. */
  lemma DiscoveredAtEarliestMention(os: seq<Observation>, key: Key)
    requires ReconciledAll(map[], os).Success?
    ensures var w := ReconciledAll(map[], os).value;
            && (key in w <==> exists o :: o in os && Mentions(o, key))
            && (key in w ==>
                  && (forall o | o in os && Mentions(o, key) :: w[key].discoveredAt <= o.observedAt)
                  && (exists o :: o in os && Mentions(o, key) && w[key].discoveredAt == o.observedAt))
  {
    AllAreUpperBound(map[], os);
    var w := ReconciledAll(map[], os).value;
    forall o | o in os && Mentions(o, key) ensures key in w && w[key].discoveredAt <= o.observedAt {
      CoveredMention(w, o, key);
    }
    if key in w {
      TimeIsAttained(os, key);
    }
  }

  lemma {:induction false} TimeIsAttained(os: seq<Observation>, key: Key)
    requires ReconciledAll(map[], os).Success? && key in ReconciledAll(map[], os).value
    ensures exists o :: o in os && Mentions(o, key) && ReconciledAll(map[], os).value[key].discoveredAt == o.observedAt
  {
    hide Mentions, Reconciled;
    var before, last := os[..|os| - 1], os[|os| - 1];
    ReconciledKeepsTimes(ReconciledAll(map[], before).value, last, key);
    if Mentions(last, key) && ReconciledAll(map[], os).value[key].discoveredAt == last.observedAt {
      assert last in os;
    } else {
      TimeIsAttained(before, key);
    }
  }

  // What an observation makes known, field by field

  /** The pushed artifact has the observed kind, and what the observation gives of its metadata. */
  lemma PushedIsKnown(v: View, o: Observation)
    requires ViewOk(v) && Reconciled(v, o).Success?
    ensures var w, key := Reconciled(v, o).value, Key(o.repository, o.digest);
            && key in w && w[key].kind == o.kind && w[key].discoveredAt <= o.observedAt
            && (o.metadata.mediaType.Some? ==> w[key].metadata.mediaType == o.metadata.mediaType)
            && (o.metadata.sizeBytes.Some? ==> w[key].metadata.sizeBytes == o.metadata.sizeBytes)
            && (o.metadata.sourceCreatedAt.Some? ==> w[key].metadata.sourceCreatedAt == o.metadata.sourceCreatedAt)
  {
    ReconciledIsUpperBound(v, o);
    hide Reconciled, CoversChildren, ChildrenOf, ViewOk, ViewBelow;
  }

  /** Every listed descriptor is known as a manifest of the repository, with the media type and size it gives. */
  lemma ListedIsKnown(v: View, o: Observation, i: nat)
    requires ViewOk(v) && Reconciled(v, o).Success?
    requires o.descriptors.Some? && i < |o.descriptors.value|
    ensures var w, d := Reconciled(v, o).value, o.descriptors.value[i];
            var key := Key(o.repository, d.digest);
            && o.kind == Index
            && key in w && w[key].kind == Manifest && w[key].discoveredAt <= o.observedAt
            && (d.mediaType.Some? ==> w[key].metadata.mediaType == d.mediaType)
            && (d.sizeBytes.Some? ==> w[key].metadata.sizeBytes == d.sizeBytes)
  {
    ReconciledIsUpperBound(v, o);
    hide Reconciled, ChildrenOf, ViewOk, ViewBelow;
    assert CoversArtifact(Reconciled(v, o).value, Key(o.repository, o.descriptors.value[i].digest), Manifest,
                          ChildMetadata(o.descriptors.value[i]), o.observedAt);
  }

  /** The stored list names the descriptors in order, with their platforms; an empty variant is none. */
  lemma ListIsStored(v: View, o: Observation, i: nat)
    requires ViewOk(v) && Reconciled(v, o).Success?
    requires o.descriptors.Some? && i < |o.descriptors.value|
    ensures var w, d := Reconciled(v, o).value, o.descriptors.value[i];
            var key := Key(o.repository, o.digest);
            && key in w && w[key].children.Some? && |w[key].children.value| == |o.descriptors.value|
            && var child := w[key].children.value[i];
               && child.digest == d.digest
               && match d.platform
                  case None => child.os == None && child.architecture == None && child.variant == None
                  case Some(p) =>
                    && child.os == Some(p.os) && child.architecture == Some(p.architecture)
                    && child.variant == if p.variant == "" then None else Some(p.variant)
  {
    ReconciledIsUpperBound(v, o);
    hide Reconciled, CoversChildren, ViewOk, ViewBelow;
  }

  /** Some descriptor of the list gives an artifact this media type, or this size. */
  ghost predicate Gives(items: seq<Descriptor>, digest: Digest, mediaType: Option<string>, sizeBytes: Option<int>) {
    exists i :: 0 <= i < |items| && items[i].digest == digest
                && (mediaType.Some? ==> items[i].mediaType == mediaType)
                && (sizeBytes.Some? ==> items[i].sizeBytes == sizeBytes)
  }

  lemma GivesMore(items: seq<Descriptor>, digest: Digest, mediaType: Option<string>, sizeBytes: Option<int>)
    requires items != [] && Gives(items[..|items| - 1], digest, mediaType, sizeBytes)
    ensures Gives(items, digest, mediaType, sizeBytes)
  {
    var before := items[..|items| - 1];
    var i :| 0 <= i < |before| && before[i].digest == digest
             && (mediaType.Some? ==> before[i].mediaType == mediaType)
             && (sizeBytes.Some? ==> before[i].sizeBytes == sizeBytes);
    assert items[i] == before[i];
  }

  lemma {:induction false} ChildrenFromList(v: View, repository: string, items: seq<Descriptor>, at: Time, key: Key)
    requires MergeChildren(v, repository, items, at).Success? && key in MergeChildren(v, repository, items, at).value
    ensures var had := if key in v then v[key].metadata else Metadata(None, None, None);
            var has := MergeChildren(v, repository, items, at).value[key].metadata;
            && (has.mediaType == had.mediaType
                || (key.repository == repository && Gives(items, key.digest, has.mediaType, None)))
            && (has.sizeBytes == had.sizeBytes
                || (key.repository == repository && Gives(items, key.digest, None, has.sizeBytes)))
            && has.sourceCreatedAt == had.sourceCreatedAt
  {
    if items != [] {
      var before, last := items[..|items| - 1], items[|items| - 1];
      var w := MergeChildren(v, repository, before, at).value;
      var has := MergeChildren(v, repository, items, at).value[key].metadata;
      if key in w {
        ChildrenFromList(v, repository, before, at, key);
        if Gives(before, key.digest, w[key].metadata.mediaType, None) {
          GivesMore(items, key.digest, w[key].metadata.mediaType, None);
        }
        if Gives(before, key.digest, None, w[key].metadata.sizeBytes) {
          GivesMore(items, key.digest, None, w[key].metadata.sizeBytes);
        }
      } else {
        assert key !in v;
      }
      if key == Key(repository, last.digest) {
        assert items[|items| - 1] == last;
        assert last.mediaType == has.mediaType ==> Gives(items, key.digest, has.mediaType, None);
        assert last.sizeBytes == has.sizeBytes ==> Gives(items, key.digest, None, has.sizeBytes);
      }
    }
  }

  /** Metadata comes from nowhere else: what is newly known of an artifact, its own push or a listing of it gave. */
  lemma NothingFromNowhere(v: View, o: Observation, key: Key)
    requires Reconciled(v, o).Success? && key in Reconciled(v, o).value
    ensures var had := if key in v then v[key].metadata else Metadata(None, None, None);
            var has := Reconciled(v, o).value[key].metadata;
            var pushed := key == Key(o.repository, o.digest);
            && (has.mediaType == had.mediaType || (pushed && has.mediaType == o.metadata.mediaType)
                || (o.descriptors.Some? && key.repository == o.repository
                    && Gives(o.descriptors.value, key.digest, has.mediaType, None)))
            && (has.sizeBytes == had.sizeBytes || (pushed && has.sizeBytes == o.metadata.sizeBytes)
                || (o.descriptors.Some? && key.repository == o.repository
                    && Gives(o.descriptors.value, key.digest, None, has.sizeBytes)))
            && (has.sourceCreatedAt == had.sourceCreatedAt
                || (pushed && has.sourceCreatedAt == o.metadata.sourceCreatedAt))
  {
    hide ValidDigest, ChildrenOf, Gives;
    if o.descriptors.Some? {
      var w := MergeArtifact(v, ParentKey(o), o.kind, o.metadata, o.observedAt).value;
      ChildrenFromList(w, o.repository, o.descriptors.value, o.observedAt, key);
    }
  }

  /** Digests are "sha256:" and 64 lower-case hexadecimal digits. */
  lemma DigestIs(hex: string, other: string)
    ensures ValidDigest("sha256:" + hex)
       <==> |hex| == 64 && forall c | c in hex :: '0' <= c <= '9' || 'a' <= c <= 'f'
    ensures ValidDigest(other) ==> |other| == 71 && other == "sha256:" + other[7..]
  {
    var s := "sha256:" + hex;
    assert s[..7] == "sha256:" && s[7..] == hex;
    assert forall i | 7 <= i < |s| :: s[i] == hex[i - 7] && hex[i - 7] in hex;
    if ValidDigest(s) {
      forall c | c in hex ensures '0' <= c <= '9' || 'a' <= c <= 'f' {
        var i :| 0 <= i < |hex| && hex[i] == c;
        assert s[7 + i] == c;
      }
    }
  }
}
