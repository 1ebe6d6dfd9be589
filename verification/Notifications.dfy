/**
 Registry push notifications, delivered at least once and in any order. An envelope is
 replayed event by event; a failure keeps what the earlier events did, and the sender
 delivers the whole envelope again.
 */
module Notifications {
  import opened Wrappers
  import opened ArtifactFacts
  import opened ArtifactStore
  import opened Text
  import TagRegister

  const MaxEvents := 100

  datatype Reference = Reference(mediaType: string, digest: Digest, sizeBytes: Option<int>, platform: Option<Platform>)

  datatype Event = Event(
    timestamp: Time, action: string, mediaType: string, digest: Digest, sizeBytes: Option<int>,
    repository: string, tag: string, references: seq<Reference>)

  datatype NotificationError = InvalidNotification | NotificationConflict | NotificationUnavailable

  datatype Counts = Counts(processed: nat, ignored: nat)

  /** Repository IDs by namespace and name. */
  type Resolver = (string, string) -> Option<string>

  // From event to observation

  function KindOf(action: string, mediaType: string): Option<Kind> {
    if action != "push" then None
    else if mediaType == "application/vnd.oci.image.manifest.v1+json"
            || mediaType == "application/vnd.docker.distribution.manifest.v2+json" then Some(Manifest)
    else if mediaType == "application/vnd.oci.image.index.v1+json"
            || mediaType == "application/vnd.docker.distribution.manifest.list.v2+json" then Some(Index)
    else None
  }

  /** The position of the first slash, or the length. */
  function Slash(value: string): nat {
    if value == "" || value[0] == '/' then 0 else 1 + Slash(value[1..])
  }

  function SplitRepository(value: string): Option<(string, string)> {
    var at := Slash(value);
    if 0 < at < |value| - 1 && '/' !in value[at + 1..] then Some((value[..at], value[at + 1..])) else None
  }

  lemma {:induction false} SlashIsFirst(namespace: string, rest: string)
    requires '/' !in namespace && (rest == "" || rest[0] == '/')
    ensures Slash(namespace + rest) == |namespace|
  {
    if namespace == "" {
      assert namespace + rest == rest;
    } else {
      assert (namespace + rest)[1..] == namespace[1..] + rest;
      SlashIsFirst(namespace[1..], rest);
    }
  }

  lemma {:induction false} NoSlashBefore(value: string)
    ensures Slash(value) <= |value| && '/' !in value[..Slash(value)]
    ensures Slash(value) < |value| ==> value[Slash(value)] == '/'
  {
    if value != "" && value[0] != '/' {
      NoSlashBefore(value[1..]);
      assert value[..Slash(value)] == [value[0]] + value[1..][..Slash(value[1..])];
    }
  }

  /** A repository path is split exactly when one slash stands between two parts that are not empty. */
  lemma SplitRepositoryIff(value: string, namespace: string, name: string)
    ensures SplitRepository(value) == Some((namespace, name))
       <==> value == namespace + "/" + name && namespace != "" && name != ""
            && '/' !in namespace && '/' !in name
  {
    NoSlashBefore(value);
    if value == namespace + "/" + name && '/' !in namespace {
      assert value == namespace + ("/" + name);
      SlashIsFirst(namespace, "/" + name);
    }
  }

  function OptionalText(value: string): Option<string> {
    if value == "" then None else Some(value)
  }

  function DescriptorFrom(r: Reference): Descriptor {
    Descriptor(r.digest, OptionalText(r.mediaType), r.sizeBytes, r.platform)
  }

  /** Text from decoded JSON, as code points; its size counts bytes of UTF-8. */
  predicate ValidText(value: string, max: nat) {
    && value != "" && Utf8Length(value) <= max
    && !IsSpace(value[0]) && !IsSpace(value[|value| - 1])
    && forall i | 0 <= i < |value| :: value[i] >= ' ' && value[i] != '\U{7f}'
  }

  predicate ValidTag(value: string) {
    && 1 <= |value| <= 128
    && value[0] != '.' && value[0] != '-'
    && forall i | 0 <= i < |value| ::
         'A' <= value[i] <= 'Z' || 'a' <= value[i] <= 'z' || '0' <= value[i] <= '9' || value[i] in "_.-"
  }

  predicate ValidMetadata(mediaType: Option<string>, sizeBytes: Option<int>) {
    (mediaType.Some? ==> ValidText(mediaType.value, 255)) && (sizeBytes.Some? ==> sizeBytes.value >= 0)
  }

  predicate ValidPlatform(p: Platform) {
    ValidText(p.os, 64) && ValidText(p.architecture, 64) && (p.variant != "" ==> ValidText(p.variant, 64))
  }

  /** What NormalizeObservation accepts. */
  predicate Normal(o: Observation) {
    && o.repository != "" && o.observedAt != ZeroTime && ValidDigest(o.digest)
    && ValidMetadata(o.metadata.mediaType, o.metadata.sizeBytes)
    && (o.tag.Some? ==> ValidTag(o.tag.value))
    && (o.descriptors.Some? ==>
          && o.kind == Index
          && forall d | d in o.descriptors.value ::
               && ValidDigest(d.digest) && d.digest != o.digest && ValidMetadata(d.mediaType, d.sizeBytes)
               && (d.platform.Some? ==> ValidPlatform(d.platform.value)))
  }

  function ObservationFrom(e: Event, kind: Kind, repository: string): Observation {
    Observation(
      repository, e.digest, kind, Metadata(Some(e.mediaType), e.sizeBytes, None),
      if kind == Index && |e.references| > 0
      then Some(seq(|e.references|, i requires 0 <= i < |e.references| => DescriptorFrom(e.references[i]))) else None,
      OptionalText(e.tag), e.timestamp)
  }

  /** The observation an event stands for: none if it is ignored, an error if it cannot be processed. */
  function Observed(e: Event, resolve: Resolver): Result<Option<Observation>, NotificationError> {
    var kind := KindOf(e.action, e.mediaType);
    if kind.None? then Success(None)
    else if e.timestamp == ZeroTime then Failure(InvalidNotification)
    else
      match SplitRepository(e.repository)
      case None => Failure(InvalidNotification)
      case Some((namespace, name)) =>
        if !Normal(ObservationFrom(e, kind.value, "notification-validation")) then Failure(InvalidNotification)
        else
          match resolve(namespace, name)
          case None => Failure(NotificationUnavailable)
          case Some(id) =>
            if id == "" then Failure(NotificationUnavailable) else Success(Some(ObservationFrom(e, kind.value, id)))
  }

  /** The namespace and repository make a security target. */
  predicate Targeted(e: Event) {
    match SplitRepository(e.repository)
    case None => false
    case Some((namespace, name)) =>
      && |namespace| <= 128 && IsName(namespace) && |name| <= 128 && IsName(name)
  }

  predicate Relevant(e: Event, resolve: Resolver) {
    Observed(e, resolve).Success? && Observed(e, resolve).value.Some?
  }

  /** Nothing stands in the event's way but the merging of its observation. */
  predicate Passes(e: Event, scheduled: bool, resolve: Resolver) {
    Observed(e, resolve).Success? && (Relevant(e, resolve) ==> Targeted(e) && scheduled)
  }

  function ErrorOf(e: Error): NotificationError {
    if e == Conflict then NotificationConflict else InvalidNotification
  }

  /** The observations in a list of events that can be processed, in order. */
  function Observations(events: seq<Event>, resolve: Resolver): seq<Observation> {
    if events == [] then []
    else
      Observations(events[..|events| - 1], resolve) +
      match Observed(events[|events| - 1], resolve) { case Success(Some(o)) => [o] case _ => [] }
  }

  /** The deliveries of one tag in a list of observations. */
  ghost function Deliveries(os: seq<Observation>, name: TagKey): seq<TagRegister.Delivery> {
    if os == [] then []
    else
      var last := os[|os| - 1];
      Deliveries(os[..|os| - 1], name) +
      if last.tag.Some? && name == TagKey(last.repository, last.tag.value)
      then [TagRegister.Delivery(last.digest, last.observedAt)] else []
  }

  // The driver

  /** The registers after a list of observations. */
  function TagsAfterAll(tags: map<TagKey, TagRegister.Tag>, os: seq<Observation>): map<TagKey, TagRegister.Tag> {
    if os == [] then tags else TagsAfter(TagsAfterAll(tags, os[..|os| - 1]), os[|os| - 1])
  }

  /** The facts and registers left by reconciling a list of observations. */
  ghost predicate Replayed(
    v: View, tags: map<TagKey, TagRegister.Tag>, os: seq<Observation>, after: View,
    tagsAfter: map<TagKey, TagRegister.Tag>)
  {
    ReconciledAll(v, os) == Success(after) && TagsAfterAll(tags, os) == tagsAfter
  }

  lemma NothingReplayed(v: View, tags: map<TagKey, TagRegister.Tag>, events: seq<Event>, resolve: Resolver)
    ensures Observations(events[..0], resolve) == [] && Replayed(v, tags, [], v, tags)
  {
  }

  lemma ReplayedOneMore(
    v: View, tags: map<TagKey, TagRegister.Tag>, os: seq<Observation>, o: Observation, after: View,
    tagsAfter: map<TagKey, TagRegister.Tag>)
    requires Replayed(v, tags, os, after, tagsAfter) && Reconciled(after, o).Success?
    ensures Replayed(v, tags, os + [o], Reconciled(after, o).value, TagsAfter(tagsAfter, o))
  {
    hide Reconciled, TagsAfter;
    assert (os + [o])[..|os|] == os;
  }

  lemma ObservationsOneMore(events: seq<Event>, resolve: Resolver, n: nat)
    requires n < |events|
    ensures var (before, observed) := (Observations(events[..n], resolve), Observed(events[n], resolve));
            Observations(events[..n + 1], resolve) ==
            if observed.Success? && observed.value.Some? then before + [observed.value.value] else before
  {
    hide Observed;
    assert events[..n + 1][..n] == events[..n];
  }

  class NotificationService {
    const artifacts: ArtifactStore
    const resolve: Resolver

    constructor (artifacts: ArtifactStore, resolve: Resolver)
      ensures this.artifacts == artifacts && this.resolve == resolve
    {
      this.artifacts, this.resolve := artifacts, resolve;
    }

    /**
     Replays an envelope. `scheduled` says for each event whether EnsureWorkflow succeeds once its
     artifact is reconciled. A failure is that of one event, and keeps what the events before it
     did; if the event's artifact was reconciled and only its workflow failed, it keeps that too.
     */
    method Process(events: seq<Event>, scheduled: seq<bool>)
      returns (r: Result<Counts, NotificationError>, ghost replayed: nat)
      requires artifacts.Valid() && |scheduled| == |events|
      modifies artifacts
      ensures artifacts.Valid() && replayed <= |events|
      ensures Replayed(old(artifacts.Facts()), old(artifacts.Tags()), Observations(events[..replayed], resolve),
                       artifacts.Facts(), artifacts.Tags())
      ensures |events| < 1 || |events| > MaxEvents ==> r == Failure(InvalidNotification) && replayed == 0
      ensures r.Success? ==>
                && 1 <= |events| <= MaxEvents && replayed == |events|
                && (forall i | 0 <= i < |events| :: Passes(events[i], scheduled[i], resolve))
                && r.value.processed == |Observations(events, resolve)|
                && r.value.processed + r.value.ignored == |events|
      ensures r.Failure? && 1 <= |events| <= MaxEvents ==>
                || StoppedAt(events, scheduled, replayed, artifacts.Facts(), r.error)
                || (replayed > 0 && StoppedAfter(events, scheduled, replayed - 1, r.error))
    {
      hide *;
      replayed := 0;
      NothingReplayed(artifacts.Facts(), artifacts.Tags(), events, resolve);
      if |events| < 1 || |events| > MaxEvents {
        return Failure(InvalidNotification), 0;
      }
      var processed, ignored := 0, 0;
      for index := 0 to |events|
        invariant artifacts.Valid()
        invariant Replayed(old(artifacts.Facts()), old(artifacts.Tags()), Observations(events[..index], resolve),
                           artifacts.Facts(), artifacts.Tags())
        invariant processed == |Observations(events[..index], resolve)| && processed + ignored == index
        invariant forall i | 0 <= i < index :: Passes(events[i], scheduled[i], resolve)
      {
        replayed := index;
        ObservationsOneMore(events, resolve, index);
        Stops(events, scheduled, index, artifacts.Facts());
        var observed := Observed(events[index], resolve);
        if observed.Failure? {
          return Failure(observed.error), index;
        }
        if observed.value.None? {
          ignored := ignored + 1;
          continue;
        }
        ghost var facts, tags := artifacts.Facts(), artifacts.Tags();
        var snapshot := artifacts.Reconcile(observed.value.value);
        if snapshot.Failure? {
          return Failure(ErrorOf(snapshot.error)), index;
        }
        ReplayedOneMore(old(artifacts.Facts()), old(artifacts.Tags()), Observations(events[..index], resolve),
                        observed.value.value, facts, tags);
        if !Targeted(events[index]) {
          return Failure(InvalidNotification), index + 1;
        }
        if !scheduled[index] {
          return Failure(NotificationUnavailable), index + 1;
        }
        processed := processed + 1;
      }
      assert events[..|events|] == events;
      r, replayed := Success(Counts(processed, ignored)), |events|;
    }

    /** Everything before event i passed; the event itself was refused, or its observation conflicts. */
    ghost predicate StoppedAt(events: seq<Event>, scheduled: seq<bool>, i: nat, facts: View, error: NotificationError)
      requires |scheduled| == |events|
    {
      && i < |events| && (forall j | 0 <= j < i :: Passes(events[j], scheduled[j], resolve))
      && match Observed(events[i], resolve)
         case Failure(e) => error == e
         case Success(None) => false
         case Success(Some(o)) => Reconciled(facts, o).Failure? && error == ErrorOf(Reconciled(facts, o).error)
    }

    /** Everything before event i passed, and its artifact was reconciled; its workflow was not ensured. */
    ghost predicate StoppedAfter(events: seq<Event>, scheduled: seq<bool>, i: nat, error: NotificationError)
      requires |scheduled| == |events|
    {
      && i < |events| && (forall j | 0 <= j < i :: Passes(events[j], scheduled[j], resolve))
      && Relevant(events[i], resolve)
      && if Targeted(events[i]) then !scheduled[i] && error == NotificationUnavailable
         else error == InvalidNotification
    }

    /** What the branches of Process find out about an event. */
    lemma Stops(events: seq<Event>, scheduled: seq<bool>, i: nat, facts: View)
      requires |scheduled| == |events| && i < |events|
      requires forall j | 0 <= j < i :: Passes(events[j], scheduled[j], resolve)
      ensures var observed := Observed(events[i], resolve);
              && (observed.Failure? ==> StoppedAt(events, scheduled, i, facts, observed.error))
              && (observed == Success(None) ==> Passes(events[i], scheduled[i], resolve))
              && (observed.Success? && observed.value.Some? ==>
                    var outcome := Reconciled(facts, observed.value.value);
                    && (outcome.Failure? ==> StoppedAt(events, scheduled, i, facts, ErrorOf(outcome.error)))
                    && (!Targeted(events[i]) ==> StoppedAfter(events, scheduled, i, InvalidNotification))
                    && (Targeted(events[i]) && !scheduled[i] ==>
                          StoppedAfter(events, scheduled, i, NotificationUnavailable))
                    && (Targeted(events[i]) && scheduled[i] ==> Passes(events[i], scheduled[i], resolve)))
    {
      hide Observed, Targeted, Reconciled, ErrorOf;
    }
  }

  // Replays converge

  lemma {:induction false} PrefixObserved(events: seq<Event>, resolve: Resolver, n: nat)
    requires n <= |events|
    ensures forall o | o in Observations(events[..n], resolve) :: o in Observations(events, resolve)
  {
    hide Observed;
    if n < |events| {
      PrefixObserved(events[..|events| - 1], resolve, n);
      assert events[..|events| - 1][..n] == events[..n];
    } else {
      assert events[..n] == events;
    }
  }

  /** What failed attempts at an envelope reconciled, each up to the number of events given. */
  function Attempts(events: seq<Event>, resolve: Resolver, failed: seq<nat>): seq<Observation>
    requires forall i | 0 <= i < |failed| :: failed[i] <= |events|
  {
    if failed == [] then []
    else
      Attempts(events, resolve, failed[..|failed| - 1]) + Observations(events[..failed[|failed| - 1]], resolve)
  }

  lemma {:induction false} AttemptsObserved(events: seq<Event>, resolve: Resolver, failed: seq<nat>)
    requires forall i | 0 <= i < |failed| :: failed[i] <= |events|
    ensures forall o | o in Attempts(events, resolve, failed) :: o in Observations(events, resolve)
  {
    hide Observations;
    if failed != [] {
      AttemptsObserved(events, resolve, failed[..|failed| - 1]);
      PrefixObserved(events, resolve, failed[|failed| - 1]);
    }
  }

  /**
   An envelope that fails part-way any number of times and is delivered again until it succeeds
   leaves the facts that delivering it once, without a failure, leaves.
   */
  lemma RetriedEnvelopeConverges(v: View, events: seq<Event>, resolve: Resolver, failed: seq<nat>)
    requires ViewOk(v) && forall i | 0 <= i < |failed| :: failed[i] <= |events|
    requires ReconciledAll(v, Attempts(events, resolve, failed) + Observations(events, resolve)).Success?
    ensures ReconciledAll(v, Observations(events, resolve))
         == ReconciledAll(v, Attempts(events, resolve, failed) + Observations(events, resolve))
  {
    hide Observations, Attempts, Reconciled, ReconciledAll;
    AttemptsObserved(events, resolve, failed);
    Confluence(v, Attempts(events, resolve, failed) + Observations(events, resolve), Observations(events, resolve));
  }

  /** A tag for which the failed part of an envelope is settled is not moved by delivering that part again. */
  lemma RetriedEnvelopeTag(
      tags: map<TagKey, TagRegister.Tag>, part: seq<Observation>, rest: seq<Observation>, name: TagKey)
    requires var register := TagRegister.Delivered(Lookup(tags, name), Deliveries(part, name));
             register.Some? ==> TagRegister.Settled(register.value, Deliveries(part, name))
    ensures Lookup(TagsAfterAll(tags, part + (part + rest)), name) == Lookup(TagsAfterAll(tags, part + rest), name)
  {
    var own, others, current := Deliveries(part, name), Deliveries(rest, name), Lookup(tags, name);
    TagsFollowDeliveries(tags, part + (part + rest), name);
    TagsFollowDeliveries(tags, part + rest, name);
    DeliveriesInTwo(part, part + rest, name);
    DeliveriesInTwo(part, rest, name);
    hide Deliveries, TagsAfterAll, Lookup;
    if own == [] {
      assert [] + others == others && [] + ([] + others) == others;
    } else {
      TagRegister.RepeatedPartIff(current, own);
    }
  }

  lemma {:induction false} DeliveriesInTwo(xs: seq<Observation>, ys: seq<Observation>, name: TagKey)
    ensures Deliveries(xs + ys, name) == Deliveries(xs, name) + Deliveries(ys, name)
  {
    if ys == [] {
      assert xs + ys == xs;
    } else {
      assert (xs + ys)[..|xs + ys| - 1] == xs + ys[..|ys| - 1];
      DeliveriesInTwo(xs, ys[..|ys| - 1], name);
    }
  }

  /** The registers follow each tag's own deliveries. */
  lemma {:induction false} TagsFollowDeliveries(tags: map<TagKey, TagRegister.Tag>, os: seq<Observation>, name: TagKey)
    ensures Lookup(TagsAfterAll(tags, os), name) == TagRegister.Delivered(Lookup(tags, name), Deliveries(os, name))
  {
    if os != [] {
      TagsFollowDeliveries(tags, os[..|os| - 1], name);
      var d := Deliveries(os[..|os| - 1], name);
      var last := os[|os| - 1];
      if last.tag.Some? && name == TagKey(last.repository, last.tag.value) {
        assert Deliveries(os, name)[..|d|] == d;
      } else {
        assert Deliveries(os, name) == d;
      }
    }
  }

  // What an event says

  /** Only a push of one of two manifest or two index media types stands for an artifact. */
  lemma KindIff(action: string, mediaType: string)
    ensures KindOf(action, mediaType) == Some(Manifest)
       <==> action == "push"
            && (mediaType == "application/vnd.oci.image.manifest.v1+json"
                || mediaType == "application/vnd.docker.distribution.manifest.v2+json")
    ensures KindOf(action, mediaType) == Some(Index)
       <==> action == "push"
            && (mediaType == "application/vnd.oci.image.index.v1+json"
                || mediaType == "application/vnd.docker.distribution.manifest.list.v2+json")
  {
    assert "application/vnd.oci.image.manifest.v1+json"[26] != "application/vnd.oci.image.index.v1+json"[26];
    assert |"application/vnd.docker.distribution.manifest.v2+json"|
        != |"application/vnd.docker.distribution.manifest.list.v2+json"|;
    assert |"application/vnd.docker.distribution.manifest.v2+json"| > |"application/vnd.oci.image.manifest.v1+json"|;
  }

  /** The observation of an event carries what the event says, for the repository its path resolves to. */
  lemma ObservationIs(e: Event, resolve: Resolver)
    requires Observed(e, resolve).Success? && Observed(e, resolve).value.Some?
    ensures var o := Observed(e, resolve).value.value;
            && SplitRepository(e.repository).Some?
            && var (namespace, name) := SplitRepository(e.repository).value;
               resolve(namespace, name) == Some(o.repository) && o.repository != ""
    ensures var o := Observed(e, resolve).value.value;
            && o.digest == e.digest && o.observedAt == e.timestamp != 0
            && Some(o.kind) == KindOf(e.action, e.mediaType)
            && o.metadata.mediaType == Some(e.mediaType) && o.metadata.sizeBytes == e.sizeBytes
            && o.metadata.sourceCreatedAt == None
            && o.tag == (if e.tag == "" then None else Some(e.tag))
            && (o.descriptors.Some? <==> o.kind == Index && e.references != [])
  {
    hide Normal, KindOf, SplitRepository;
  }

  /** A listed reference is observed with its digest, size and platform, and its media type unless that is empty. */
  lemma ReferenceIs(e: Event, resolve: Resolver, i: nat)
    requires Observed(e, resolve).Success? && Observed(e, resolve).value.Some?
    requires Observed(e, resolve).value.value.descriptors.Some? && i < |e.references|
    ensures var items, r := Observed(e, resolve).value.value.descriptors.value, e.references[i];
            && |items| == |e.references| && items[i].digest == r.digest && items[i].sizeBytes == r.sizeBytes
            && items[i].platform == r.platform
            && items[i].mediaType == if r.mediaType == "" then None else Some(r.mediaType)
  {
    hide Normal, KindOf, SplitRepository;
  }

  /** A push with a tag delivers its digest at its time to that tag of its repository, and to no other. */
  lemma PushDelivers(tags: map<TagKey, TagRegister.Tag>, o: Observation, name: TagKey)
    ensures var after := TagsAfter(tags, o);
            if o.tag == Some(name.name) && o.repository == name.repository then
              name in after && Some(after[name])
                 == TagRegister.Delivered(if name in tags then Some(tags[name]) else None,
                                          [TagRegister.Delivery(o.digest, o.observedAt)])
            else (name in after <==> name in tags) && (name in tags ==> after[name] == tags[name])
  {
    TagRegister.DeliveredOne(Lookup(tags, name), TagRegister.Delivery(o.digest, o.observedAt));
    hide TagRegister.Delivered;
  }

  // What is refused

  /** A tag is a letter, digit or underscore and up to 127 of these, dots and hyphens. */
  lemma TagIs(first: char, rest: string)
    ensures ValidTag([first] + rest)
       <==> ('A' <= first <= 'Z' || 'a' <= first <= 'z' || '0' <= first <= '9' || first == '_')
            && |rest| <= 127
            && forall c | c in rest ::
                 'A' <= c <= 'Z' || 'a' <= c <= 'z' || '0' <= c <= '9' || c == '_' || c == '.' || c == '-'
    ensures !ValidTag("")
  {
    var s := [first] + rest;
    assert forall i | 0 <= i < |rest| :: s[i + 1] == rest[i];
    if ValidTag(s) {
      assert s[0] == first;
      forall c | c in rest
        ensures 'A' <= c <= 'Z' || 'a' <= c <= 'z' || '0' <= c <= '9' || c == '_' || c == '.' || c == '-'
      {
        var i :| 0 <= i < |rest| && rest[i] == c;
        assert s[i + 1] == c;
      }
    } else {
      assert forall i | 1 <= i < |s| :: s[i] == rest[i - 1] && rest[i - 1] in rest;
    }
  }

  /** Texts are neither empty nor too long, have no white space at either end, and no control characters. */
  lemma TextIs(value: string, max: nat)
    ensures ValidText(value, max)
       <==> value != "" && Utf8Length(value) < max + 1
            && !IsSpace(value[0]) && !IsSpace(value[|value| - 1])
            && forall c | c in value :: c > '\U{1f}' && c != '\U{7f}'
  {
    assert forall i | 0 <= i < |value| :: value[i] in value;
    if ValidText(value, max) {
      forall c | c in value ensures c > '\U{1f}' && c != '\U{7f}' {
        var i :| 0 <= i < |value| && value[i] == c;
      }
    }
  }

  /** What NormalizeObservation wants of an observation and of every descriptor in its list. */
  lemma NormalIff(o: Observation)
    ensures Normal(o)
       <==> o.repository != "" && o.observedAt > 0 && ValidDigest(o.digest)
            && (o.metadata.mediaType.Some? ==> ValidText(o.metadata.mediaType.value, 255))
            && (o.metadata.sizeBytes.Some? ==> o.metadata.sizeBytes.value > -1)
            && (o.tag.Some? ==> ValidTag(o.tag.value))
            && (o.descriptors.Some? && o.kind == Manifest ==> false)
            && (o.descriptors.Some? ==>
                  forall i | 0 <= i < |o.descriptors.value| :: Listable(o.descriptors.value[i], o.digest))
  {
    hide ValidText, ValidTag, ValidDigest;
    if o.descriptors.Some? {
      assert forall i | 0 <= i < |o.descriptors.value| :: o.descriptors.value[i] in o.descriptors.value;
    }
  }

  /** A descriptor of another digest, with texts and a size that are well formed where they are given. */
  predicate Listable(d: Descriptor, index: Digest) {
    && ValidDigest(d.digest) && !(d.digest == index)
    && (d.mediaType == None || ValidText(d.mediaType.value, 255))
    && (d.sizeBytes == None || d.sizeBytes.value > -1)
    && (d.platform == None
        || (ValidText(d.platform.value.os, 64) && ValidText(d.platform.value.architecture, 64)
            && (d.platform.value.variant == "" || ValidText(d.platform.value.variant, 64))))
  }

  /** An event is ignored unless it pushes an artifact; it is invalid by its time, path or content, and else unavailable. */
  lemma ObservedIff(e: Event, resolve: Resolver)
    ensures Observed(e, resolve) == Success(None) <==> KindOf(e.action, e.mediaType) == None
    ensures Observed(e, resolve) == Failure(InvalidNotification)
       <==> KindOf(e.action, e.mediaType).Some?
            && (e.timestamp == 0 || SplitRepository(e.repository) == None
                || !Normal(ObservationFrom(e, KindOf(e.action, e.mediaType).value, "notification-validation")))
    ensures Observed(e, resolve) == Failure(NotificationUnavailable)
       <==> KindOf(e.action, e.mediaType).Some? && e.timestamp > 0 && SplitRepository(e.repository).Some?
            && Normal(ObservationFrom(e, KindOf(e.action, e.mediaType).value, "notification-validation"))
            && var (namespace, name) := SplitRepository(e.repository).value;
               resolve(namespace, name) == None || resolve(namespace, name) == Some("")
  {
    hide Normal, KindOf, SplitRepository, ObservationFrom;
  }

  /** A security target wants both parts of the path to be names of at most 128 characters. */
  lemma TargetedIff(e: Event, namespace: string, name: string)
    requires e.repository == namespace + "/" + name && namespace != "" && name != ""
    requires '/' !in namespace && '/' !in name
    ensures Targeted(e) <==> IsName(namespace) && IsName(name) && |namespace| < 129 && |name| < 129
  {
    SplitRepositoryIff(e.repository, namespace, name);
    hide SplitRepository, IsName;
  }

  lemma UnsplitIsNotTargeted(e: Event)
    requires SplitRepository(e.repository) == None
    ensures !Targeted(e)
  {
  }

  /** Only a conflict of facts is reported as one. */
  lemma ErrorIs(e: Error)
    ensures ErrorOf(e) == NotificationConflict <==> e == Conflict
    ensures ErrorOf(e) == InvalidNotification <==> e == InvalidArtifact || e == InvalidDigest
  {
  }
}
