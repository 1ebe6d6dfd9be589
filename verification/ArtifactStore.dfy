/**
 The artifact store: rows with drawn IDs in three tables, changed in place by one
 transaction per observation. Seen by digest it is `ArtifactFacts.Reconciled` and
 `TagRegister.Moved`.
 */
module ArtifactStore {
  import opened Wrappers
  import opened ArtifactFacts
  import TagRegister

  type RowId = nat

  datatype ArtifactRow = ArtifactRow(
    id: RowId, kind: Kind, metadata: Metadata, descriptorsComplete: bool, discoveredAt: Time, updatedAt: Time)

  /** A manifest_descriptors row; its position is its index in the list of its index artifact. */
  datatype DescriptorRow = DescriptorRow(
    child: RowId, os: Option<string>, architecture: Option<string>, variant: Option<string>)

  datatype TagKey = TagKey(repository: string, name: string)

  datatype TagRow = TagRow(artifact: RowId, createdAt: Time, updatedAt: Time)

  type Artifacts = map<Key, ArtifactRow>
  type Descriptors = map<RowId, seq<DescriptorRow>>

  datatype Snapshot = Snapshot(artifact: ArtifactRow, tag: Option<TagRegister.Tag>, descriptors: Option<seq<Child>>)

  // The tables seen by digest

  predicate HasId(artifacts: Artifacts, id: RowId) {
    exists key | key in artifacts :: artifacts[key].id == id
  }

  /** The artifact an ID names. */
  ghost function KeyOf(artifacts: Artifacts, id: RowId): Key {
    if HasId(artifacts, id) then var key :| key in artifacts && artifacts[key].id == id; key else Key("", "")
  }

  function RowsOf(descriptors: Descriptors, id: RowId): seq<DescriptorRow> {
    if id in descriptors then descriptors[id] else []
  }

  ghost predicate RowsIn(artifacts: Artifacts, repository: string, rows: seq<DescriptorRow>) {
    forall i | 0 <= i < |rows| :: HasId(artifacts, rows[i].child) && KeyOf(artifacts, rows[i].child).repository == repository
  }

  ghost function ChildrenIn(artifacts: Artifacts, rows: seq<DescriptorRow>): seq<Child> {
    seq(|rows|, i requires 0 <= i < |rows| =>
      Child(KeyOf(artifacts, rows[i].child).digest, rows[i].os, rows[i].architecture, rows[i].variant))
  }

  ghost predicate TablesOk(artifacts: Artifacts, descriptors: Descriptors) {
    && (forall a, b | a in artifacts && b in artifacts && artifacts[a].id == artifacts[b].id :: a == b)
    && (forall key | key in artifacts ::
          var row := artifacts[key];
          && ValidDigest(key.digest)
          && row.discoveredAt <= row.updatedAt
          && (row.descriptorsComplete ==> row.kind == Index)
          && (!row.descriptorsComplete ==> RowsOf(descriptors, row.id) == [])
          && RowsIn(artifacts, key.repository, RowsOf(descriptors, row.id)))
  }

  ghost function ViewOf(artifacts: Artifacts, descriptors: Descriptors): View {
    map key | key in artifacts ::
      Facts(artifacts[key].kind, artifacts[key].metadata, artifacts[key].discoveredAt,
            if artifacts[key].descriptorsComplete
            then Some(ChildrenIn(artifacts, RowsOf(descriptors, artifacts[key].id))) else None)
  }

  lemma KeyOfId(artifacts: Artifacts, descriptors: Descriptors, key: Key)
    requires TablesOk(artifacts, descriptors) && key in artifacts
    ensures HasId(artifacts, artifacts[key].id) && KeyOf(artifacts, artifacts[key].id) == key
  {
  }

  ghost predicate TagsOk(artifacts: Artifacts, tags: map<TagKey, TagRow>) {
    forall name | name in tags ::
      HasId(artifacts, tags[name].artifact) && KeyOf(artifacts, tags[name].artifact).repository == name.repository
  }

  /** The tag registers, by digest. */
  ghost function TagsIn(artifacts: Artifacts, tags: map<TagKey, TagRow>): map<TagKey, TagRegister.Tag> {
    map name | name in tags ::
      TagRegister.Tag(KeyOf(artifacts, tags[name].artifact).digest, tags[name].createdAt, tags[name].updatedAt)
  }

  function Lookup(tags: map<TagKey, TagRegister.Tag>, name: TagKey): Option<TagRegister.Tag> {
    if name in tags then Some(tags[name]) else None
  }

  /** The registers after an observation: the tag it names is delivered to, and no other. */
  function TagsAfter(tags: map<TagKey, TagRegister.Tag>, o: Observation): map<TagKey, TagRegister.Tag> {
    if o.tag.None? then tags
    else
      var name := TagKey(o.repository, o.tag.value);
      tags[name := TagRegister.Moved(Lookup(tags, name), TagRegister.Delivery(o.digest, o.observedAt))]
  }

  lemma TagsKept(a: Artifacts, b: Artifacts, tags: map<TagKey, TagRow>)
    requires KeepsIds(a, b) && TagsOk(a, tags)
    ensures TagsOk(b, tags) && TagsIn(b, tags) == TagsIn(a, tags)
  {
    forall name | name in tags
      ensures HasId(b, tags[name].artifact) && KeyOf(b, tags[name].artifact) == KeyOf(a, tags[name].artifact)
    {
      var key := KeyOf(a, tags[name].artifact);
      assert key in b && b[key].id == tags[name].artifact;
    }
  }

  /** In one repository a tag names the artifact by ID exactly when it shows its digest. */
  lemma TagShows(artifacts: Artifacts, descriptors: Descriptors, tags: map<TagKey, TagRow>, name: TagKey, key: Key)
    requires TablesOk(artifacts, descriptors) && TagsOk(artifacts, tags) && name in tags
    requires key in artifacts && key.repository == name.repository
    ensures KeyOf(artifacts, artifacts[key].id) == key && HasId(artifacts, artifacts[key].id)
    ensures tags[name].artifact == artifacts[key].id <==> KeyOf(artifacts, tags[name].artifact).digest == key.digest
  {
    KeyOfId(artifacts, descriptors, key);
    var tagged := KeyOf(artifacts, tags[name].artifact);
    assert tagged.digest == key.digest ==> tagged == key;
  }

  /** Rows whose keys and IDs are kept name the same artifacts. */
  ghost predicate KeepsIds(a: Artifacts, b: Artifacts) {
    && (forall key | key in a :: key in b && b[key].id == a[key].id)
    && (forall x, y | x in b && y in b && b[x].id == b[y].id :: x == y)
  }

  lemma KeptIds(a: Artifacts, b: Artifacts, repository: string, rows: seq<DescriptorRow>)
    requires KeepsIds(a, b) && RowsIn(a, repository, rows)
    ensures RowsIn(b, repository, rows)
    ensures forall i | 0 <= i < |rows| ::
              HasId(b, rows[i].child) && KeyOf(b, rows[i].child) == KeyOf(a, rows[i].child)
    ensures ChildrenIn(b, rows) == ChildrenIn(a, rows)
  {
    forall i | 0 <= i < |rows|
      ensures HasId(b, rows[i].child) && KeyOf(b, rows[i].child) == KeyOf(a, rows[i].child)
    {
      var key := KeyOf(a, rows[i].child);
      assert key in b && b[key].id == rows[i].child;
    }
  }

  /** Comparing stored and desired rows by child ID decides whether they list the same digests. */
  lemma SameRowsIffSameChildren(
    artifacts: Artifacts, repository: string, first: seq<DescriptorRow>, second: seq<DescriptorRow>)
    requires RowsIn(artifacts, repository, first) && RowsIn(artifacts, repository, second)
    ensures first == second <==> ChildrenIn(artifacts, first) == ChildrenIn(artifacts, second)
  {
    if ChildrenIn(artifacts, first) == ChildrenIn(artifacts, second) {
      assert |first| == |ChildrenIn(artifacts, first)| == |second|;
      forall i | 0 <= i < |first| ensures first[i] == second[i] {
        assert ChildrenIn(artifacts, first)[i] == ChildrenIn(artifacts, second)[i];
        assert KeyOf(artifacts, first[i].child) == KeyOf(artifacts, second[i].child);
      }
    }
  }

  /** A row that may be written at a key: a new one, or one with its ID, kind and completeness kept. */
  ghost predicate Writable(artifacts: Artifacts, descriptors: Descriptors, key: Key, row: ArtifactRow) {
    && ValidDigest(key.digest) && row.discoveredAt <= row.updatedAt
    && (key in artifacts ==>
          var was := artifacts[key];
          row.id == was.id && row.kind == was.kind && row.descriptorsComplete == was.descriptorsComplete)
    && (key !in artifacts ==>
          !HasId(artifacts, row.id) && RowsOf(descriptors, row.id) == [] && !row.descriptorsComplete)
  }

  lemma WrittenRowsOk(artifacts: Artifacts, descriptors: Descriptors, key: Key, row: ArtifactRow)
    requires TablesOk(artifacts, descriptors) && Writable(artifacts, descriptors, key, row)
    ensures KeepsIds(artifacts, artifacts[key := row]) && TablesOk(artifacts[key := row], descriptors)
  {
    hide ValidDigest, ChildrenIn;
    var written := artifacts[key := row];
    forall k | k in written ensures RowsIn(written, k.repository, RowsOf(descriptors, written[k].id)) {
      if k in artifacts {
        KeptIds(artifacts, written, k.repository, RowsOf(descriptors, artifacts[k].id));
      }
    }
  }

  /** Writing one artifact row changes the facts of its key only. */
  lemma WrittenView(artifacts: Artifacts, descriptors: Descriptors, key: Key, row: ArtifactRow)
    requires TablesOk(artifacts, descriptors) && Writable(artifacts, descriptors, key, row)
    requires TablesOk(artifacts[key := row], descriptors) && KeepsIds(artifacts, artifacts[key := row])
    ensures ViewOf(artifacts[key := row], descriptors) == ViewOf(artifacts, descriptors)[
              key := Facts(row.kind, row.metadata, row.discoveredAt,
                           if key in artifacts then ViewOf(artifacts, descriptors)[key].children else None)]
  {
    hide ValidDigest, ChildrenIn;
    var written := artifacts[key := row];
    forall k | k in artifacts
      ensures written[k].id == artifacts[k].id
      ensures ChildrenIn(written, RowsOf(descriptors, artifacts[k].id)) ==
              ChildrenIn(artifacts, RowsOf(descriptors, artifacts[k].id))
    {
      KeptIds(artifacts, written, k.repository, RowsOf(descriptors, artifacts[k].id));
    }
  }

  /** What the view shows of a stored row. */
  lemma ViewAt(artifacts: Artifacts, descriptors: Descriptors, key: Key)
    requires TablesOk(artifacts, descriptors)
    ensures KeepsIds(artifacts, artifacts)
    ensures key in ViewOf(artifacts, descriptors) <==> key in artifacts
    ensures key in artifacts ==>
              var (facts, row) := (ViewOf(artifacts, descriptors)[key], artifacts[key]);
              && facts.kind == row.kind && facts.metadata == row.metadata && facts.discoveredAt == row.discoveredAt
              && (facts.children.Some? <==> row.descriptorsComplete)
              && ValidDigest(key.digest) && row.discoveredAt <= row.updatedAt
  {
  }

  /** The rows name the listed artifacts and keep their platforms, in order. */
  ghost predicate ListedAs(artifacts: Artifacts, repository: string, rows: seq<DescriptorRow>, items: seq<Descriptor>) {
    RowsIn(artifacts, repository, rows) && ChildrenIn(artifacts, rows) == ChildrenOf(items)
  }

  lemma NothingListed(artifacts: Artifacts, repository: string)
    ensures ListedAs(artifacts, repository, [], [])
  {
  }

  /** A child that fails to merge fails the whole list. */
  lemma {:induction false} MergeChildrenFails(v: View, repository: string, items: seq<Descriptor>, n: nat, at: Time)
    requires n < |items| && MergeChildren(v, repository, items[..n], at).Success?
    requires MergeChildren(v, repository, items[..n + 1], at).Failure?
    ensures MergeChildren(v, repository, items, at) == MergeChildren(v, repository, items[..n + 1], at)
    decreases |items|
  {
    if n + 1 == |items| {
      assert items[..n + 1] == items;
    } else {
      var before := items[..|items| - 1];
      assert before[..n] == items[..n] && before[..n + 1] == items[..n + 1];
      MergeChildrenFails(v, repository, before, n, at);
    }
  }

  function DescriptorRowOf(d: Descriptor, child: RowId): DescriptorRow {
    match d.platform
    case None => DescriptorRow(child, None, None, None)
    case Some(p) => DescriptorRow(child, Some(p.os), Some(p.architecture), if p.variant == "" then None else Some(p.variant))
  }

  lemma ListedStays(a: Artifacts, b: Artifacts, repository: string, rows: seq<DescriptorRow>, items: seq<Descriptor>)
    requires KeepsIds(a, b) && ListedAs(a, repository, rows, items)
    ensures ListedAs(b, repository, rows, items)
  {
    KeptIds(a, b, repository, rows);
  }

  lemma ListedOneMore(
    artifacts: Artifacts, descriptors: Descriptors, repository: string, rows: seq<DescriptorRow>, items: seq<Descriptor>,
    d: Descriptor)
    requires TablesOk(artifacts, descriptors) && ListedAs(artifacts, repository, rows, items)
    requires Key(repository, d.digest) in artifacts
    ensures ListedAs(artifacts, repository, rows + [DescriptorRowOf(d, artifacts[Key(repository, d.digest)].id)],
                     items + [d])
  {
    hide TablesOk;
    KeyOfId(artifacts, descriptors, Key(repository, d.digest));
    var more := rows + [DescriptorRowOf(d, artifacts[Key(repository, d.digest)].id)];
    assert RowsIn(artifacts, repository, more);
    assert |ChildrenIn(artifacts, rows)| == |ChildrenOf(items)|;
    assert forall i | 0 <= i < |rows| :: ChildrenIn(artifacts, more)[i] == ChildrenIn(artifacts, rows)[i];
    assert ChildrenIn(artifacts, more) == ChildrenOf(items) + [ChildOf(d)] == ChildrenOf(items + [d]);
  }

  /** The desired rows of an index that has none yet, and the completed row that goes with them. */
  ghost predicate Storable(artifacts: Artifacts, key: Key, row: ArtifactRow) {
    && key in artifacts && artifacts[key].kind == Index && !artifacts[key].descriptorsComplete
    && row == artifacts[key].(descriptorsComplete := true, updatedAt := row.updatedAt)
    && artifacts[key].updatedAt <= row.updatedAt
  }

  lemma StoredRowsOk(
    artifacts: Artifacts, descriptors: Descriptors, key: Key, row: ArtifactRow, rows: seq<DescriptorRow>)
    requires TablesOk(artifacts, descriptors) && Storable(artifacts, key, row) && RowsIn(artifacts, key.repository, rows)
    ensures KeepsIds(artifacts, artifacts[key := row]) && TablesOk(artifacts[key := row], descriptors[row.id := rows])
  {
    hide ValidDigest, ChildrenIn;
    var a, d := artifacts[key := row], descriptors[row.id := rows];
    forall k | k in artifacts ensures RowsIn(a, k.repository, RowsOf(d, a[k].id)) {
      KeptIds(artifacts, a, k.repository, RowsOf(d, a[k].id));
    }
  }

  /** Storing the desired rows completes the index with the children they name. */
  lemma StoredView(
    artifacts: Artifacts, descriptors: Descriptors, key: Key, row: ArtifactRow, rows: seq<DescriptorRow>)
    requires TablesOk(artifacts, descriptors) && Storable(artifacts, key, row) && RowsIn(artifacts, key.repository, rows)
    requires KeepsIds(artifacts, artifacts[key := row]) && TablesOk(artifacts[key := row], descriptors[row.id := rows])
    ensures ViewOf(artifacts[key := row], descriptors[row.id := rows]) == ViewOf(artifacts, descriptors)[
              key := ViewOf(artifacts, descriptors)[key].(children := Some(ChildrenIn(artifacts, rows)))]
  {
    hide ValidDigest, ChildrenIn, RowsIn;
    var a, d := artifacts[key := row], descriptors[row.id := rows];
    var was, now := ViewOf(artifacts, descriptors), ViewOf(a, d);
    forall k | k in artifacts
      ensures now[k] == if k == key then was[key].(children := Some(ChildrenIn(artifacts, rows))) else was[k]
    {
      var listed := if k == key then rows else RowsOf(descriptors, artifacts[k].id);
      assert RowsOf(d, a[k].id) == listed;
      assert RowsIn(artifacts, k.repository, listed);
      KeptIds(artifacts, a, k.repository, listed);
    }
    assert now.Keys == was.Keys;
  }

  // Merge functions

  /** mergeString, mergeInt64 and mergeTime: the merged value and whether it is new, or a conflict. */
  function Merge<T(==)>(current: Option<T>, incoming: Option<T>): Result<(Option<T>, bool), Error> {
    if incoming.None? then Success((current, false))
    else if current.Some? then (if current == incoming then Success((current, false)) else Failure(Conflict))
    else Success((incoming, true))
  }

  /**
   Merges an observation into a row: unknown fields are filled, known ones must agree, and the
   discovery time moves back. Only new metadata moves the update time, and only forward.
   */
  method MergeRow(row: ArtifactRow, metadata: Metadata, at: Time) returns (r: Result<ArtifactRow, Error>)
    ensures r.Success? <==> MetadataAgrees(row.metadata, metadata)
    ensures r.Failure? ==> r.error == Conflict
    ensures r.Success? ==>
              var merged := MergedMetadata(row.metadata, metadata);
              r.value == row.(metadata := merged, discoveredAt := Earlier(row.discoveredAt, at),
                              updatedAt := if merged != row.metadata && at > row.updatedAt then at else row.updatedAt)
  {
    var mediaType := Merge(row.metadata.mediaType, metadata.mediaType);
    if mediaType.Failure? {
      return Failure(mediaType.error);
    }
    var sizeBytes := Merge(row.metadata.sizeBytes, metadata.sizeBytes);
    if sizeBytes.Failure? {
      return Failure(sizeBytes.error);
    }
    var sourceCreatedAt := Merge(row.metadata.sourceCreatedAt, metadata.sourceCreatedAt);
    if sourceCreatedAt.Failure? {
      return Failure(sourceCreatedAt.error);
    }
    var current := row.(metadata := Metadata(mediaType.value.0, sizeBytes.value.0, sourceCreatedAt.value.0));
    if at < current.discoveredAt {
      current := current.(discoveredAt := at);
    }
    if (mediaType.value.1 || sizeBytes.value.1 || sourceCreatedAt.value.1) && at > current.updatedAt {
      current := current.(updatedAt := at);
    }
    r := Success(current);
  }

  lemma SelfAgrees(metadata: Metadata)
    ensures MetadataAgrees(metadata, metadata) && MergedMetadata(metadata, metadata) == metadata
  {
  }

  class ArtifactStore {
    var artifacts: Artifacts
    var descriptors: Descriptors
    var tags: map<TagKey, TagRow>
    var nextId: RowId

    ghost predicate Valid()
      reads this
    {
      && TablesOk(artifacts, descriptors)
      && (forall key | key in artifacts :: artifacts[key].id < nextId)
      && (forall id | id in descriptors :: id < nextId)
      && TagsOk(artifacts, tags)
    }

    ghost function Facts(): View
      requires Valid()
      reads this
    {
      ViewOf(artifacts, descriptors)
    }

    ghost function Tags(): map<TagKey, TagRegister.Tag>
      requires Valid()
      reads this
    {
      TagsIn(artifacts, tags)
    }

    constructor ()
      ensures Valid() && Facts() == map[] && Tags() == map[]
    {
      artifacts, descriptors, tags, nextId := map[], map[], map[], 0;
    }

    /** Writes one artifact row. */
    method Write(key: Key, row: ArtifactRow)
      requires Valid() && Writable(artifacts, descriptors, key, row) && row.id < nextId
      modifies this`artifacts
      ensures Valid() && artifacts == old(artifacts)[key := row] && KeepsIds(old(artifacts), artifacts)
      ensures Facts() == old(Facts())[
                key := ArtifactFacts.Facts(row.kind, row.metadata, row.discoveredAt,
                             if key in old(artifacts) then old(Facts())[key].children else None)]
      ensures Tags() == old(Tags())
    {
      hide ValidDigest, ChildrenIn, TablesOk, ViewOf, TagsOk, TagsIn, KeyOf;
      WrittenRowsOk(artifacts, descriptors, key, row);
      WrittenView(artifacts, descriptors, key, row);
      TagsKept(artifacts, artifacts[key := row], tags);
      artifacts := artifacts[key := row];
    }

    /** What the facts show of a stored row. */
    lemma FactsAt(key: Key)
      requires Valid()
      ensures key in Facts() <==> key in artifacts
      ensures KeepsIds(artifacts, artifacts)
      ensures key in artifacts ==>
                var (facts, row) := (Facts()[key], artifacts[key]);
                && facts.kind == row.kind && facts.metadata == row.metadata && facts.discoveredAt == row.discoveredAt
                && (facts.children.Some? <==> row.descriptorsComplete)
                && ValidDigest(key.digest) && row.discoveredAt <= row.updatedAt && row.id < nextId
    {
      ViewAt(artifacts, descriptors, key);
    }

    lemma ListMore(repository: string, rows: seq<DescriptorRow>, items: seq<Descriptor>, d: Descriptor)
      requires Valid() && ListedAs(artifacts, repository, rows, items) && Key(repository, d.digest) in artifacts
      ensures ListedAs(artifacts, repository,
                       rows + [DescriptorRowOf(d, artifacts[Key(repository, d.digest)].id)], items + [d])
    {
      ListedOneMore(artifacts, descriptors, repository, rows, items, d);
    }

    /** INSERT ... ON CONFLICT (repository_id, digest) DO NOTHING. */
    method Insert(key: Key, kind: Kind, metadata: Metadata, at: Time) returns (ok: bool)
      requires Valid()
      modifies this`artifacts, this`nextId
      ensures Valid() && KeepsIds(old(artifacts), artifacts)
      ensures ok <==> key in old(artifacts) || ValidDigest(key.digest)
      ensures ok && key !in old(artifacts) ==>
                && key in artifacts && artifacts[key].updatedAt == at
                && Facts() == old(Facts())[key := ArtifactFacts.Facts(kind, metadata, at, None)]
      ensures !ok || key in old(artifacts) ==> artifacts == old(artifacts) && Facts() == old(Facts())
      ensures forall other | other in old(artifacts) :: other in artifacts && artifacts[other] == old(artifacts[other])
      ensures Tags() == old(Tags())
    {
      hide ValidDigest, ChildrenIn, TablesOk, ViewOf, KeyOf;
      ViewAt(artifacts, descriptors, key);
      ok := key in artifacts || ValidDigest(key.digest);
      if key !in artifacts && ok {
        nextId := nextId + 1;
        Write(key, ArtifactRow(nextId - 1, kind, metadata, false, at, at));
      }
    }

    /** Inserts the artifact unless it is there, then merges the observation into its row. */
    method ReconcileArtifact(key: Key, kind: Kind, metadata: Metadata, at: Time) returns (r: Result<ArtifactRow, Error>)
      requires Valid()
      modifies this`artifacts, this`nextId
      ensures Valid() && KeepsIds(old(artifacts), artifacts)
      ensures r.Success? ==>
                && MergeArtifact(old(Facts()), key, kind, metadata, at) == Success(Facts())
                && key in artifacts && r.value == artifacts[key]
                && (key in old(artifacts) ==> old(artifacts[key].updatedAt) <= r.value.updatedAt)
      ensures r.Failure? ==> MergeArtifact(old(Facts()), key, kind, metadata, at) == Failure(r.error)
      ensures forall other | other in old(artifacts) && other != key ::
                other in artifacts && artifacts[other] == old(artifacts[other])
      ensures Tags() == old(Tags())
    {
      hide Valid, Facts, Tags, ValidDigest, MergedMetadata, MetadataAgrees;
      FactsAt(key);
      var inserted := Insert(key, kind, metadata, at);
      if !inserted {
        return Failure(InvalidDigest);
      }
      FactsAt(key);
      var current := artifacts[key];
      if current.kind != kind {
        return Failure(Conflict);
      }
      SelfAgrees(metadata);
      var merged := MergeRow(current, metadata, at);
      if merged.Failure? {
        return Failure(merged.error);
      }
      Write(key, merged.value);
      ghost var before := old(Facts());
      ghost var facts := Facts()[key];
      assert key in before ==> facts == before[key].(
          metadata := MergedMetadata(before[key].metadata, metadata), discoveredAt := Earlier(before[key].discoveredAt, at));
      assert key !in before ==> facts == ArtifactFacts.Facts(kind, metadata, at, None);
      assert Facts() == before[key := facts];
      r := merged;
    }

    /** For a complete index, comparing rows by child ID decides whether its frozen list is the one observed. */
    lemma ListCompared(key: Key, rows: seq<DescriptorRow>, items: seq<Descriptor>)
      requires Valid() && key in artifacts && artifacts[key].descriptorsComplete
      requires ListedAs(artifacts, key.repository, rows, items)
      ensures RowsOf(descriptors, artifacts[key].id) == rows <==> Facts()[key].children == Some(ChildrenOf(items))
    {
      hide ChildrenIn, ValidDigest;
      SameRowsIffSameChildren(artifacts, key.repository, RowsOf(descriptors, artifacts[key].id), rows);
    }

    /** Inserts an index's descriptor rows and marks the index complete. */
    method Store(key: Key, row: ArtifactRow, rows: seq<DescriptorRow>, ghost items: seq<Descriptor>)
      requires Valid() && Storable(artifacts, key, row)
      requires ListedAs(artifacts, key.repository, rows, items)
      modifies this`artifacts, this`descriptors
      ensures Valid() && artifacts == old(artifacts)[key := row] && KeepsIds(old(artifacts), artifacts)
      ensures Facts() == old(Facts())[key := old(Facts())[key].(children := Some(ChildrenOf(items)))]
      ensures Tags() == old(Tags())
    {
      hide ValidDigest, ChildrenIn, TablesOk, ViewOf, RowsIn, TagsOk, TagsIn, KeyOf, ChildrenOf;
      FactsAt(key);
      StoredRowsOk(artifacts, descriptors, key, row, rows);
      StoredView(artifacts, descriptors, key, row, rows);
      TagsKept(artifacts, artifacts[key := row], tags);
      artifacts := artifacts[key := row];
      descriptors := descriptors[row.id := rows];
    }

    /** sameDescriptorRecords: compares stored with desired rows one by one. */
    static method SameDescriptorRecords(first: seq<DescriptorRow>, second: seq<DescriptorRow>) returns (same: bool)
      ensures same <==> first == second
    {
      if |first| != |second| {
        return false;
      }
      for index := 0 to |first|
        invariant first[..index] == second[..index]
      {
        if first[index] != second[index] {
          return false;
        }
      }
      assert first[..|first|] == first && second[..|first|] == second;
      same := true;
    }

    /** Adds an index's descriptor rows, or compares the desired rows with the stored ones by child ID. */
    method ReconcileDescriptors(key: Key, parent: ArtifactRow, items: seq<Descriptor>, at: Time)
      returns (r: Result<ArtifactRow, Error>)
      requires Valid() && key in artifacts && artifacts[key] == parent
      modifies this`artifacts, this`descriptors, this`nextId
      ensures Valid() && KeepsIds(old(artifacts), artifacts)
      ensures r.Success? ==>
                && ReconciledList(old(Facts()), key, items, at) == Success(Facts())
                && key in artifacts && r.value == artifacts[key]
                && r.value.descriptorsComplete && parent.updatedAt <= r.value.updatedAt
      ensures r.Failure? ==> ReconciledList(old(Facts()), key, items, at) == Failure(r.error)
      ensures Tags() == old(Tags())
    {
      hide Valid, Facts, Tags, ValidDigest, ChildrenIn, RowsIn, ListedAs, ChildrenOf, ChildMetadata, KeyOf;
      FactsAt(key);
      if parent.kind != Index {
        return Failure(InvalidArtifact);
      }
      var desired: seq<DescriptorRow> := [];
      NothingListed(artifacts, key.repository);
      for position := 0 to |items|
        invariant Valid() && KeepsIds(old(artifacts), artifacts) && descriptors == old(descriptors)
        invariant key in artifacts && artifacts[key] == parent
        invariant MergeChildren(old(Facts()), key.repository, items[..position], at) == Success(Facts())
        invariant ListedAs(artifacts, key.repository, desired, items[..position])
        invariant Tags() == old(Tags())
      {
        var d := items[position];
        assert items[..position + 1] == items[..position] + [d];
        ghost var before := artifacts;
        FactsAt(key);
        var child := ReconcileArtifact(Key(key.repository, d.digest), Manifest, ChildMetadata(d), at);
        if child.Failure? {
          MergeChildrenFails(old(Facts()), key.repository, items, position, at);
          return Failure(child.error);
        }
        ListedStays(before, artifacts, key.repository, desired, items[..position]);
        ListMore(key.repository, desired, items[..position], d);
        desired := desired + [DescriptorRowOf(d, child.value.id)];
      }
      assert items[..|items|] == items;
      MergeKeepsLists(old(Facts()), key.repository, items, at, key);
      if parent.descriptorsComplete {
        var same := SameDescriptorRecords(RowsOf(descriptors, parent.id), desired);
        ListCompared(key, desired, items);
        if !same {
          return Failure(Conflict);
        }
        return Success(parent);
      }
      var completed := parent.(
        descriptorsComplete := true, updatedAt := if at > parent.updatedAt then at else parent.updatedAt);
      Store(key, completed, desired, items);
      r := Success(completed);
    }

    /** Creates the tag, or moves it to another artifact on a later observation; IDs stand for digests. */
    method ReconcileTag(name: TagKey, key: Key, artifact: ArtifactRow, at: Time) returns (tag: TagRegister.Tag)
      requires Valid() && key in artifacts && artifacts[key] == artifact && key.repository == name.repository
      modifies this`tags
      ensures Valid() && Facts() == old(Facts())
      ensures tag == TagRegister.Moved(Lookup(old(Tags()), name), TagRegister.Delivery(key.digest, at))
      ensures Tags() == old(Tags())[name := tag]
    {
      hide ValidDigest, ChildrenIn, ViewOf, RowsIn, TablesOk, HasId, KeyOf;
      KeyOfId(artifacts, descriptors, key);
      if name !in tags {
        tags := tags[name := TagRow(artifact.id, at, at)];
      }
      TagShows(artifacts, descriptors, tags, name, key);
      var current := tags[name];
      if current.artifact != artifact.id {
        if at <= current.updatedAt {
          var digest := DigestOf(current.artifact);
          return TagRegister.Tag(digest, current.createdAt, current.updatedAt);
        }
        current := current.(artifact := artifact.id, updatedAt := at);
        tags := tags[name := current];
      }
      tag := TagRegister.Tag(key.digest, current.createdAt, current.updatedAt);
    }

    /** Reads the digest of the artifact an ID names. */
    method DigestOf(id: RowId) returns (digest: Digest)
      requires Valid() && HasId(artifacts, id)
      ensures digest == KeyOf(artifacts, id).digest
    {
      var holder :| holder in artifacts && artifacts[holder].id == id;
      digest := holder.digest;
    }

    /** descriptorsByArtifactID: joins an index's rows with the artifacts they name. */
    method ListedDescriptors(key: Key) returns (r: Option<seq<Child>>)
      requires Valid() && key in artifacts
      ensures r == Facts()[key].children
    {
      hide ValidDigest;
      FactsAt(key);
      var row := artifacts[key];
      if row.kind != Index || !row.descriptorsComplete {
        return None;
      }
      var rows := RowsOf(descriptors, row.id);
      var items: seq<Child> := [];
      for position := 0 to |rows|
        invariant items == ChildrenIn(artifacts, rows[..position])
      {
        var item := rows[position];
        var digest := DigestOf(item.child);
        items := items + [Child(digest, item.os, item.architecture, item.variant)];
      }
      assert rows[..|rows|] == rows;
      r := Some(items);
    }

    /** One transaction for one observation. An error rolls every table back. */
    method Commit(o: Observation) returns (r: Result<Snapshot, Error>)
      requires Valid()
      modifies this
      ensures Valid()
      ensures r.Failure? ==>
                && Reconciled(old(Facts()), o) == Failure(r.error)
                && artifacts == old(artifacts) && descriptors == old(descriptors) && tags == old(tags)
                && Facts() == old(Facts()) && Tags() == old(Tags())
      ensures r.Success? ==>
                && Reconciled(old(Facts()), o) == Success(Facts())
                && ParentKey(o) in artifacts && r.value.artifact == artifacts[ParentKey(o)]
                && r.value.descriptors == Facts()[ParentKey(o)].children
                && Tags() == TagsAfter(old(Tags()), o)
                && r.value.tag == if o.tag.Some? then Lookup(Tags(), TagKey(o.repository, o.tag.value)) else None
    {
      hide ValidDigest, ChildrenIn, TablesOk, ViewOf, TagsOk, TagsIn, KeyOf, ChildrenOf,
           MergeArtifact, MergeChildren, ReconciledList;
      if o.repository == "" || o.observedAt == ZeroTime {
        return Failure(InvalidArtifact);
      }
      if !ValidDigest(o.digest) {
        return Failure(InvalidDigest);
      }
      var before := (artifacts, descriptors, tags, nextId);
      var key := ParentKey(o);
      var parent := ReconcileArtifact(key, o.kind, o.metadata, o.observedAt);
      if parent.Success? && o.descriptors.Some? {
        parent := ReconcileDescriptors(key, parent.value, o.descriptors.value, o.observedAt);
      }
      if parent.Failure? {
        artifacts, descriptors, tags, nextId := before.0, before.1, before.2, before.3;
        return Failure(parent.error);
      }
      var tag: Option<TagRegister.Tag> := None;
      if o.tag.Some? {
        var reconciled := ReconcileTag(TagKey(o.repository, o.tag.value), key, parent.value, o.observedAt);
        tag := Some(reconciled);
      }
      var listed := ListedDescriptors(key);
      r := Success(Snapshot(parent.value, tag, listed));
    }

    /** The pushed artifact's row, after its observation was reconciled from the facts v. */
    lemma PushedRow(v: View, o: Observation)
      requires Valid() && ViewOk(v) && Reconciled(v, o) == Success(Facts())
      ensures ParentKey(o) in artifacts && artifacts[ParentKey(o)].kind == o.kind
      ensures var metadata := artifacts[ParentKey(o)].metadata;
              && (o.metadata.mediaType.Some? ==> metadata.mediaType == o.metadata.mediaType)
              && (o.metadata.sizeBytes.Some? ==> metadata.sizeBytes == o.metadata.sizeBytes)
              && (o.metadata.sourceCreatedAt.Some? ==> metadata.sourceCreatedAt == o.metadata.sourceCreatedAt)
    {
      hide Valid, Facts, Reconciled, ViewOk;
      PushedIsKnown(v, o);
      FactsAt(ParentKey(o));
    }

    /** The row of the i-th listed manifest, and its entry in the stored list. */
    lemma ListedRow(v: View, o: Observation, i: nat)
      requires Valid() && ViewOk(v) && Reconciled(v, o) == Success(Facts())
      requires o.descriptors.Some? && i < |o.descriptors.value|
      ensures var d, key := o.descriptors.value[i], Key(o.repository, o.descriptors.value[i].digest);
              && key in artifacts && artifacts[key].kind == Manifest
              && (d.mediaType.Some? ==> artifacts[key].metadata.mediaType == d.mediaType)
              && (d.sizeBytes.Some? ==> artifacts[key].metadata.sizeBytes == d.sizeBytes)
      ensures ParentKey(o) in Facts() && Facts()[ParentKey(o)].children.Some?
      ensures |Facts()[ParentKey(o)].children.value| == |o.descriptors.value|
      ensures var d, child := o.descriptors.value[i], Facts()[ParentKey(o)].children.value[i];
              match d.platform
              case None => child == Child(d.digest, None, None, None)
              case Some(p) =>
                child == Child(d.digest, Some(p.os), Some(p.architecture), if p.variant == "" then None else Some(p.variant))
    {
      hide Valid, Facts, Reconciled, ViewOk;
      ListedIsKnown(v, o, i);
      ListIsStored(v, o, i);
      FactsAt(Key(o.repository, o.descriptors.value[i].digest));
    }

    /**
     What reconciling an observation puts in the tables: the pushed artifact's kind and metadata, a
     manifest row for every descriptor with the media type and size it gives, and the list in order.
     */
    method Reconcile(o: Observation) returns (r: Result<Snapshot, Error>)
      requires Valid()
      modifies this
      ensures Valid()
      ensures r.Failure? ==>
                && Reconciled(old(Facts()), o) == Failure(r.error)
                && artifacts == old(artifacts) && descriptors == old(descriptors) && tags == old(tags)
                && Facts() == old(Facts()) && Tags() == old(Tags())
      ensures r.Success? ==>
                && Reconciled(old(Facts()), o) == Success(Facts())
                && ParentKey(o) in artifacts && r.value.artifact == artifacts[ParentKey(o)]
                && r.value.descriptors == Facts()[ParentKey(o)].children
                && Tags() == TagsAfter(old(Tags()), o)
                && r.value.tag == if o.tag.Some? then Lookup(Tags(), TagKey(o.repository, o.tag.value)) else None
      ensures r.Success? ==>
                && r.value.artifact.kind == o.kind
                && (o.metadata.mediaType.Some? ==> r.value.artifact.metadata.mediaType == o.metadata.mediaType)
                && (o.metadata.sizeBytes.Some? ==> r.value.artifact.metadata.sizeBytes == o.metadata.sizeBytes)
      ensures r.Success? && o.descriptors.Some? ==>
                forall i: nat | i < |o.descriptors.value| ::
                  var d, key := o.descriptors.value[i], Key(o.repository, o.descriptors.value[i].digest);
                  && key in artifacts && artifacts[key].kind == Manifest
                  && (d.mediaType.Some? ==> artifacts[key].metadata.mediaType == d.mediaType)
                  && (d.sizeBytes.Some? ==> artifacts[key].metadata.sizeBytes == d.sizeBytes)
      ensures r.Success? && o.descriptors.Some? ==>
                forall i: nat | i < |o.descriptors.value| ::
                  && r.value.descriptors.Some? && |r.value.descriptors.value| == |o.descriptors.value|
                  && var d, child := o.descriptors.value[i], r.value.descriptors.value[i];
                     match d.platform
                     case None => child == Child(d.digest, None, None, None)
                     case Some(p) =>
                       child == Child(d.digest, Some(p.os), Some(p.architecture),
                                      if p.variant == "" then None else Some(p.variant))
    {
      FactsAreOk();
      hide Valid, Facts, Tags, Reconciled, ViewOk, TagsAfter;
      ghost var known := Facts();
      r := Commit(o);
      if r.Success? {
        PushedRow(known, o);
        if o.descriptors.Some? {
          forall i: nat | i < |o.descriptors.value|
            ensures var d, key := o.descriptors.value[i], Key(o.repository, o.descriptors.value[i].digest);
                    && key in artifacts && artifacts[key].kind == Manifest
                    && (d.mediaType.Some? ==> artifacts[key].metadata.mediaType == d.mediaType)
                    && (d.sizeBytes.Some? ==> artifacts[key].metadata.sizeBytes == d.sizeBytes)
            ensures r.value.descriptors.Some? && |r.value.descriptors.value| == |o.descriptors.value|
            ensures var d, child := o.descriptors.value[i], r.value.descriptors.value[i];
                    match d.platform
                    case None => child == Child(d.digest, None, None, None)
                    case Some(p) =>
                      child == Child(d.digest, Some(p.os), Some(p.architecture),
                                     if p.variant == "" then None else Some(p.variant))
          {
            ListedRow(known, o, i);
          }
        }
      }
    }

    lemma FactsAreOk()
      requires Valid()
      ensures ViewOk(Facts())
    {
      hide ValidDigest, ChildrenIn;
    }
  }
}
