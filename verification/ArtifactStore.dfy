/** The in-memory artifact store: recency is kept by a counter, and the smallest stamp is evicted. */
module ArtifactStore {
  import opened JsText
  import opened Numerals
  import opened Wrappers
  import opened Recency

  datatype Status = Active | Inactive | Deprecated

  datatype Kind = Tool | Agent

  type Id = Text

  /** The schema of a tool or the manifest of an agent; the store never looks inside. */
  type Payload = Text

  datatype Artifact = Artifact(id: Id, name: Text, description: Text, kind: Kind, tags: seq<Text>,
                               version: int, status: Status, createdAt: Text, updatedAt: Text, payload: Payload)

  datatype Metadata = Metadata(id: Id, name: Text, description: Text, kind: Kind, tags: seq<Text>,
                               version: int, status: Status, createdAt: Text, updatedAt: Text)

  datatype StoreEntry = StoreEntry(artifact: Artifact, metadata: Metadata, lastAccessed: int)

  datatype CreateParams = CreateParams(name: Text, description: Text, kind: Kind, payload: Option<Payload>,
                                       tags: Option<seq<Text>>)

  datatype UpdateParams = UpdateParams(name: Option<Text>, description: Option<Text>, status: Option<Status>,
                                       tags: Option<seq<Text>>, expectedVersion: Option<int>,
                                       schema: Option<Payload>, manifest: Option<Payload>)

  datatype StoreError = ValidationFailed | VersionConflict(id: Id, expected: int, actual: int)

  function MetadataOf(a: Artifact): Metadata {
    Metadata(a.id, a.name, a.description, a.kind, a.tags, a.version, a.status, a.createdAt, a.updatedAt)
  }

  function GetOr<T>(o: Option<T>, default: T): T {
    match o case Some(v) => v case None => default
  }

  /** What is left after trimming is not empty. */
  predicate NonBlank(s: Text) {
    !AllWhitespace(s)
  }

  predicate ValidTags(tags: Option<seq<Text>>) {
    tags.Some? ==>
      && |tags.value| <= 50
      && forall i | 0 <= i < |tags.value| :: NonBlank(tags.value[i]) && |tags.value[i]| <= 100
  }

  predicate ValidCreate(p: CreateParams) {
    NonBlank(p.name) && |p.name| <= 256 && NonBlank(p.description) && p.payload.Some? && ValidTags(p.tags)
  }

  predicate ValidUpdate(p: UpdateParams) {
    && (p.name.Some? ==> NonBlank(p.name.value) && |p.name.value| <= 256)
    && (p.description.Some? ==> NonBlank(p.description.value))
    && (p.expectedVersion.Some? ==> p.expectedVersion.value >= 1)
    && ValidTags(p.tags)
  }

  function Created(id: Id, p: CreateParams, now: Text): Artifact
    requires ValidCreate(p)
  {
    Artifact(id, p.name, p.description, p.kind, GetOr(p.tags, []), 1, Active, now, now, p.payload.value)
  }

  function Updated(a: Artifact, p: UpdateParams, now: Text): Artifact {
    a.(name := GetOr(p.name, a.name), description := GetOr(p.description, a.description),
       status := GetOr(p.status, a.status), tags := GetOr(p.tags, a.tags),
       version := a.version + 1, updatedAt := now,
       payload := GetOr(if a.kind == Tool then p.schema else p.manifest, a.payload))
  }

  /** What a request for creation gives: the first version, active, with the fields requested. */
  predicate IsNew(a: Artifact, id: Id, p: CreateParams, now: Text) {
    && a.id == id && a.version == 1 && a.status == Active && a.createdAt == now && a.updatedAt == now
    && a.name == p.name && a.description == p.description && a.kind == p.kind
    && a.tags == (match p.tags case Some(tags) => tags case None => [])
    && p.payload == Some(a.payload)
  }

  /** The field has its requested value, or the one it had. */
  predicate Takes<T(==)>(after: T, requested: Option<T>, before: T) {
    match requested
    case Some(value) => after == value
    case None => after == before
  }

  /** What an update does: the next version, with every field requested and all others as they were. */
  predicate IsUpdate(before: Artifact, after: Artifact, p: UpdateParams, now: Text) {
    && after.id == before.id && after.kind == before.kind && after.createdAt == before.createdAt
    && after.version == before.version + 1 && after.updatedAt == now
    && Takes(after.name, p.name, before.name)
    && Takes(after.description, p.description, before.description)
    && Takes(after.status, p.status, before.status)
    && Takes(after.tags, p.tags, before.tags)
    && Takes(after.payload, if before.kind == Tool then p.schema else p.manifest, before.payload)
  }

  /** The metadata of an artifact are its fields. */
  lemma {:induction false} MetadataDescribes(a: Artifact)
    ensures var m := MetadataOf(a);
            && m.id == a.id && m.name == a.name && m.description == a.description && m.kind == a.kind
            && m.tags == a.tags && m.version == a.version && m.status == a.status
            && m.createdAt == a.createdAt && m.updatedAt == a.updatedAt
  {
  }

  // ---- Updates of one artifact, one after the other ----

  predicate Accepts(a: Artifact, p: UpdateParams) {
    ValidUpdate(p) && (p.expectedVersion.Some? ==> p.expectedVersion.value == a.version)
  }

  function AfterUpdates(a: Artifact, updates: seq<(UpdateParams, Text)>): Artifact {
    if updates == [] then a
    else
      var before, (p, now) := AfterUpdates(a, updates[..|updates| - 1]), updates[|updates| - 1];
      if Accepts(before, p) then Updated(before, p, now) else before
  }

  /** How many of the updates are accepted. */
  function AcceptedCount(a: Artifact, updates: seq<(UpdateParams, Text)>): nat {
    if updates == [] then 0
    else
      var before := updates[..|updates| - 1];
      AcceptedCount(a, before) + if Accepts(AfterUpdates(a, before), updates[|updates| - 1].0) then 1 else 0
  }

  /** The version counts the accepted updates. */
  lemma {:induction false} VersionCountsUpdates(a: Artifact, updates: seq<(UpdateParams, Text)>)
    ensures AfterUpdates(a, updates).version == a.version + AcceptedCount(a, updates)
    ensures AfterUpdates(a, updates).id == a.id
  {
    if updates != [] {
      VersionCountsUpdates(a, updates[..|updates| - 1]);
    }
  }

  lemma {:induction false} AcceptedUpTo(a: Artifact, updates: seq<(UpdateParams, Text)>, m: nat, n: nat)
    requires m <= n <= |updates|
    ensures AcceptedCount(a, updates[..m]) <= AcceptedCount(a, updates[..n])
    ensures m < n && Accepts(AfterUpdates(a, updates[..m]), updates[m].0) ==>
              AcceptedCount(a, updates[..m]) < AcceptedCount(a, updates[..n])
    decreases n
  {
    if m < n {
      assert updates[..n][..n - 1] == updates[..n - 1];
      AcceptedUpTo(a, updates, m, n - 1);
    }
  }

  /** No update is lost: of two updates that expect the same version at most one is accepted. */
  lemma {:induction false} OneUpdatePerVersion(a: Artifact, updates: seq<(UpdateParams, Text)>, m: nat, n: nat)
    requires m < n < |updates| && updates[m].0.expectedVersion == updates[n].0.expectedVersion != None
    requires Accepts(AfterUpdates(a, updates[..m]), updates[m].0)
    ensures !Accepts(AfterUpdates(a, updates[..n]), updates[n].0)
  {
    AcceptedUpTo(a, updates, m, n);
    VersionCountsUpdates(a, updates[..m]);
    VersionCountsUpdates(a, updates[..n]);
  }

  /** "art-mem-" */
  const ID_PREFIX: Text := [97, 114, 116, 45, 109, 101, 109, 45]

  function IdOf(n: nat): Id {
    ID_PREFIX + Decimal(n)
  }

  /** `id` is one of the identifiers given out so far. */
  ghost predicate Issued(id: Id, nextId: nat) {
    exists n: nat :: n < nextId && id == IdOf(n)
  }

  lemma {:induction false} NextIdIsNew(nextId: nat)
    ensures !Issued(IdOf(nextId), nextId) && Issued(IdOf(nextId), nextId + 1)
  {
    if Issued(IdOf(nextId), nextId) {
      var n: nat :| n < nextId && IdOf(nextId) == IdOf(n);
      assert IdOf(n)[|ID_PREFIX|..] == Decimal(n) && IdOf(nextId)[|ID_PREFIX|..] == Decimal(nextId);
      DecimalInjective(n, nextId);
    }
  }

  ghost predicate AllIssued(m: map<Id, StoreEntry>, nextId: nat) {
    forall k | k in m :: Issued(k, nextId)
  }

  ghost predicate StampsUpTo(m: map<Id, StoreEntry>, counter: int) {
    forall k | k in m :: m[k].lastAccessed <= counter
  }

  // ---- Stamped entries refine a recency list ----

  /** The entries of `l` are those of `m`, in the order of their stamps. */
  ghost predicate Stamped(m: map<Id, StoreEntry>, l: Entries<Id, Artifact>) {
    l == [] ||
    (&& l[0].0 in m
     && m[l[0].0].artifact == l[0].1
     && m[l[0].0].metadata == MetadataOf(l[0].1)
     && (|l| > 1 && l[1].0 in m ==> m[l[0].0].lastAccessed < m[l[1].0].lastAccessed)
     && Stamped(m, l[1..]))
  }

  ghost predicate Refines(m: map<Id, StoreEntry>, l: Entries<Id, Artifact>) {
    DistinctKeys(l) && KeySet(l) == m.Keys && Stamped(m, l)
  }

  lemma {:induction false} FindStamped(m: map<Id, StoreEntry>, l: Entries<Id, Artifact>, k: Id)
    requires Stamped(m, l) && k in KeySet(l)
    ensures k in m && Find(l, k) == Some(m[k].artifact) && m[k].metadata == MetadataOf(m[k].artifact)
  {
    if l[0].0 != k {
      FindStamped(m, l[1..], k);
    }
  }

  /** What a store returns for a key is what the recency list holds for it. */
  lemma {:induction false} FindRefined(m: map<Id, StoreEntry>, l: Entries<Id, Artifact>, k: Id)
    requires Refines(m, l)
    ensures Find(l, k) == if k in m then Some(m[k].artifact) else None
  {
    FindIsMembership(l, k);
    if k in m {
      FindStamped(m, l, k);
    }
  }

  /** The head has the strictly smallest stamp, and no two entries share one. */
  lemma {:induction false} HeadIsSmallest(m: map<Id, StoreEntry>, l: Entries<Id, Artifact>, k: Id)
    requires Stamped(m, l) && l != [] && k in KeySet(l[1..])
    ensures k in m && m[l[0].0].lastAccessed < m[k].lastAccessed
  {
    if l[1].0 != k {
      HeadIsSmallest(m, l[1..], k);
    }
  }

  lemma {:induction false} HeadBelowOthers(m: map<Id, StoreEntry>, l: Entries<Id, Artifact>)
    requires Refines(m, l) && l != []
    ensures l[0].0 in m && forall k | k in m && k != l[0].0 :: m[l[0].0].lastAccessed < m[k].lastAccessed
  {
    forall k | k in m && k != l[0].0 ensures m[l[0].0].lastAccessed < m[k].lastAccessed {
      HeadIsSmallest(m, l, k);
    }
  }

  lemma {:induction false} StampsDistinct(m: map<Id, StoreEntry>, l: Entries<Id, Artifact>, j: Id,
      k: Id)
    requires Stamped(m, l) && j in KeySet(l) && k in KeySet(l) && j != k
    ensures j in m && k in m && m[j].lastAccessed != m[k].lastAccessed
  {
    if l[0].0 == j {
      HeadIsSmallest(m, l, k);
    } else if l[0].0 == k {
      HeadIsSmallest(m, l, j);
    } else {
      StampsDistinct(m, l[1..], j, k);
    }
  }

  lemma {:induction false} StampedFrame(m: map<Id, StoreEntry>, m': map<Id, StoreEntry>,
      l: Entries<Id, Artifact>)
    requires Stamped(m, l)
    requires forall j | j in KeySet(l) :: j in m' && j in m && m'[j] == m[j]
    ensures Stamped(m', l)
  {
    if l != [] {
      StampedFrame(m, m', l[1..]);
      if |l| > 1 {
        assert l[1].0 in KeySet(l[1..]);
      }
    }
  }

  lemma {:induction false} StampedRemove(m: map<Id, StoreEntry>, l: Entries<Id, Artifact>, k: Id)
    requires DistinctKeys(l) && Stamped(m, l)
    ensures Stamped(m, Remove(l, k))
  {
    if l != [] && l[0].0 != k {
      var rest := Remove(l[1..], k);
      StampedRemove(m, l[1..], k);
      assert Remove(l, k)[1..] == rest;
      if rest != [] {
        RemoveParts(l[1..], k);
        assert rest[0].0 in KeySet(rest);
        HeadIsSmallest(m, l, rest[0].0);
      }
    }
  }

  lemma {:induction false} StampedAppend(m: map<Id, StoreEntry>, l: Entries<Id, Artifact>, k: Id,
      a: Artifact)
    requires Stamped(m, l) && k in m && m[k].artifact == a && m[k].metadata == MetadataOf(a)
    requires forall j | j in KeySet(l) :: j in m && m[j].lastAccessed < m[k].lastAccessed
    ensures Stamped(m, l + [(k, a)])
  {
    if l == [] {
      assert l + [(k, a)] == [(k, a)];
    } else {
      assert (l + [(k, a)])[1..] == l[1..] + [(k, a)];
      StampedAppend(m, l[1..], k, a);
    }
  }

  /** Giving a key a new value and the largest stamp makes it the most recent one. */
  lemma {:induction false} TouchRefines(m: map<Id, StoreEntry>, l: Entries<Id, Artifact>, k: Id,
      a: Artifact, stamp: int)
    requires Refines(m, l) && StampsUpTo(m, stamp - 1)
    ensures Refines(m[k := StoreEntry(a, MetadataOf(a), stamp)], Touch(l, k, a))
  {
    var m' := m[k := StoreEntry(a, MetadataOf(a), stamp)];
    var removed := Remove(l, k);
    RemoveParts(l, k);
    AppendParts(removed, k, a);
    StampedRemove(m, l, k);
    StampedFrame(m, m', removed);
    StampedAppend(m', removed, k, a);
  }

  lemma {:induction false} DeleteRefines(m: map<Id, StoreEntry>, l: Entries<Id, Artifact>, k: Id)
    requires Refines(m, l)
    ensures Refines(m - {k}, Remove(l, k))
  {
    RemoveParts(l, k);
    StampedRemove(m, l, k);
    StampedFrame(m, m - {k}, Remove(l, k));
  }

  ghost predicate IsOldest(m: map<Id, StoreEntry>, k: Id) {
    k in m && forall j | j in m :: m[k].lastAccessed <= m[j].lastAccessed
  }

  /** The entry with the smallest stamp is the head of the list: evicting it evicts the least recent one. */
  lemma {:induction false} EvictRefines(m: map<Id, StoreEntry>, l: Entries<Id, Artifact>, k: Id)
    requires Refines(m, l) && IsOldest(m, k)
    ensures l != [] && l[0].0 == k && Refines(m - {k}, l[1..])
  {
    assert l[0].0 in m;
    if l[0].0 != k {
      HeadIsSmallest(m, l, k);
    }
    assert Remove(l, k) == l[1..];
    DeleteRefines(m, l, k);
  }

  lemma {:induction false} SizesAgree(m: map<Id, StoreEntry>, l: Entries<Id, Artifact>)
    requires Refines(m, l)
    ensures |m| == |l|
  {
    KeySetSize(l);
    assert |m| == |m.Keys|;
  }

  ghost function Reversed<T>(s: seq<T>): seq<T> {
    if s == [] then [] else Reversed(s[1..]) + [s[0]]
  }

  ghost function MetadataList(l: Entries<Id, Artifact>): seq<Metadata> {
    if l == [] then [] else [MetadataOf(l[0].1)] + MetadataList(l[1..])
  }

  /** The scan for the smallest stamp. */
  method OldestKey(entries: map<Id, StoreEntry>) returns (oldestKey: Option<Id>)
    ensures oldestKey == None <==> entries == map[]
    ensures oldestKey.Some? ==> IsOldest(entries, oldestKey.value)
  {
    var todo := entries.Keys;
    oldestKey := None;
    while todo != {}
      invariant todo <= entries.Keys
      invariant oldestKey == None <==> todo == entries.Keys
      invariant oldestKey.Some? ==> oldestKey.value in entries
      invariant oldestKey.Some? ==> forall k | k in entries && k !in todo ::
                  entries[oldestKey.value].lastAccessed <= entries[k].lastAccessed
      decreases |todo|
    {
      var key :| key in todo;
      if oldestKey == None || entries[key].lastAccessed < entries[oldestKey.value].lastAccessed {
        oldestKey := Some(key);
      }
      todo := todo - {key};
    }
  }

  class Store {
    const capacity: int
    var entries: map<Id, StoreEntry>
    var nextId: nat
    var accessCounter: int

    // the abstract store: least recently used first
    ghost var recency: Entries<Id, Artifact>

    ghost predicate Valid()
      reads this
    {
      && Fits(recency, capacity)
      && Refines(entries, recency)
      && StampsUpTo(entries, accessCounter)
      && AllIssued(entries, nextId)
    }

    constructor (capacity: int)
      ensures Valid() && this.capacity == capacity && recency == []
    {
      this.capacity := capacity;
      entries, nextId, accessCounter := map[], 1, 0;
      recency := [];
    }

    method EvictIfNeeded()
      requires Valid()
      modifies `entries, `recency
      ensures Valid() && recency == Evict(old(recency), capacity)
    {
      SizesAgree(entries, recency);
      if |entries| < capacity {
        return;
      }
      var oldestKey := OldestKey(entries);
      if oldestKey.Some? {
        EvictRefines(entries, recency, oldestKey.value);
        entries := entries - {oldestKey.value};
        recency := recency[1..];
      }
    }

    /** Stamps an entry with the next counter value. */
    method Stamp(id: Id, artifact: Artifact)
      requires Valid() && Issued(id, nextId)
      requires Fits(Touch(recency, id, artifact), capacity)
      modifies `entries, `accessCounter, `recency
      ensures Valid() && recency == Touch(old(recency), id, artifact)
    {
      TouchRefines(entries, recency, id, artifact, accessCounter + 1);
      accessCounter := accessCounter + 1;
      entries := entries[id := StoreEntry(artifact, MetadataOf(artifact), accessCounter)];
      recency := Touch(recency, id, artifact);
    }

    method InsertNew(id: Id, artifact: Artifact)
      requires Valid() && Issued(id, nextId) && id !in entries
      modifies `entries, `accessCounter, `recency
      ensures Valid() && recency == Apply(old(recency), Op.Store(id, artifact), capacity)
    {
      ApplyFits(recency, Op.Store(id, artifact), capacity);
      FindIsMembership(recency, id);
      EvictIfNeeded();
      FindIsMembership(recency, id);
      Stamp(id, artifact);
    }

    method Load(id: Id) returns (artifact: Option<Artifact>)
      requires Valid()
      modifies this
      ensures Valid() && nextId == old(nextId)
      ensures recency == Apply(old(recency), Use(id), capacity)
      ensures artifact == Find(old(recency), id)
    {
      FindRefined(entries, recency, id);
      if id !in entries {
        return None;
      }
      ApplyFits(recency, Use(id), capacity);
      artifact := Some(entries[id].artifact);
      Stamp(id, entries[id].artifact);
    }

    /** A valid request stores a new artifact under a new id, evicting the least recent one of a full store. */
    method Create(params: CreateParams, now: Text) returns (r: Result<Artifact, StoreError>)
      requires Valid()
      modifies this
      ensures Valid()
      ensures if ValidCreate(params)
              then && nextId == old(nextId) + 1
                   && Find(old(recency), IdOf(old(nextId))) == None
                   && r == Success(Created(IdOf(old(nextId)), params, now))
                   && IsNew(r.value, IdOf(old(nextId)), params, now)
                   && recency == Apply(old(recency), Op.Store(IdOf(old(nextId)), r.value), capacity)
              else unchanged(this) && r == Failure(ValidationFailed)
    {
      if !ValidCreate(params) {
        return Failure(ValidationFailed);
      }
      var id := IdOf(nextId);
      NextIdIsNew(nextId);
      FindRefined(entries, recency, id);
      var artifact := Created(id, params, now);
      nextId := nextId + 1;
      InsertNew(id, artifact);
      return Success(artifact);
    }

    /** An update of a present artifact at the expected version bumps its version and makes it most recent. */
    method Update(id: Id, params: UpdateParams, now: Text) returns (r: Result<Option<Artifact>, StoreError>)
      requires Valid()
      modifies this
      ensures Valid() && nextId == old(nextId)
      ensures var found := Find(old(recency), id);
              if !ValidUpdate(params) then unchanged(this) && r == Failure(ValidationFailed)
              else if found == None then unchanged(this) && r == Success(None)
              else if params.expectedVersion.Some? && params.expectedVersion.value != found.value.version then
                unchanged(this) && r == Failure(VersionConflict(id, params.expectedVersion.value, found.value.version))
              else
                && r == Success(Some(Updated(found.value, params, now)))
                && IsUpdate(found.value, r.value.value, params, now) && Accepts(found.value, params)
                && recency == Apply(old(recency), Op.Store(id, Updated(found.value, params, now)), capacity)
    {
      if !ValidUpdate(params) {
        return Failure(ValidationFailed);
      }
      FindRefined(entries, recency, id);
      if id !in entries {
        return Success(None);
      }
      var current := entries[id].artifact;
      if params.expectedVersion.Some? && params.expectedVersion.value != current.version {
        return Failure(VersionConflict(id, params.expectedVersion.value, current.version));
      }
      var artifact := Updated(current, params, now);
      ApplyFits(recency, Op.Store(id, artifact), capacity);
      RemoveParts(recency, id);
      Stamp(id, artifact);
      return Success(Some(artifact));
    }

    method Delete(id: Id) returns (found: bool)
      requires Valid()
      modifies this
      ensures Valid() && nextId == old(nextId)
      ensures recency == Apply(old(recency), Drop(id), capacity)
      ensures found <==> Find(old(recency), id).Some?
    {
      FindRefined(entries, recency, id);
      ApplyFits(recency, Drop(id), capacity);
      DeleteRefines(entries, recency, id);
      found := id in entries;
      entries := entries - {id};
      recency := Remove(recency, id);
    }

    /** The metadata of all artifacts, most recently used first. */
    method Discover() returns (all: seq<Metadata>)
      requires Valid()
      ensures all == Reversed(MetadataList(recency))
    {
      var todo := entries.Keys;
      var sorted: seq<Id> := [];
      while todo != {}
        invariant todo <= entries.Keys
        invariant forall k :: k in sorted <==> k in entries.Keys - todo
        invariant Descending(entries, sorted)
        decreases |todo|
      {
        var key :| key in todo;
        InsertDescending(entries, recency, sorted, key);
        sorted := InsertByStamp(entries, sorted, key);
        todo := todo - {key};
      }
      DescendingIsReversed(entries, recency, sorted);
      all := MetadataOfKeys(entries, sorted);
    }
  }

  // ---- Sorting by descending stamp ----

  ghost predicate Descending(m: map<Id, StoreEntry>, keys: seq<Id>)
  {
    && (forall k | k in keys :: k in m)
    && forall i, j | 0 <= i < j < |keys| :: m[keys[i]].lastAccessed > m[keys[j]].lastAccessed
  }

  function InsertByStamp(m: map<Id, StoreEntry>, keys: seq<Id>, key: Id): (r: seq<Id>)
    requires key in m && forall k | k in keys :: k in m
    ensures forall k :: k in r <==> k == key || k in keys
  {
    if keys == [] then [key]
    else if m[keys[0]].lastAccessed > m[key].lastAccessed then
      assert keys == [keys[0]] + keys[1..];
      [keys[0]] + InsertByStamp(m, keys[1..], key)
    else [key] + keys
  }

  lemma {:induction false} FirstIsNewest(m: map<Id, StoreEntry>, keys: seq<Id>, k: Id)
    requires keys != [] && Descending(m, keys) && k in keys[1..]
    ensures k in m && m[keys[0]].lastAccessed > m[k].lastAccessed
  {
    var i :| 0 <= i < |keys[1..]| && keys[1..][i] == k;
    assert keys[i + 1] == k;
  }

  lemma {:induction false} NewestFirst(m: map<Id, StoreEntry>, newest: Id, keys: seq<Id>)
    requires newest in m && Descending(m, keys)
    requires forall k | k in keys :: m[newest].lastAccessed > m[k].lastAccessed
    ensures Descending(m, [newest] + keys)
  {
    assert forall j | 0 <= j < |keys| :: keys[j] in keys;
  }

  lemma {:induction false} InsertDescending(m: map<Id, StoreEntry>, l: Entries<Id, Artifact>, keys: seq<Id>, key: Id)
    requires Refines(m, l) && Descending(m, keys) && key in m && key !in keys
    ensures Descending(m, InsertByStamp(m, keys, key))
  {
    if keys != [] {
      StampsDistinct(m, l, keys[0], key);
      if m[keys[0]].lastAccessed > m[key].lastAccessed {
        InsertDescending(m, l, keys[1..], key);
        forall k | k in InsertByStamp(m, keys[1..], key)
          ensures m[keys[0]].lastAccessed > m[k].lastAccessed
        {
          if k != key {
            FirstIsNewest(m, keys, k);
          }
        }
        NewestFirst(m, keys[0], InsertByStamp(m, keys[1..], key));
      }
    }
  }

  function MetadataOfKeys(m: map<Id, StoreEntry>, keys: seq<Id>): (r: seq<Metadata>)
    requires forall k | k in keys :: k in m
    ensures |r| == |keys| && forall i | 0 <= i < |r| :: r[i] == m[keys[i]].metadata
  {
    if keys == [] then [] else [m[keys[0]].metadata] + MetadataOfKeys(m, keys[1..])
  }

  lemma {:induction false} KeysMeanEntries(m: map<Id, StoreEntry>, keys: seq<Id>)
    requires keys != [] && forall k | k in keys :: k in m
    ensures m != map[]
  {
    assert keys[0] in m;
  }

  /** `keys` are all keys of `m`, in descending order of their stamps. */
  ghost predicate ListsDescending(m: map<Id, StoreEntry>, keys: seq<Id>) {
    Descending(m, keys) && forall k :: k in keys <==> k in m
  }

  lemma {:induction false} PeelOldest(m: map<Id, StoreEntry>, l: Entries<Id, Artifact>, keys: seq<Id>)
    requires l != [] && Refines(m, l) && ListsDescending(m, keys)
    ensures keys != [] && Refines(m - {l[0].0}, l[1..])
    ensures ListsDescending(m - {l[0].0}, keys[..|keys| - 1])
    ensures MetadataOfKeys(m, keys) == MetadataOfKeys(m - {l[0].0}, keys[..|keys| - 1]) + [MetadataOf(l[0].1)]
  {
    var k := l[0].0;
    HeadIsLast(m, l, keys);
    PeelKeys(m, keys, k);
    assert Remove(l, k) == l[1..];
    DeleteRefines(m, l, k);
  }

  lemma {:induction false} PeelKeys(m: map<Id, StoreEntry>, keys: seq<Id>, k: Id)
    requires keys != [] && Descending(m, keys) && k in m && keys[|keys| - 1] == k
    requires forall j :: j in keys[..|keys| - 1] <==> j in m && j != k
    ensures ListsDescending(m - {k}, keys[..|keys| - 1])
    ensures MetadataOfKeys(m, keys) == MetadataOfKeys(m - {k}, keys[..|keys| - 1]) + [m[k].metadata]
  {
    var front := keys[..|keys| - 1];
    assert keys == front + [k];
    MetadataOfKeysAppend(m, front, k);
    WithoutOldest(m, front, k);
  }

  /** All keys in descending stamp order are the recency list read backwards. */
  lemma {:induction false} DescendingIsReversed(m: map<Id, StoreEntry>, l: Entries<Id, Artifact>, keys: seq<Id>)
    requires Refines(m, l) && ListsDescending(m, keys)
    ensures MetadataOfKeys(m, keys) == Reversed(MetadataList(l))
  {
    if keys != [] {
      KeysMeanEntries(m, keys);
    }
    if l != [] {
      PeelOldest(m, l, keys);
      DescendingIsReversed(m - {l[0].0}, l[1..], keys[..|keys| - 1]);
      ReversedHead(l);
    }
  }

  lemma {:induction false} ReversedHead(l: Entries<Id, Artifact>)
    requires l != []
    ensures Reversed(MetadataList(l)) == Reversed(MetadataList(l[1..])) + [MetadataOf(l[0].1)]
  {
    assert MetadataList(l)[1..] == MetadataList(l[1..]);
  }

  lemma {:induction false} MetadataOfKeysAppend(m: map<Id, StoreEntry>, keys: seq<Id>, k: Id)
    requires k in m && forall j | j in keys :: j in m
    ensures MetadataOfKeys(m, keys + [k]) == MetadataOfKeys(m, keys) + [m[k].metadata]
  {
  }

  lemma {:induction false} WithoutOldest(m: map<Id, StoreEntry>, keys: seq<Id>, k: Id)
    requires Descending(m, keys) && k !in keys
    ensures Descending(m - {k}, keys) && MetadataOfKeys(m - {k}, keys) == MetadataOfKeys(m, keys)
  {
    assert forall j | 0 <= j < |keys| :: keys[j] in keys;
  }

  /** The head of the recency list has the smallest stamp, so it comes last in descending order. */
  lemma {:induction false} HeadIsLast(m: map<Id, StoreEntry>, l: Entries<Id, Artifact>, keys: seq<Id>)
    requires l != [] && Refines(m, l) && Descending(m, keys) && forall k :: k in keys <==> k in m
    ensures keys != [] && keys[|keys| - 1] == l[0].0
    ensures forall j :: j in keys[..|keys| - 1] <==> j in m && j != l[0].0
  {
    var k, last := l[0].0, |keys| - 1;
    assert k in KeySet(l) && k in keys;
    assert keys[last] in m;
    assert keys[last] == k by {
      HeadBelowOthers(m, l);
    }
    forall j ensures j in keys[..last] <==> j in m && j != k {
      if j in m && j != k {
        var i :| 0 <= i < |keys| && keys[i] == j;
        assert keys[..last][i] == j;
      }
    }
  }
}
