/**
 One account: a server and any number of devices that edit, push, pull, lose answers and resolve conflicts.
 The network may delay, repeat, reorder or drop every message: a push may be any selection of what its device
 ever prepared, processed at any later time; answers may arrive late, twice or never; any row the server ever
 held may be merged at any time.
 */
module System {
  import opened Wrappers
  import opened SyncSpec
  import opened Tables
  import opened Push
  import opened Pull
  import opened Client
  import opened Conflicts
  import ServerRuns

  const OWNER := "account"

  /******* What is known about the past *******/

  /**
   `history` holds what every version of every record was (None for a tombstone) and `author` the device whose name it
   bears: the one whose push wrote it, here or at the database it was mirrored from. `shown` lists the versions a device
   merged, or showed its user in a conflict that was resolved. `told` lists the versions the server named to a device as
   what its push was accepted under. `prepared` lists every change a device ever offered to push.
   */
  datatype Knowledge = Knowledge(
    history: map<(Ref, int), Option<Entity>>,
    author: map<(Ref, int), string>,
    shown: set<(string, Ref, int)>,
    told: set<(string, Ref, int)>,
    prepared: set<(string, Change)>)

  ghost predicate Grows(k: Knowledge, k': Knowledge) {
    && (forall x :: x in k.history ==> x in k'.history && k'.history[x] == k.history[x])
    && (forall x :: x in k.author ==> x in k'.author && k'.author[x] == k.author[x])
    && k.shown <= k'.shown && k.told <= k'.told && k.prepared <= k'.prepared
  }

  ghost predicate HistoryIs(k: Knowledge, ref: Ref, version: int, e: Option<Entity>) {
    (ref, version) in k.history && k.history[(ref, version)] == e
  }

  /** The device merged version `v`, wrote it, resolved a conflict that showed it, or was told that it holds its text. */
  ghost predicate Knows(k: Knowledge, device: string, ref: Ref, v: int) {
    || (device, ref, v) in k.shown
    || ((ref, v) in k.author && k.author[(ref, v)] == device)
    || (device, ref, v) in k.told
  }

  ghost predicate BaseOk(k: Knowledge, device: string, ref: Ref, base: int) {
    base <= 0 || Knows(k, device, ref, base)
  }

  /** Two records of the same text, or both deleted at the same time. */
  ghost predicate SameText(a: Entity, b: Entity) {
    a.DeletedAt() == b.DeletedAt() && (!a.IsDeleted() ==> CoreOf(a) == CoreOf(b))
  }

  /** The server's entry for `version` is what `e` says: the same text, or the deletion `e` records. */
  ghost predicate Reflects(k: Knowledge, ref: Ref, version: int, e: Entity) {
    (ref, version) in k.history &&
    match k.history[(ref, version)]
    case Some(h) => SameText(e, h)
    case None => e.IsDeleted()
  }

  ghost predicate LocalOk(k: Knowledge, device: string, ref: Ref, l: Local) {
    RefOf(OWNER, l.entity) == ref && ref.owner == OWNER && BaseOk(k, device, ref, l.base)
  }

  /** The remote side of a conflict is a version the server really held. */
  ghost predicate RemoteOk(k: Knowledge, c: Conflict) {
    var ref := RefOf(OWNER, c.remote);
    && ref.owner == OWNER
    && Reflects(k, ref, c.remote.Version(), c.remote)
    && (c.reason == RemoteChanged ==>
          (ref, c.remote.Version()) in k.author && k.author[(ref, c.remote.Version())] == c.remote.DeviceId())
  }

  ghost predicate ConflictOk(k: Knowledge, c: Conflict) {
    RemoteOk(k, c) && (c.reason != DuplicateName ==> RefOf(OWNER, c.remote) == RefOf(OWNER, c.local))
  }

  ghost predicate PreparedOk(k: Knowledge, device: string, c: Change) {
    BaseOk(k, device, RefOf(OWNER, c.record), c.base) && c.record.DeviceId() == device && c.record.Version() >= 1
  }

  /** An acceptance names a version that holds the pushed text and no reference but the pushed ones. */
  ghost predicate AckOk(k: Knowledge, device: string, a: Ack) {
    && RefOf(OWNER, a.pushed) == a.ref
    && (exists c :: (device, c) in k.prepared && c.record == a.pushed)
    && (a.ref, a.version) in k.history && k.history[(a.ref, a.version)].Some?
    && CoreOf(k.history[(a.ref, a.version)].value) == CoreOf(a.pushed)
    && RefsWithin(k.history[(a.ref, a.version)].value, a.pushed)
  }

  /******* States *******/

  /**
   `acks` and `notices` are the answers the server ever gave. `mistaken` marks the synced records whose last answer
   found another text than the one that was pushed under the same version and time.
   */
  datatype State = State(
    store: Store,
    devices: map<string, Replica>,
    acks: set<(string, Ack)>,
    notices: set<(string, Conflict)>,
    known: Knowledge,
    mistaken: set<(string, Ref)>)

  ghost predicate ReplicaOk(k: Knowledge, device: string, r: Replica) {
    && r.device == device
    && (forall ref :: ref in r.records ==> LocalOk(k, device, ref, r.records[ref]))
    && (forall id :: id in r.conflicts ==> ConflictOk(k, r.conflicts[id].conflict))
  }

  ghost predicate HistoryOk(s: Store, k: Knowledge) {
    && (forall ref: Ref :: ref.owner == OWNER && Effective(s, ref) > 0 ==> HistoryIs(k, ref, Effective(s, ref), EntityAt(s, ref)))
    && (forall ref, v :: (ref, v) in k.history ==> 1 <= v <= Effective(s, ref))
    && (forall x :: x in k.author ==> x in k.history)
    && (forall ref, v :: (ref, v) in k.history && k.history[(ref, v)].Some? ==> WrittenOk(k, ref, v, k.history[(ref, v)].value))
  }

  ghost predicate WrittenOk(k: Knowledge, ref: Ref, v: int, e: Entity) {
    && RefOf(OWNER, e) == ref && e.Version() == v
    && (ref, v) in k.author && k.author[(ref, v)] == e.DeviceId()
  }

  ghost predicate OwnedOnly(s: Store) {
    forall ref :: ref in s.rows || ref in s.tombs ==> ref.owner == OWNER
  }

  /** A synced record is what the server held under its base, unless it is marked: both ways. */
  ghost predicate HonestAt(y: State, d: string, ref: Ref)
    requires d in y.devices && ref in y.devices[d].records
  {
    var l := y.devices[d].records[ref];
    l.status == Synced ==>
      (ref, l.base) in y.known.history && (Reflects(y.known, ref, l.base, l.entity) <==> (d, ref) !in y.mistaken)
  }

  ghost predicate HonestOk(y: State) {
    forall d, ref :: d in y.devices && ref in y.devices[d].records ==> HonestAt(y, d, ref)
  }

  /** What a device was told, an acceptance said. */
  ghost predicate ToldOk(y: State) {
    forall d, ref, v :: (d, ref, v) in y.known.told ==> exists a :: (d, a) in y.acks && a.ref == ref && a.version == v
  }

  ghost predicate SystemOk(y: State) {
    && Inv(y.store)
    && OwnedOnly(y.store)
    && HistoryOk(y.store, y.known)
    && HonestOk(y) && ToldOk(y)
    && (forall d :: d in y.devices ==> ReplicaOk(y.known, d, y.devices[d]))
    && (forall d, c :: (d, c) in y.known.prepared ==> PreparedOk(y.known, d, c))
    && (forall d, a :: (d, a) in y.acks ==> AckOk(y.known, d, a))
    && (forall d, c :: (d, c) in y.notices ==> ConflictOk(y.known, c))
  }

  /******* Knowledge only grows, and what it supports stays supported *******/

  lemma KnowsGrows(k: Knowledge, k': Knowledge, device: string, ref: Ref, v: int)
    requires Grows(k, k') && Knows(k, device, ref, v)
    ensures Knows(k', device, ref, v)
  {
  }

  lemma LocalGrows(k: Knowledge, k': Knowledge, device: string, ref: Ref, l: Local)
    requires Grows(k, k') && LocalOk(k, device, ref, l)
    ensures LocalOk(k', device, ref, l)
  {
    if l.base > 0 {
      KnowsGrows(k, k', device, ref, l.base);
    }
  }

  lemma ConflictGrows(k: Knowledge, k': Knowledge, c: Conflict)
    requires Grows(k, k') && ConflictOk(k, c)
    ensures ConflictOk(k', c)
  {
  }

  lemma PreparedGrows(k: Knowledge, k': Knowledge, device: string, c: Change)
    requires Grows(k, k') && PreparedOk(k, device, c)
    ensures PreparedOk(k', device, c)
  {
    if c.base > 0 {
      KnowsGrows(k, k', device, RefOf(OWNER, c.record), c.base);
    }
  }

  lemma AckGrows(k: Knowledge, k': Knowledge, device: string, a: Ack)
    requires Grows(k, k') && AckOk(k, device, a)
    ensures AckOk(k', device, a)
  {
    var c :| (device, c) in k.prepared && c.record == a.pushed;
    assert (device, c) in k'.prepared;
  }

  lemma ReplicaGrows(k: Knowledge, k': Knowledge, device: string, r: Replica)
    requires Grows(k, k') && ReplicaOk(k, device, r)
    ensures ReplicaOk(k', device, r)
  {
    hide LocalOk, ConflictOk, Grows;
    forall ref | ref in r.records ensures LocalOk(k', device, ref, r.records[ref]) {
      LocalGrows(k, k', device, ref, r.records[ref]);
    }
    forall id | id in r.conflicts ensures ConflictOk(k', r.conflicts[id].conflict) {
      ConflictGrows(k, k', r.conflicts[id].conflict);
    }
  }

  /** Everything that does not concern the tables survives new knowledge. */
  lemma RestGrows(y: State, k': Knowledge)
    requires SystemOk(y) && Grows(y.known, k')
    ensures forall d :: d in y.devices ==> ReplicaOk(k', d, y.devices[d])
    ensures forall d, c :: (d, c) in y.known.prepared ==> PreparedOk(k', d, c)
    ensures forall d, a :: (d, a) in y.acks ==> AckOk(k', d, a)
    ensures forall d, c :: (d, c) in y.notices ==> ConflictOk(k', c)
  {
    hide ReplicaOk, PreparedOk, AckOk, ConflictOk, Grows, HistoryOk, Inv;
    forall d | d in y.devices ensures ReplicaOk(k', d, y.devices[d]) { ReplicaGrows(y.known, k', d, y.devices[d]); }
    forall d, c | (d, c) in y.known.prepared ensures PreparedOk(k', d, c) { PreparedGrows(y.known, k', d, c); }
    forall d, a | (d, a) in y.acks ensures AckOk(k', d, a) { AckGrows(y.known, k', d, a); }
    forall d, c | (d, c) in y.notices ensures ConflictOk(k', c) { ConflictGrows(y.known, k', c); }
  }

  /******* The server's side *******/

  /** The entities whose row or tombstone differs. */
  function Changed(s: Store, t: Store): set<Ref> {
    set ref | ref in t.rows.Keys + t.tombs.Keys && (RowAt(s, ref) != RowAt(t, ref) || TombAt(s, ref) != TombAt(t, ref))
  }

  /** The versions these entities have now. */
  function Reached(refs: set<Ref>, t: Store): set<(Ref, int)> { set ref | ref in refs :: (ref, Effective(t, ref)) }

  /** History after the tables went from `s` to `t`, each new row under the name it bears. */
  ghost function Recorded(k: Knowledge, s: Store, t: Store): Knowledge {
    var changed := Changed(s, t);
    Knowledge(
      k.history + (map at | at in Reached(changed, t) :: EntityAt(t, at.0)),
      k.author + (map at | at in Reached(changed * t.rows.Keys, t) && at.0 in t.rows :: t.rows[at.0].entity.DeviceId()),
      k.shown,
      k.told,
      k.prepared)
  }

  lemma UnchangedIsSame(s: Store, t: Store, ref: Ref)
    requires Rises(s, t) && ref !in Changed(s, t) && Inv(s) && Inv(t)
    ensures SameAt(s, t, ref)
  {
    assert RisesAt(s, t, ref) && EntityOk(s, ref) && EntityOk(t, ref);
  }

  lemma RecordedGrows(k: Knowledge, s: Store, t: Store)
    requires HistoryOk(s, k) && Rises(s, t)
    ensures Grows(k, Recorded(k, s, t))
  {
    forall ref | ref in Changed(s, t) ensures (ref, Effective(t, ref)) !in k.history {
      assert RisesAt(s, t, ref);
    }
  }

  lemma RecordedHistory(k: Knowledge, s: Store, t: Store)
    requires Inv(s) && Inv(t) && Rises(s, t) && OwnedOnly(t)
    requires HistoryOk(s, k)
    ensures HistoryOk(t, Recorded(k, s, t))
  {
    hide Inv, Rises, Grows, Effective, HistoryIs, WrittenOk, Recorded, Changed, EntityAt;
    var k' := Recorded(k, s, t);
    RecordedGrows(k, s, t);
    RecordedAuthors(k, s, t);
    forall ref: Ref | ref.owner == OWNER && Effective(t, ref) > 0 ensures HistoryIs(k', ref, Effective(t, ref), EntityAt(t, ref)) {
      RecordedCurrent(k, s, t, ref);
    }
    forall ref, v | (ref, v) in k'.history ensures 1 <= v <= Effective(t, ref) {
      RecordedRange(k, s, t, ref, v);
    }
    forall ref, v | (ref, v) in k'.history && k'.history[(ref, v)].Some? ensures WrittenOk(k', ref, v, k'.history[(ref, v)].value) {
      RecordedWritten(k, s, t, ref, v);
    }
  }

  lemma RecordedAuthors(k: Knowledge, s: Store, t: Store)
    requires forall x :: x in k.author ==> x in k.history
    ensures forall x :: x in Recorded(k, s, t).author ==> x in Recorded(k, s, t).history
  {
  }

  lemma RecordedCurrent(k: Knowledge, s: Store, t: Store, ref: Ref)
    requires Inv(s) && Inv(t) && Rises(s, t) && HistoryOk(s, k) && Grows(k, Recorded(k, s, t))
    requires ref.owner == OWNER && Effective(t, ref) > 0
    ensures HistoryIs(Recorded(k, s, t), ref, Effective(t, ref), EntityAt(t, ref))
  {
    hide Inv, Rises, HistoryOk, Grows;
    if ref in Changed(s, t) {
      assert (ref, Effective(t, ref)) in Recorded(k, s, t).history;
    } else {
      hide Recorded, Changed;
      UnchangedIsSame(s, t, ref);
      assert RowAt(s, ref) == RowAt(t, ref) && TombAt(s, ref) == TombAt(t, ref);
      CurrentInHistory(s, k, ref);
      HistoryGrowsAt(k, Recorded(k, s, t), ref, Effective(s, ref));
    }
  }

  lemma CurrentInHistory(s: Store, k: Knowledge, ref: Ref)
    requires HistoryOk(s, k) && ref.owner == OWNER && Effective(s, ref) > 0
    ensures HistoryIs(k, ref, Effective(s, ref), EntityAt(s, ref))
  {
  }

  lemma HistoryGrowsAt(k: Knowledge, k': Knowledge, ref: Ref, v: int)
    requires Grows(k, k') && (ref, v) in k.history
    ensures HistoryIs(k', ref, v, k.history[(ref, v)])
  {
  }

  lemma RecordedRange(k: Knowledge, s: Store, t: Store, ref: Ref, v: int)
    requires Inv(t) && Rises(s, t) && HistoryOk(s, k) && (ref, v) in Recorded(k, s, t).history
    ensures 1 <= v <= Effective(t, ref)
  {
    assert RisesAt(s, t, ref) && EntityOk(t, ref);
  }

  lemma RecordedAuthor(k: Knowledge, s: Store, t: Store, ref: Ref)
    requires ref in Changed(s, t) && ref in t.rows
    ensures var at := (ref, Effective(t, ref));
      at in Recorded(k, s, t).author && Recorded(k, s, t).author[at] == t.rows[ref].entity.DeviceId()
  {
    hide Changed;
    assert (ref, Effective(t, ref)) in Reached(Changed(s, t) * t.rows.Keys, t);
  }

  lemma RecordedVersion(k: Knowledge, s: Store, t: Store, ref: Ref, v: int)
    requires (ref, v) in Recorded(k, s, t).history
    ensures
      || (ref in Changed(s, t) && v == Effective(t, ref) && Recorded(k, s, t).history[(ref, v)] == EntityAt(t, ref))
      || ((ref, v) in k.history && Recorded(k, s, t).history[(ref, v)] == k.history[(ref, v)])
  {
    hide Changed;
  }

  lemma RecordedWritten(k: Knowledge, s: Store, t: Store, ref: Ref, v: int)
    requires Inv(t) && Rises(s, t) && HistoryOk(s, k) && OwnedOnly(t)
    requires Grows(k, Recorded(k, s, t))
    requires (ref, v) in Recorded(k, s, t).history && Recorded(k, s, t).history[(ref, v)].Some?
    ensures WrittenOk(Recorded(k, s, t), ref, v, Recorded(k, s, t).history[(ref, v)].value)
  {
    hide Rises, Inv, Recorded, Changed;
    RecordedVersion(k, s, t, ref, v);
    if ref in Changed(s, t) && v == Effective(t, ref) && Recorded(k, s, t).history[(ref, v)] == EntityAt(t, ref) {
      InvAt(t, ref);
      RecordedAuthor(k, s, t, ref);
    }
  }

  /** New versions change nothing about the synced records. */
  lemma HonestGrows(y: State, z: State)
    requires HonestOk(y) && Grows(y.known, z.known) && z.devices == y.devices && z.mistaken == y.mistaken
    ensures HonestOk(z)
  {
    forall d, ref | d in z.devices && ref in z.devices[d].records ensures HonestAt(z, d, ref) {
      assert HonestAt(y, d, ref);
    }
  }

  /** The account after the server's tables went from `y.store` to `t`. */
  lemma ServerKeeps(y: State, t: Store)
    requires SystemOk(y) && Inv(t) && Rises(y.store, t)
    requires OwnedOnly(t)
    ensures Grows(y.known, Recorded(y.known, y.store, t))
    ensures SystemOk(y.(store := t, known := Recorded(y.known, y.store, t)))
  {
    hide Inv, Rises, HistoryOk, HonestOk, ReplicaOk, PreparedOk, AckOk, ConflictOk, Grows, Recorded;
    RecordedGrows(y.known, y.store, t);
    RecordedHistory(y.known, y.store, t);
    HonestGrows(y, y.(store := t, known := Recorded(y.known, y.store, t)));
    RestGrows(y, Recorded(y.known, y.store, t));
    RecordedPrepared(y.known, y.store, t);
  }

  lemma RecordedPrepared(k: Knowledge, s: Store, t: Store)
    ensures Recorded(k, s, t).prepared == k.prepared && Recorded(k, s, t).told == k.told
  {
  }
}
