/**
 The server's tables as a value: live rows, tombstones and the `entity_changes` log, with the two
 primitive writes every operation is made of. Both kinds of entity live in one table keyed by `Ref`.
 */
module Tables {
  import opened Wrappers
  import opened SyncSpec

  datatype Ref = Ref(owner: string, kind: Kind, id: string)

  datatype Tombstone = Tombstone(deletedAt: Time, deviceId: string, version: int)

  datatype Op = Upsert | Delete

  datatype Entry = Entry(revision: nat, ref: Ref, op: Op)

  /** A stored record with its `retention_started_at` column. */
  datatype Row = Row(entity: Entity, retention: Option<Time>)

  /** `nextRevision` is the AUTOINCREMENT counter: it is never taken back, even by compaction. */
  datatype Store = Store(rows: map<Ref, Row>, tombs: map<Ref, Tombstone>, log: seq<Entry>, nextRevision: nat)

  const EMPTY := Store(map[], map[], [], 1)

  function RefOf(owner: string, e: Entity): Ref {
    Ref(owner, e.Kind(), e.Id())
  }

  function RowAt(s: Store, ref: Ref): Option<Row> {
    if ref in s.rows then Some(s.rows[ref]) else None
  }

  function TombAt(s: Store, ref: Ref): Option<Tombstone> {
    if ref in s.tombs then Some(s.tombs[ref]) else None
  }

  /** The version a writer must know: the row's, else the tombstone's, else 0. */
  function Effective(s: Store, ref: Ref): int {
    if ref in s.rows then s.rows[ref].entity.Version()
    else if ref in s.tombs then s.tombs[ref].version
    else 0
  }

  /******* The change log *******/

  /** The entity's latest entry: the last one, since revisions only grow. */
  function Latest(log: seq<Entry>, ref: Ref): (r: Option<Entry>)
    ensures r.Some? ==> r.value in log && r.value.ref == ref
    ensures r.None? ==> forall e :: e in log ==> e.ref != ref
  {
    if log == [] then None
    else
      var last := log[|log| - 1];
      assert log == log[..|log| - 1] + [last];
      if last.ref == ref then Some(last) else Latest(log[..|log| - 1], ref)
  }

  function LatestRevision(log: seq<Entry>, ref: Ref): nat {
    var e := Latest(log, ref);
    if e.Some? then e.value.revision else 0
  }

  function LatestOp(log: seq<Entry>, ref: Ref): Option<Op> {
    var e := Latest(log, ref);
    if e.Some? then Some(e.value.op) else None
  }

  ghost predicate Sorted(log: seq<Entry>) {
    forall i, j :: 0 <= i < j < |log| ==> log[i].revision < log[j].revision
  }

  lemma LatestAppend(log: seq<Entry>, e: Entry, ref: Ref)
    ensures Latest(log + [e], ref) == if e.ref == ref then Some(e) else Latest(log, ref)
  {
    assert (log + [e])[..|log|] == log;
  }

  /** On a sorted log the latest entry carries the entity's maximum revision. */
  lemma {:induction false} LatestIsMax(log: seq<Entry>, ref: Ref)
    requires Sorted(log)
    ensures forall e :: e in log && e.ref == ref ==> e.revision <= LatestRevision(log, ref)
    ensures forall e :: e in log && e.ref == ref && e.revision == LatestRevision(log, ref) ==> Latest(log, ref) == Some(e)
  {
    if log != [] {
      var rest := log[..|log| - 1];
      var last := log[|log| - 1];
      assert log == rest + [last];
      LatestIsMax(rest, ref);
      LatestAppend(rest, last, ref);
      forall e | e in log && e.ref == ref
        ensures e.revision <= LatestRevision(log, ref)
        ensures e.revision == LatestRevision(log, ref) ==> Latest(log, ref) == Some(e)
      {
        var i :| 0 <= i < |log| && log[i] == e;
        if last.ref == ref {
          assert i < |log| - 1 ==> log[i].revision < last.revision;
        } else {
          assert e in rest by { assert rest[i] == e; }
        }
      }
    }
  }

  /******* The server invariant *******/

  /** A row and a tombstone exclude each other, and the log's latest operation tells which one there is. */
  ghost predicate EntityOk(s: Store, ref: Ref) {
    && (ref in s.rows <==> LatestOp(s.log, ref) == Some(Upsert))
    && (ref in s.tombs <==> LatestOp(s.log, ref) == Some(Delete))
    && (ref in s.rows ==> RefOf(ref.owner, s.rows[ref].entity) == ref && s.rows[ref].entity.Version() >= 1)
    && (ref in s.tombs ==> s.tombs[ref].version >= 1)
  }

  ghost predicate LogOk(s: Store) {
    && s.nextRevision >= 1
    && Sorted(s.log)
    && forall e :: e in s.log ==> 1 <= e.revision < s.nextRevision
  }

  ghost predicate Inv(s: Store) {
    LogOk(s) && forall ref :: EntityOk(s, ref)
  }

  lemma InvLog(s: Store)
    requires Inv(s)
    ensures LogOk(s)
  {
  }

  lemma InvAt(s: Store, ref: Ref)
    requires Inv(s)
    ensures EntityOk(s, ref)
  {
  }

  ghost predicate SameAt(s: Store, t: Store, ref: Ref) {
    RowAt(s, ref) == RowAt(t, ref) && TombAt(s, ref) == TombAt(t, ref)
  }

  /** From `s` to `t` the entity is untouched, or it has an entry newer than anything `s` ever logged. */
  ghost predicate Moved(s: Store, t: Store, ref: Ref) {
    (SameAt(s, t, ref) && Latest(s.log, ref) == Latest(t.log, ref)) || LatestRevision(t.log, ref) >= s.nextRevision
  }

  /** What any run of server operations does to the tables, whatever the operations are. */
  ghost predicate Evolves(s: Store, t: Store) {
    s.nextRevision <= t.nextRevision && forall ref :: Moved(s, t, ref)
  }

  /** Client-facing operations: an entity is left alone or its effective version strictly rises. */
  ghost predicate RisesAt(s: Store, t: Store, ref: Ref) {
    SameAt(s, t, ref) || Effective(t, ref) > Effective(s, ref)
  }

  ghost predicate Rises(s: Store, t: Store) {
    forall ref :: RisesAt(s, t, ref)
  }

  lemma EmptyOk()
    ensures Inv(EMPTY)
  {
    forall ref ensures EntityOk(EMPTY, ref) {}
  }

  lemma EvolvesRefl(s: Store)
    ensures Evolves(s, s) && Rises(s, s)
  {
    forall ref ensures Moved(s, s, ref) && RisesAt(s, s, ref) {}
  }

  lemma LatestBelowNext(s: Store, ref: Ref)
    requires LogOk(s)
    ensures LatestRevision(s.log, ref) < s.nextRevision
  {
  }

  lemma EvolvesTrans(s: Store, t: Store, u: Store)
    requires Evolves(s, t) && Evolves(t, u) && LogOk(t)
    ensures Evolves(s, u)
  {
    forall ref ensures Moved(s, u, ref) {
      assert Moved(s, t, ref) && Moved(t, u, ref);
      LatestBelowNext(t, ref);
    }
  }

  lemma RisesTrans(s: Store, t: Store, u: Store)
    requires Rises(s, t) && Rises(t, u)
    ensures Rises(s, u)
  {
    forall ref ensures RisesAt(s, u, ref) {
      assert RisesAt(s, t, ref) && RisesAt(t, u, ref);
    }
  }

  /******* The two primitive writes *******/

  predicate StartsRetention(e: Entity) {
    if e.NoteEntity? then e.note.trashedAt.Some? else e.notebook.deletedAt.Some?
  }

  /** The upsert's CASE: retention runs from the first write that trashed (or deleted) the row. */
  function RetentionAfter(before: Option<Row>, e: Entity, now: Time): Option<Time> {
    if !StartsRetention(e) then None
    else if before.None? || !StartsRetention(before.value.entity) || before.value.retention.None? then Some(now)
    else before.value.retention
  }

  /** Insert or replace a row, clear its tombstone, log an upsert. */
  function Put(s: Store, ref: Ref, e: Entity, now: Time): Store {
    Store(
      s.rows[ref := Row(e, RetentionAfter(RowAt(s, ref), e, now))],
      s.tombs - {ref},
      s.log + [Entry(s.nextRevision, ref, Upsert)],
      s.nextRevision + 1)
  }

  /** Remove the row, leave a tombstone, log a delete. */
  function Bury(s: Store, ref: Ref, tomb: Tombstone): Store {
    Store(
      s.rows - {ref},
      s.tombs[ref := tomb],
      s.log + [Entry(s.nextRevision, ref, Delete)],
      s.nextRevision + 1)
  }

  lemma AppendLogOk(s: Store, t: Store, ref: Ref, op: Op)
    requires LogOk(s)
    requires t.log == s.log + [Entry(s.nextRevision, ref, op)] && t.nextRevision == s.nextRevision + 1
    ensures LogOk(t)
  {
  }

  lemma PutKeeps(s: Store, ref: Ref, e: Entity, now: Time)
    requires Inv(s) && RefOf(ref.owner, e) == ref && e.Version() >= 1
    ensures var t := Put(s, ref, e, now);
      Inv(t) && Evolves(s, t) && (forall other :: other != ref ==> SameAt(s, t, other))
    ensures e.Version() > Effective(s, ref) ==> Rises(s, Put(s, ref, e, now))
  {
    var t := Put(s, ref, e, now);
    AppendLogOk(s, t, ref, Upsert);
    forall other
      ensures EntityOk(t, other) && Moved(s, t, other)
      ensures other != ref ==> SameAt(s, t, other)
    {
      assert EntityOk(s, other);
      LatestAppend(s.log, Entry(s.nextRevision, ref, Upsert), other);
    }
    if e.Version() > Effective(s, ref) {
      forall other ensures RisesAt(s, t, other) {}
    }
  }

  lemma BuryKeeps(s: Store, ref: Ref, tomb: Tombstone)
    requires Inv(s) && tomb.version >= 1
    ensures var t := Bury(s, ref, tomb);
      Inv(t) && Evolves(s, t) && (forall other :: other != ref ==> SameAt(s, t, other))
    ensures tomb.version > Effective(s, ref) ==> Rises(s, Bury(s, ref, tomb))
  {
    hide EntityOk, LogOk, Moved, SameAt, Bury;
    var t := Bury(s, ref, tomb);
    BuryKeepsLog(s, ref, tomb);
    forall other
      ensures EntityOk(t, other) && Moved(s, t, other) && (other != ref ==> SameAt(s, t, other))
      ensures tomb.version > Effective(s, ref) ==> RisesAt(s, t, other)
    {
      BuryAt(s, ref, tomb, other);
    }
  }

  lemma BuryKeepsLog(s: Store, ref: Ref, tomb: Tombstone)
    requires LogOk(s)
    ensures LogOk(Bury(s, ref, tomb)) && s.nextRevision <= Bury(s, ref, tomb).nextRevision
  {
    AppendLogOk(s, Bury(s, ref, tomb), ref, Delete);
  }

  lemma BuryAt(s: Store, ref: Ref, tomb: Tombstone, other: Ref)
    requires EntityOk(s, other) && tomb.version >= 1
    ensures var t := Bury(s, ref, tomb);
      EntityOk(t, other) && Moved(s, t, other) && (other != ref ==> SameAt(s, t, other))
    ensures tomb.version > Effective(s, ref) ==> RisesAt(s, Bury(s, ref, tomb), other)
  {
    LatestAppend(s.log, Entry(s.nextRevision, ref, Delete), other);
  }

  /******* Deletion by id *******/

  /** One id of deleteNotesByIds or deleteNotebooksByIds. */
  function DeleteOne(s: Store, ref: Ref, now: Time): Store {
    var row := RowAt(s, ref);
    var tombs :=
      if row.Some? then
        s.tombs[ref := Tombstone(now, row.value.entity.DeviceId(), NextVersionAfter(row.value.entity.Version()))]
      else if ref !in s.tombs then s.tombs[ref := Tombstone(now, "server", 1)]
      else s.tombs;
    if LatestOp(s.log, ref) != Some(Delete) then
      Store(s.rows - {ref}, tombs, s.log + [Entry(s.nextRevision, ref, Delete)], s.nextRevision + 1)
    else Store(s.rows - {ref}, tombs, s.log, s.nextRevision)
  }

  function DeleteAll(s: Store, refs: seq<Ref>, now: Time): Store {
    if refs == [] then s else DeleteOne(DeleteAll(s, refs[..|refs| - 1], now), refs[|refs| - 1], now)
  }

  lemma NothingDeleted(s: Store, now: Time)
    ensures DeleteAll(s, [], now) == s
  {
  }

  /** What a deletion leaves: for a row its device and the next version, for what was never there the server's first. */
  ghost predicate BuriedAs(s: Store, t: Store, ref: Ref, now: Time) {
    && ref in t.tombs
    && (ref in s.rows ==> t.tombs[ref] == Tombstone(now, s.rows[ref].entity.DeviceId(), s.rows[ref].entity.Version() + 1))
    && (ref !in s.rows && ref in s.tombs ==> t.tombs[ref] == s.tombs[ref])
    && (ref !in s.rows && ref !in s.tombs ==> t.tombs[ref] == Tombstone(now, "server", 1))
  }

  /** Deleting is idempotent and leaves a tombstone one version above the row it removed. */
  lemma DeleteOneKeeps(s: Store, ref: Ref, now: Time)
    requires Inv(s)
    ensures var t := DeleteOne(s, ref, now);
      && Inv(t) && Evolves(s, t) && Rises(s, t)
      && (forall other :: other != ref ==> SameAt(s, t, other))
      && ref !in t.rows && BuriedAs(s, t, ref, now)
      && (ref in s.tombs ==> t == s)
  {
    var t := DeleteOne(s, ref, now);
    assert EntityOk(s, ref);
    if ref in s.tombs {
      assert s.rows - {ref} == s.rows;
      EvolvesRefl(s);
    } else {
      BuryKeeps(s, ref, t.tombs[ref]);
      assert t == Bury(s, ref, t.tombs[ref]);
    }
  }

  lemma {:induction false} DeleteAllKeeps(s: Store, refs: seq<Ref>, now: Time)
    requires Inv(s)
    ensures var t := DeleteAll(s, refs, now);
      && Inv(t) && Evolves(s, t) && Rises(s, t)
      && (forall ref :: ref !in refs ==> SameAt(s, t, ref))
      && (forall ref :: ref in refs ==> ref !in t.rows && BuriedAs(s, t, ref, now))
  {
    hide Inv, Evolves, Rises, DeleteOne;
    if refs == [] {
      EvolvesRefl(s);
      NothingDeleted(s, now);
    } else {
      var front, last := refs[..|refs| - 1], refs[|refs| - 1];
      assert refs == front + [last];
      DeleteAllKeeps(s, front, now);
      var mid := DeleteAll(s, front, now);
      var t := DeleteOne(mid, last, now);
      DeleteOneKeeps(mid, last, now);
      InvLog(mid);
      EvolvesTrans(s, mid, t);
      RisesTrans(s, mid, t);
      InvAt(s, last);
      forall ref | ref !in refs ensures SameAt(s, t, ref) {
        assert SameAt(s, mid, ref) && SameAt(mid, t, ref);
      }
      forall ref | ref in refs ensures ref !in t.rows && BuriedAs(s, t, ref, now) {
        if ref == last && ref !in front {
          assert SameAt(s, mid, ref);
          assert RowAt(s, ref) == RowAt(mid, ref) && TombAt(s, ref) == TombAt(mid, ref);
        } else if ref != last {
          assert SameAt(mid, t, ref);
          assert RowAt(mid, ref) == RowAt(t, ref) && TombAt(mid, ref) == TombAt(t, ref);
        }
      }
    }
  }

  /******* Trash cleanup *******/

  predicate Expired(s: Store, ref: Ref, cutoff: Time) {
    ref in s.rows && StartsRetention(s.rows[ref].entity)
    && s.rows[ref].retention.Some? && s.rows[ref].retention.value < cutoff
  }

  /** Cleanup of the rows a query returned, in the order it returned them. */
  function CleanupRows(s: Store, refs: seq<Ref>, now: Time): Store {
    if refs == [] then s
    else
      var t := CleanupRows(s, refs[..|refs| - 1], now);
      var ref := refs[|refs| - 1];
      if ref in s.rows then
        var e := s.rows[ref].entity;
        Bury(t, ref, Tombstone(now, e.DeviceId(), NextVersionAfter(e.Version())))
      else t
  }

  /** The expired rows among `scan`, the order in which the two queries list the table. */
  function ExpiredRefs(s: Store, scan: seq<Ref>, cutoff: Time, owner: Option<string>): (r: seq<Ref>)
    ensures forall ref :: ref in r <==> ref in scan && Expired(s, ref, cutoff) && (owner.None? || owner.value == ref.owner)
  {
    if scan == [] then []
    else
      var rest := ExpiredRefs(s, scan[1..], cutoff, owner);
      assert scan == [scan[0]] + scan[1..];
      if Expired(s, scan[0], cutoff) && (owner.None? || owner.value == scan[0].owner)
      then [scan[0]] + rest else rest
  }

  function Cleanup(s: Store, scan: seq<Ref>, cutoff: Time, now: Time, owner: Option<string>): Store {
    CleanupRows(s, ExpiredRefs(s, scan, cutoff, owner), now)
  }

  lemma {:induction false} CleanupRowsKeeps(s: Store, refs: seq<Ref>, now: Time)
    requires Inv(s) && forall ref :: ref in refs ==> ref in s.rows
    ensures var t := CleanupRows(s, refs, now);
      && Inv(t) && Evolves(s, t)
      && (forall ref :: ref !in refs ==> SameAt(s, t, ref))
      && (forall ref :: ref in refs ==> ref !in t.rows && BuriedAs(s, t, ref, now))
  {
    hide Inv, Evolves, Bury, BuriedAs;
    if refs == [] {
      EvolvesRefl(s);
    } else {
      var front, last := refs[..|refs| - 1], refs[|refs| - 1];
      assert refs == front + [last];
      CleanupRowsKeeps(s, front, now);
      var mid, t := CleanupRows(s, front, now), CleanupRows(s, refs, now);
      CleanOne(s, mid, last, now);
      InvLog(mid);
      EvolvesTrans(s, mid, t);
      forall ref | ref != last && ref in front ensures ref !in t.rows && BuriedAs(s, t, ref, now) {
        assert SameAt(mid, t, ref);
        StaysBuried(s, mid, t, ref, now);
      }
      forall ref | ref !in refs ensures SameAt(s, t, ref) {
        assert SameAt(mid, t, ref);
      }
    }
  }

  lemma CleanOne(s: Store, mid: Store, ref: Ref, now: Time)
    requires Inv(s) && Inv(mid) && ref in s.rows
    ensures var e := s.rows[ref].entity;
      var t := Bury(mid, ref, Tombstone(now, e.DeviceId(), NextVersionAfter(e.Version())));
      && Inv(t) && Evolves(mid, t) && (forall other :: other != ref ==> SameAt(mid, t, other))
      && ref !in t.rows && BuriedAs(s, t, ref, now)
  {
    hide Inv, Evolves, SameAt;
    var e := s.rows[ref].entity;
    var tomb := Tombstone(now, e.DeviceId(), NextVersionAfter(e.Version()));
    assert tomb.version >= 1 by { InvAt(s, ref); }
    BuryKeeps(mid, ref, tomb);
  }

  lemma StaysBuried(s: Store, mid: Store, t: Store, ref: Ref, now: Time)
    requires SameAt(mid, t, ref) && ref !in mid.rows && BuriedAs(s, mid, ref, now)
    ensures ref !in t.rows && BuriedAs(s, t, ref, now)
  {
  }

  /** Cleanup buries exactly the expired rows, one version up, and touches nothing else. */
  lemma CleanupKeeps(s: Store, scan: seq<Ref>, cutoff: Time, now: Time, owner: Option<string>)
    requires Inv(s)
    ensures var t := Cleanup(s, scan, cutoff, now, owner);
      && Inv(t) && Evolves(s, t) && Rises(s, t)
      && (forall ref :: ref in scan && Expired(s, ref, cutoff) && (owner.None? || owner.value == ref.owner)
            ==> ref !in t.rows && BuriedAs(s, t, ref, now))
      && (forall ref :: !Expired(s, ref, cutoff) || (owner.Some? && owner.value != ref.owner) ==> SameAt(s, t, ref))
  {
    var refs := ExpiredRefs(s, scan, cutoff, owner);
    var t := Cleanup(s, scan, cutoff, now, owner);
    CleanupRowsKeeps(s, refs, now);
    forall ref ensures RisesAt(s, t, ref) {
      if ref in refs {
        assert Effective(t, ref) == Effective(s, ref) + 1;
      } else {
        assert SameAt(s, t, ref);
      }
    }
  }
}
