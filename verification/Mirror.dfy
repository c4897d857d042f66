/**
 The two-database mirror: one page of one direction as a function of both tables.
 The mirror's own rules for notes and for notebooks are the same, so both are one decision about an entity.
 */
module Mirror {
  import opened Wrappers
  import opened SyncSpec
  import opened Tables
  import opened Push
  import opened Pull
  import Seqs

  /******* Decisions *******/

  predicate CanSourceOverwriteTarget(source: Entity, target: Entity) {
    && NewerOrTie(source.UpdatedAt(), source.Version(), source.DeviceId(), target.UpdatedAt(), target.Version(), target.DeviceId())
    && source.Version() > target.Version()
  }

  predicate RecordWinsOverTombstone(e: Entity, tomb: Tombstone) {
    NewerOrTie(e.UpdatedAt(), e.Version(), e.DeviceId(), tomb.deletedAt, tomb.version, tomb.deviceId)
  }

  predicate CanTombstoneOverwriteRecord(tomb: Tombstone, e: Entity) {
    && NewerOrTie(tomb.deletedAt, tomb.version, tomb.deviceId, e.UpdatedAt(), e.Version(), e.DeviceId())
    && tomb.version > e.Version()
  }

  /** targetHasNoUnmirroredChange: written by this pass, or not changed since it was last mirrored outward. */
  predicate Clean(t: Store, ref: Ref, outbound: nat, mirrored: set<Ref>) {
    ref in mirrored || LatestRevision(t.log, ref) <= outbound
  }

  datatype Decision = Skip | Copy(record: Entity, base: int) | DeleteSource | DeleteTarget | Diverge

  /** A record of the page against the target. */
  function DecideUpsert(e: Entity, t: Store, ref: Ref, clean: bool): Decision {
    if ref in t.rows then
      var target := t.rows[ref].entity;
      if !RecordsDiffer(e, target) then
        if e.Version() > target.Version() then Copy(e, target.Version()) else Skip
      else if CanSourceOverwriteTarget(e, target) && clean then Copy(e, target.Version())
      else if e.IsDeleted() && target.IsDeleted() then DeleteSource
      else Diverge
    else if ref !in t.tombs then Copy(e, 0)
    else if RecordWinsOverTombstone(e, t.tombs[ref]) && clean then Copy(e, t.tombs[ref].version)
    else if e.IsDeleted() then DeleteSource
    else Diverge
  }

  /** A deleted id of the page against both databases. */
  function DecideDelete(s: Store, t: Store, ref: Ref, clean: bool): Decision {
    if ref in s.rows then Skip
    else if ref !in t.rows || t.rows[ref].entity.IsDeleted() then DeleteTarget
    else if ref in s.tombs && CanTombstoneOverwriteRecord(s.tombs[ref], t.rows[ref].entity) && clean then DeleteTarget
    else Diverge
  }

  function Decide(s: Store, t: Store, page: Page, outbound: nat, mirrored: set<Ref>, e: Entry): Decision {
    var clean := Clean(t, e.ref, outbound, mirrored);
    if e.op == Delete then DecideDelete(s, t, e.ref, clean)
    else if e.ref in page.fetched then DecideUpsert(page.fetched[e.ref], t, e.ref, clean)
    else Skip
  }

  function Decider(s: Store, t: Store, page: Page, outbound: nat, mirrored: set<Ref>): Entry -> Decision {
    e => Decide(s, t, page, outbound, mirrored, e)
  }

  /******* The plan of a page *******/

  /** The records to push, of one kind, in page order. */
  function Copies(changes: seq<Entry>, f: Entry -> Decision, kind: Kind): (r: seq<Change>)
    ensures forall c :: c in r <==> exists e :: e in changes && f(e).Copy? && e.ref.kind == kind && c == Change(f(e).record, f(e).base)
  {
    if changes == [] then []
    else
      var rest := Copies(changes[..|changes| - 1], f, kind);
      var e := changes[|changes| - 1];
      assert changes == changes[..|changes| - 1] + [e];
      if f(e).Copy? && e.ref.kind == kind then rest + [Change(f(e).record, f(e).base)] else rest
  }

  /** The ids with decision `d`, of one kind, in page order. */
  function Chosen(changes: seq<Entry>, f: Entry -> Decision, kind: Kind, d: Decision): (r: seq<Ref>)
    ensures forall ref :: ref in r <==> exists e :: e in changes && f(e) == d && e.ref == ref && ref.kind == kind
  {
    if changes == [] then []
    else
      var rest := Chosen(changes[..|changes| - 1], f, kind, d);
      var e := changes[|changes| - 1];
      assert changes == changes[..|changes| - 1] + [e];
      if f(e) == d && e.ref.kind == kind then rest + [e.ref] else rest
  }

  predicate Diverges(changes: seq<Entry>, f: Entry -> Decision) {
    exists e :: e in changes && f(e) == Diverge
  }

  function Deleted(changes: seq<Entry>, f: Entry -> Decision, d: Decision): (r: seq<Ref>)
    ensures forall ref :: ref in r <==> exists e :: e in changes && f(e) == d && e.ref == ref
  {
    var r := Chosen(changes, f, NotebookKind, d) + Chosen(changes, f, NoteKind, d);
    forall ref ensures ref in r <==> exists e :: e in changes && f(e) == d && e.ref == ref {
      if e :| e in changes && f(e) == d && e.ref == ref {
        assert ref.kind == NotebookKind || ref.kind == NoteKind;
        assert ref in Chosen(changes, f, ref.kind, d);
      }
    }
    r
  }

  function PlanRequest(changes: seq<Entry>, f: Entry -> Decision): Request {
    Request(Copies(changes, f, NotebookKind), Copies(changes, f, NoteKind))
  }

  predicate NoneRejected(verdicts: seq<Verdict>) { forall v :: v in verdicts ==> v.Accepted() }

  /** Every notebook the copied notes name is live where they are written. */
  predicate RefsArrive(t: Store, owner: string, notes: seq<Change>) {
    forall c :: c in notes && c.record.NoteEntity? ==>
      forall id :: id in NoteNotebookIds(c.record.note) ==> LiveNotebook(t, owner, id)
  }

  /******* One page *******/

  /** One direction under way; `refsKept` remembers whether every copied note kept all its references. */
  datatype Pass = Pass(source: Store, target: Store, cursor: nat, mirrored: set<Ref>, refsKept: bool)

  /** What the environment decides about a page: its limit, the order of rows in queries, the time. */
  datatype Turn = Turn(limit: nat, scan: seq<Ref>, now: Time)

  /** What a plan needs from the source: rows under their own key with positive versions. */
  ghost predicate Rows(s: Store) {
    forall ref :: ref in s.rows ==> RefOf(ref.owner, s.rows[ref].entity) == ref && s.rows[ref].entity.Version() >= 1
  }

  lemma CopyIsFetched(s: Store, t: Store, page: Page, outbound: nat, mirrored: set<Ref>, e: Entry)
    requires Decide(s, t, page, outbound, mirrored, e).Copy?
    ensures e.ref in page.fetched && Decide(s, t, page, outbound, mirrored, e).record == page.fetched[e.ref]
  {
    hide RecordsDiffer, NewerOrTie, Clean;
  }

  lemma FetchedAreRows(s: Store, owner: string, cursor: nat, limit: nat)
    requires limit >= 1
    ensures var page := PageOf(Still(s), owner, cursor, limit);
      forall ref :: ref in page.fetched ==> ref in s.rows && page.fetched[ref] == s.rows[ref].entity
  {
    hide Window, LatestInWindow, CurrentRevision, Fetch;
  }

  lemma PlanWellFormed(s: Store, t: Store, owner: string, cursor: nat, limit: nat, outbound: nat, mirrored: set<Ref>)
    requires Rows(s) && limit >= 1
    ensures var page := PageOf(Still(s), owner, cursor, limit);
      WellFormed(PlanRequest(page.changes, Decider(s, t, page, outbound, mirrored)))
  {
    hide PageOf, Decide;
    var page := PageOf(Still(s), owner, cursor, limit);
    var f := Decider(s, t, page, outbound, mirrored);
    FetchedAreRows(s, owner, cursor, limit);
    forall e | e in page.changes && f(e).Copy?
      ensures f(e).record.Kind() == e.ref.kind && f(e).record.Version() >= 1
    {
      CopyIsFetched(s, t, page, outbound, mirrored, e);
      assert RefOf(e.ref.owner, s.rows[e.ref].entity) == e.ref;
    }
  }

  /** One page of syncEntityOwnerOneWay once its cursor is safe. */
  ghost function TakePage(p: Pass, owner: string, outbound: nat, turn: Turn): Result<Pass, string>
    requires turn.limit >= 1 && Rows(p.source)
  {
    var page := PageOf(Still(p.source), owner, p.cursor, turn.limit);
    var f := Decider(p.source, p.target, page, outbound, p.mirrored);
    PlanWellFormed(p.source, p.target, owner, p.cursor, turn.limit, outbound, p.mirrored);
    if Diverges(page.changes, f) then Err("Remote mirror divergent")
    else
      var request := PlanRequest(page.changes, f);
      var source := DeleteAll(p.source, Deleted(page.changes, f, DeleteSource), turn.now);
      var cleared := DeleteAll(p.target, Deleted(page.changes, f, DeleteTarget), turn.now);
      var o := Run(cleared, owner, turn.scan, request, MIRROR, turn.now);
      if !NoneRejected(o.notebooks) || !NoneRejected(o.notes) then Err("Remote mirror conflict")
      else
        Ok(Pass(source, o.store, page.serverRevision,
                p.mirrored + Written(page.changes, f),
                p.refsKept && RefsArrive(ApplyVerdicts(cleared, owner, o.notebooks, turn.now), owner, request.notes)))
  }

  /** What this page adds to the mirrored set. */
  function Written(changes: seq<Entry>, f: Entry -> Decision): set<Ref> {
    set e | e in changes && (f(e).Copy? || f(e) == DeleteTarget) :: e.ref
  }
}
