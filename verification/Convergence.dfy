/**
 One device that syncs again and again while everybody else works on the server: when a pull is through and nobody wrote
 since, each of its records without an edit is the server's row, references included.
 */
module Convergence {
  import opened Wrappers
  import opened SyncSpec
  import opened Tables
  import opened Push
  import opened Pull
  import opened Client
  import opened System
  import opened LocalSafety
  import Retry

  /**
   `cursor` is the device's pull cursor, `seen` what a replica that only pulls would hold at it, `acks` the answers to the
   device's pushes that it has not worked off. `exempt` lists the records the user discarded, those a settled conflict was
   about, and those an answer found with another content than was pushed: until the server lists them again.
   */
  datatype World = World(store: Store, cursor: nat, replica: Replica, seen: map<Ref, Entity>, acks: set<Ack>, exempt: set<Ref>)

  /******* Steps *******/

  datatype Step =
    | Others(store: Store)
    | Acts(action: Action)
    | Pushes(scan: seq<Ref>, request: Request, now: Time)
    | Hears(ack: Ack)
    | GivesUp
    | Pulls(view: View, limit: nat, deletes: seq<Ref>, rows: seq<Entity>, conflictId: nat)

  function AcksFor(changes: seq<Change>, verdicts: seq<Verdict>): set<Ack>
    requires |verdicts| == |changes|
  {
    set i | 0 <= i < |changes| && verdicts[i].Accepted() ::
      Ack(RefOf(OWNER, changes[i].record), changes[i].record, verdicts[i].entity.Version())
  }

  /** The records an action of the user takes out of step with what was pulled. */
  function Unsettles(r: Replica, a: Action): set<Ref> {
    match a
    case Discard(ref) => {ref}
    case Prepare => set ref | ref in r.records && r.records[ref].status == Pending && LocalOnlyDeleted(r.records[ref])
    case Resolve(id, _, copy, _, _) =>
      if id in r.conflicts then
        var local, remote := RefOf(OWNER, r.conflicts[id].conflict.local), RefOf(OWNER, r.conflicts[id].conflict.remote);
        {local, remote, local.(id := copy), remote.(id := copy)}
      else {}
    case _ => {}
  }

  /** The rows of the page and the ids it deletes, in the order the client works through them. */
  ghost predicate Split(page: Page, deletes: seq<Ref>, rows: seq<Entity>) {
    && (forall ref :: ref in deletes <==> Deletes(page, ref))
    && (forall x :: x in rows ==> RefOf(OWNER, x) in page.fetched && page.fetched[RefOf(OWNER, x)] == x)
    && (forall ref :: ref in page.fetched ==> page.fetched[ref] in rows)
    && OnePerRef(rows)
  }

  /** applyRemoteDeletes, then mergeRemoteChanges. */
  function ClientPage(r: Replica, deletes: seq<Ref>, rows: seq<Entity>, id: nat): Replica {
    MergeAll(r.(records := DeleteRecords(r.records, deletes)), OWNER, rows, id)
  }

  ghost predicate CanTake(w: World, step: Step) {
    match step
    case Others(t) => Inv(t) && Evolves(w.store, t)
    case Acts(a) => !a.Receive? && !a.PullRow? && !a.PullDelete?
    case Pushes(_, request, _) => WellFormed(request) && UniqueIds(request.notebooks) && UniqueIds(request.notes)
    case Hears(ack) => ack in w.acks
    case GivesUp => true
    case Pulls(v, limit, deletes, rows, _) =>
      w.acks == {} && limit >= 1 && Ordered(v) && v.revision == w.store && Split(PageOf(v, OWNER, w.cursor, limit), deletes, rows)
  }

  ghost function Next(w: World, step: Step): World {
    if !CanTake(w, step) then w
    else match step
      case Others(t) => w.(store := t)
      case Acts(a) => w.(replica := Act(w.replica, OWNER, a), exempt := w.exempt + Unsettles(w.replica, a))
      case Pushes(scan, request, now) =>
        var o := Run(w.store, OWNER, scan, request, CLIENT, now);
        w.(store := o.store, acks := w.acks + AcksFor(request.notebooks, o.notebooks) + AcksFor(request.notes, o.notes))
      case Hears(a) =>
        w.(replica := Act(w.replica, OWNER, Receive(a)), exempt := w.exempt + (if HonestAnswer(w.replica, a) then {} else {a.ref}))
      case GivesUp => w.(acks := {})
      case Pulls(v, limit, deletes, rows, id) =>
        var page := PageOf(v, OWNER, w.cursor, limit);
        World(v.notebooks, page.serverRevision, ClientPage(w.replica, deletes, rows, id), ApplyPage(w.seen, page), {},
              set ref | ref in w.exempt && (Waiting(w.replica, ref) || !Listed(page, ref)))
  }

  /** A matched answer finds the content that was pushed. */
  predicate HonestAnswer(r: Replica, a: Ack) {
    a.ref in r.records && StillMatches(r.records[a.ref], a.pushed) ==> ContentOf(r.records[a.ref].entity) == ContentOf(a.pushed)
  }

  ghost predicate Deletes(page: Page, ref: Ref) {
    exists e :: e in page.changes && e.op == Delete && e.ref == ref
  }

  /** The page says what has become of the entity. */
  ghost predicate Listed(page: Page, ref: Ref) { Deletes(page, ref) || ref in page.fetched }

  ghost function After(w: World, steps: seq<Step>): World {
    if steps == [] then w else Next(After(w, steps[..|steps| - 1]), steps[|steps| - 1])
  }

  /******* The invariant *******/

  /** An edit or a conflict: the record waits for the server or the user. */
  predicate Waiting(r: Replica, ref: Ref) {
    ref in r.records && (r.records[ref].status == Pending || r.records[ref].status == InConflict)
  }

  /** The record has the content that was seen last, or there is none on either side. */
  predicate Matches(r: Replica, seen: map<Ref, Entity>, ref: Ref) {
    && (ref in r.records <==> ref in seen)
    && (ref in seen ==> ContentOf(r.records[ref].entity) == ContentOf(seen[ref]))
  }

  /** The device shows the server's row, or none where the server has none. */
  predicate HoldsServerRow(r: Replica, s: Store, ref: Ref) {
    && (ref in r.records <==> ref in s.rows)
    && (ref in s.rows ==> ContentOf(r.records[ref].entity) == ContentOf(s.rows[ref].entity))
  }

  /** The server has logged something about the entity that was not pulled yet. */
  predicate Fresh(s: Store, cursor: nat, ref: Ref) { LatestRevision(s.log, ref) > cursor }

  ghost predicate InStep(w: World, ref: Ref) {
    ref.owner == OWNER ==> Waiting(w.replica, ref) || ref in w.exempt || Fresh(w.store, w.cursor, ref) || Matches(w.replica, w.seen, ref)
  }

  ghost predicate AckFits(w: World, a: Ack) {
    a.ref.owner == OWNER && (Fresh(w.store, w.cursor, a.ref) || (a.ref in w.seen && ContentOf(w.seen[a.ref]) == ContentOf(a.pushed)))
  }

  ghost predicate Ok(w: World) {
    && Inv(w.store) && w.cursor < w.store.nextRevision
    && UpToDate(w.store, OWNER, w.cursor, w.seen)
    && (forall ref :: InStep(w, ref))
    && (forall a :: a in w.acks ==> AckFits(w, a))
  }

  lemma StartOk(s: Store, device: string)
    requires Inv(s)
    ensures Ok(World(s, 0, Replica(device, map[], map[]), map[], {}, {}))
  {
    InvLog(s);
    var w := World(s, 0, Replica(device, map[], map[]), map[], {}, {});
    forall ref ensures CurrentAt(s, OWNER, 0, map[], ref) && InStep(w, ref) {
      InvAt(s, ref);
      if Latest(s.log, ref).Some? { assert Latest(s.log, ref).value in s.log; }
    }
  }

  /******* The server moves on *******/

  lemma FreshStays(s: Store, t: Store, cursor: nat, ref: Ref)
    requires Evolves(s, t) && cursor < s.nextRevision && Fresh(s, cursor, ref)
    ensures Fresh(t, cursor, ref)
  {
    assert Moved(s, t, ref);
  }

  lemma ServerMoves(w: World, t: Store)
    requires Ok(w) && Inv(t) && Evolves(w.store, t)
    ensures Ok(w.(store := t))
  {
    hide Inv, Evolves, Fresh, Matches, Waiting, UpToDate;
    var z := w.(store := t);
    UpToDateEvolves(w.store, t, OWNER, w.cursor, w.seen);
    NextGrows(w.store, t);
    forall ref ensures InStep(z, ref) {
      assert InStep(w, ref);
      if Fresh(w.store, w.cursor, ref) { FreshStays(w.store, t, w.cursor, ref); }
    }
    forall a | a in z.acks ensures AckFits(z, a) {
      assert AckFits(w, a);
      if Fresh(w.store, w.cursor, a.ref) { FreshStays(w.store, t, w.cursor, a.ref); }
    }
  }

  lemma NextGrows(s: Store, t: Store)
    requires Evolves(s, t)
    ensures s.nextRevision <= t.nextRevision
  {
  }

  /******* The user and the answers *******/

  /** The same content before and after, or no record. */
  predicate SameEntity(r: Replica, r': Replica, ref: Ref) {
    (ref in r'.records <==> ref in r.records) && (ref in r.records ==> ContentOf(r'.records[ref].entity) == ContentOf(r.records[ref].entity))
  }

  /** What an action may do to a record: leave it waiting, leave it as it was, or take it out of step. */
  predicate Tame(r: Replica, r': Replica, ref: Ref) {
    Waiting(r', ref) || (!Waiting(r, ref) && SameEntity(r, r', ref))
  }

  lemma MovedTame(r: Replica, records: map<Ref, Local>, from: string, to: string, t: Time, ref: Ref)
    requires Tame(r, r.(records := records), ref)
    ensures Tame(r, r.(records := MoveNotebook(records, from, to, r.device, t)), ref)
  {
    hide NoteNotebookIds, Replaced, SafePendingVersion, WithRefs, ContentOf;
  }

  lemma DroppedTame(r: Replica, records: map<Ref, Local>, notebook: string, t: Time, ref: Ref)
    requires Tame(r, r.(records := records), ref)
    ensures Tame(r, r.(records := DropNotebook(records, notebook, r.device, t)), ref)
  {
    hide NoteNotebookIds, Without, SafePendingVersion, WithRefs, ContentOf;
  }

  lemma ResolveTame(r: Replica, a: Action, ref: Ref)
    requires a.Resolve? && ref !in Unsettles(r, a)
    ensures Tame(r, Act(r, OWNER, a), ref)
  {
    hide MoveNotebook, DropNotebook, SelectsRemote, SafePendingVersion, ContentOf;
    if a.conflictId in r.conflicts && !r.conflicts[a.conflictId].resolved {
      var c := r.conflicts[a.conflictId].conflict;
      var local, remote := RefOf(OWNER, c.local), RefOf(OWNER, c.remote);
      var taken := r.records[remote := FromRemote(c.remote)];
      if c.reason == DuplicateName {
        MovedTame(r, taken, c.local.Id(), c.remote.Id(), a.now, ref);
        MovedTame(r, taken[local.(id := a.copy) := CopyOf(c.local, a.copy, a.name, r.device, a.now)], c.local.Id(), a.copy, a.now, ref);
      } else {
        MovedTame(r, taken[remote.(id := a.copy) := CopyOf(c.local, a.copy, CopyTitle(c.local), r.device, a.now)], c.local.Id(), a.copy, a.now, ref);
        DroppedTame(r, r.records[remote := Resolved(c, a.choice, r.device)], c.remote.Id(), a.now, ref);
      }
    }
  }

  lemma ActTame(r: Replica, a: Action, ref: Ref)
    requires !a.Receive? && !a.PullRow? && !a.PullDelete? && ref !in Unsettles(r, a)
    ensures Tame(r, Act(r, OWNER, a), ref)
  {
    hide RecordsDiffer, ResolvedNames, ResolvedRecords, DropNotebook, ContentOf, Prepared, LocalOnlyDeleted;
    match a
    case Resolve(_, _, _, _, _) => ResolveTame(r, a, ref);
    case DropReferences(notebook, now) => DroppedTame(r, r.records, notebook, now, ref);
    case Prepare => PreparedTame(r, ref);
    case _ =>
  }

  lemma PreparedTame(r: Replica, ref: Ref)
    requires ref !in Unsettles(r, Prepare)
    ensures Tame(r, Act(r, OWNER, Prepare), ref)
  {
    hide ContentOf, LocalOnlyDeleted, PendingIds;
  }

  lemma ActKeeps(w: World, a: Action)
    requires Ok(w) && CanTake(w, Acts(a))
    ensures Ok(Next(w, Acts(a)))
  {
    hide Inv, UpToDate, Fresh, Act, Unsettles;
    var z := Next(w, Acts(a));
    forall ref ensures InStep(z, ref) {
      assert InStep(w, ref);
      if ref !in Unsettles(w.replica, a) { ActTame(w.replica, a, ref); }
    }
    forall x | x in z.acks ensures AckFits(z, x) { assert AckFits(w, x); }
  }

  lemma HearKeeps(w: World, a: Ack)
    requires Ok(w) && a in w.acks
    ensures Ok(Next(w, Hears(a)))
  {
    hide Inv, UpToDate, Fresh, ContentOf, StillMatches;
    var z := Next(w, Hears(a));
    assert [a][..0] == [];
    assert MarkAccepted(w.replica.records, []) == w.replica.records;
    assert AckFits(w, a);
    forall ref ensures InStep(z, ref) {
      assert InStep(w, ref);
      if ref == a.ref && ref in w.replica.records { SameVersionContent(w.replica.records[ref].entity, a.version); }
    }
    forall x | x in z.acks ensures AckFits(z, x) { assert AckFits(w, x); }
  }

  lemma SameVersionContent(e: Entity, version: int)
    ensures ContentOf(e.WithVersion(version)) == ContentOf(e)
  {
    hide NormalizedIds, KeyOfText;
  }

  /******* A push *******/

  lemma KeptSameContent(s: Store, owner: string, c: Change)
    requires c.record.NoteEntity? && NoteVerdict(s, owner, c, CLIENT).Kept?
    ensures ContentOf(NoteVerdict(s, owner, c, CLIENT).entity) == ContentOf(c.record)
  {
    hide RecordsDiffer, ContentOf;
    Retry.SyncableContent(s, owner, c.record.note);
    var ref := RefOf(owner, c.record);
    RecordsDifferIffContentDiffers(c.record, s.rows[ref].entity);
  }

  /** An accepted change is news, or its row was there with the pushed content. */
  ghost predicate Answered(s: Store, t: Store, c: Change) {
    var ref := RefOf(OWNER, c.record);
    LatestRevision(t.log, ref) >= s.nextRevision || (ref in s.rows && ContentOf(s.rows[ref].entity) == ContentOf(c.record))
  }

  lemma RoseIsNews(s: Store, t: Store, ref: Ref)
    requires Evolves(s, t) && Effective(t, ref) > Effective(s, ref)
    ensures LatestRevision(t.log, ref) >= s.nextRevision
  {
    hide Effective, SameAt;
    assert Moved(s, t, ref);
    if SameAt(s, t, ref) { SameEffective(s, t, ref); }
  }

  lemma VersionRises(s: Store, ref: Ref, record: Entity)
    requires Inv(s)
    ensures AcceptedVersion(s, ref, record, CLIENT) > Effective(s, ref)
  {
    InvAt(s, ref);
  }

  lemma NoteAnswered(s: Store, scan: seq<Ref>, request: Request, now: Time, i: nat)
    requires Inv(s) && WellFormed(request) && UniqueIds(request.notebooks) && UniqueIds(request.notes)
    requires i < |request.notes| && Run(s, OWNER, scan, request, CLIENT, now).notes[i].Accepted()
    ensures Answered(s, Run(s, OWNER, scan, request, CLIENT, now).store, request.notes[i])
  {
    hide Inv, Run, NoteVerdict, ContentOf, Evolves, Rises, AcceptedVersion, Effective, Effect;
    var o := Run(s, OWNER, scan, request, CLIENT, now);
    var mid := ApplyVerdicts(s, OWNER, o.notebooks, now);
    var c := request.notes[i];
    var ref := RefOf(OWNER, c.record);
    RunPhases(s, OWNER, scan, request, CLIENT, now);
    NotesOf(s, scan, request, now, i);
    PhasesApart(s, mid, OWNER, request.notebooks, o.notebooks, ref);
    SameEffective(s, mid, ref);
    if o.notes[i].Kept? {
      KeptSameContent(mid, OWNER, c);
      assert Lawful(mid, OWNER, c, o.notes[i], CLIENT);
      assert RowAt(s, ref) == RowAt(mid, ref);
    } else {
      assert Lawful(mid, OWNER, c, o.notes[i], CLIENT);
      VersionRises(mid, ref, c.record);
      AcceptedNoteIsStored(s, OWNER, scan, request, CLIENT, now, i);
      StoredEffective(o.store, ref, o.notes[i].entity);
      RoseIsNews(s, o.store, ref);
    }
  }

  lemma NotesOf(s: Store, scan: seq<Ref>, request: Request, now: Time, i: nat)
    requires WellFormed(request) && i < |request.notes|
    ensures request.notes[i].record.NoteEntity?
    ensures var o := Run(s, OWNER, scan, request, CLIENT, now);
      o.notes[i] == NoteVerdict(ApplyVerdicts(s, OWNER, o.notebooks, now), OWNER, request.notes[i], CLIENT)
  {
  }

  lemma SameEffective(s: Store, t: Store, ref: Ref)
    requires SameAt(s, t, ref)
    ensures Effective(s, ref) == Effective(t, ref)
  {
    assert RowAt(s, ref) == RowAt(t, ref) && TombAt(s, ref) == TombAt(t, ref);
  }

  lemma StoredEffective(t: Store, ref: Ref, e: Entity)
    requires ref in t.rows && t.rows[ref].entity == e
    ensures Effective(t, ref) == e.Version()
  {
  }

  lemma NotebookAnswered(s: Store, scan: seq<Ref>, request: Request, now: Time, i: nat)
    requires Inv(s) && WellFormed(request) && UniqueIds(request.notebooks) && UniqueIds(request.notes)
    requires i < |request.notebooks| && Run(s, OWNER, scan, request, CLIENT, now).notebooks[i].Accepted()
    ensures Answered(s, Run(s, OWNER, scan, request, CLIENT, now).store, request.notebooks[i])
  {
    hide Inv, Run, ContentOf, Evolves, Rises, AcceptedVersion, Effective, Effect;
    var o := Run(s, OWNER, scan, request, CLIENT, now);
    var c := request.notebooks[i];
    var ref := RefOf(OWNER, c.record);
    RunPhases(s, OWNER, scan, request, CLIENT, now);
    assert c in request.notebooks;
    assert Lawful(s, OWNER, c, o.notebooks[i], CLIENT);
    if o.notebooks[i].Kept? {
      NotebookSameContent(o.notebooks[i].entity, c.record);
    } else {
      VersionRises(s, ref, c.record);
      AcceptedNotebookIsStored(s, OWNER, scan, request, CLIENT, now, i);
      StoredEffective(o.store, ref, o.notebooks[i].entity);
      RoseIsNews(s, o.store, ref);
    }
  }

  lemma NotebookSameContent(a: Entity, b: Entity)
    requires b.NotebookEntity? && CoreOf(a) == CoreOf(b)
    ensures ContentOf(a) == ContentOf(b)
  {
  }

  lemma AnsweredFits(w: World, t: Store, c: Change, version: int)
    requires Ok(w) && Evolves(w.store, t) && Answered(w.store, t, c)
    ensures AckFits(w.(store := t), Ack(RefOf(OWNER, c.record), c.record, version))
  {
    hide Inv, ContentOf;
    var ref := RefOf(OWNER, c.record);
    if !Fresh(t, w.cursor, ref) {
      assert Moved(w.store, t, ref);
      assert CurrentAt(w.store, OWNER, w.cursor, w.seen, ref);
    }
  }

  lemma PushKeeps(w: World, scan: seq<Ref>, request: Request, now: Time)
    requires Ok(w) && CanTake(w, Pushes(scan, request, now))
    ensures Ok(Next(w, Pushes(scan, request, now)))
  {
    hide Inv, Run, InStep, AckFits, Answered, UpToDate, Evolves, Rises, WellFormed, UniqueIds, Effect, LawfulAll;
    var o := Run(w.store, OWNER, scan, request, CLIENT, now);
    RunPhases(w.store, OWNER, scan, request, CLIENT, now);
    ServerMoves(w, o.store);
    var y := w.(store := o.store);
    forall i | 0 <= i < |request.notebooks| && o.notebooks[i].Accepted()
      ensures AckFits(y, Ack(RefOf(OWNER, request.notebooks[i].record), request.notebooks[i].record, o.notebooks[i].entity.Version()))
    {
      NotebookAnswered(w.store, scan, request, now, i);
      AnsweredFits(w, o.store, request.notebooks[i], o.notebooks[i].entity.Version());
    }
    forall i | 0 <= i < |request.notes| && o.notes[i].Accepted()
      ensures AckFits(y, Ack(RefOf(OWNER, request.notes[i].record), request.notes[i].record, o.notes[i].entity.Version()))
    {
      NoteAnswered(w.store, scan, request, now, i);
      AnsweredFits(w, o.store, request.notes[i], o.notes[i].entity.Version());
    }
    var z := Next(w, Pushes(scan, request, now));
    forall ref ensures InStep(z, ref) { StepSame(y, z, ref); }
    forall a | a in z.acks ensures AckFits(z, a) { AckSame(y, z, a); }
  }

  lemma StepSame(y: World, z: World, ref: Ref)
    requires InStep(y, ref) && z == y.(acks := z.acks)
    ensures InStep(z, ref)
  {
  }

  lemma AckSame(y: World, z: World, a: Ack)
    requires AckFits(y, a) && z == y.(acks := z.acks)
    ensures AckFits(z, a)
  {
  }

  /******* A page *******/

  /** The same record before and after. */
  predicate SameRecord(r: Replica, r': Replica, ref: Ref) {
    (ref in r'.records <==> ref in r.records) && (ref in r.records ==> r'.records[ref] == r.records[ref])
  }

  /** What merging rows does to one record: an edit or a conflict stays one, else the record becomes its row or stays. */
  ghost predicate MergedAt(r: Replica, r': Replica, rows: seq<Entity>, ref: Ref) {
    if Waiting(r, ref) then Waiting(r', ref)
    else
      && ((forall x :: x in rows ==> RefOf(OWNER, x) != ref) ==> SameRecord(r, r', ref))
      && (forall x :: x in rows && RefOf(OWNER, x) == ref ==> ref in r'.records && IsRow(r'.records[ref], x))
  }

  lemma MergeOneAt(r: Replica, x: Entity, id: nat, ref: Ref)
    ensures MergedAt(r, MergeOne(r, OWNER, x, id), [x], ref)
    ensures !Waiting(r, ref) ==> !Waiting(MergeOne(r, OWNER, x, id), ref)
  {
    hide RecordsDiffer;
  }

  predicate OnePerRef(rows: seq<Entity>) {
    forall i, j :: 0 <= i < j < |rows| ==> RefOf(OWNER, rows[i]) != RefOf(OWNER, rows[j])
  }

  lemma {:induction false} MergeAllAt(r: Replica, rows: seq<Entity>, id: nat, ref: Ref)
    requires OnePerRef(rows)
    ensures MergedAt(r, MergeAll(r, OWNER, rows, id), rows, ref)
    ensures !Waiting(r, ref) ==> !Waiting(MergeAll(r, OWNER, rows, id), ref)
  {
    hide MergeOne, Waiting;
    if rows != [] {
      var n := |rows| - 1;
      var front, last := rows[..n], rows[n];
      assert rows == front + [last];
      MergeAllAt(r, front, id, ref);
      MergeOneAt(MergeAll(r, OWNER, front, id), last, id + n, ref);
    }
  }

  /** What the client makes of one entity of a page: it goes, becomes the row, or stays. */
  lemma ClientPageAt(r: Replica, page: Page, deletes: seq<Ref>, rows: seq<Entity>, id: nat, ref: Ref)
    requires Split(page, deletes, rows)
    requires ref in page.fetched ==> RefOf(OWNER, page.fetched[ref]) == ref && !Deletes(page, ref)
    ensures var r' := ClientPage(r, deletes, rows, id);
      if Waiting(r, ref) then Waiting(r', ref)
      else if Deletes(page, ref) then ref !in r'.records
      else if ref in page.fetched then ref in r'.records && IsRow(r'.records[ref], page.fetched[ref])
      else SameRecord(r, r', ref)
  {
    hide MergeAll, DeleteRecords, Deletes;
    DeletesSpareEdits(r.records, deletes);
    MergeAllAt(r.(records := DeleteRecords(r.records, deletes)), rows, id, ref);
    if ref in page.fetched { assert page.fetched[ref] in rows; }
  }

  /** What a page makes of one entity of a replica that only pulls, and that it lists what it passes. */
  lemma SeenAt(v: View, cursor: nat, limit: nat, seen: map<Ref, Entity>, ref: Ref)
    requires Ordered(v) && limit >= 1 && ref.owner == OWNER
    ensures var page := PageOf(v, OWNER, cursor, limit);
      && (ref in page.fetched ==> RefOf(OWNER, page.fetched[ref]) == ref && !Deletes(page, ref))
      && (Lookup(ApplyPage(seen, page), ref) ==
            if Deletes(page, ref) then None else if ref in page.fetched then Some(page.fetched[ref]) else Lookup(seen, ref))
      && (cursor < LatestRevision(v.notebooks.log, ref) <= page.serverRevision ==> Listed(page, ref))
  {
    hide Inv, LatestRevision, Evolves, ApplyPage, LatestInWindow, Window, CurrentRevision;
    var page := PageOf(v, OWNER, cursor, limit);
    ChangesAreFunctional(v.latest.log, OWNER, cursor, page.serverRevision);
    InvAt(Fetched(v, ref.kind), ref);
    AppliedAt(v, OWNER, cursor, limit, seen, ref);
    if cursor < LatestRevision(v.notebooks.log, ref) <= page.serverRevision {
      LatestListed(v, cursor, limit, ref);
    }
  }

  lemma LatestListed(v: View, cursor: nat, limit: nat, ref: Ref)
    requires Ordered(v) && limit >= 1 && ref.owner == OWNER
    requires cursor < LatestRevision(v.notebooks.log, ref) <= PageOf(v, OWNER, cursor, limit).serverRevision
    ensures Listed(PageOf(v, OWNER, cursor, limit), ref)
  {
    hide Inv, Evolves, Window, CurrentRevision, LatestInWindow;
    var page := PageOf(v, OWNER, cursor, limit);
    PageCovers(v, OWNER, cursor, limit, ref);
    var e := Latest(v.notebooks.log, ref).value;
    PageRevisionBounds(v, OWNER, cursor, limit);
    InvLog(v.revision);
    CurrentBelowNext(v.revision, OWNER);
    StaysPut(v, OWNER, ref, page.serverRevision);
    InvAt(v.notebooks, ref);
    assert e in page.changes && e.ref == ref;
  }

  lemma PageInStep(w: World, v: View, limit: nat, deletes: seq<Ref>, rows: seq<Entity>, id: nat, ref: Ref)
    requires Ok(w) && CanTake(w, Pulls(v, limit, deletes, rows, id))
    ensures InStep(Next(w, Pulls(v, limit, deletes, rows, id)), ref)
  {
    hide Inv, PageOf, ApplyPage, ClientPage, Split, UpToDate, ContentOf, Ordered, Deletes;
    if ref.owner == OWNER {
      var page := PageOf(v, OWNER, w.cursor, limit);
      SeenAt(v, w.cursor, limit, w.seen, ref);
      ClientPageAt(w.replica, page, deletes, rows, id, ref);
      assert InStep(w, ref);
      if Fresh(w.store, w.cursor, ref) {
        OrderedEvolves(v);
        FreshStays(w.store, v.notebooks, w.cursor, ref);
      }
    }
  }

  lemma PullKeeps(w: World, v: View, limit: nat, deletes: seq<Ref>, rows: seq<Entity>, id: nat)
    requires Ok(w) && CanTake(w, Pulls(v, limit, deletes, rows, id))
    ensures Ok(Next(w, Pulls(v, limit, deletes, rows, id)))
  {
    hide Inv, PageOf, ApplyPage, ClientPage, Split, UpToDate, InStep, Evolves, CurrentRevision;
    OrderedEvolves(v);
    PageKeepsUpToDate(v, OWNER, w.cursor, limit, w.seen);
    PageRevisionBounds(v, OWNER, w.cursor, limit);
    InvLog(v.revision);
    CurrentBelowNext(v.revision, OWNER);
    NextGrows(v.revision, v.notebooks);
    forall ref ensures InStep(Next(w, Pulls(v, limit, deletes, rows, id)), ref) {
      PageInStep(w, v, limit, deletes, rows, id, ref);
    }
  }

  /******* Runs *******/

  lemma NextKeeps(w: World, step: Step)
    requires Ok(w)
    ensures Ok(Next(w, step))
  {
    hide Inv, Run, PageOf, ApplyPage, ClientPage, Split, UpToDate, InStep, Evolves, AckFits, Act, Ordered;
    if CanTake(w, step) {
      match step
      case Others(t) => ServerMoves(w, t);
      case Acts(a) => ActKeeps(w, a);
      case Pushes(scan, request, now) => PushKeeps(w, scan, request, now);
      case Hears(a) => HearKeeps(w, a);
      case GivesUp => forall ref ensures InStep(Next(w, step), ref) { StepSame(w, Next(w, step), ref); }
      case Pulls(v, limit, deletes, rows, id) => PullKeeps(w, v, limit, deletes, rows, id);
    }
  }

  lemma {:induction false} RunsKeep(w: World, steps: seq<Step>)
    requires Ok(w)
    ensures Ok(After(w, steps))
  {
    hide Ok, Next;
    if steps != [] {
      RunsKeep(w, steps[..|steps| - 1]);
      NextKeeps(After(w, steps[..|steps| - 1]), steps[|steps| - 1]);
    }
  }

  /**
   A device ends equal to the server. Start with an empty device at any server. Let it edit, push (with answers heard late or
   lost), settle conflicts and pull page by page, while everybody else writes between any two steps and between the queries
   of a page. Whenever a pull has come to the end of the log and nobody has written since, every record that is neither
   edited, nor in conflict, nor exempt is the server's row in text, state and references, and there is none where the server
   has none.
   */
  lemma DeviceEndsEqual(s: Store, device: string, steps: seq<Step>, ref: Ref)
    requires Inv(s) && ref.owner == OWNER
    requires var w := After(World(s, 0, Replica(device, map[], map[]), map[], {}, {}), steps);
      && CurrentRevision(w.store.log, OWNER) <= w.cursor && !Waiting(w.replica, ref) && ref !in w.exempt
    ensures var w := After(World(s, 0, Replica(device, map[], map[]), map[], {}, {}), steps);
      HoldsServerRow(w.replica, w.store, ref)
  {
    hide Inv, After, Next, ContentOf;
    var start := World(s, 0, Replica(device, map[], map[]), map[], {}, {});
    StartOk(s, device);
    RunsKeep(start, steps);
    var w := After(start, steps);
    assert InStep(w, ref);
    NothingFresh(w.store, w.cursor, ref);
    assert CurrentAt(w.store, OWNER, w.cursor, w.seen, ref);
  }

  lemma NothingFresh(s: Store, cursor: nat, ref: Ref)
    requires Inv(s) && ref.owner == OWNER && CurrentRevision(s.log, OWNER) <= cursor
    ensures !Fresh(s, cursor, ref)
  {
    InvLog(s);
    if Latest(s.log, ref).Some? {
      CurrentIsMax(s.log, OWNER, Latest(s.log, ref).value);
    }
  }

  /******* Why a settled conflict is exempt *******/

  /** Pages pass over a record in conflict, and over the conflict. */
  lemma {:induction false} MergePassesOver(r: Replica, rows: seq<Entity>, n: nat, ref: Ref, id: nat)
    requires ref in r.records && r.records[ref].status == InConflict && id in r.conflicts && id < n
    ensures var r' := MergeAll(r, OWNER, rows, n);
      && ref in r'.records && r'.records[ref] == r.records[ref]
      && id in r'.conflicts && r'.conflicts[id] == r.conflicts[id] && r'.device == r.device
  {
    if rows != [] {
      hide RecordsDiffer;
      MergePassesOver(r, rows[..|rows| - 1], n, ref, id);
    }
  }

  /**
   A page that comes while a record is in conflict changes neither the record nor the conflict, yet its cursor moves past
   what the page said of the record. Choosing the server's side afterwards therefore leaves the record synced with the
   server's row exactly when the row still has the content the conflict shows; else no page will list the row again before
   somebody writes it.
   */
  lemma ChosenRowIsCurrentIff(w: World, pull: Step, id: nat, choice: Choice, copy: string, name: string, now: Time, ref: Ref)
    requires Ok(w) && pull.Pulls? && CanTake(w, pull) && id in w.replica.conflicts && id < pull.conflictId
    requires CurrentRevision(pull.view.notebooks.log, OWNER) <= Next(w, pull).cursor
    requires var s := w.replica.conflicts[id];
      && !s.resolved && s.conflict.reason == RemoteChanged
      && RefOf(OWNER, s.conflict.remote) == ref && SelectsRemote(s.conflict.local, s.conflict.remote, choice)
    requires ref in w.replica.records && w.replica.records[ref].status == InConflict
    ensures var z := Next(Next(w, pull), Acts(Resolve(id, choice, copy, name, now)));
      && ref in z.replica.records && z.replica.records[ref].status == Synced && !Fresh(z.store, z.cursor, ref)
      && (HoldsServerRow(z.replica, z.store, ref) <==>
            ref in z.store.rows && ContentOf(w.replica.conflicts[id].conflict.remote) == ContentOf(z.store.rows[ref].entity))
  {
    hide Inv, ContentOf, PageOf, ApplyPage, MergeAll, DeleteRecords, Split, UpToDate, InStep, Evolves, CurrentRevision, Ordered, Fresh;
    var y := Next(w, pull);
    var page := PageOf(pull.view, OWNER, w.cursor, pull.limit);
    NextKeeps(w, pull);
    NothingFresh(y.store, y.cursor, ref);
    DeletesSpareEdits(w.replica.records, pull.deletes);
    MergePassesOver(w.replica.(records := DeleteRecords(w.replica.records, pull.deletes)), pull.rows, pull.conflictId, ref, id);
  }
}
