/** What one page of the mirror does to each entity of both databases. */
module MirrorPage {
  import opened Wrappers
  import opened SyncSpec
  import opened Tables
  import opened Push
  import opened Pull
  import opened Mirror
  import Seqs
  import Text

  /******* Agreement *******/

  /** The live content of an entity; soft-deleted and absent are the same. */
  function Live(s: Store, ref: Ref): Option<Content> {
    if ref in s.rows && !s.rows[ref].entity.IsDeleted() then Some(ContentOf(s.rows[ref].entity)) else None
  }

  ghost predicate Agree(s: Store, t: Store, ref: Ref) { Live(s, ref) == Live(t, ref) }

  /** Note rows as every push stores them: the primary notebook is the first of the list. */
  predicate Tidy(n: Note) {
    var ids := NoteNotebookIds(n);
    NormalizedId(n.notebookId) == if ids == [] then None else Some(ids[0])
  }

  ghost predicate TidyRows(s: Store) {
    forall ref :: ref in s.rows && s.rows[ref].entity.NoteEntity? ==> Tidy(s.rows[ref].entity.note)
  }

  /******* Copied notes *******/

  /** What a push stores keeps exactly the live references, in order, with the first as primary. */
  lemma SyncableRefs(t: Store, owner: string, n: Note)
    ensures var m := Syncable(t, owner, n);
      && NoteNotebookIds(m) == m.notebookIds && Tidy(m)
      && RefSet(m) == (set id | id in RefSet(n) && LiveNotebook(t, owner, id))
      && Seqs.InOrder(m.notebookIds, NoteNotebookIds(n))
  {
    hide LiveNotebook, NoteNotebookIds, Seqs.InOrder;
    var m := Syncable(t, owner, n);
    Seqs.FilterInOrder(NoteNotebookIds(n), id => LiveNotebook(t, owner, id));
    Seqs.FilterDistinct(NoteNotebookIds(n), id => LiveNotebook(t, owner, id));
    ListedIds(m);
  }

  /** A note whose list is normal has just that list. */
  lemma ListedIds(m: Note)
    requires Seqs.Distinct(m.notebookIds) && forall id :: id in m.notebookIds ==> id != "" && Text.Trim(id) == id
    requires m.notebookId == if m.notebookIds == [] then None else Some(m.notebookIds[0])
    ensures NoteNotebookIds(m) == m.notebookIds && Tidy(m)
  {
    hide NormalizedIds;
    NormalizedStay(m.notebookIds);
    NormalizedStay([]);
    if m.notebookIds != [] {
      assert m.notebookIds[0] in m.notebookIds;
    }
  }

  /** A copied note keeps its content if and only if every notebook it names is live on the target. */
  lemma CopiedNoteAgreesIff(t: Store, owner: string, n: Note)
    requires Tidy(n)
    ensures ContentOf(NoteEntity(Syncable(t, owner, n))) == ContentOf(NoteEntity(n))
      <==> forall id :: id in NoteNotebookIds(n) ==> LiveNotebook(t, owner, id)
  {
    hide LiveNotebook, NormalizedIds;
    SyncableRefs(t, owner, n);
    var m := Syncable(t, owner, n);
    if forall id :: id in NoteNotebookIds(n) ==> LiveNotebook(t, owner, id) {
      Seqs.FilterAll(NoteNotebookIds(n), id => LiveNotebook(t, owner, id));
      assert RefSet(m) == RefSet(n);
    } else {
      var id :| id in NoteNotebookIds(n) && !LiveNotebook(t, owner, id);
      assert id in RefSet(n) && id !in RefSet(m);
    }
  }

  lemma NoteVerdictContent(t: Store, owner: string, c: Change, options: Options)
    requires c.record.NoteEntity? && NoteVerdict(t, owner, c, options).Accepted()
    ensures ContentOf(NoteVerdict(t, owner, c, options).entity) == ContentOf(NoteEntity(Syncable(t, owner, c.record.note)))
  {
    var ref := RefOf(owner, c.record);
    if ref in t.rows {
      RecordsDifferIffContentDiffers(NoteEntity(Syncable(t, owner, c.record.note)), t.rows[ref].entity);
    }
  }

  /******* The request of a page *******/

  lemma InvRows(s: Store)
    requires Inv(s)
    ensures Rows(s)
  {
    forall ref | ref in s.rows ensures RefOf(ref.owner, s.rows[ref].entity) == ref && s.rows[ref].entity.Version() >= 1 {
      assert EntityOk(s, ref);
    }
  }

  ghost predicate DistinctEntries(changes: seq<Entry>) {
    forall i, j :: 0 <= i < j < |changes| ==> changes[i].ref != changes[j].ref
  }

  /** The records an entry's decision may copy are the source's own. */
  ghost predicate OwnRecords(changes: seq<Entry>, f: Entry -> Decision, owner: string) {
    forall e :: e in changes && f(e).Copy? ==> RefOf(owner, f(e).record) == e.ref
  }

  lemma {:induction false} CopiesUnique(changes: seq<Entry>, f: Entry -> Decision, owner: string, kind: Kind)
    requires DistinctEntries(changes) && OwnRecords(changes, f, owner)
    ensures UniqueIds(Copies(changes, f, kind))
  {
    if changes != [] {
      var front, last := changes[..|changes| - 1], changes[|changes| - 1];
      assert changes == front + [last];
      CopiesUnique(front, f, owner, kind);
      if f(last).Copy? && last.ref.kind == kind {
        forall c | c in Copies(front, f, kind) ensures c.record.Id() != f(last).record.Id() {
          var e :| e in front && f(e).Copy? && e.ref.kind == kind && c == Change(f(e).record, f(e).base);
          var i :| 0 <= i < |front| && front[i] == e;
          assert changes[i].ref != last.ref;
          assert last in changes && e in changes;
        }
      }
    }
  }

  lemma PageEntries(s: Store, owner: string, cursor: nat, limit: nat)
    requires Inv(s) && limit >= 1
    ensures var page := PageOf(Still(s), owner, cursor, limit);
      && DistinctEntries(page.changes)
      && (forall e :: e in page.changes ==> e.ref.owner == owner && e in s.log && cursor < e.revision <= page.serverRevision)
      && (forall ref :: ref in page.fetched ==> ref in s.rows && page.fetched[ref] == s.rows[ref].entity)
      && (forall e :: e in page.changes && e.op == Upsert && e.ref in s.rows ==> e.ref in page.fetched)
  {
    hide PageOf, Inv, DistinctEntries, LatestInWindow;
    InvLog(s);
    var page := PageOf(Still(s), owner, cursor, limit);
    ChangesDistinct(s.log, owner, cursor, page.serverRevision);
    FetchedAreRows(s, owner, cursor, limit);
    PageChanges(s, owner, cursor, limit);
    NoEntries();
  }

  lemma NoEntries()
    ensures DistinctEntries([])
  {
  }

  lemma PageChanges(s: Store, owner: string, cursor: nat, limit: nat)
    requires limit >= 1
    ensures var page := PageOf(Still(s), owner, cursor, limit);
      && (page.changes == [] || page.changes == LatestInWindow(s.log, owner, cursor, page.serverRevision))
      && (forall e :: e in page.changes && e.op == Upsert && e.ref in s.rows ==> e.ref in page.fetched)
  {
    hide LatestInWindow, Window, CurrentRevision;
  }

  lemma ChangesDistinct(log: seq<Entry>, owner: string, lo: nat, hi: nat)
    requires Sorted(log)
    ensures DistinctEntries(LatestInWindow(log, owner, lo, hi))
  {
    FilterSorted(log, e => InWindow(e, owner, lo, hi) && LatestUpTo(log, e.ref, hi) == Some(e));
    var changes := LatestInWindow(log, owner, lo, hi);
    assert Sorted(changes);
    ChangesAreFunctional(log, owner, lo, hi);
  }

  /** The plan of a page: everything later lemmas need to know about it. */
  ghost predicate PlanOk(s: Store, t: Store, owner: string, page: Page, f: Entry -> Decision) {
    && DistinctEntries(page.changes) && OwnRecords(page.changes, f, owner)
    && WellFormed(PlanRequest(page.changes, f))
    && UniqueIds(Copies(page.changes, f, NotebookKind)) && UniqueIds(Copies(page.changes, f, NoteKind))
    && (forall e :: e in page.changes ==> e.ref.owner == owner)
    && (forall e :: e in page.changes && f(e).Copy? ==> e.ref in s.rows && f(e).record == s.rows[e.ref].entity)
  }

  lemma PlanIsOk(s: Store, t: Store, owner: string, cursor: nat, limit: nat, outbound: nat, mirrored: set<Ref>)
    requires Inv(s) && limit >= 1
    ensures var page := PageOf(Still(s), owner, cursor, limit);
      PlanOk(s, t, owner, page, Decider(s, t, page, outbound, mirrored))
  {
    hide PageOf;
    var page := PageOf(Still(s), owner, cursor, limit);
    var f := Decider(s, t, page, outbound, mirrored);
    PageEntries(s, owner, cursor, limit);
    InvRows(s);
    PlanWellFormed(s, t, owner, cursor, limit, outbound, mirrored);
    assert OwnRecords(page.changes, f, owner);
    CopiesUnique(page.changes, f, owner, NotebookKind);
    CopiesUnique(page.changes, f, owner, NoteKind);
  }

  /******* A page, however it ends *******/

  /** What a page computes before it is known whether its push meets a conflict. */
  datatype Begun = Begun(page: Page, f: Entry -> Decision, cleared: Store, outcome: Outcome)

  ghost function Begin(p: Pass, owner: string, outbound: nat, turn: Turn): Begun
    requires turn.limit >= 1 && Rows(p.source)
  {
    var page := PageOf(Still(p.source), owner, p.cursor, turn.limit);
    var f := Decider(p.source, p.target, page, outbound, p.mirrored);
    var cleared := DeleteAll(p.target, Deleted(page.changes, f, DeleteTarget), turn.now);
    PlanWellFormed(p.source, p.target, owner, p.cursor, turn.limit, outbound, p.mirrored);
    Begun(page, f, cleared, Run(cleared, owner, turn.scan, PlanRequest(page.changes, f), MIRROR, turn.now))
  }

  /** Some decision of the page is a divergence: the page throws before it writes. */
  ghost predicate Diverged(p: Pass, owner: string, outbound: nat, turn: Turn)
    requires turn.limit >= 1 && Rows(p.source)
  {
    var b := Begin(p, owner, outbound, turn);
    Diverges(b.page.changes, b.f)
  }

  /**
   Both databases when the page is over. A divergence leaves them alone. A push that meets a conflict has deleted on both
   sides by then and committed every change it accepted, so they are what a page that ends well would leave.
   */
  ghost function Ended(p: Pass, owner: string, outbound: nat, turn: Turn): (Store, Store)
    requires turn.limit >= 1 && Rows(p.source)
  {
    var b := Begin(p, owner, outbound, turn);
    if Diverges(b.page.changes, b.f) then (p.source, p.target)
    else (DeleteAll(p.source, Deleted(b.page.changes, b.f, DeleteSource), turn.now), b.outcome.store)
  }

  lemma BeginFacts(p: Pass, owner: string, outbound: nat, turn: Turn)
    requires turn.limit >= 1 && Rows(p.source)
    ensures var b := Begin(p, owner, outbound, turn);
      && b.page == PageOf(Still(p.source), owner, p.cursor, turn.limit)
      && b.f == Decider(p.source, p.target, b.page, outbound, p.mirrored)
      && b.cleared == DeleteAll(p.target, Deleted(b.page.changes, b.f, DeleteTarget), turn.now)
      && WellFormed(PlanRequest(b.page.changes, b.f))
      && b.outcome == Run(b.cleared, owner, turn.scan, PlanRequest(b.page.changes, b.f), MIRROR, turn.now)
      && Ended(p, owner, outbound, turn) ==
           (if Diverges(b.page.changes, b.f) then (p.source, p.target)
            else (DeleteAll(p.source, Deleted(b.page.changes, b.f, DeleteSource), turn.now), b.outcome.store))
      && (Diverged(p, owner, outbound, turn) <==> Diverges(b.page.changes, b.f))
  {
    hide PageOf, Run, DeleteAll, Decide, Deleted, Copies, Diverges, Rows, WellFormed;
    PlanWellFormed(p.source, p.target, owner, p.cursor, turn.limit, outbound, p.mirrored);
  }

  /** A page that is taken ends in what it hands on, and one that is not either diverged or met a conflict. */
  lemma EndedTaken(p: Pass, owner: string, outbound: nat, turn: Turn)
    requires turn.limit >= 1 && Rows(p.source)
    ensures var b := Begin(p, owner, outbound, turn); var r := TakePage(p, owner, outbound, turn);
      && (r.Ok? <==> !Diverged(p, owner, outbound, turn) && NoneRejected(b.outcome.notebooks) && NoneRejected(b.outcome.notes))
      && (r.Ok? ==> Ended(p, owner, outbound, turn) == (r.value.source, r.value.target))
  {
    hide PageOf, Run, DeleteAll, Decide, Deleted, Copies, Diverges, Rows, WellFormed, RefsArrive, NoneRejected, Mirror.Written;
  }

  /** However a page ends, both databases are consistent and only went forward. */
  lemma EndKeeps(p: Pass, owner: string, outbound: nat, turn: Turn)
    requires Inv(p.source) && Inv(p.target) && turn.limit >= 1 && Rows(p.source)
    ensures var b := Begin(p, owner, outbound, turn); var end := Ended(p, owner, outbound, turn);
      && Inv(end.0) && Evolves(p.source, end.0) && Rises(p.source, end.0)
      && Inv(b.cleared) && Evolves(p.target, b.cleared) && Rises(p.target, b.cleared)
      && Inv(end.1) && Evolves(p.target, end.1)
      && PlanOk(p.source, p.target, owner, b.page, b.f)
  {
    hide Inv, Evolves, Rises, PageOf, Run, DeleteAll, Deleted, PlanOk, Begin, Ended, Diverges, Rows, PlanRequest;
    BeginFacts(p, owner, outbound, turn);
    var b := Begin(p, owner, outbound, turn);
    PlanIsOk(p.source, p.target, owner, p.cursor, turn.limit, outbound, p.mirrored);
    PlanUnique(p.source, p.target, owner, b.page, b.f);
    EvolvesRefl(p.source);
    EvolvesRefl(p.target);
    DeleteAllKeeps(p.source, Deleted(b.page.changes, b.f, DeleteSource), turn.now);
    DeleteAllKeeps(p.target, Deleted(b.page.changes, b.f, DeleteTarget), turn.now);
    RunPhases(b.cleared, owner, turn.scan, PlanRequest(b.page.changes, b.f), MIRROR, turn.now);
    InvLog(b.cleared);
    EvolvesTrans(p.target, b.cleared, b.outcome.store);
  }

  /******* One page, one entity *******/

  /** A page that was taken, with everything it computed on the way. */
  datatype Taken = Taken(page: Page, f: Entry -> Decision, cleared: Store, outcome: Outcome, next: Pass)

  ghost function Details(p: Pass, owner: string, outbound: nat, turn: Turn): Taken
    requires turn.limit >= 1 && Rows(p.source) && TakePage(p, owner, outbound, turn).Ok?
  {
    var page := PageOf(Still(p.source), owner, p.cursor, turn.limit);
    var f := Decider(p.source, p.target, page, outbound, p.mirrored);
    var cleared := DeleteAll(p.target, Deleted(page.changes, f, DeleteTarget), turn.now);
    PlanWellFormed(p.source, p.target, owner, p.cursor, turn.limit, outbound, p.mirrored);
    Taken(page, f, cleared, Run(cleared, owner, turn.scan, PlanRequest(page.changes, f), MIRROR, turn.now),
          TakePage(p, owner, outbound, turn).value)
  }

  /** Both databases stay consistent, and no version ever drops on either side. */
  lemma PageKeeps(p: Pass, owner: string, outbound: nat, turn: Turn)
    requires Inv(p.source) && Inv(p.target) && turn.limit >= 1 && Rows(p.source)
    requires TakePage(p, owner, outbound, turn).Ok?
    ensures var d := Details(p, owner, outbound, turn);
      && Inv(d.next.source) && Evolves(p.source, d.next.source) && Rises(p.source, d.next.source)
      && Inv(d.cleared) && Evolves(p.target, d.cleared) && Rises(p.target, d.cleared)
      && Inv(d.next.target) && Evolves(p.target, d.next.target) && Evolves(d.cleared, d.next.target)
      && PlanOk(p.source, p.target, owner, d.page, d.f)
  {
    hide Inv, Evolves, Rises, PageOf, Run, DeleteAll, Deleted, PlanOk, NoneRejected, RefsArrive;
    var d := Details(p, owner, outbound, turn);
    PlanIsOk(p.source, p.target, owner, p.cursor, turn.limit, outbound, p.mirrored);
    PlanUnique(p.source, p.target, owner, d.page, d.f);
    DeleteAllKeeps(p.source, Deleted(d.page.changes, d.f, DeleteSource), turn.now);
    DeleteAllKeeps(p.target, Deleted(d.page.changes, d.f, DeleteTarget), turn.now);
    RunPhases(d.cleared, owner, turn.scan, PlanRequest(d.page.changes, d.f), MIRROR, turn.now);
    InvLog(d.cleared);
    EvolvesTrans(p.target, d.cleared, d.next.target);
  }

  lemma PlanUnique(s: Store, t: Store, owner: string, page: Page, f: Entry -> Decision)
    requires PlanOk(s, t, owner, page, f)
    ensures var request := PlanRequest(page.changes, f);
      WellFormed(request) && UniqueIds(request.notebooks) && UniqueIds(request.notes)
  {
  }

  /** An entity outside the plan is left alone by the push. */
  lemma PushLeavesAlone(s: Store, t: Store, owner: string, page: Page, f: Entry -> Decision, scan: seq<Ref>, now: Time, cleared: Store, ref: Ref)
    requires Inv(cleared) && PlanOk(s, t, owner, page, f)
    requires forall e :: e in page.changes && e.ref == ref ==> !f(e).Copy?
    ensures SameAt(cleared, Run(cleared, owner, scan, PlanRequest(page.changes, f), MIRROR, now).store, ref)
  {
    hide Inv, Run;
    var request := PlanRequest(page.changes, f);
    var o := Run(cleared, owner, scan, request, MIRROR, now);
    var mid := ApplyVerdicts(cleared, owner, o.notebooks, now);
    RunPhases(cleared, owner, scan, request, MIRROR, now);
    forall c | c in request.notebooks || c in request.notes ensures RefOf(owner, c.record) != ref {}
    assert SameAt(cleared, mid, ref) by {
      forall i | 0 <= i < |request.notebooks| ensures RefOf(owner, request.notebooks[i].record) != ref {
        assert request.notebooks[i] in request.notebooks;
      }
    }
    assert SameAt(mid, o.store, ref) by {
      forall i | 0 <= i < |request.notes| ensures RefOf(owner, request.notes[i].record) != ref {
        assert request.notes[i] in request.notes;
      }
    }
  }

  /** The change is in the request and was accepted. */
  ghost predicate Entered(request: Request, o: Outcome, c: Change)
    requires |o.notebooks| == |request.notebooks| && |o.notes| == |request.notes|
  {
    || (exists i :: 0 <= i < |request.notebooks| && request.notebooks[i] == c && o.notebooks[i].Accepted())
    || (exists i :: 0 <= i < |request.notes| && request.notes[i] == c && o.notes[i].Accepted())
  }

  lemma AllEntered(request: Request, o: Outcome, c: Change)
    requires |o.notebooks| == |request.notebooks| && |o.notes| == |request.notes|
    requires NoneRejected(o.notebooks) && NoneRejected(o.notes) && (c in request.notebooks || c in request.notes)
    ensures Entered(request, o, c)
  {
    if c in request.notebooks {
      var i :| 0 <= i < |request.notebooks| && request.notebooks[i] == c;
      assert o.notebooks[i] in o.notebooks;
    } else {
      var i :| 0 <= i < |request.notes| && request.notes[i] == c;
      assert o.notes[i] in o.notes;
    }
  }

  lemma CopyInRequest(changes: seq<Entry>, f: Entry -> Decision, e: Entry)
    requires e in changes && f(e).Copy?
    ensures var c := Change(f(e).record, f(e).base); c in PlanRequest(changes, f).notebooks || c in PlanRequest(changes, f).notes
  {
    assert e.ref.kind == NotebookKind || e.ref.kind == NoteKind;
  }

  /** What a copy leaves on the target. */
  lemma CopyStored(s: Store, t: Store, owner: string, page: Page, f: Entry -> Decision, scan: seq<Ref>, now: Time, cleared: Store, e: Entry)
    requires Inv(cleared) && PlanOk(s, t, owner, page, f) && e in page.changes && f(e).Copy?
    requires Entered(PlanRequest(page.changes, f), Run(cleared, owner, scan, PlanRequest(page.changes, f), MIRROR, now), Change(f(e).record, f(e).base))
    ensures
      var o := Run(cleared, owner, scan, PlanRequest(page.changes, f), MIRROR, now);
      var mid := ApplyVerdicts(cleared, owner, o.notebooks, now);
      e.ref in o.store.rows && e.ref !in o.store.tombs
      && CoreOf(o.store.rows[e.ref].entity) == CoreOf(f(e).record)
      && (e.ref.kind == NoteKind ==>
            (&& f(e).record.NoteEntity?
             && ContentOf(o.store.rows[e.ref].entity) == ContentOf(NoteEntity(Syncable(mid, owner, f(e).record.note)))))
      && (e.ref.kind == NotebookKind ==> ContentOf(o.store.rows[e.ref].entity) == ContentOf(f(e).record))
  {
    hide Inv, Run, NoteVerdict, Syncable, ContentOf, CoreOf;
    var request := PlanRequest(page.changes, f);
    var o := Run(cleared, owner, scan, request, MIRROR, now);
    RunPhases(cleared, owner, scan, request, MIRROR, now);
    InvAt(o.store, e.ref);
    var c := Change(f(e).record, f(e).base);
    EnteredKind(request, o, c);
    if e.ref.kind == NotebookKind {
      var i :| 0 <= i < |request.notebooks| && request.notebooks[i] == c && o.notebooks[i].Accepted();
      AcceptedNotebookIsStored(cleared, owner, scan, request, MIRROR, now, i);
      NotebookContent(c.record, o.notebooks[i].entity);
    } else {
      var i :| 0 <= i < |request.notes| && request.notes[i] == c && o.notes[i].Accepted();
      AcceptedNoteIsStored(cleared, owner, scan, request, MIRROR, now, i);
      RunNotes(cleared, owner, scan, request, now, i);
      NoteVerdictContent(ApplyVerdicts(cleared, owner, o.notebooks, now), owner, c, MIRROR);
    }
  }

  /** A change entered among the changes of its own kind. */
  lemma EnteredKind(request: Request, o: Outcome, c: Change)
    requires |o.notebooks| == |request.notebooks| && |o.notes| == |request.notes| && WellFormed(request) && Entered(request, o, c)
    ensures c.record.NotebookEntity? ==> exists i :: 0 <= i < |request.notebooks| && request.notebooks[i] == c && o.notebooks[i].Accepted()
    ensures c.record.NoteEntity? ==> exists i :: 0 <= i < |request.notes| && request.notes[i] == c && o.notes[i].Accepted()
  {
    if i :| 0 <= i < |request.notebooks| && request.notebooks[i] == c && o.notebooks[i].Accepted() {
      assert request.notebooks[i] in request.notebooks;
    } else {
      var i :| 0 <= i < |request.notes| && request.notes[i] == c && o.notes[i].Accepted();
      assert request.notes[i] in request.notes;
    }
  }

  lemma RunNotes(s: Store, owner: string, scan: seq<Ref>, request: Request, now: Time, i: nat)
    requires WellFormed(request) && i < |request.notes|
    ensures request.notes[i].record.NoteEntity?
    ensures var o := Run(s, owner, scan, request, MIRROR, now);
      o.notes[i] == NoteVerdict(ApplyVerdicts(s, owner, o.notebooks, now), owner, request.notes[i], MIRROR)
  {
  }

  lemma NotebookContent(a: Entity, b: Entity)
    requires a.NotebookEntity? && CoreOf(a) == CoreOf(b)
    ensures ContentOf(a) == ContentOf(b)
  {
  }

  /** What a taken page is made of. */
  lemma DetailsFacts(p: Pass, owner: string, outbound: nat, turn: Turn)
    requires turn.limit >= 1 && Rows(p.source) && TakePage(p, owner, outbound, turn).Ok?
    ensures var d := Details(p, owner, outbound, turn);
      && d.page == PageOf(Still(p.source), owner, p.cursor, turn.limit)
      && d.f == Decider(p.source, p.target, d.page, outbound, p.mirrored)
      && d.next.source == DeleteAll(p.source, Deleted(d.page.changes, d.f, DeleteSource), turn.now)
      && d.cleared == DeleteAll(p.target, Deleted(d.page.changes, d.f, DeleteTarget), turn.now)
      && WellFormed(PlanRequest(d.page.changes, d.f))
      && d.outcome == Run(d.cleared, owner, turn.scan, PlanRequest(d.page.changes, d.f), MIRROR, turn.now)
      && d.next.target == d.outcome.store
      && d.next.cursor == d.page.serverRevision
      && d.next.mirrored == p.mirrored + Mirror.Written(d.page.changes, d.f)
      && NoneRejected(d.outcome.notebooks) && NoneRejected(d.outcome.notes)
      && !Diverges(d.page.changes, d.f)
      && (d.next.refsKept ==> p.refsKept && RefsArrive(ApplyVerdicts(d.cleared, owner, d.outcome.notebooks, turn.now), owner, PlanRequest(d.page.changes, d.f).notes))
  {
    hide PageOf, Run, DeleteAll, Decide, Deleted, Copies, RefsArrive, NoneRejected, Mirror.Written, Diverges, Rows, ApplyVerdicts, WellFormed;
    PlanWellFormed(p.source, p.target, owner, p.cursor, turn.limit, outbound, p.mirrored);
  }

  /** An entity with no decision, or the decision to skip, is untouched on both sides. */
  lemma SkippedStays(p: Pass, owner: string, outbound: nat, turn: Turn, ref: Ref)
    requires Inv(p.source) && Inv(p.target) && turn.limit >= 1 && Rows(p.source)
    requires TakePage(p, owner, outbound, turn).Ok?
    requires var d := Details(p, owner, outbound, turn);
      forall e :: e in d.page.changes && e.ref == ref ==> d.f(e) == Skip
    ensures var d := Details(p, owner, outbound, turn);
      SameAt(p.source, d.next.source, ref) && SameAt(p.target, d.next.target, ref)
  {
    hide Inv, PlanOk, Run, Details, TakePage, NoneRejected, Rows, RefsArrive, Evolves, Rises, DeleteAll;
    var d := Details(p, owner, outbound, turn);
    DetailsFacts(p, owner, outbound, turn);
    PageKeeps(p, owner, outbound, turn);
    DeleteAllKeeps(p.source, Deleted(d.page.changes, d.f, DeleteSource), turn.now);
    DeleteAllKeeps(p.target, Deleted(d.page.changes, d.f, DeleteTarget), turn.now);
    PushLeavesAlone(p.source, p.target, owner, d.page, d.f, turn.scan, turn.now, d.cleared, ref);
  }

  /** An entity has one entry on a page, so one decision. */
  lemma OnlyDecision(changes: seq<Entry>, f: Entry -> Decision, e: Entry, d: Decision)
    requires DistinctEntries(changes) && e in changes
    ensures e.ref in Deleted(changes, f, d) <==> f(e) == d
    ensures forall x :: x in changes && x.ref == e.ref ==> x == e
  {
    OneEntry(changes);
  }

  lemma SourceDecision(s: Store, t: Store, page: Page, outbound: nat, mirrored: set<Ref>, e: Entry)
    requires Decide(s, t, page, outbound, mirrored, e) == DeleteSource
    ensures e.ref in page.fetched && page.fetched[e.ref].IsDeleted() && (e.ref in t.rows ==> t.rows[e.ref].entity.IsDeleted())
  {
    hide RecordsDiffer, NewerOrTie, Clean;
  }

  lemma TargetDecision(s: Store, t: Store, page: Page, outbound: nat, mirrored: set<Ref>, e: Entry)
    requires Decide(s, t, page, outbound, mirrored, e) == DeleteTarget
    ensures e.ref !in s.rows
  {
    hide RecordsDiffer, NewerOrTie, Clean;
  }

  lemma PlanDistinct(s: Store, t: Store, owner: string, page: Page, f: Entry -> Decision)
    requires PlanOk(s, t, owner, page, f)
    ensures DistinctEntries(page.changes)
  {
  }

  lemma BothDead(s: Store, t: Store, ref: Ref)
    requires ref in s.rows ==> s.rows[ref].entity.IsDeleted()
    requires ref in t.rows ==> t.rows[ref].entity.IsDeleted()
    ensures Agree(s, t, ref)
  {
  }

  lemma SameRows(s: Store, t: Store, ref: Ref)
    requires SameAt(s, t, ref)
    ensures (ref in s.rows <==> ref in t.rows) && (ref in s.rows ==> s.rows[ref] == t.rows[ref])
  {
    assert RowAt(s, ref) == RowAt(t, ref);
  }

  /** What the deletions of a page do to an entity with entry `e`, and what the push leaves. */
  lemma DeletionsAt(p: Pass, owner: string, outbound: nat, turn: Turn, e: Entry)
    requires Inv(p.source) && Inv(p.target) && turn.limit >= 1 && Rows(p.source)
    requires TakePage(p, owner, outbound, turn).Ok?
    requires var d := Details(p, owner, outbound, turn); e in d.page.changes && !d.f(e).Copy?
    ensures var d := Details(p, owner, outbound, turn);
      && d.f == Decider(p.source, p.target, d.page, outbound, p.mirrored) && d.page == PageOf(Still(p.source), owner, p.cursor, turn.limit)
      && (if d.f(e) == DeleteSource then e.ref !in d.next.source.rows else SameAt(p.source, d.next.source, e.ref))
      && (if d.f(e) == DeleteTarget then e.ref !in d.next.target.rows else SameAt(p.target, d.next.target, e.ref))
  {
    hide *;
    var d := Details(p, owner, outbound, turn);
    DetailsFacts(p, owner, outbound, turn);
    PageKeeps(p, owner, outbound, turn);
    PlanDistinct(p.source, p.target, owner, d.page, d.f);
    OnlyDecision(d.page.changes, d.f, e, DeleteSource);
    OnlyDecision(d.page.changes, d.f, e, DeleteTarget);
    DeleteAllKeeps(p.source, Deleted(d.page.changes, d.f, DeleteSource), turn.now);
    DeleteAllKeeps(p.target, Deleted(d.page.changes, d.f, DeleteTarget), turn.now);
    PushLeavesAlone(p.source, p.target, owner, d.page, d.f, turn.scan, turn.now, d.cleared, e.ref);
    SameRows(d.cleared, d.next.target, e.ref);
    SameAtTrans(p.target, d.cleared, d.next.target, e.ref);
  }

  lemma SameAtTrans(s: Store, t: Store, u: Store, ref: Ref)
    ensures SameAt(s, t, ref) && SameAt(t, u, ref) ==> SameAt(s, u, ref)
  {
  }

  /** A source row deleted because both sides are dead: gone here, untouched there. */
  lemma SourceDeleted(p: Pass, owner: string, outbound: nat, turn: Turn, e: Entry)
    requires Inv(p.source) && Inv(p.target) && turn.limit >= 1 && Rows(p.source)
    requires TakePage(p, owner, outbound, turn).Ok?
    requires var d := Details(p, owner, outbound, turn); e in d.page.changes && d.f(e) == DeleteSource
    ensures var d := Details(p, owner, outbound, turn);
      && Agree(d.next.source, d.next.target, e.ref)
      && SameAt(p.target, d.next.target, e.ref) && e.ref in p.source.rows && e.ref !in d.next.source.rows
  {
    hide *;
    var d := Details(p, owner, outbound, turn);
    DeletionsAt(p, owner, outbound, turn, e);
    DeciderIs(p.source, p.target, d.page, outbound, p.mirrored, e);
    SourceDecision(p.source, p.target, d.page, outbound, p.mirrored, e);
    PageEntries(p.source, owner, p.cursor, turn.limit);
    SameRows(p.target, d.next.target, e.ref);
    BothDead(d.next.source, d.next.target, e.ref);
  }

  lemma DeciderIs(s: Store, t: Store, page: Page, outbound: nat, mirrored: set<Ref>, e: Entry)
    ensures Decider(s, t, page, outbound, mirrored)(e) == Decide(s, t, page, outbound, mirrored, e)
  {
  }

  /** A target row deleted because the source has none: gone on both sides. */
  lemma TargetDeleted(p: Pass, owner: string, outbound: nat, turn: Turn, e: Entry)
    requires Inv(p.source) && Inv(p.target) && turn.limit >= 1 && Rows(p.source)
    requires TakePage(p, owner, outbound, turn).Ok?
    requires var d := Details(p, owner, outbound, turn); e in d.page.changes && d.f(e) == DeleteTarget
    ensures var d := Details(p, owner, outbound, turn);
      Agree(d.next.source, d.next.target, e.ref) && SameAt(p.source, d.next.source, e.ref)
  {
    hide *;
    var d := Details(p, owner, outbound, turn);
    DeletionsAt(p, owner, outbound, turn, e);
    DeciderIs(p.source, p.target, d.page, outbound, p.mirrored, e);
    TargetDecision(p.source, p.target, d.page, outbound, p.mirrored, e);
    SameRows(p.source, d.next.source, e.ref);
    BothDead(d.next.source, d.next.target, e.ref);
  }

  lemma OneEntry(changes: seq<Entry>)
    requires DistinctEntries(changes)
    ensures forall x, y :: x in changes && y in changes && x.ref == y.ref ==> x == y
  {
  }

  /** The copied record and what the target stores of it. */
  lemma CopiedRows(p: Pass, owner: string, outbound: nat, turn: Turn, e: Entry)
    requires Inv(p.source) && Inv(p.target) && turn.limit >= 1 && Rows(p.source)
    requires TakePage(p, owner, outbound, turn).Ok?
    requires var d := Details(p, owner, outbound, turn); e in d.page.changes && d.f(e).Copy?
    ensures var d := Details(p, owner, outbound, turn);
      && SameAt(p.source, d.next.source, e.ref)
      && e.ref in p.source.rows && d.f(e).record == p.source.rows[e.ref].entity && e.ref in d.next.target.rows
      && CoreOf(d.next.target.rows[e.ref].entity) == CoreOf(d.f(e).record)
      && (e.ref.kind == NotebookKind ==> ContentOf(d.next.target.rows[e.ref].entity) == ContentOf(d.f(e).record))
      && (e.ref.kind == NoteKind ==> d.f(e).record.NoteEntity?)
      && (var mid := ApplyVerdicts(d.cleared, owner, d.outcome.notebooks, turn.now);
          e.ref.kind == NoteKind ==>
            ContentOf(d.next.target.rows[e.ref].entity) == ContentOf(NoteEntity(Syncable(mid, owner, d.f(e).record.note))))
  {
    hide Inv, Run, Details, TakePage, NoneRejected, Rows, Evolves, Rises, DeleteAll, PageOf, ContentOf, CoreOf, RefsArrive, Syncable, WellFormed, DistinctEntries, ApplyVerdicts, Decide, Copies;
    var d := Details(p, owner, outbound, turn);
    DetailsFacts(p, owner, outbound, turn);
    PageKeeps(p, owner, outbound, turn);
    OneEntry(d.page.changes);
    DeleteAllKeeps(p.source, Deleted(d.page.changes, d.f, DeleteSource), turn.now);
    CopyInRequest(d.page.changes, d.f, e);
    AllEntered(PlanRequest(d.page.changes, d.f), d.outcome, Change(d.f(e).record, d.f(e).base));
    CopyStored(p.source, p.target, owner, d.page, d.f, turn.scan, turn.now, d.cleared, e);
  }

  lemma CopiedNoteInRequest(changes: seq<Entry>, f: Entry -> Decision, e: Entry, t: Store, owner: string)
    requires e in changes && f(e).Copy? && e.ref.kind == NoteKind && f(e).record.NoteEntity?
    requires RefsArrive(t, owner, PlanRequest(changes, f).notes)
    ensures forall id :: id in NoteNotebookIds(f(e).record.note) ==> LiveNotebook(t, owner, id)
  {
    hide NoteNotebookIds, LiveNotebook;
    assert Change(f(e).record, f(e).base) in PlanRequest(changes, f).notes;
  }

  /** A copied entity agrees, if its references arrive. */
  lemma CopiedAgrees(p: Pass, owner: string, outbound: nat, turn: Turn, e: Entry)
    requires Inv(p.source) && Inv(p.target) && turn.limit >= 1 && Rows(p.source) && TidyRows(p.source)
    requires TakePage(p, owner, outbound, turn).Ok?
    requires var d := Details(p, owner, outbound, turn);
      e in d.page.changes && d.f(e).Copy? && d.next.refsKept
    ensures var d := Details(p, owner, outbound, turn);
      Agree(d.next.source, d.next.target, e.ref) && SameAt(p.source, d.next.source, e.ref)
  {
    hide Inv, Run, Details, TakePage, NoneRejected, Rows, DeleteAll, PageOf, ContentOf, CoreOf, Tidy, RefsArrive, LiveNotebook, Syncable, WellFormed, ApplyVerdicts, NoteNotebookIds, PlanRequest, Deleted;
    var d := Details(p, owner, outbound, turn);
    DetailsFacts(p, owner, outbound, turn);
    CopiedRows(p, owner, outbound, turn, e);
    var record := d.f(e).record;
    if e.ref.kind == NoteKind {
      var mid := ApplyVerdicts(d.cleared, owner, d.outcome.notebooks, turn.now);
      CopiedNoteInRequest(d.page.changes, d.f, e, mid, owner);
      CopiedNoteAgreesIff(mid, owner, record.note);
    }
    SameDeletion(d.next.target.rows[e.ref].entity, record);
    assert RowAt(p.source, e.ref) == RowAt(d.next.source, e.ref);
  }

  lemma SameDeletion(a: Entity, b: Entity)
    requires CoreOf(a) == CoreOf(b)
    ensures a.DeletedAt() == b.DeletedAt()
  {
  }

  /**
   What a page does to any entity: it makes the two sides agree, or it leaves both alone, and then the entity's
   latest entry was not one this page had to carry.
   */
  lemma PageOutcome(p: Pass, owner: string, outbound: nat, turn: Turn, ref: Ref)
    requires Inv(p.source) && Inv(p.target) && turn.limit >= 1 && Rows(p.source) && TidyRows(p.source) && ref.owner == owner
    requires TakePage(p, owner, outbound, turn).Ok? && Details(p, owner, outbound, turn).next.refsKept
    ensures var d := Details(p, owner, outbound, turn);
      || Agree(d.next.source, d.next.target, ref)
      || (&& SameAt(p.source, d.next.source, ref) && SameAt(p.target, d.next.target, ref)
          && (LatestRevision(p.source.log, ref) <= p.cursor || LatestRevision(p.source.log, ref) > d.next.cursor))
  {
    hide Inv, Run, Details, TakePage, NoneRejected, Rows, Evolves, Rises, DeleteAll, PageOf, TidyRows, Agree, PlanOk, Decide;
    var d := Details(p, owner, outbound, turn);
    DetailsFacts(p, owner, outbound, turn);
    PageKeeps(p, owner, outbound, turn);
    if e :| e in d.page.changes && e.ref == ref && d.f(e) != Skip {
      assert d.f(e) != Diverge;
      if d.f(e).Copy? {
        CopiedAgrees(p, owner, outbound, turn, e);
      } else if d.f(e) == DeleteSource {
        SourceDeleted(p, owner, outbound, turn, e);
      } else {
        TargetDeleted(p, owner, outbound, turn, e);
      }
    } else {
      SkippedStays(p, owner, outbound, turn, ref);
      if p.cursor < LatestRevision(p.source.log, ref) <= d.next.cursor {
        SkippedAgrees(p, owner, outbound, turn, ref);
        AgreeSame(p.source, p.target, d.next.source, d.next.target, ref);
      }
    }
  }

  lemma AgreeSame(s: Store, t: Store, s': Store, t': Store, ref: Ref)
    requires Agree(s, t, ref) && SameAt(s, s', ref) && SameAt(t, t', ref)
    ensures Agree(s', t', ref)
  {
    assert RowAt(s, ref) == RowAt(s', ref) && RowAt(t, ref) == RowAt(t', ref);
  }

  /** When the entity's latest entry is skipped, the two sides hold the same content already. */
  lemma SkippedAgrees(p: Pass, owner: string, outbound: nat, turn: Turn, ref: Ref)
    requires Inv(p.source) && turn.limit >= 1 && Rows(p.source) && ref.owner == owner
    requires TakePage(p, owner, outbound, turn).Ok?
    requires var d := Details(p, owner, outbound, turn);
      p.cursor < LatestRevision(p.source.log, ref) <= d.next.cursor && forall e :: e in d.page.changes && e.ref == ref ==> d.f(e) == Skip
    ensures Agree(p.source, p.target, ref)
  {
    hide PageOf, TakePage, Details, Rows, Inv, RecordsDiffer, NewerOrTie, ContentOf, Clean, Evolves, Rises, Run, Latest;
    var d := Details(p, owner, outbound, turn);
    DetailsFacts(p, owner, outbound, turn);
    EvolvesRefl(p.source);
    PageCovers(Still(p.source), owner, p.cursor, turn.limit, ref);
    PageEntries(p.source, owner, p.cursor, turn.limit);
    var e := Latest(p.source.log, ref).value;
    InvAt(p.source, ref);
    assert d.f(e) == Skip;
    if e.op == Upsert {
      RecordsDifferIffContentDiffers(p.source.rows[ref].entity, p.target.rows[ref].entity);
      SameContentSameDeletion(p.source.rows[ref].entity, p.target.rows[ref].entity);
    }
  }

  lemma SameContentSameDeletion(a: Entity, b: Entity)
    ensures ContentOf(a) == ContentOf(b) ==> a.DeletedAt() == b.DeletedAt()
  {
  }
}
