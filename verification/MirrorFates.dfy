/** What becomes of every entity a mirror page lists, in times and versions, on both sides and however the page ends. */
module MirrorFates {
  import opened Wrappers
  import opened SyncSpec
  import opened Tables
  import opened Push
  import opened Pull
  import opened Mirror
  import opened MirrorRules
  import opened MirrorPage
  import opened MirrorRuns
  import opened MirrorSafety

  /** A page is given up exactly when it lists a dispute; it has written nothing then. */
  lemma DivergesIffDisputed(p: Pass, owner: string, outbound: nat, turn: Turn)
    requires turn.limit >= 1 && Rows(p.source)
    ensures var page := PageFor(p, owner, turn);
      Diverged(p, owner, outbound, turn) <==>
        exists e :: e in page.changes && Disputed(p.source, p.target, page, outbound, p.mirrored, e)
    ensures Diverged(p, owner, outbound, turn) ==> Ended(p, owner, outbound, turn) == (p.source, p.target)
  {
    hide Begin, Ended, Diverged, Decide, PageFor, Disputed, Rows, WellFormed;
    BeginFacts(p, owner, outbound, turn);
    var b := Begin(p, owner, outbound, turn);
    SamePage(p, owner, outbound, turn);
    forall e | e in b.page.changes
      ensures b.f(e) == Diverge <==> Disputed(p.source, p.target, b.page, outbound, p.mirrored, e)
    {
      DeciderIs(p.source, p.target, b.page, outbound, p.mirrored, e);
      DecisionsAreTheRules(p.source, p.target, b.page, outbound, p.mirrored, e);
    }
  }

  lemma SamePage(p: Pass, owner: string, outbound: nat, turn: Turn)
    requires turn.limit >= 1 && Rows(p.source)
    ensures Begin(p, owner, outbound, turn).page == PageFor(p, owner, turn)
  {
    BeginFacts(p, owner, outbound, turn);
  }

  /** The version a copy gets on the target: its own, or one above the tombstone it replaces. */
  function VersionThere(t: Store, ref: Ref, x: Entity): int {
    if ref !in t.rows && ref in t.tombs then t.tombs[ref].version + 1 else x.Version()
  }

  /** The record is on the target word for word, under its own name and time. */
  ghost predicate Arrived(t: Store, u: Store, ref: Ref, x: Entity) {
    && ref in u.rows && ref !in u.tombs
    && WordingOf(u.rows[ref].entity) == WordingOf(x) && RefsWithin(u.rows[ref].entity, x)
    && u.rows[ref].entity.UpdatedAt() == x.UpdatedAt() && u.rows[ref].entity.DeviceId() == x.DeviceId()
    && u.rows[ref].entity.Version() == VersionThere(t, ref, x)
  }

  /** The base under which a page pushes the record: what the target holds. */
  function BaseOf(t: Store, ref: Ref): int {
    if ref in t.rows then t.rows[ref].entity.Version() else if ref in t.tombs then t.tombs[ref].version else 0
  }

  /**
   The fate of a listed entity on a page without a dispute. It arrives on the target word for word, unless its push is refused
   (`ConflictsAreNames`: a notebook whose name is taken), is removed on one side, or both sides stay as they are.
   */
  lemma PageFate(p: Pass, owner: string, outbound: nat, turn: Turn, e: Entry)
    requires Inv(p.source) && Inv(p.target) && turn.limit >= 1 && Rows(p.source) && !Diverged(p, owner, outbound, turn)
    requires e in PageFor(p, owner, turn).changes
    ensures
      var page, end := PageFor(p, owner, turn), Ended(p, owner, outbound, turn);
      if Copied(p.target, page, outbound, p.mirrored, e) then
        && SameAt(p.source, end.0, e.ref)
        && if Accepts(p, owner, outbound, turn, Change(page.fetched[e.ref], BaseOf(p.target, e.ref)))
           then Arrived(p.target, end.1, e.ref, page.fetched[e.ref]) else SameAt(p.target, end.1, e.ref)
      else if RemovedThere(p.source, p.target, outbound, p.mirrored, e) then
        SameAt(p.source, end.0, e.ref) && e.ref !in end.1.rows && e.ref in end.1.tombs
      else if RemovedHere(p.target, page, outbound, p.mirrored, e) then
        e.ref !in end.0.rows && e.ref in end.0.tombs && SameAt(p.target, end.1, e.ref)
      else SameAt(p.source, end.0, e.ref) && SameAt(p.target, end.1, e.ref)
  {
    hide *;
    var b := Begin(p, owner, outbound, turn);
    SamePage(p, owner, outbound, turn);
    BeginFacts(p, owner, outbound, turn);
    DeciderIs(p.source, p.target, b.page, outbound, p.mirrored, e);
    DecisionsAreTheRules(p.source, p.target, b.page, outbound, p.mirrored, e);
    OneDecision(p.source, p.target, b.page, outbound, p.mirrored, e);
    SourceSide(p, owner, outbound, turn, e);
    if b.f(e).Copy? {
      CopyIsFetched(p.source, p.target, b.page, outbound, p.mirrored, e);
      CopyBase(p.source, p.target, b.page, outbound, p.mirrored, e);
      BaseIsEffective(p.target, e.ref);
      CopyArrives(p, owner, outbound, turn, e);
    } else if b.f(e) == DeleteTarget {
      TargetSide(p, owner, outbound, turn, e);
    } else {
      EndKeeps(p, owner, outbound, turn);
      PlanDistinct(p.source, p.target, owner, b.page, b.f);
      OnePerEntity(p, owner, outbound, turn, e);
      EndSpares(p, owner, outbound, turn, e.ref);
    }
  }

  lemma BaseIsEffective(t: Store, ref: Ref)
    ensures BaseOf(t, ref) == Effective(t, ref)
  {
  }

  lemma OneDecision(s: Store, t: Store, page: Page, outbound: nat, mirrored: set<Ref>, e: Entry)
    ensures var d := Decide(s, t, page, outbound, mirrored, e); d == DeleteTarget || d == DeleteSource ==> !d.Copy?
    ensures DeleteTarget != DeleteSource
  {
  }

  lemma OnePerEntity(p: Pass, owner: string, outbound: nat, turn: Turn, e: Entry)
    requires turn.limit >= 1 && Rows(p.source)
    requires var b := Begin(p, owner, outbound, turn); DistinctEntries(b.page.changes) && e in b.page.changes
    ensures forall x :: x in Begin(p, owner, outbound, turn).page.changes && x.ref == e.ref ==> x == e
  {
    hide Begin, WellFormed, Copies;
    OneEntry(Begin(p, owner, outbound, turn).page.changes);
  }

  /** The source loses exactly what the page removes there. */
  lemma SourceSide(p: Pass, owner: string, outbound: nat, turn: Turn, e: Entry)
    requires Inv(p.source) && Inv(p.target) && turn.limit >= 1 && Rows(p.source) && !Diverged(p, owner, outbound, turn)
    requires e in Begin(p, owner, outbound, turn).page.changes
    ensures var b, end := Begin(p, owner, outbound, turn), Ended(p, owner, outbound, turn);
      if b.f(e) == DeleteSource then e.ref !in end.0.rows && e.ref in end.0.tombs else SameAt(p.source, end.0, e.ref)
  {
    hide Inv, Run, Begin, Ended, Diverged, Diverges, Rows, Evolves, Rises, DeleteAll, PageOf, Decide, Copies, WellFormed, PlanOk;
    var b := Begin(p, owner, outbound, turn);
    BeginFacts(p, owner, outbound, turn);
    EndKeeps(p, owner, outbound, turn);
    PlanDistinct(p.source, p.target, owner, b.page, b.f);
    OnePerEntity(p, owner, outbound, turn, e);
    DeleteAllKeeps(p.source, Deleted(b.page.changes, b.f, DeleteSource), turn.now);
  }

  lemma TargetSide(p: Pass, owner: string, outbound: nat, turn: Turn, e: Entry)
    requires Inv(p.source) && Inv(p.target) && turn.limit >= 1 && Rows(p.source) && !Diverged(p, owner, outbound, turn)
    requires e in Begin(p, owner, outbound, turn).page.changes && Begin(p, owner, outbound, turn).f(e) == DeleteTarget
    ensures var end := Ended(p, owner, outbound, turn).1; e.ref !in end.rows && e.ref in end.tombs
  {
    hide Inv, Run, Begin, Ended, Diverged, Diverges, Rows, Evolves, Rises, DeleteAll, PageOf, Decide, Copies, WellFormed, PlanOk;
    var b := Begin(p, owner, outbound, turn);
    BeginFacts(p, owner, outbound, turn);
    EndKeeps(p, owner, outbound, turn);
    PlanDistinct(p.source, p.target, owner, b.page, b.f);
    OnePerEntity(p, owner, outbound, turn, e);
    DeleteAllKeeps(p.target, Deleted(b.page.changes, b.f, DeleteTarget), turn.now);
    PushLeavesAlone(p.source, p.target, owner, b.page, b.f, turn.scan, turn.now, b.cleared, e.ref);
    assert TombAt(b.cleared, e.ref) == TombAt(b.outcome.store, e.ref) && RowAt(b.cleared, e.ref) == RowAt(b.outcome.store, e.ref) by {
      SameParts(b.cleared, b.outcome.store, e.ref);
    }
  }

  lemma SameParts(s: Store, t: Store, ref: Ref)
    requires SameAt(s, t, ref)
    ensures TombAt(s, ref) == TombAt(t, ref) && RowAt(s, ref) == RowAt(t, ref)
  {
  }

  /** A copy that is accepted arrives; one that is refused leaves the target alone. */
  lemma CopyArrives(p: Pass, owner: string, outbound: nat, turn: Turn, e: Entry)
    requires Inv(p.source) && Inv(p.target) && turn.limit >= 1 && Rows(p.source) && !Diverged(p, owner, outbound, turn)
    requires var b := Begin(p, owner, outbound, turn); e in b.page.changes && b.f(e).Copy?
    ensures var b := Begin(p, owner, outbound, turn); var end := Ended(p, owner, outbound, turn).1;
      if Accepts(p, owner, outbound, turn, Change(b.f(e).record, b.f(e).base)) then Arrived(p.target, end, e.ref, b.f(e).record)
      else SameAt(p.target, end, e.ref)
  {
    hide Inv, Run, Begin, Ended, Diverged, Diverges, Rows, Evolves, Rises, DeleteAll, PageOf, Decide, Copies, WellFormed, Entered, PlanRequest, Effective, Arrived, PlanOk;
    var b := Begin(p, owner, outbound, turn);
    BeginFacts(p, owner, outbound, turn);
    EndKeeps(p, owner, outbound, turn);
    CopyRisesOrStays(p, owner, outbound, turn, e);
    if Accepts(p, owner, outbound, turn, Change(b.f(e).record, b.f(e).base)) {
      var c := Change(b.f(e).record, b.f(e).base);
      PlanUnique(p.source, p.target, owner, b.page, b.f);
      Planned(p.source, p.target, owner, b.page, b.f, e);
      ClearedSame(p, owner, outbound, turn, e);
      CopyHigher(p.source, p.target, b.page, outbound, p.mirrored, e);
      DeciderIs(p.source, p.target, b.page, outbound, p.mirrored, e);
      PushArrives(b.cleared, owner, turn.scan, PlanRequest(b.page.changes, b.f), turn.now, c);
      ArrivedSame(p.target, b.cleared, b.outcome.store, e.ref, c.record);
    }
  }

  lemma Planned(s: Store, t: Store, owner: string, page: Page, f: Entry -> Decision, e: Entry)
    requires PlanOk(s, t, owner, page, f) && e in page.changes && f(e).Copy?
    ensures RefOf(owner, f(e).record) == e.ref
  {
  }

  lemma ClearedSame(p: Pass, owner: string, outbound: nat, turn: Turn, e: Entry)
    requires Inv(p.source) && Inv(p.target) && turn.limit >= 1 && Rows(p.source)
    requires var b := Begin(p, owner, outbound, turn); e in b.page.changes && b.f(e).Copy?
    ensures SameAt(p.target, Begin(p, owner, outbound, turn).cleared, e.ref)
  {
    hide Inv, Run, Begin, Ended, Diverged, Diverges, Rows, Evolves, Rises, DeleteAll, PageOf, Decide, Copies, WellFormed, PlanOk;
    var b := Begin(p, owner, outbound, turn);
    BeginFacts(p, owner, outbound, turn);
    EndKeeps(p, owner, outbound, turn);
    PlanDistinct(p.source, p.target, owner, b.page, b.f);
    OnePerEntity(p, owner, outbound, turn, e);
    DeleteAllKeeps(p.target, Deleted(b.page.changes, b.f, DeleteTarget), turn.now);
  }

  /** What is copied over a row is higher. */
  lemma CopyHigher(s: Store, t: Store, page: Page, outbound: nat, mirrored: set<Ref>, e: Entry)
    requires Decide(s, t, page, outbound, mirrored, e).Copy?
    ensures e.ref in t.rows ==> Decide(s, t, page, outbound, mirrored, e).record.Version() > t.rows[e.ref].entity.Version()
  {
    CopyDecision(s, t, page, outbound, mirrored, e);
  }

  lemma ArrivedSame(t: Store, cleared: Store, u: Store, ref: Ref, x: Entity)
    requires SameAt(t, cleared, ref) && Arrived(cleared, u, ref, x)
    ensures Arrived(t, u, ref, x)
  {
    SameParts(t, cleared, ref);
  }

  /** A change that the mirror's push accepts above the row it replaces is stored word for word. */
  lemma PushArrives(t: Store, owner: string, scan: seq<Ref>, request: Request, now: Time, c: Change)
    requires Inv(t) && WellFormed(request) && UniqueIds(request.notebooks) && UniqueIds(request.notes)
    requires Entered(request, Run(t, owner, scan, request, MIRROR, now), c)
    requires var ref := RefOf(owner, c.record); ref in t.rows ==> c.record.Version() > t.rows[ref].entity.Version()
    ensures Arrived(t, Run(t, owner, scan, request, MIRROR, now).store, RefOf(owner, c.record), c.record)
  {
    hide Inv, Run, NoteVerdict, NotebookVerdict, NotebookVerdicts, Lawful, AcceptedVersion, Effect, Evolves, Rises, WellFormed, RefsWithin, WordingOf;
    var o := Run(t, owner, scan, request, MIRROR, now);
    var mid := ApplyVerdicts(t, owner, o.notebooks, now);
    var ref := RefOf(owner, c.record);
    RunPhases(t, owner, scan, request, MIRROR, now);
    MirrorPushVersion(t, owner, scan, request, now, c);
    SentVersion(request, o, c);
    InvAt(o.store, ref);
    EnteredKind(request, o, c);
    if c.record.NotebookEntity? {
      var i :| 0 <= i < |request.notebooks| && request.notebooks[i] == c && o.notebooks[i].Accepted();
      AcceptedNotebookIsStored(t, owner, scan, request, MIRROR, now, i);
      WrittenAbove(t, owner, c, o.notebooks[i]);
    } else {
      var i :| 0 <= i < |request.notes| && request.notes[i] == c && o.notes[i].Accepted();
      AcceptedNoteIsStored(t, owner, scan, request, MIRROR, now, i);
      RunNotes(t, owner, scan, request, now, i);
      KindsApart(request, c);
      PhasesApart(t, mid, owner, request.notebooks, o.notebooks, ref);
      SameParts(t, mid, ref);
      WrittenAbove(mid, owner, c, o.notes[i]);
    }
  }

  lemma SentVersion(request: Request, o: Outcome, c: Change)
    requires WellFormed(request) && |o.notebooks| == |request.notebooks| && |o.notes| == |request.notes| && Entered(request, o, c)
    ensures forall t, ref :: AcceptedVersion(t, ref, c.record, MIRROR) == VersionThere(t, ref, c.record)
  {
    assert c in request.notebooks + request.notes;
  }

  /** Above the row it is judged by, an accepted change is written. */
  lemma WrittenAbove(t: Store, owner: string, c: Change, v: Verdict)
    requires Lawful(t, owner, c, v, MIRROR) && v.Accepted()
    requires var ref := RefOf(owner, c.record); ref in t.rows ==> c.record.Version() > t.rows[ref].entity.Version() && v.entity.Version() == c.record.Version()
    ensures v.Written? && RefsWithin(v.entity, c.record)
  {
  }
}
