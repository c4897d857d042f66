/** Passes, the three passes of a synchronisation, and what they guarantee. */
module MirrorRuns {
  import opened Wrappers
  import opened SyncSpec
  import opened Tables
  import opened Push
  import opened Pull
  import opened Mirror
  import opened MirrorPage
  import opened ServerRuns
  import Conflicts

  /******* No version is ever lowered *******/

  lemma KeptSameVersion(t: Store, owner: string, c: Change)
    requires c.record.NoteEntity? && NoteVerdict(t, owner, c, MIRROR).Kept?
    ensures var ref := RefOf(owner, c.record);
      ref in t.rows && t.rows[ref].entity.Version() == c.record.Version()
  {
  }

  lemma KeptNotebookSameVersion(t: Store, owner: string, scan: seq<Ref>, acc: Acc, c: Change)
    requires c.record.NotebookEntity? && NotebookVerdict(t, owner, scan, acc, c, MIRROR).Kept?
    ensures var ref := RefOf(owner, c.record);
      ref in t.rows && t.rows[ref].entity.Version() == c.record.Version()
  {
    hide Duplicate;
  }

  /** The version a mirror push stores is the record's own, or one above the tombstone it replaces. */
  lemma VerdictVersion(t: Store, owner: string, c: Change, v: Verdict)
    requires Lawful(t, owner, c, v, MIRROR) && v.Accepted()
    requires v.Kept? ==> RefOf(owner, c.record) in t.rows && t.rows[RefOf(owner, c.record)].entity.Version() == c.record.Version()
    ensures v.entity.Version() == AcceptedVersion(t, RefOf(owner, c.record), c.record, MIRROR)
  {
  }

  lemma MirrorPushVersion(t: Store, owner: string, scan: seq<Ref>, request: Request, now: Time, c: Change)
    requires Inv(t) && WellFormed(request) && UniqueIds(request.notebooks) && UniqueIds(request.notes)
    requires Entered(request, Run(t, owner, scan, request, MIRROR, now), c)
    ensures var u := Run(t, owner, scan, request, MIRROR, now).store; var ref := RefOf(owner, c.record);
      ref in u.rows && u.rows[ref].entity.Version() == AcceptedVersion(t, ref, c.record, MIRROR)
  {
    hide Inv, Run, NoteVerdict, NotebookVerdict, NotebookVerdicts, Lawful, AcceptedVersion, Effect, Evolves, Rises;
    var o := Run(t, owner, scan, request, MIRROR, now);
    var mid := ApplyVerdicts(t, owner, o.notebooks, now);
    var ref := RefOf(owner, c.record);
    RunPhases(t, owner, scan, request, MIRROR, now);
    if i :| 0 <= i < |request.notebooks| && request.notebooks[i] == c && o.notebooks[i].Accepted() {
      RunNotebooks(t, owner, scan, request, now, i);
      if o.notebooks[i].Kept? {
        KeptNotebookSameVersion(t, owner, scan, NotebookVerdicts(t, owner, scan, request.notebooks[..i], MIRROR), c);
      }
      VerdictVersion(t, owner, c, o.notebooks[i]);
      AcceptedNotebookIsStored(t, owner, scan, request, MIRROR, now, i);
    } else {
      var i :| 0 <= i < |request.notes| && request.notes[i] == c && o.notes[i].Accepted();
      RunNotes(t, owner, scan, request, now, i);
      if o.notes[i].Kept? {
        KeptSameVersion(mid, owner, c);
      }
      VerdictVersion(mid, owner, c, o.notes[i]);
      AcceptedNoteIsStored(t, owner, scan, request, MIRROR, now, i);
      PhasesApart(t, mid, owner, request.notebooks, o.notebooks, ref);
      SameAccepted(t, mid, ref, c.record);
    }
  }

  /** A change of the request that was not accepted leaves its entity alone. */
  lemma NotTakenStays(t: Store, owner: string, scan: seq<Ref>, request: Request, now: Time, c: Change)
    requires Inv(t) && WellFormed(request) && UniqueIds(request.notebooks) && UniqueIds(request.notes)
    requires c in request.notebooks || c in request.notes
    requires !Entered(request, Run(t, owner, scan, request, MIRROR, now), c)
    ensures SameAt(t, Run(t, owner, scan, request, MIRROR, now).store, RefOf(owner, c.record))
  {
    hide Inv, Run, Lawful, Evolves, Rises, LawfulAll;
    var o := Run(t, owner, scan, request, MIRROR, now);
    var mid := ApplyVerdicts(t, owner, o.notebooks, now);
    var ref := RefOf(owner, c.record);
    RunPhases(t, owner, scan, request, MIRROR, now);
    KindsApart(request, c);
    if c in request.notebooks {
      PhasesApart(mid, o.store, owner, request.notes, o.notes, ref);
      OnlyOwnChange(t, mid, owner, request.notebooks, o.notebooks, c);
    } else {
      PhasesApart(t, mid, owner, request.notebooks, o.notebooks, ref);
      OnlyOwnChange(mid, o.store, owner, request.notes, o.notes, c);
    }
    SameAtTrans(t, mid, o.store, ref);
  }

  lemma KindsApart(request: Request, c: Change)
    requires WellFormed(request) && (c in request.notebooks || c in request.notes)
    ensures c in request.notebooks ==> forall x :: x in request.notes ==> x.record.Kind() != RefOf("", c.record).kind
    ensures c !in request.notebooks ==> forall x :: x in request.notebooks ==> x.record.Kind() != RefOf("", c.record).kind
  {
  }

  lemma OnlyOwnChange(s: Store, t: Store, owner: string, changes: seq<Change>, verdicts: seq<Verdict>, c: Change)
    requires |verdicts| == |changes| && Effect(s, t, owner, changes, verdicts) && UniqueIds(changes) && c in changes
    requires forall i :: 0 <= i < |changes| && changes[i] == c ==> !verdicts[i].Accepted()
    ensures SameAt(s, t, RefOf(owner, c.record))
  {
    var k :| 0 <= k < |changes| && changes[k] == c;
    forall i | 0 <= i < |changes| && verdicts[i].Written? ensures RefOf(owner, changes[i].record) != RefOf(owner, c.record) {
      if i != k { assert changes[i].record.Id() != changes[k].record.Id(); }
    }
  }

  lemma RunNotebooks(t: Store, owner: string, scan: seq<Ref>, request: Request, now: Time, i: nat)
    requires WellFormed(request) && i < |request.notebooks|
    ensures AllNotebooks(request.notebooks[..i]) && request.notebooks[i].record.NotebookEntity?
    ensures Run(t, owner, scan, request, MIRROR, now).notebooks[i] ==
      NotebookVerdict(t, owner, scan, NotebookVerdicts(t, owner, scan, request.notebooks[..i], MIRROR), request.notebooks[i], MIRROR)
  {
    hide NotebookVerdict;
    Conflicts.VerdictAt(t, owner, scan, request.notebooks, MIRROR, i);
  }

  lemma SameAccepted(s: Store, t: Store, ref: Ref, record: Entity)
    requires SameAt(s, t, ref)
    ensures AcceptedVersion(s, ref, record, MIRROR) == AcceptedVersion(t, ref, record, MIRROR)
  {
    assert RowAt(s, ref) == RowAt(t, ref) && TombAt(s, ref) == TombAt(t, ref);
  }

  /** An entity the page decides to copy rises strictly above the row or tombstone it replaces, or is refused and stays. */
  lemma CopyRisesOrStays(p: Pass, owner: string, outbound: nat, turn: Turn, e: Entry)
    requires Inv(p.source) && Inv(p.target) && turn.limit >= 1 && Rows(p.source) && !Diverged(p, owner, outbound, turn)
    requires var b := Begin(p, owner, outbound, turn); e in b.page.changes && b.f(e).Copy?
    ensures var b := Begin(p, owner, outbound, turn); var end := Ended(p, owner, outbound, turn);
      && WellFormed(PlanRequest(b.page.changes, b.f))
      && |b.outcome.notebooks| == |PlanRequest(b.page.changes, b.f).notebooks| && |b.outcome.notes| == |PlanRequest(b.page.changes, b.f).notes|
      && if Entered(PlanRequest(b.page.changes, b.f), b.outcome, Change(b.f(e).record, b.f(e).base))
         then Effective(end.1, e.ref) > Effective(p.target, e.ref)
         else SameAt(p.target, end.1, e.ref)
  {
    hide Inv, Run, Begin, Ended, Diverged, Rows, Evolves, Rises, DeleteAll, PageOf, RecordsDiffer, NewerOrTie, Clean, WellFormed, Moved, Diverges, Entered;
    var b := Begin(p, owner, outbound, turn);
    BeginFacts(p, owner, outbound, turn);
    EndKeeps(p, owner, outbound, turn);
    OneEntry(b.page.changes);
    DeleteAllKeeps(p.target, Deleted(b.page.changes, b.f, DeleteTarget), turn.now);
    assert SameAt(p.target, b.cleared, e.ref);
    var c := Change(b.f(e).record, b.f(e).base);
    var request := PlanRequest(b.page.changes, b.f);
    assert c in request.notebooks || c in request.notes by {
      assert e.ref.kind == NotebookKind || e.ref.kind == NoteKind;
    }
    PlanUnique(p.source, p.target, owner, b.page, b.f);
    CopyVersion(p, owner, outbound, turn, e, b);
  }

  /** The two cases, once the page is laid out. */
  lemma CopyVersion(p: Pass, owner: string, outbound: nat, turn: Turn, e: Entry, b: Begun)
    requires Inv(b.cleared) && SameAt(p.target, b.cleared, e.ref)
    requires b.f == Decider(p.source, p.target, b.page, outbound, p.mirrored) && b.f(e).Copy? && RefOf(owner, b.f(e).record) == e.ref
    requires var request := PlanRequest(b.page.changes, b.f); var c := Change(b.f(e).record, b.f(e).base);
      && WellFormed(request) && UniqueIds(request.notebooks) && UniqueIds(request.notes)
      && (c in request.notebooks || c in request.notes) && b.outcome == Run(b.cleared, owner, turn.scan, request, MIRROR, turn.now)
    ensures var request := PlanRequest(b.page.changes, b.f); var c := Change(b.f(e).record, b.f(e).base);
      if Entered(request, b.outcome, c) then Effective(b.outcome.store, e.ref) > Effective(p.target, e.ref)
      else SameAt(p.target, b.outcome.store, e.ref)
  {
    hide Inv, Run, Decide, WellFormed, PlanRequest, Entered;
    var request := PlanRequest(b.page.changes, b.f);
    var c := Change(b.f(e).record, b.f(e).base);
    if Entered(request, b.outcome, c) {
      MirrorPushVersion(b.cleared, owner, turn.scan, request, turn.now, c);
      SameAccepted(p.target, b.cleared, e.ref, c.record);
      InvAt(b.cleared, e.ref);
      CopyDecision(p.source, p.target, b.page, outbound, p.mirrored, e);
      SameRows(p.target, b.cleared, e.ref);
    } else {
      NotTakenStays(b.cleared, owner, turn.scan, request, turn.now, c);
      SameAtTrans(p.target, b.cleared, b.outcome.store, e.ref);
    }
  }

  /** On a page that is taken every copied entity rises. */
  lemma CopyRises(p: Pass, owner: string, outbound: nat, turn: Turn, e: Entry)
    requires Inv(p.source) && Inv(p.target) && turn.limit >= 1 && Rows(p.source)
    requires TakePage(p, owner, outbound, turn).Ok?
    requires var d := Details(p, owner, outbound, turn); e in d.page.changes && d.f(e).Copy?
    ensures Effective(Details(p, owner, outbound, turn).next.target, e.ref) > Effective(p.target, e.ref)
  {
    hide *;
    var b := Begin(p, owner, outbound, turn);
    DetailsFacts(p, owner, outbound, turn);
    NextIsTaken(p, owner, outbound, turn);
    BeginFacts(p, owner, outbound, turn);
    EndedTaken(p, owner, outbound, turn);
    CopyRisesOrStays(p, owner, outbound, turn, e);
    CopyInRequest(b.page.changes, b.f, e);
    AllEntered(PlanRequest(b.page.changes, b.f), b.outcome, Change(b.f(e).record, b.f(e).base));
  }

  lemma CopyDecision(s: Store, t: Store, page: Page, outbound: nat, mirrored: set<Ref>, e: Entry)
    requires Decide(s, t, page, outbound, mirrored, e).Copy?
    ensures var c := Decide(s, t, page, outbound, mirrored, e);
      e.ref in t.rows ==> c.record.Version() > t.rows[e.ref].entity.Version()
  {
    hide RecordsDiffer, NewerOrTie, Clean;
  }

  /**
   Versions and tombstone versions only rise on both sides of a page, and strictly wherever it changes anything: also on a
   page that ends in an error because its push met a conflict, after it deleted and committed what was accepted.
   */
  lemma PageNeverLowers(p: Pass, owner: string, outbound: nat, turn: Turn)
    requires Inv(p.source) && Inv(p.target) && turn.limit >= 1 && Rows(p.source)
    ensures var end := Ended(p, owner, outbound, turn); Rises(p.source, end.0) && Rises(p.target, end.1)
  {
    hide Inv, Run, Begin, Ended, Diverged, Rows, Evolves, DeleteAll, PageOf, PlanOk, Decide, Diverges, Rises, Deleted, Effective;
    var b := Begin(p, owner, outbound, turn);
    BeginFacts(p, owner, outbound, turn);
    EndKeeps(p, owner, outbound, turn);
    if Diverged(p, owner, outbound, turn) {
      EvolvesRefl(p.target);
    } else {
      forall ref ensures RisesAt(p.target, Ended(p, owner, outbound, turn).1, ref) {
        EntityRises(p, owner, outbound, turn, ref);
      }
      RisesAll(p.target, Ended(p, owner, outbound, turn).1);
    }
  }

  lemma RisesAll(s: Store, t: Store)
    requires forall ref :: RisesAt(s, t, ref)
    ensures Rises(s, t)
  {
  }

  lemma EntityRises(p: Pass, owner: string, outbound: nat, turn: Turn, ref: Ref)
    requires Inv(p.source) && Inv(p.target) && turn.limit >= 1 && Rows(p.source) && !Diverged(p, owner, outbound, turn)
    ensures RisesAt(p.target, Ended(p, owner, outbound, turn).1, ref)
  {
    hide Inv, Run, Begin, Ended, Diverged, Rows, Evolves, DeleteAll, PageOf, PlanOk, Decide, Diverges, Deleted, Effective, SameAt, Entered;
    var b := Begin(p, owner, outbound, turn);
    BeginFacts(p, owner, outbound, turn);
    EndKeeps(p, owner, outbound, turn);
    if e :| e in b.page.changes && e.ref == ref && b.f(e).Copy? {
      CopyRisesOrStays(p, owner, outbound, turn, e);
    } else {
      PushLeavesAlone(p.source, p.target, owner, b.page, b.f, turn.scan, turn.now, b.cleared, ref);
      assert RisesAt(p.target, b.cleared, ref);
      SameRises(p.target, b.cleared, b.outcome.store, ref);
    }
  }

  lemma SameRises(s: Store, t: Store, u: Store, ref: Ref)
    requires RisesAt(s, t, ref) && SameAt(t, u, ref)
    ensures RisesAt(s, u, ref)
  {
    assert RowAt(t, ref) == RowAt(u, ref) && TombAt(t, ref) == TombAt(u, ref);
  }


  /******* The two-cursor invariant *******/

  /**
   Two databases and a cursor into each log: an entity whose entries both directions have passed is the same on both.
   */
  ghost predicate MirrorOk(s: Store, t: Store, owner: string, cursor: nat, outbound: nat) {
    forall ref: Ref :: ref.owner == owner ==> SettledAt(s, t, cursor, outbound, ref)
  }

  ghost predicate SettledAt(s: Store, t: Store, cursor: nat, outbound: nat, ref: Ref) {
    LatestRevision(s.log, ref) <= cursor && LatestRevision(t.log, ref) <= outbound ==> Agree(s, t, ref)
  }

  /** The invariant reads the same from both sides. */
  lemma MirrorOkSymmetric(s: Store, t: Store, owner: string, cursor: nat, outbound: nat)
    requires MirrorOk(s, t, owner, cursor, outbound)
    ensures MirrorOk(t, s, owner, outbound, cursor)
  {
    forall ref: Ref | ref.owner == owner ensures SettledAt(t, s, outbound, cursor, ref) {
      assert SettledAt(s, t, cursor, outbound, ref);
    }
  }

  /** It holds of any two databases when nothing has been mirrored yet. */
  lemma MirrorOkAtFirst(s: Store, t: Store, owner: string)
    requires Inv(s) && Inv(t)
    ensures MirrorOk(s, t, owner, 0, 0)
  {
    forall ref: Ref | ref.owner == owner ensures SettledAt(s, t, 0, 0, ref) {
      assert EntityOk(s, ref) && EntityOk(t, ref);
      assert forall e :: e in s.log ==> e.revision >= 1;
    }
  }

  /** The invariant at one entity only looks at its rows and latest entries. */
  lemma SettledMoves(s: Store, t: Store, s': Store, t': Store, cursor: nat, outbound: nat, ref: Ref)
    requires SettledAt(s, t, cursor, outbound, ref) && Moved(s, s', ref) && Moved(t, t', ref)
    requires cursor < s.nextRevision && outbound < t.nextRevision
    ensures SettledAt(s', t', cursor, outbound, ref)
  {
    hide Agree;
    if SameAt(s, s', ref) && SameAt(t, t', ref) && Agree(s, t, ref) {
      AgreeSame(s, t, s', t', ref);
    }
  }

  /** Whatever either database does meanwhile, the invariant survives: a change has an entry beyond the cursor. */
  lemma MirrorOkEvolves(s: Store, t: Store, s': Store, t': Store, owner: string, cursor: nat, outbound: nat)
    requires MirrorOk(s, t, owner, cursor, outbound) && Evolves(s, s') && Evolves(t, t')
    requires cursor < s.nextRevision && outbound < t.nextRevision
    ensures MirrorOk(s', t', owner, cursor, outbound)
  {
    forall ref: Ref | ref.owner == owner ensures SettledAt(s', t', cursor, outbound, ref) {
      assert SettledAt(s, t, cursor, outbound, ref) && Moved(s, s', ref) && Moved(t, t', ref);
      SettledMoves(s, t, s', t', cursor, outbound, ref);
    }
  }

  /** A page that is taken keeps the invariant at its new cursor, even if it drops references. */
  lemma PageKeepsMirrorOk(p: Pass, owner: string, outbound: nat, turn: Turn)
    requires Inv(p.source) && Inv(p.target) && turn.limit >= 1 && Rows(p.source)
    requires p.cursor < p.source.nextRevision && outbound < p.target.nextRevision
    requires MirrorOk(p.source, p.target, owner, p.cursor, outbound)
    requires TakePage(p, owner, outbound, turn).Ok?
    ensures var q := TakePage(p, owner, outbound, turn).value;
      MirrorOk(q.source, q.target, owner, q.cursor, outbound) && q.cursor < q.source.nextRevision && outbound < q.target.nextRevision
  {
    hide Inv, Run, TakePage, NoneRejected, Rows, RefsArrive, DeleteAll, PageOf, PlanOk, Decide, Agree, Rises, Details, Moved;
    var d := Details(p, owner, outbound, turn);
    DetailsFacts(p, owner, outbound, turn);
    NextIsTaken(p, owner, outbound, turn);
    PageKeeps(p, owner, outbound, turn);
    PageBelowNext(p.source, owner, p.cursor, turn.limit);
    forall ref: Ref | ref.owner == owner ensures SettledAt(d.next.source, d.next.target, d.next.cursor, outbound, ref) {
      assert Moved(p.source, d.next.source, ref) && Moved(p.target, d.next.target, ref);
      SettledAfter(p, owner, outbound, turn, ref);
    }
  }

  lemma NextIsTaken(p: Pass, owner: string, outbound: nat, turn: Turn)
    requires turn.limit >= 1 && Rows(p.source) && TakePage(p, owner, outbound, turn).Ok?
    ensures Details(p, owner, outbound, turn).next == TakePage(p, owner, outbound, turn).value
  {
    hide TakePage;
  }

  lemma PageBelowNext(s: Store, owner: string, cursor: nat, limit: nat)
    requires Inv(s) && limit >= 1
    ensures PageOf(Still(s), owner, cursor, limit).serverRevision < s.nextRevision
  {
    hide PageOf;
    InvLog(s);
    PageRevisionBounds(Still(s), owner, cursor, limit);
    CurrentBelowNext(s, owner);
  }

  /** What rose has an entry newer than anything logged before. */
  lemma RisenIsFresh(s: Store, t: Store, ref: Ref)
    requires Moved(s, t, ref) && Effective(t, ref) > Effective(s, ref)
    ensures LatestRevision(t.log, ref) >= s.nextRevision
  {
  }

  lemma SettledIfPlanned(p: Pass, owner: string, outbound: nat, turn: Turn, e: Entry)
    requires Inv(p.source) && Inv(p.target) && turn.limit >= 1 && Rows(p.source)
    requires outbound < p.target.nextRevision && TakePage(p, owner, outbound, turn).Ok?
    requires var d := Details(p, owner, outbound, turn); e in d.page.changes && d.f(e) != Skip
    requires Moved(p.target, Details(p, owner, outbound, turn).next.target, e.ref)
    ensures var d := Details(p, owner, outbound, turn); SettledAt(d.next.source, d.next.target, d.next.cursor, outbound, e.ref)
  {
    hide *;
    var d := Details(p, owner, outbound, turn);
    DetailsFacts(p, owner, outbound, turn);
    NotDivergent(d.page.changes, d.f, e);
    if d.f(e).Copy? {
      CopyRises(p, owner, outbound, turn, e);
      RisenIsFresh(p.target, d.next.target, e.ref);
    } else if d.f(e) == DeleteSource {
      SourceDeleted(p, owner, outbound, turn, e);
    } else {
      TargetDeleted(p, owner, outbound, turn, e);
    }
    SettledEither(d.next.source, d.next.target, d.next.cursor, outbound, e.ref);
  }

  lemma NotDivergent(changes: seq<Entry>, f: Entry -> Decision, e: Entry)
    requires !Diverges(changes, f) && e in changes
    ensures f(e) != Diverge
  {
  }

  lemma SettledEither(s: Store, t: Store, cursor: nat, outbound: nat, ref: Ref)
    requires Agree(s, t, ref) || LatestRevision(s.log, ref) > cursor || LatestRevision(t.log, ref) > outbound
    ensures SettledAt(s, t, cursor, outbound, ref)
  {
  }

  lemma SettledAfter(p: Pass, owner: string, outbound: nat, turn: Turn, ref: Ref)
    requires Inv(p.source) && Inv(p.target) && turn.limit >= 1 && Rows(p.source) && ref.owner == owner
    requires p.cursor < p.source.nextRevision && outbound < p.target.nextRevision
    requires SettledAt(p.source, p.target, p.cursor, outbound, ref)
    requires TakePage(p, owner, outbound, turn).Ok?
    requires var d := Details(p, owner, outbound, turn);
      Moved(p.source, d.next.source, ref) && Moved(p.target, d.next.target, ref)
    requires Details(p, owner, outbound, turn).next.cursor < p.source.nextRevision
    ensures var d := Details(p, owner, outbound, turn); SettledAt(d.next.source, d.next.target, d.next.cursor, outbound, ref)
  {
    hide *;
    var d := Details(p, owner, outbound, turn);
    DetailsFacts(p, owner, outbound, turn);
    if e :| e in d.page.changes && e.ref == ref && d.f(e) != Skip {
      SettledIfPlanned(p, owner, outbound, turn, e);
    } else {
      SkippedStays(p, owner, outbound, turn, ref);
      if p.cursor < LatestRevision(p.source.log, ref) <= d.next.cursor {
        SkippedAgrees(p, owner, outbound, turn, ref);
        AgreeSame(p.source, p.target, d.next.source, d.next.target, ref);
        SettledEither(d.next.source, d.next.target, d.next.cursor, outbound, ref);
      } else {
        SettledElse(p.source, p.target, d.next.source, d.next.target, p.cursor, d.next.cursor, outbound, ref);
      }
    }
  }

  /** An untouched entity whose latest entry the page did not pass. */
  lemma SettledElse(s: Store, t: Store, s': Store, t': Store, cursor: nat, cursor': nat, outbound: nat, ref: Ref)
    requires SettledAt(s, t, cursor, outbound, ref) && Moved(s, s', ref) && Moved(t, t', ref)
    requires cursor' < s.nextRevision && outbound < t.nextRevision
    requires LatestRevision(s.log, ref) <= cursor || LatestRevision(s.log, ref) > cursor'
    requires SameAt(s, s', ref) && SameAt(t, t', ref)
    ensures SettledAt(s', t', cursor', outbound, ref)
  {
    hide Agree;
    if Agree(s, t, ref) {
      AgreeSame(s, t, s', t', ref);
    }
  }

  /******* Tidy rows *******/

  /** Every push, client or mirror, stores notes in tidy form; deletions and compactions add no rows. */
  lemma PushKeepsTidy(s: Store, owner: string, scan: seq<Ref>, request: Request, options: Options, now: Time)
    requires Inv(s) && TidyRows(s) && WellFormed(request) && UniqueIds(request.notebooks) && UniqueIds(request.notes)
    ensures TidyRows(Run(s, owner, scan, request, options, now).store)
  {
    hide Inv, Run, Evolves, Rises, Tidy, NoteVerdict, LawfulAll, WellFormed;
    var o := Run(s, owner, scan, request, options, now);
    var mid, t := ApplyVerdicts(s, owner, o.notebooks, now), o.store;
    RunPhases(s, owner, scan, request, options, now);
    forall ref | ref in t.rows && t.rows[ref].entity.NoteEntity? ensures Tidy(t.rows[ref].entity.note) {
      InvAt(t, ref);
      if i :| 0 <= i < |request.notes| && o.notes[i].Written? && RefOf(owner, request.notes[i].record) == ref {
        assert o.notes[i].Accepted();
        RunNoteAt(s, owner, scan, request, options, now, i);
        WrittenNoteTidy(mid, owner, request.notes[i], options);
      } else {
        assert SameAt(mid, t, ref);
        PhasesApartNote(s, mid, owner, request, o.notebooks, ref);
        assert RowAt(s, ref) == RowAt(t, ref);
      }
    }
  }

  lemma RunNoteAt(s: Store, owner: string, scan: seq<Ref>, request: Request, options: Options, now: Time, i: nat)
    requires WellFormed(request) && i < |request.notes|
    ensures request.notes[i].record.NoteEntity?
    ensures var o := Run(s, owner, scan, request, options, now);
      o.notes[i] == NoteVerdict(ApplyVerdicts(s, owner, o.notebooks, now), owner, request.notes[i], options)
  {
  }

  lemma PhasesApartNote(s: Store, t: Store, owner: string, request: Request, verdicts: seq<Verdict>, ref: Ref)
    requires WellFormed(request) && |verdicts| == |request.notebooks| && Effect(s, t, owner, request.notebooks, verdicts)
    requires ref.kind == NoteKind
    ensures SameAt(s, t, ref)
  {
    PhasesApart(s, t, owner, request.notebooks, verdicts, ref);
  }

  lemma WrittenNoteTidy(t: Store, owner: string, c: Change, options: Options)
    requires c.record.NoteEntity? && NoteVerdict(t, owner, c, options).Written?
    ensures var e := NoteVerdict(t, owner, c, options).entity; e.NoteEntity? && Tidy(e.note)
  {
    hide RecordsDiffer, ShouldConflict, TombstoneOverwriteAllowed, RefsChanged, Syncable, NoteNotebookIds, NormalizedId;
    var m := Syncable(t, owner, c.record.note);
    SyncableRefs(t, owner, c.record.note);
    TidyVersion(m, NoteVerdict(t, owner, c, options).entity.Version());
  }

  lemma TidyVersion(m: Note, version: int)
    requires Tidy(m)
    ensures Tidy(m.(version := version))
  {
  }

  lemma FewerTidy(s: Store, t: Store)
    requires TidyRows(s) && forall ref :: ref in t.rows ==> ref in s.rows && t.rows[ref] == s.rows[ref]
    ensures TidyRows(t)
  {
    hide Tidy;
  }

  lemma DeleteKeepsTidy(s: Store, refs: seq<Ref>, now: Time)
    requires Inv(s) && TidyRows(s)
    ensures TidyRows(DeleteAll(s, refs, now))
  {
    hide Inv, TidyRows;
    DeleteAllKeeps(s, refs, now);
    var t := DeleteAll(s, refs, now);
    forall ref | ref in t.rows ensures ref in s.rows && t.rows[ref] == s.rows[ref] {
      assert SameAt(s, t, ref);
      assert RowAt(s, ref) == RowAt(t, ref);
    }
    FewerTidy(s, t);
  }

  /** Every database reached by pushes, deletions, cleanups and compactions is tidy. */
  lemma {:induction false} RunsStayTidy(ops: seq<Operation>)
    requires AllValid(ops)
    ensures TidyRows(DoAll(EMPTY, ops))
  {
    hide Inv, Run, TidyRows, Cleanup, DeleteAll;
    if ops == [] {
      FewerTidyEmpty();
    } else {
      var front, op := ops[..|ops| - 1], ops[|ops| - 1];
      forall x | x in front ensures x in ops {}
      assert op in ops;
      RunsStayTidy(front);
      EmptyOk();
      RunsKeepInvariant(EMPTY, front);
      var s := DoAll(EMPTY, front);
      match op
      case PushOp(owner, scan, request, options, now) => PushKeepsTidy(s, owner, scan, request, options, now);
      case DeleteOp(refs, now) => DeleteKeepsTidy(s, refs, now);
      case CleanupOp(scan, cutoff, now, who) => CleanupKeepsTidy(s, scan, cutoff, now, who);
      case CompactOp(who) => FewerTidy(s, Compact(s, who));
    }
  }

  lemma FewerTidyEmpty()
    ensures TidyRows(EMPTY)
  {
  }

  lemma CleanupKeepsTidy(s: Store, scan: seq<Ref>, cutoff: Time, now: Time, who: Option<string>)
    requires Inv(s) && TidyRows(s)
    ensures TidyRows(Cleanup(s, scan, cutoff, now, who))
  {
    hide Inv, TidyRows;
    var refs := ExpiredRefs(s, scan, cutoff, who);
    CleanupRowsKeeps(s, refs, now);
    var t := Cleanup(s, scan, cutoff, now, who);
    forall ref | ref in t.rows ensures ref in s.rows && t.rows[ref] == s.rows[ref] {
      assert SameAt(s, t, ref);
      assert RowAt(s, ref) == RowAt(t, ref);
    }
    FewerTidy(s, t);
  }

  lemma PageKeepsTidy(p: Pass, owner: string, outbound: nat, turn: Turn)
    requires Inv(p.source) && Inv(p.target) && turn.limit >= 1 && Rows(p.source)
    requires TidyRows(p.source) && TidyRows(p.target) && TakePage(p, owner, outbound, turn).Ok?
    ensures var q := TakePage(p, owner, outbound, turn).value; TidyRows(q.source) && TidyRows(q.target)
  {
    hide *;
    var d := Details(p, owner, outbound, turn);
    DetailsFacts(p, owner, outbound, turn);
    NextIsTaken(p, owner, outbound, turn);
    PageKeeps(p, owner, outbound, turn);
    PlanUnique(p.source, p.target, owner, d.page, d.f);
    DeleteKeepsTidy(p.source, Deleted(d.page.changes, d.f, DeleteSource), turn.now);
    DeleteKeepsTidy(p.target, Deleted(d.page.changes, d.f, DeleteTarget), turn.now);
    PushKeepsTidy(d.cleared, owner, turn.scan, PlanRequest(d.page.changes, d.f), MIRROR, turn.now);
  }
}
