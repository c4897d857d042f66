/**
 What a mirror pass never loses. Between two pages the source may be anything, and the users of the target go on
 working on it: every page finds the target in some state its predecessor's result can evolve into.
 */
module MirrorSafety {
  import opened Wrappers
  import opened SyncSpec
  import opened Tables
  import opened Push
  import opened Pull
  import opened Mirror
  import opened MirrorRules
  import opened MirrorPage
  import opened MirrorRuns
  import opened MirrorSync

  /******* One page *******/

  /** A live target entity with an unmirrored change that this pass did not write. */
  ghost predicate Unmirrored(t: Store, ref: Ref, outbound: nat, mirrored: set<Ref>) {
    LiveAt(t, ref) && LatestRevision(t.log, ref) > outbound && ref !in mirrored
  }

  predicate LiveAt(t: Store, ref: Ref) {
    ref in t.rows && !t.rows[ref].entity.IsDeleted()
  }

  ghost predicate Takes(p: Pass, outbound: nat, turn: Turn) {
    Inv(p.source) && Inv(p.target) && turn.limit >= 1 && Rows(p.source) && outbound < p.target.nextRevision
  }

  function PageFor(p: Pass, owner: string, turn: Turn): Page
    requires turn.limit >= 1
  {
    PageOf(Still(p.source), owner, p.cursor, turn.limit)
  }

  /** The page lists the entity and copies it, and the source's record has the content the target holds already. */
  ghost predicate CopiesSame(p: Pass, owner: string, outbound: nat, turn: Turn, ref: Ref)
    requires turn.limit >= 1
  {
    var page := PageFor(p, owner, turn);
    ref in p.target.rows && exists e ::
      && e in page.changes && e.ref == ref
      && Decide(p.source, p.target, page, outbound, p.mirrored, e).Copy?
      && !RecordsDiffer(Decide(p.source, p.target, page, outbound, p.mirrored, e).record, p.target.rows[ref].entity)
  }

  /******* What the end of a page leaves of one entity *******/

  lemma TakesParts(p: Pass, owner: string, outbound: nat, turn: Turn)
    requires Takes(p, outbound, turn)
    ensures Inv(p.source) && Inv(p.target) && turn.limit >= 1 && Rows(p.source) && outbound < p.target.nextRevision
    ensures PageFor(p, owner, turn) == PageOf(Still(p.source), owner, p.cursor, turn.limit)
  {
  }

  /** An entity without a decision but to skip, and one that is neither copied nor deleted there. */
  lemma EndSpares(p: Pass, owner: string, outbound: nat, turn: Turn, ref: Ref)
    requires Inv(p.source) && Inv(p.target) && turn.limit >= 1 && Rows(p.source)
    requires var b := Begin(p, owner, outbound, turn);
      Diverged(p, owner, outbound, turn) || forall e :: e in b.page.changes && e.ref == ref ==> !b.f(e).Copy? && b.f(e) != DeleteTarget
    ensures SameAt(p.target, Ended(p, owner, outbound, turn).1, ref)
  {
    hide Inv, Run, Begin, Ended, Diverged, Diverges, Rows, Evolves, Rises, DeleteAll, PageOf, PlanOk, Decide;
    var b := Begin(p, owner, outbound, turn);
    BeginFacts(p, owner, outbound, turn);
    EndKeeps(p, owner, outbound, turn);
    if !Diverged(p, owner, outbound, turn) {
      DeleteAllKeeps(p.target, Deleted(b.page.changes, b.f, DeleteTarget), turn.now);
      PushLeavesAlone(p.source, p.target, owner, b.page, b.f, turn.scan, turn.now, b.cleared, ref);
      SameAtTrans(p.target, b.cleared, b.outcome.store, ref);
    }
  }

  /** A page touches its owner's entities only. */
  lemma OthersUntouched(p: Pass, owner: string, outbound: nat, turn: Turn, ref: Ref)
    requires Inv(p.source) && Inv(p.target) && turn.limit >= 1 && Rows(p.source)
    ensures ref.owner != owner ==>
      SameAt(p.source, Ended(p, owner, outbound, turn).0, ref) && SameAt(p.target, Ended(p, owner, outbound, turn).1, ref)
  {
    hide Inv, Run, Begin, Ended, Diverged, Diverges, Rows, Evolves, Rises, DeleteAll, PageOf, Decide, WellFormed, Copies;
    if ref.owner != owner {
      var b := Begin(p, owner, outbound, turn);
      BeginFacts(p, owner, outbound, turn);
      EndKeeps(p, owner, outbound, turn);
      EndSpares(p, owner, outbound, turn, ref);
      DeleteAllKeeps(p.source, Deleted(b.page.changes, b.f, DeleteSource), turn.now);
      assert ref !in Deleted(b.page.changes, b.f, DeleteSource);
    }
  }

  lemma EndDeletes(p: Pass, owner: string, outbound: nat, turn: Turn, e: Entry)
    requires Inv(p.source) && Inv(p.target) && turn.limit >= 1 && Rows(p.source) && !Diverged(p, owner, outbound, turn)
    requires var b := Begin(p, owner, outbound, turn); e in b.page.changes && b.f(e) == DeleteTarget
    ensures e.ref !in Ended(p, owner, outbound, turn).1.rows
  {
    hide Inv, Run, Begin, Ended, Diverged, Diverges, Rows, Evolves, Rises, DeleteAll, PageOf, Decide, Copies, WellFormed;
    var b := Begin(p, owner, outbound, turn);
    BeginFacts(p, owner, outbound, turn);
    EndKeeps(p, owner, outbound, turn);
    OneEntry(b.page.changes);
    DeleteAllKeeps(p.target, Deleted(b.page.changes, b.f, DeleteTarget), turn.now);
    PushLeavesAlone(p.source, p.target, owner, b.page, b.f, turn.scan, turn.now, b.cleared, e.ref);
    SameRows(b.cleared, b.outcome.store, e.ref);
  }

  /** The record as the target will store it: a note keeps the references whose notebooks are live there by then. */
  ghost function Arriving(p: Pass, owner: string, outbound: nat, turn: Turn, x: Entity): Entity
    requires turn.limit >= 1 && Rows(p.source)
  {
    var b := Begin(p, owner, outbound, turn);
    if x.NoteEntity? then NoteEntity(Syncable(ApplyVerdicts(b.cleared, owner, b.outcome.notebooks, turn.now), owner, x.note)) else x
  }

  /** The push accepted the change. */
  ghost predicate Accepts(p: Pass, owner: string, outbound: nat, turn: Turn, c: Change)
    requires turn.limit >= 1 && Rows(p.source)
  {
    var b := Begin(p, owner, outbound, turn);
    var request := PlanRequest(b.page.changes, b.f);
    |b.outcome.notebooks| == |request.notebooks| && |b.outcome.notes| == |request.notes| && Entered(request, b.outcome, c)
  }

  /** A copy leaves the arriving content when it is accepted, and nothing when it is refused. */
  lemma EndCopies(p: Pass, owner: string, outbound: nat, turn: Turn, e: Entry)
    requires Inv(p.source) && Inv(p.target) && turn.limit >= 1 && Rows(p.source) && !Diverged(p, owner, outbound, turn)
    requires var b := Begin(p, owner, outbound, turn); e in b.page.changes && b.f(e).Copy?
    ensures var b := Begin(p, owner, outbound, turn); var end := Ended(p, owner, outbound, turn).1;
      if Accepts(p, owner, outbound, turn, Change(b.f(e).record, b.f(e).base))
      then e.ref in end.rows && ContentOf(end.rows[e.ref].entity) == ContentOf(Arriving(p, owner, outbound, turn, b.f(e).record))
      else SameAt(p.target, end, e.ref)
  {
    hide Inv, Run, Begin, Ended, Diverged, Diverges, Rows, Evolves, Rises, DeleteAll, PageOf, Decide, Copies, WellFormed, Entered, ContentOf, Syncable, PlanRequest, Effective;
    var b := Begin(p, owner, outbound, turn);
    BeginFacts(p, owner, outbound, turn);
    EndKeeps(p, owner, outbound, turn);
    CopyRisesOrStays(p, owner, outbound, turn, e);
    if Accepts(p, owner, outbound, turn, Change(b.f(e).record, b.f(e).base)) {
      CopyStored(p.source, p.target, owner, b.page, b.f, turn.scan, turn.now, b.cleared, e);
      OwnKind(p.source, p.target, owner, b.page, b.f, e);
    }
  }

  lemma OwnKind(s: Store, t: Store, owner: string, page: Page, f: Entry -> Decision, e: Entry)
    requires PlanOk(s, t, owner, page, f) && e in page.changes && f(e).Copy?
    ensures f(e).record.NoteEntity? <==> e.ref.kind == NoteKind
  {
  }

  /******* A page never replaces what it must not *******/

  /**
   An unmirrored live entity is left alone by a page, however the page ends, unless the page finds the very same content on
   its source.
   */
  lemma UnmirroredSurvivesPage(p: Pass, owner: string, outbound: nat, turn: Turn, ref: Ref)
    requires Takes(p, outbound, turn) && Unmirrored(p.target, ref, outbound, p.mirrored)
    ensures
      || CopiesSame(p, owner, outbound, turn, ref)
      || (&& SameAt(p.target, Ended(p, owner, outbound, turn).1, ref)
          && (TakePage(p, owner, outbound, turn).Ok? ==> ref !in TakePage(p, owner, outbound, turn).value.mirrored))
  {
    hide *;
    TakesParts(p, owner, outbound, turn);
    var b := Begin(p, owner, outbound, turn);
    BeginFacts(p, owner, outbound, turn);
    EndedTaken(p, owner, outbound, turn);
    UnmirroredOut(p.target, ref, outbound, p.mirrored);
    if !Diverged(p, owner, outbound, turn) {
      if e :| e in b.page.changes && e.ref == ref && b.f(e) != Skip {
        NotDivergent(b.page.changes, b.f, e);
        DeciderIs(p.source, p.target, b.page, outbound, p.mirrored, e);
        GuardAllows(p, owner, outbound, turn, e);
      } else {
        EndSpares(p, owner, outbound, turn, ref);
        SkippedUnwritten(b.page.changes, b.f, ref);
        if TakePage(p, owner, outbound, turn).Ok? {
          DetailsFacts(p, owner, outbound, turn);
          NextIsTaken(p, owner, outbound, turn);
        }
      }
    } else {
      EndSpares(p, owner, outbound, turn, ref);
    }
  }

  lemma UnmirroredOut(t: Store, ref: Ref, outbound: nat, mirrored: set<Ref>)
    requires Unmirrored(t, ref, outbound, mirrored)
    ensures ref !in mirrored
  {
  }

  lemma SkippedUnwritten(changes: seq<Entry>, f: Entry -> Decision, ref: Ref)
    requires forall e :: e in changes && e.ref == ref ==> f(e) == Skip
    ensures ref !in Mirror.Written(changes, f)
  {
  }

  /** The guard lets nothing happen to such an entity but a copy of equal content. */
  lemma GuardAllows(p: Pass, owner: string, outbound: nat, turn: Turn, e: Entry)
    requires turn.limit >= 1 && Unmirrored(p.target, e.ref, outbound, p.mirrored)
    requires var page := PageFor(p, owner, turn);
      e in page.changes && Decide(p.source, p.target, page, outbound, p.mirrored, e) != Skip
      && Decide(p.source, p.target, page, outbound, p.mirrored, e) != Diverge
    ensures CopiesSame(p, owner, outbound, turn, e.ref)
  {
    hide RecordsDiffer, NewerOrTie, PageFor;
  }

  /******* Exactly when a page replaces a content *******/

  /** The content is no longer there, references included. */
  ghost predicate Lost(t: Store, u: Store, ref: Ref)
    requires ref in t.rows
  {
    ref !in u.rows || ContentOf(u.rows[ref].entity) != ContentOf(t.rows[ref].entity)
  }

  /** The page lists a deletion that wins over the target's record by time and version. */
  ghost predicate TombstoneWins(p: Pass, ref: Ref)
    requires ref in p.target.rows
  {
    ref !in p.source.rows && ref in p.source.tombs &&
    var tomb, row := p.source.tombs[ref], p.target.rows[ref].entity;
    NewerAndHigher(tomb.deletedAt, tomb.version, row.UpdatedAt(), row.Version())
  }

  /**
   The listed record `x` may go over the target's: as another content that wins by time and version, over an entity this
   pass has written; or as the same content under a higher version, over any entity.
   */
  predicate RecordWins(x: Entity, target: Entity, written: bool) {
    if ContentOf(x) == ContentOf(target) then x.Version() > target.Version()
    else written && NewerAndHigher(x.UpdatedAt(), x.Version(), target.UpdatedAt(), target.Version())
  }

  /** The page brings another content, or none, and is let: `written` says whether this pass wrote the entity before. */
  ghost predicate Replaces(p: Pass, owner: string, outbound: nat, turn: Turn, ref: Ref, written: bool)
    requires turn.limit >= 1 && Rows(p.source) && ref in p.target.rows
  {
    var page := PageFor(p, owner, turn);
    var target := p.target.rows[ref].entity;
    exists e :: e in page.changes && e.ref == ref &&
      if e.op == Delete then written && TombstoneWins(p, ref)
      else ref in page.fetched && RecordWins(page.fetched[ref], target, written)
           && ContentOf(Arriving(p, owner, outbound, turn, page.fetched[ref])) != ContentOf(target)
           && Accepts(p, owner, outbound, turn, Change(page.fetched[ref], target.Version()))
  }

  /**
   However a page ends, it replaces or removes the content of a live target entity with an unmirrored change if and only if
   no decision of the page is a divergence and it brings another content: over an entity the pass wrote before, what wins
   by time and version; over any other, only the same content, of which the target may drop references to dead notebooks.
   */
  lemma PageReplacesIff(p: Pass, owner: string, outbound: nat, turn: Turn, ref: Ref)
    requires Takes(p, outbound, turn) && LiveAt(p.target, ref) && LatestRevision(p.target.log, ref) > outbound
    ensures Lost(p.target, Ended(p, owner, outbound, turn).1, ref)
      <==> !Diverged(p, owner, outbound, turn) && Replaces(p, owner, outbound, turn, ref, ref in p.mirrored)
  {
    hide *;
    TakesParts(p, owner, outbound, turn);
    LiveIsRow(p.target, ref);
    var b := Begin(p, owner, outbound, turn);
    var u := Ended(p, owner, outbound, turn).1;
    BeginFacts(p, owner, outbound, turn);
    if Diverged(p, owner, outbound, turn) {
      EndSpares(p, owner, outbound, turn, ref);
      NotLost(p.target, u, ref);
    } else {
      EndKeeps(p, owner, outbound, turn);
      PlanDistinct(p.source, p.target, owner, b.page, b.f);
      OneEntry(b.page.changes);
      if e :| e in b.page.changes && e.ref == ref && b.f(e) != Skip {
        NotDivergent(b.page.changes, b.f, e);
        DeciderIs(p.source, p.target, b.page, outbound, p.mirrored, e);
        OneOfPage(p, owner, turn, e);
        if b.f(e).Copy? {
          EndCopies(p, owner, outbound, turn, e);
          CopyReplaces(p, owner, outbound, turn, e, u);
        } else {
          TargetIsLive(p, owner, outbound, turn, e);
          EndDeletes(p, owner, outbound, turn, e);
          DeleteReplaces(p, owner, outbound, turn, e, u);
        }
      } else {
        EndSpares(p, owner, outbound, turn, ref);
        NotLost(p.target, u, ref);
        SkippedReplacesNothing(p, owner, outbound, turn, ref, b.f);
      }
    }
  }

  lemma LiveIsRow(t: Store, ref: Ref)
    requires LiveAt(t, ref)
    ensures ref in t.rows
  {
  }

  lemma NotLost(t: Store, u: Store, ref: Ref)
    requires ref in t.rows && SameAt(t, u, ref)
    ensures !Lost(t, u, ref)
  {
    SameRows(t, u, ref);
  }

  /** The only entry of the entity on the page decides. */
  ghost predicate OnlyEntry(p: Pass, owner: string, turn: Turn, e: Entry)
    requires turn.limit >= 1
  {
    e in PageFor(p, owner, turn).changes && forall x :: x in PageFor(p, owner, turn).changes && x.ref == e.ref ==> x == e
  }

  lemma OneOfPage(p: Pass, owner: string, turn: Turn, e: Entry)
    requires turn.limit >= 1
    requires var changes := PageFor(p, owner, turn).changes;
      e in changes && forall x, y :: x in changes && y in changes && x.ref == y.ref ==> x == y
    ensures OnlyEntry(p, owner, turn, e)
  {
    hide PageFor;
  }

  lemma CopyReplaces(p: Pass, owner: string, outbound: nat, turn: Turn, e: Entry, u: Store)
    requires turn.limit >= 1 && Rows(p.source) && e.ref in p.target.rows && LatestRevision(p.target.log, e.ref) > outbound
    requires OnlyEntry(p, owner, turn, e)
    requires var d := Decide(p.source, p.target, PageFor(p, owner, turn), outbound, p.mirrored, e);
      && d.Copy?
      && if Accepts(p, owner, outbound, turn, Change(d.record, d.base))
         then e.ref in u.rows && ContentOf(u.rows[e.ref].entity) == ContentOf(Arriving(p, owner, outbound, turn, d.record))
         else SameAt(p.target, u, e.ref)
    ensures Lost(p.target, u, e.ref) <==> Replaces(p, owner, outbound, turn, e.ref, e.ref in p.mirrored)
  {
    hide NewerOrTie, PageFor, RecordsDiffer, ContentOf, Arriving, Accepts, TombstoneWins, Decide;
    DecisionsAreTheRules(p.source, p.target, PageFor(p, owner, turn), outbound, p.mirrored, e);
    CopyIsFetched(p.source, p.target, PageFor(p, owner, turn), outbound, p.mirrored, e);
    CopyBase(p.source, p.target, PageFor(p, owner, turn), outbound, p.mirrored, e);
    var d := Decide(p.source, p.target, PageFor(p, owner, turn), outbound, p.mirrored, e);
    if !Accepts(p, owner, outbound, turn, Change(d.record, d.base)) {
      NotLost(p.target, u, e.ref);
    }
  }

  /** A row of the source is deleted only when the target's is dead. */
  lemma TargetIsLive(p: Pass, owner: string, outbound: nat, turn: Turn, e: Entry)
    requires turn.limit >= 1 && LiveAt(p.target, e.ref)
    requires var d := Decide(p.source, p.target, PageFor(p, owner, turn), outbound, p.mirrored, e);
      !d.Copy? && d != Skip && d != Diverge
    ensures Decide(p.source, p.target, PageFor(p, owner, turn), outbound, p.mirrored, e) == DeleteTarget
  {
    hide NewerOrTie, PageFor, RecordsDiffer;
  }

  lemma DeleteReplaces(p: Pass, owner: string, outbound: nat, turn: Turn, e: Entry, u: Store)
    requires turn.limit >= 1 && Rows(p.source) && LiveAt(p.target, e.ref) && LatestRevision(p.target.log, e.ref) > outbound
    requires OnlyEntry(p, owner, turn, e)
    requires Decide(p.source, p.target, PageFor(p, owner, turn), outbound, p.mirrored, e) == DeleteTarget && e.ref !in u.rows
    ensures Lost(p.target, u, e.ref) && Replaces(p, owner, outbound, turn, e.ref, e.ref in p.mirrored)
  {
    hide NewerOrTie, PageFor, RecordsDiffer, ContentOf, Arriving, Accepts, Decide;
    DecisionsAreTheRules(p.source, p.target, PageFor(p, owner, turn), outbound, p.mirrored, e);
  }

  lemma SkippedReplacesNothing(p: Pass, owner: string, outbound: nat, turn: Turn, ref: Ref, f: Entry -> Decision)
    requires turn.limit >= 1 && Rows(p.source) && LiveAt(p.target, ref) && LatestRevision(p.target.log, ref) > outbound
    requires var page := PageFor(p, owner, turn);
      f == Decider(p.source, p.target, page, outbound, p.mirrored) && forall e :: e in page.changes && e.ref == ref ==> f(e) == Skip
    ensures !Replaces(p, owner, outbound, turn, ref, ref in p.mirrored)
  {
    hide NewerOrTie, PageFor, RecordsDiffer, ContentOf, Arriving, Accepts, Decide;
    var page := PageFor(p, owner, turn);
    forall e | e in page.changes && e.ref == ref
      ensures !Copied(p.target, page, outbound, p.mirrored, e) && !RemovedThere(p.source, p.target, outbound, p.mirrored, e)
    {
      assert f(e) == Skip;
      DeciderIs(p.source, p.target, page, outbound, p.mirrored, e);
      DecisionsAreTheRules(p.source, p.target, page, outbound, p.mirrored, e);
    }
  }

  /******* What a mirror push refuses *******/

  /** A copy is pushed on the version it replaces. */
  lemma CopyBase(s: Store, t: Store, page: Page, outbound: nat, mirrored: set<Ref>, e: Entry)
    requires Decide(s, t, page, outbound, mirrored, e).Copy?
    ensures Decide(s, t, page, outbound, mirrored, e).base == Effective(t, e.ref)
  {
    hide RecordsDiffer, NewerOrTie, Clean;
  }

  lemma NoteOnItsBase(t: Store, owner: string, c: Change)
    requires c.record.NoteEntity? && c.base == Effective(t, RefOf(owner, c.record))
    ensures NoteVerdict(t, owner, c, MIRROR).Accepted()
  {
    hide RecordsDiffer, Syncable, NewerOrTie;
  }

  lemma NotebookOnItsBase(t: Store, owner: string, scan: seq<Ref>, acc: Acc, c: Change)
    requires c.record.NotebookEntity? && c.base == Effective(t, RefOf(owner, c.record))
    ensures var v := NotebookVerdict(t, owner, scan, acc, c, MIRROR); v.Rejected? ==> v.reason == DuplicateName
  {
    hide RecordsDiffer, Duplicate, NewerOrTie;
  }

  /** Every change of the plan is about an entity the deletions spare, on the version it has. */
  lemma PlannedOnItsBase(p: Pass, owner: string, outbound: nat, turn: Turn, c: Change)
    requires Inv(p.source) && Inv(p.target) && turn.limit >= 1 && Rows(p.source)
    requires var b := Begin(p, owner, outbound, turn); var request := PlanRequest(b.page.changes, b.f);
      c in request.notebooks || c in request.notes
    ensures var b := Begin(p, owner, outbound, turn); c.base == Effective(b.cleared, RefOf(owner, c.record))
  {
    hide Inv, Run, Begin, Ended, Diverged, Diverges, Rows, Evolves, Rises, DeleteAll, PageOf, Decide, WellFormed, Moved;
    var b := Begin(p, owner, outbound, turn);
    BeginFacts(p, owner, outbound, turn);
    EndKeeps(p, owner, outbound, turn);
    OneEntry(b.page.changes);
    var e :| e in b.page.changes && b.f(e).Copy? && c == Change(b.f(e).record, b.f(e).base);
    CopyBase(p.source, p.target, b.page, outbound, p.mirrored, e);
    DeleteAllKeeps(p.target, Deleted(b.page.changes, b.f, DeleteTarget), turn.now);
    assert SameAt(p.target, b.cleared, e.ref);
    SameEffective(p.target, b.cleared, e.ref);
  }

  lemma SameEffective(s: Store, t: Store, ref: Ref)
    requires SameAt(s, t, ref)
    ensures Effective(s, ref) == Effective(t, ref)
  {
    assert RowAt(s, ref) == RowAt(t, ref) && TombAt(s, ref) == TombAt(t, ref);
  }

  /**
   The only conflict a page can meet is the name of a notebook: its notes are all accepted, and a refused notebook has a
   namesake on the target. So "mirror conflict" means a duplicate name, and everything else of the page is committed.
   */
  lemma ConflictsAreNames(p: Pass, owner: string, outbound: nat, turn: Turn)
    requires Inv(p.source) && Inv(p.target) && turn.limit >= 1 && Rows(p.source)
    ensures var o := Begin(p, owner, outbound, turn).outcome;
      && (forall v :: v in o.notes ==> v.Accepted())
      && (forall v :: v in o.notebooks && v.Rejected? ==> v.reason == DuplicateName)
  {
    hide Inv, Run, Begin, Ended, Diverged, Diverges, Rows, Evolves, Rises, DeleteAll, PageOf, Decide, WellFormed, NoteVerdict, NotebookVerdict, NotebookVerdicts, Effective, PlanRequest;
    var b := Begin(p, owner, outbound, turn);
    var request := PlanRequest(b.page.changes, b.f);
    BeginFacts(p, owner, outbound, turn);
    EndKeeps(p, owner, outbound, turn);
    PlanUnique(p.source, p.target, owner, b.page, b.f);
    var mid := ApplyVerdicts(b.cleared, owner, b.outcome.notebooks, turn.now);
    RunPhases(b.cleared, owner, turn.scan, request, MIRROR, turn.now);
    forall v | v in b.outcome.notes ensures v.Accepted() {
      var i :| 0 <= i < |b.outcome.notes| && b.outcome.notes[i] == v;
      var c := request.notes[i];
      RunNotes(b.cleared, owner, turn.scan, request, turn.now, i);
      PlannedOnItsBase(p, owner, outbound, turn, c);
      NotesApart(b.cleared, mid, owner, request, b.outcome.notebooks, c);
      SameEffective(b.cleared, mid, RefOf(owner, c.record));
      NoteOnItsBase(mid, owner, c);
    }
    forall v | v in b.outcome.notebooks && v.Rejected? ensures v.reason == DuplicateName {
      var i :| 0 <= i < |b.outcome.notebooks| && b.outcome.notebooks[i] == v;
      RunNotebooks(b.cleared, owner, turn.scan, request, turn.now, i);
      PlannedOnItsBase(p, owner, outbound, turn, request.notebooks[i]);
      NotebookOnItsBase(b.cleared, owner, turn.scan, NotebookVerdicts(b.cleared, owner, turn.scan, request.notebooks[..i], MIRROR), request.notebooks[i]);
    }
  }

  lemma NotesApart(s: Store, t: Store, owner: string, request: Request, verdicts: seq<Verdict>, c: Change)
    requires WellFormed(request) && |verdicts| == |request.notebooks| && Effect(s, t, owner, request.notebooks, verdicts) && c in request.notes
    ensures SameAt(s, t, RefOf(owner, c.record))
  {
    PhasesApart(s, t, owner, request.notebooks, verdicts, RefOf(owner, c.record));
  }

  /******* Whole passes *******/

  /** A page with the source it was pulled from and the target as it found it. */
  datatype PageTurn = PageTurn(source: Store, target: Store, cursor: nat, turn: Turn)

  /** The target a sequence of pages leaves, with the entities the pass wrote; `t` is the target before the first page. */
  ghost function Through(t: Store, owner: string, outbound: nat, pages: seq<PageTurn>): Result<(Store, set<Ref>), string> {
    if pages == [] then Ok((t, {}))
    else
      var last := pages[|pages| - 1];
      var before := Through(t, owner, outbound, pages[..|pages| - 1]);
      if before.Err? then before
      else if !Takes(PassAt(last, before.value.1), outbound, last.turn) then Err("Not a page")
      else
        var next := TakePage(PassAt(last, before.value.1), owner, outbound, last.turn);
        if next.Err? then Err(next.error) else Ok((next.value.target, next.value.mirrored))
  }

  function PassAt(page: PageTurn, mirrored: set<Ref>): Pass { Pass(page.source, page.target, page.cursor, mirrored, true) }

  /** Consistent databases; each page finds the target as the page before it left it, or as its users changed it since. */
  ghost predicate Follows(t: Store, owner: string, outbound: nat, pages: seq<PageTurn>) {
    pages == [] ||
      (var front, last := pages[..|pages| - 1], pages[|pages| - 1];
       && Follows(t, owner, outbound, front) && Through(t, owner, outbound, front).Ok?
       && Inv(last.source) && Inv(last.target) && last.turn.limit >= 1
       && Evolves(Through(t, owner, outbound, front).value.0, last.target))
  }

  /** The pass as page `i` meets it. */
  ghost function Meets(t: Store, owner: string, outbound: nat, pages: seq<PageTurn>, i: nat): Pass
    requires i < |pages| && Through(t, owner, outbound, pages[..i]).Ok?
  {
    PassAt(pages[i], Through(t, owner, outbound, pages[..i]).value.1)
  }

  /** The target when page `i` is over, however it ends. */
  ghost function LeftBy(t: Store, owner: string, outbound: nat, pages: seq<PageTurn>, i: nat): Store
    requires i < |pages| && Through(t, owner, outbound, pages[..i]).Ok? && pages[i].turn.limit >= 1 && Rows(pages[i].source)
  {
    Ended(Meets(t, owner, outbound, pages, i), owner, outbound, pages[i].turn).1
  }

  /** Page `i` wrote the entity by the mirror's rules: copied it, or deleted it from the target. */
  ghost predicate WroteAt(t: Store, owner: string, outbound: nat, pages: seq<PageTurn>, i: nat, ref: Ref)
    requires i < |pages|
  {
    Through(t, owner, outbound, pages[..i]).Ok? && pages[i].turn.limit >= 1 &&
    var p := Meets(t, owner, outbound, pages, i); var page := PageFor(p, owner, pages[i].turn);
    exists e :: e in page.changes && e.ref == ref && Touches(p.source, p.target, page, outbound, p.mirrored, e)
  }

  ghost predicate SameCopiedAt(t: Store, owner: string, outbound: nat, pages: seq<PageTurn>, i: nat, ref: Ref)
    requires i < |pages|
  {
    && Through(t, owner, outbound, pages[..i]).Ok? && pages[i].turn.limit >= 1
    && CopiesSame(Meets(t, owner, outbound, pages, i), owner, outbound, pages[i].turn, ref)
  }

  /** Page `i` leaves the entity as it found it. */
  ghost predicate SparedAt(t: Store, owner: string, outbound: nat, pages: seq<PageTurn>, i: nat, ref: Ref)
    requires i < |pages|
  {
    && Through(t, owner, outbound, pages[..i]).Ok? && pages[i].turn.limit >= 1 && Rows(pages[i].source)
    && SameAt(pages[i].target, LeftBy(t, owner, outbound, pages, i), ref)
  }

  lemma {:induction false} PrefixOk(t: Store, owner: string, outbound: nat, pages: seq<PageTurn>, i: nat)
    requires i <= |pages| && Follows(t, owner, outbound, pages)
    ensures Follows(t, owner, outbound, pages[..i]) && (i < |pages| ==> Through(t, owner, outbound, pages[..i]).Ok?)
  {
    hide *;
    if i < |pages| {
      FrontOk(t, owner, outbound, pages);
      PrefixOk(t, owner, outbound, pages[..|pages| - 1], i);
      assert pages[..|pages| - 1][..i] == pages[..i];
    } else {
      assert pages[..i] == pages;
    }
  }

  /** What the last page finds: consistent databases, the target as it has evolved since the page before. */
  lemma FrontOk(t: Store, owner: string, outbound: nat, pages: seq<PageTurn>)
    requires pages != [] && Follows(t, owner, outbound, pages)
    ensures var front, last := pages[..|pages| - 1], pages[|pages| - 1];
      && Follows(t, owner, outbound, front) && Through(t, owner, outbound, front).Ok?
      && Inv(last.source) && Inv(last.target) && last.turn.limit >= 1 && Rows(last.source)
      && Evolves(Through(t, owner, outbound, front).value.0, last.target)
      && front == pages[..|pages| - 1] && (forall i :: 0 <= i < |front| ==> front[i] == pages[i])
  {
    hide Evolves, Inv, Rows;
    InvRows(pages[|pages| - 1].source);
  }

  /** What a sequence of pages that are all taken hands on. */
  lemma PageOk(t: Store, owner: string, outbound: nat, pages: seq<PageTurn>)
    requires pages != [] && Follows(t, owner, outbound, pages) && Through(t, owner, outbound, pages).Ok?
    requires Through(t, owner, outbound, pages[..|pages| - 1]).Ok?
    ensures var front, last := pages[..|pages| - 1], pages[|pages| - 1];
      var p := PassAt(last, Through(t, owner, outbound, front).value.1);
      && Takes(p, outbound, last.turn) && TakePage(p, owner, outbound, last.turn).Ok?
      && Through(t, owner, outbound, pages).value ==
           (TakePage(p, owner, outbound, last.turn).value.target, TakePage(p, owner, outbound, last.turn).value.mirrored)
  {
    hide Takes, TakePage, Evolves, Inv;
  }

  /**
   From the start of the pass to what any page leaves, however that page ends, the target is consistent and only went
   forward, and no page lowers a version or tombstone version.
   */
  lemma {:induction false} ThroughEvolves(t: Store, owner: string, outbound: nat, pages: seq<PageTurn>)
    requires Inv(t) && pages != [] && Follows(t, owner, outbound, pages)
    ensures Through(t, owner, outbound, pages[..|pages| - 1]).Ok? && pages[|pages| - 1].turn.limit >= 1 && Rows(pages[|pages| - 1].source)
    ensures var found := pages[|pages| - 1].target; var u := LeftBy(t, owner, outbound, pages, |pages| - 1);
      && Inv(found) && Evolves(t, found)
      && Inv(u) && Evolves(t, u) && Rises(found, u)
  {
    hide Inv, TakePage, Evolves, Rises, Through, Follows, Ended, Begin, Rows, Takes;
    var n := |pages| - 1;
    var front, last := pages[..n], pages[n];
    FrontOk(t, owner, outbound, pages);
    var before := Through(t, owner, outbound, front).value;
    if front == [] {
      NoPages(t, owner, outbound);
      EvolvesRefl(t);
    } else {
      ThroughEvolves(t, owner, outbound, front);
      FrontOk(t, owner, outbound, front);
      LeftIsHandedOn(t, owner, outbound, front);
    }
    var p := PassAt(last, before.1);
    EndKeeps(p, owner, outbound, last.turn);
    PageNeverLowers(p, owner, outbound, last.turn);
    InvLog(before.0);
    InvLog(last.target);
    EvolvesTrans(t, before.0, last.target);
    EvolvesTrans(t, last.target, Ended(p, owner, outbound, last.turn).1);
  }

  /** A page that is taken hands on what it leaves. */
  lemma LeftIsHandedOn(t: Store, owner: string, outbound: nat, pages: seq<PageTurn>)
    requires pages != [] && Follows(t, owner, outbound, pages) && Through(t, owner, outbound, pages).Ok?
    requires Through(t, owner, outbound, pages[..|pages| - 1]).Ok? && pages[|pages| - 1].turn.limit >= 1 && Rows(pages[|pages| - 1].source)
    ensures Through(t, owner, outbound, pages).value.0 == LeftBy(t, owner, outbound, pages, |pages| - 1)
  {
    hide Takes, TakePage, Evolves, Inv, Through, Follows, Ended, Begin, Diverged, NoneRejected, Rows;
    PageOk(t, owner, outbound, pages);
    var last := pages[|pages| - 1];
    EndedTaken(PassAt(last, Through(t, owner, outbound, pages[..|pages| - 1]).value.1), owner, outbound, last.turn);
  }

  lemma NoPages(t: Store, owner: string, outbound: nat)
    ensures Through(t, owner, outbound, []) == Ok((t, {}))
  {
  }

  /** A change beyond the outward cursor stays beyond it, whatever the target goes through. */
  lemma StaysUnmirrored(t: Store, u: Store, ref: Ref, outbound: nat)
    requires Evolves(t, u) && outbound < t.nextRevision && LatestRevision(t.log, ref) > outbound
    ensures LatestRevision(u.log, ref) > outbound && outbound < u.nextRevision
  {
    assert Moved(t, u, ref);
  }

  /** Exactly the entities that some page wrote are in the mirrored set. */
  lemma {:induction false} MirroredIff(t: Store, owner: string, outbound: nat, pages: seq<PageTurn>, ref: Ref)
    requires Follows(t, owner, outbound, pages) && Through(t, owner, outbound, pages).Ok?
    ensures ref in Through(t, owner, outbound, pages).value.1 <==> exists i :: 0 <= i < |pages| && WroteAt(t, owner, outbound, pages, i, ref)
  {
    hide Takes, TakePage, Evolves, Inv, PageFor, Decide, Mirror.Written, WroteAt, Through, Follows, Rows;
    if pages == [] {
      NoPages(t, owner, outbound);
    } else {
      var n := |pages| - 1;
      var front := pages[..n];
      FrontOk(t, owner, outbound, pages);
      MirroredIff(t, owner, outbound, front, ref);
      LastMirrored(t, owner, outbound, pages, ref);
      forall i | 0 <= i < n ensures WroteAt(t, owner, outbound, pages, i, ref) <==> WroteAt(t, owner, outbound, front, i, ref) {
        WroteEarlier(t, owner, outbound, pages, i, ref);
      }
    }
  }

  lemma WroteEarlier(t: Store, owner: string, outbound: nat, pages: seq<PageTurn>, i: nat, ref: Ref)
    requires i < |pages| - 1
    ensures WroteAt(t, owner, outbound, pages, i, ref) <==> WroteAt(t, owner, outbound, pages[..|pages| - 1], i, ref)
  {
    hide Through, PageFor, Touches;
    assert pages[..|pages| - 1][..i] == pages[..i];
  }

  lemma LastMirrored(t: Store, owner: string, outbound: nat, pages: seq<PageTurn>, ref: Ref)
    requires pages != [] && Follows(t, owner, outbound, pages) && Through(t, owner, outbound, pages).Ok?
    requires Through(t, owner, outbound, pages[..|pages| - 1]).Ok?
    ensures ref in Through(t, owner, outbound, pages).value.1 <==>
      ref in Through(t, owner, outbound, pages[..|pages| - 1]).value.1 || WroteAt(t, owner, outbound, pages, |pages| - 1, ref)
  {
    hide TakePage, Evolves, Inv, PageOf, Decide, Mirror.Written, Through, Follows, Touches;
    PageOk(t, owner, outbound, pages);
    var last := pages[|pages| - 1];
    var p := PassAt(last, Through(t, owner, outbound, pages[..|pages| - 1]).value.1);
    WrittenIs(p.source, p.target, PageFor(p, owner, last.turn), outbound, p.mirrored, ref);
    DetailsFacts(p, owner, outbound, last.turn);
    NextIsTaken(p, owner, outbound, last.turn);
  }

  /**
   Mirror safety. For every sequence of pages, the last of which may end in any error, whatever happens to the source between
   them and whatever the users of the target do to it: an entity of the target that changed since it was last mirrored
   outward, and that its users keep live, is left exactly as it is by every page, unless an earlier page, or this one, copied
   the very same content over it. A pass that would have to choose between two contents ends in an error instead.
   */
  lemma {:induction false} UnmirroredLiveIsNeverLost(t: Store, owner: string, outbound: nat, pages: seq<PageTurn>, ref: Ref)
    requires Inv(t) && outbound < t.nextRevision && LatestRevision(t.log, ref) > outbound
    requires Follows(t, owner, outbound, pages)
    requires forall i :: 0 <= i < |pages| ==> LiveAt(pages[i].target, ref)
    ensures
      || (exists i :: 0 <= i < |pages| && SameCopiedAt(t, owner, outbound, pages, i, ref))
      || (&& (Through(t, owner, outbound, pages).Ok? ==> ref !in Through(t, owner, outbound, pages).value.1)
          && forall i :: 0 <= i < |pages| ==> SparedAt(t, owner, outbound, pages, i, ref))
  {
    hide *;
    if pages == [] {
      NoPages(t, owner, outbound);
    } else {
      var n := |pages| - 1;
      var front, last := pages[..n], pages[n];
      FrontOk(t, owner, outbound, pages);
      forall i | 0 <= i < n ensures LiveAt(front[i].target, ref) {
        assert front[i] == pages[i];
      }
      UnmirroredLiveIsNeverLost(t, owner, outbound, front, ref);
      if i :| 0 <= i < n && SameCopiedAt(t, owner, outbound, front, i, ref) {
        CopiedEarlier(t, owner, outbound, pages, i, ref);
      } else {
        LastPageSpares(t, owner, outbound, pages, ref);
        forall i | 0 <= i < n ensures SparedAt(t, owner, outbound, pages, i, ref) {
          SparedEarlier(t, owner, outbound, pages, i, ref);
        }
      }
    }
  }

  lemma LastPageSpares(t: Store, owner: string, outbound: nat, pages: seq<PageTurn>, ref: Ref)
    requires Inv(t) && outbound < t.nextRevision && LatestRevision(t.log, ref) > outbound
    requires pages != [] && Follows(t, owner, outbound, pages)
    requires LiveAt(pages[|pages| - 1].target, ref)
    requires Through(t, owner, outbound, pages[..|pages| - 1]).Ok? && ref !in Through(t, owner, outbound, pages[..|pages| - 1]).value.1
    ensures
      || SameCopiedAt(t, owner, outbound, pages, |pages| - 1, ref)
      || (SparedAt(t, owner, outbound, pages, |pages| - 1, ref)
          && (Through(t, owner, outbound, pages).Ok? ==> ref !in Through(t, owner, outbound, pages).value.1))
  {
    hide Inv, TakePage, Evolves, Rises, SameAt, SameCopiedAt, CopiesSame, LiveAt, Through, Follows, Ended, Begin, Rows;
    var n := |pages| - 1;
    var last := pages[n];
    FrontOk(t, owner, outbound, pages);
    var p := PassAt(last, Through(t, owner, outbound, pages[..n]).value.1);
    ThroughEvolves(t, owner, outbound, pages);
    StaysUnmirrored(t, last.target, ref, outbound);
    UnmirroredSurvivesPage(p, owner, outbound, last.turn, ref);
    if CopiesSame(p, owner, outbound, last.turn, ref) {
      CopiedNow(t, owner, outbound, pages, ref);
    }
    if Through(t, owner, outbound, pages).Ok? {
      PageOk(t, owner, outbound, pages);
    }
  }

  lemma SparedEarlier(t: Store, owner: string, outbound: nat, pages: seq<PageTurn>, i: nat, ref: Ref)
    requires i < |pages| - 1 && SparedAt(t, owner, outbound, pages[..|pages| - 1], i, ref)
    ensures SparedAt(t, owner, outbound, pages, i, ref)
  {
    hide Through, SameAt, Ended, Rows;
    assert pages[..|pages| - 1][..i] == pages[..i];
  }

  lemma CopiedEarlier(t: Store, owner: string, outbound: nat, pages: seq<PageTurn>, i: nat, ref: Ref)
    requires i < |pages| - 1 && SameCopiedAt(t, owner, outbound, pages[..|pages| - 1], i, ref)
    ensures SameCopiedAt(t, owner, outbound, pages, i, ref)
  {
    hide Through, CopiesSame;
    assert pages[..|pages| - 1][..i] == pages[..i];
  }

  lemma CopiedNow(t: Store, owner: string, outbound: nat, pages: seq<PageTurn>, ref: Ref)
    requires pages != [] && Through(t, owner, outbound, pages[..|pages| - 1]).Ok? && pages[|pages| - 1].turn.limit >= 1
    requires CopiesSame(PassAt(pages[|pages| - 1], Through(t, owner, outbound, pages[..|pages| - 1]).value.1), owner, outbound, pages[|pages| - 1].turn, ref)
    ensures SameCopiedAt(t, owner, outbound, pages, |pages| - 1, ref)
  {
    hide Through, CopiesSame;
  }

  /**
   And exactly when one is lost: a page of the pass, however it ends, replaces or removes the content of such an entity if and
   only if it does not diverge and brings another content, for which an earlier page of the same pass must have written
   the entity (or the content is the same and only dead references go). The guard trusts its own writes, and so does not see
   what the users of the target changed since.
   */
  lemma LostIffWrittenBefore(t: Store, owner: string, outbound: nat, pages: seq<PageTurn>, i: nat, ref: Ref)
    requires Inv(t) && outbound < t.nextRevision && Follows(t, owner, outbound, pages)
    requires i < |pages| && LiveAt(pages[i].target, ref) && LatestRevision(pages[i].target.log, ref) > outbound
    ensures Through(t, owner, outbound, pages[..i]).Ok? && pages[i].turn.limit >= 1 && Rows(pages[i].source)
    ensures var p := Meets(t, owner, outbound, pages, i);
      Lost(pages[i].target, LeftBy(t, owner, outbound, pages, i), ref) <==>
        && !Diverged(p, owner, outbound, pages[i].turn)
        && Replaces(p, owner, outbound, pages[i].turn, ref, exists j :: 0 <= j < i && WroteAt(t, owner, outbound, pages, j, ref))
  {
    hide Inv, TakePage, Evolves, Rises, Lost, Replaces, Through, Follows, WroteAt, Diverged, Ended, Begin, Rows;
    PrefixOk(t, owner, outbound, pages, i);
    PrefixOk(t, owner, outbound, pages, i + 1);
    assert pages[..i + 1][..i] == pages[..i];
    FrontOk(t, owner, outbound, pages[..i + 1]);
    ThroughEvolves(t, owner, outbound, pages[..i + 1]);
    NextStaysBeyond(t, pages[i].target, outbound);
    PageReplacesIff(Meets(t, owner, outbound, pages, i), owner, outbound, pages[i].turn, ref);
    MirroredIff(t, owner, outbound, pages[..i], ref);
    forall j | 0 <= j < i ensures WroteAt(t, owner, outbound, pages[..i], j, ref) <==> WroteAt(t, owner, outbound, pages, j, ref) {
      WroteInPrefix(t, owner, outbound, pages, i, j, ref);
    }
  }

  lemma NextStaysBeyond(t: Store, u: Store, outbound: nat)
    requires Evolves(t, u) && outbound < t.nextRevision
    ensures outbound < u.nextRevision
  {
  }

  lemma WroteInPrefix(t: Store, owner: string, outbound: nat, pages: seq<PageTurn>, i: nat, j: nat, ref: Ref)
    requires j < i <= |pages|
    ensures WroteAt(t, owner, outbound, pages[..i], j, ref) <==> WroteAt(t, owner, outbound, pages, j, ref)
  {
    hide Through, PageFor, Touches;
    assert pages[..i][..j] == pages[..j];
  }
}
