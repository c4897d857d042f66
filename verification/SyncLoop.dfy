/** The two loops of a client's sync run: push the pending changes in batches, then pull until there is no more. */
module SyncLoop {
  import opened Wrappers
  import opened SyncSpec
  import opened Tables
  import opened Push
  import opened Pull

  const PUSH_BATCH_SIZE := 20

  /******* Pushing *******/

  function AllOf(batches: seq<Request>, kind: Kind): seq<Change> {
    if batches == [] then []
    else AllOf(batches[..|batches| - 1], kind) + (var b := batches[|batches| - 1]; if kind == NotebookKind then b.notebooks else b.notes)
  }

  lemma AllOfLast(batches: seq<Request>, b: Request, kind: Kind)
    ensures AllOf(batches + [b], kind) == AllOf(batches, kind) + (if kind == NotebookKind then b.notebooks else b.notes)
  {
    assert (batches + [b])[..|batches|] == batches;
  }

  function Size(b: Request): nat { |b.notebooks| + |b.notes| }

  /** No note is sent before a batch that finishes the notebooks. */
  ghost predicate NotebooksFirst(batches: seq<Request>, notebooks: seq<Change>) {
    forall i :: 0 <= i < |batches| && batches[i].notes != [] ==> AllOf(batches[..i + 1], NotebookKind) == notebooks
  }

  /** Batches of 1 to 20 changes, of which all but the last are full. */
  ghost predicate Sized(batches: seq<Request>) {
    && (forall i :: 0 <= i < |batches| ==> 1 <= Size(batches[i]) <= PUSH_BATCH_SIZE)
    && (forall i :: 0 <= i < |batches| - 1 ==> Size(batches[i]) == PUSH_BATCH_SIZE)
  }

  ghost predicate AllFull(batches: seq<Request>) {
    forall i :: 0 <= i < |batches| ==> Size(batches[i]) == PUSH_BATCH_SIZE
  }

  lemma SizesSoFar(batches: seq<Request>, b: Request)
    requires Sized(batches) && AllFull(batches) && 1 <= Size(b) <= PUSH_BATCH_SIZE
    ensures Sized(batches + [b]) && (Size(b) == PUSH_BATCH_SIZE ==> AllFull(batches + [b]))
  {
  }

  lemma NoBatches(notebooks: seq<Change>)
    ensures Sized([]) && AllFull([]) && NotebooksFirst([], notebooks)
    ensures AllOf([], NoteKind) == [] && AllOf([], NotebookKind) == []
  {
  }

  lemma NextSlice(s: seq<Change>, i: nat, j: nat)
    requires i <= j <= |s|
    ensures s[..i] + s[i..j] == s[..j]
  {
  }

  /**
   The push loop: it ends, sends every pending change exactly once and in order, in batches of 1 to 20 of which all
   but the last are full, and sends no note before the notebooks are through.
   */
  method PushBatches(notes: seq<Change>, notebooks: seq<Change>) returns (batches: seq<Request>)
    ensures AllOf(batches, NoteKind) == notes && AllOf(batches, NotebookKind) == notebooks
    ensures Sized(batches)
    ensures NotebooksFirst(batches, notebooks)
  {
    hide AllOf, NotebooksFirst, Sized, AllFull;
    batches := [];
    var noteStart, notebookStart := 0, 0;
    NoBatches(notebooks);
    assert notes[..0] == [] && notebooks[..0] == [];
    while noteStart < |notes| || notebookStart < |notebooks|
      invariant 0 <= noteStart <= |notes| && 0 <= notebookStart <= |notebooks|
      invariant noteStart > 0 ==> notebookStart == |notebooks|
      invariant AllOf(batches, NoteKind) == notes[..noteStart] && AllOf(batches, NotebookKind) == notebooks[..notebookStart]
      invariant Sized(batches)
      invariant noteStart < |notes| || notebookStart < |notebooks| ==> AllFull(batches)
      invariant NotebooksFirst(batches, notebooks)
      decreases |notes| - noteStart + |notebooks| - notebookStart
    {
      var notebookEnd := if notebookStart + PUSH_BATCH_SIZE < |notebooks| then notebookStart + PUSH_BATCH_SIZE else |notebooks|;
      var noteSlots := PUSH_BATCH_SIZE - (notebookEnd - notebookStart);
      var noteEnd := if noteStart + noteSlots < |notes| then noteStart + noteSlots else |notes|;
      var batch := Request(notebooks[notebookStart..notebookEnd], notes[noteStart..noteEnd]);
      AllOfLast(batches, batch, NoteKind);
      AllOfLast(batches, batch, NotebookKind);
      NextSlice(notes, noteStart, noteEnd);
      NextSlice(notebooks, notebookStart, notebookEnd);
      FirstStill(batches, batch, notebooks);
      SizesSoFar(batches, batch);
      batches := batches + [batch];
      noteStart := noteEnd;
      notebookStart := notebookEnd;
    }
    assert notes[..|notes|] == notes && notebooks[..|notebooks|] == notebooks;
  }

  lemma FirstStill(batches: seq<Request>, b: Request, notebooks: seq<Change>)
    requires NotebooksFirst(batches, notebooks)
    requires b.notes != [] ==> AllOf(batches, NotebookKind) + b.notebooks == notebooks
    ensures NotebooksFirst(batches + [b], notebooks)
  {
    var all := batches + [b];
    AllOfLast(batches, b, NotebookKind);
    forall i | 0 <= i < |all| && all[i].notes != [] ensures AllOf(all[..i + 1], NotebookKind) == notebooks {
      if i < |batches| {
        assert all[..i + 1] == batches[..i + 1];
      } else {
        assert all[..i + 1] == all;
      }
    }
  }

  /******* References of the notes that are pushed *******/

  /** What the server does with the batches: `before[i]` is what batch `i` finds, anything may happen in between. */
  datatype Serving = Serving(owner: string, before: seq<Store>, scan: seq<Ref>, now: Time)

  ghost predicate Servable(batches: seq<Request>) {
    forall i :: 0 <= i < |batches| ==> WellFormed(batches[i]) && UniqueIds(batches[i].notebooks) && UniqueIds(batches[i].notes)
  }

  function Served(v: Serving, batches: seq<Request>, i: nat): Outcome
    requires i < |batches| && i < |v.before| && WellFormed(batches[i])
  {
    Run(v.before[i], v.owner, v.scan, batches[i], CLIENT, v.now)
  }

  /** Every pending notebook is accepted, and nobody deletes a live notebook between two batches. */
  ghost predicate Undisturbed(v: Serving, batches: seq<Request>)
    requires Servable(batches) && |v.before| == |batches|
  {
    && (forall i :: 0 <= i < |batches| ==> Inv(v.before[i]))
    && (forall i, j :: 0 <= i < |batches| && 0 <= j < |batches[i].notebooks| ==> Served(v, batches, i).notebooks[j].Accepted())
    && (forall i, id :: 0 < i < |batches| && LiveNotebook(Served(v, batches, i - 1).store, v.owner, id) ==> LiveNotebook(v.before[i], v.owner, id))
  }

  /** Live on the server at first and not pending, or pending and not a deletion. */
  ghost predicate Wanted(v: Serving, notebooks: seq<Change>, id: string)
    requires |v.before| > 0
  {
    || (LiveNotebook(v.before[0], v.owner, id) && forall c :: c in notebooks ==> c.record.Id() != id)
    || (exists c :: c in notebooks && c.record.Id() == id && !c.record.IsDeleted())
  }

  /** A notebook is live after the notebooks of a request if it was and is not named, or is named by a record that is not deleted. */
  lemma BatchKeepsLive(s: Store, owner: string, scan: seq<Ref>, request: Request, now: Time, id: string)
    requires Inv(s) && WellFormed(request) && UniqueIds(request.notebooks) && UniqueIds(request.notes)
    requires var o := Run(s, owner, scan, request, CLIENT, now); forall j :: 0 <= j < |request.notebooks| ==> o.notebooks[j].Accepted()
    requires
      || (LiveNotebook(s, owner, id) && forall c :: c in request.notebooks ==> c.record.Id() != id)
      || (exists c :: c in request.notebooks && c.record.Id() == id && !c.record.IsDeleted())
    ensures var o := Run(s, owner, scan, request, CLIENT, now);
      LiveNotebook(ApplyVerdicts(s, owner, o.notebooks, now), owner, id) && LiveNotebook(o.store, owner, id)
  {
    hide Inv, Run, Rises, Evolves, LawfulAll, WellFormed;
    var o := Run(s, owner, scan, request, CLIENT, now);
    var mid := ApplyVerdicts(s, owner, o.notebooks, now);
    var ref := Ref(owner, NotebookKind, id);
    RunPhases(s, owner, scan, request, CLIENT, now);
    NotesLeaveNotebooks(mid, o.store, owner, request, o.notes, ref);
    if exists c :: c in request.notebooks && c.record.Id() == id && !c.record.IsDeleted() {
      var c :| c in request.notebooks && c.record.Id() == id && !c.record.IsDeleted();
      var j :| 0 <= j < |request.notebooks| && request.notebooks[j] == c;
      AcceptedNotebookIsStored(s, owner, scan, request, CLIENT, now, j);
      StoredAlive(o.store, owner, c, o.notebooks[j], request);
    } else {
      forall j | 0 <= j < |request.notebooks| ensures RefOf(owner, request.notebooks[j].record) != ref {
        assert request.notebooks[j] in request.notebooks;
      }
      assert SameAt(s, mid, ref);
      assert RowAt(s, ref) == RowAt(mid, ref);
    }
    assert RowAt(mid, ref) == RowAt(o.store, ref);
  }

  lemma NotesLeaveNotebooks(s: Store, t: Store, owner: string, request: Request, verdicts: seq<Verdict>, ref: Ref)
    requires WellFormed(request) && |verdicts| == |request.notes| && Effect(s, t, owner, request.notes, verdicts) && ref.kind == NotebookKind
    ensures SameAt(s, t, ref)
  {
    PhasesApart(s, t, owner, request.notes, verdicts, ref);
  }

  lemma StoredAlive(t: Store, owner: string, c: Change, v: Verdict, request: Request)
    requires WellFormed(request) && c in request.notebooks && v.Accepted() && StoredAs(t, owner, c, v) && !c.record.IsDeleted()
    ensures LiveNotebook(t, owner, c.record.Id())
  {
  }

  lemma AllOfMember(batches: seq<Request>, i: nat, c: Change)
    requires i < |batches| && c in batches[i].notebooks
    ensures c in AllOf(batches, NotebookKind)
  {
    if i == |batches| - 1 {
    } else {
      AllOfMember(batches[..|batches| - 1], i, c);
    }
  }

  lemma AllOfPrefix(batches: seq<Request>, i: nat)
    requires i <= |batches|
    ensures AllOf(batches[..i], NotebookKind) <= AllOf(batches, NotebookKind)
  {
    if i < |batches| {
      AllOfPrefix(batches[..|batches| - 1], i);
      assert batches[..|batches| - 1][..i] == batches[..i];
    } else {
      assert batches[..i] == batches;
    }
  }

  /** Two pending notebooks never share an id, so a notebook is sent in one batch only. */
  lemma SentOnce(batches: seq<Request>, i: nat, c: Change, d: Change)
    requires i < |batches| && c in AllOf(batches[..i], NotebookKind) && d in batches[i].notebooks
    requires UniqueIds(AllOf(batches, NotebookKind))
    ensures c.record.Id() != d.record.Id()
  {
    hide AllOf, UniqueIds;
    var before, all := AllOf(batches[..i], NotebookKind), AllOf(batches, NotebookKind);
    AllOfPrefix(batches, i + 1);
    AllOfLast(batches[..i], batches[i], NotebookKind);
    assert batches[..i + 1] == batches[..i] + [batches[i]];
    UniqueParts(before, batches[i].notebooks, all, c, d);
  }

  lemma UniqueParts(a: seq<Change>, b: seq<Change>, all: seq<Change>, c: Change, d: Change)
    requires a + b <= all && UniqueIds(all) && c in a && d in b
    ensures c.record.Id() != d.record.Id()
  {
    var m :| 0 <= m < |a| && a[m] == c;
    var n :| 0 <= n < |b| && b[n] == d;
    assert all[m] == (a + b)[m] == c && all[|a| + n] == (a + b)[|a| + n] == d;
  }

  /** A wanted notebook that is not still to be sent is live when batch `i` starts. */
  ghost predicate Arrived(v: Serving, batches: seq<Request>, i: nat, id: string)
    requires i < |v.before| && i < |batches|
  {
    || (LiveNotebook(v.before[0], v.owner, id) && forall c :: c in AllOf(batches, NotebookKind) ==> c.record.Id() != id)
    || (exists c :: c in AllOf(batches[..i], NotebookKind) && c.record.Id() == id && !c.record.IsDeleted())
  }

  lemma {:induction false} ArrivedIsLive(v: Serving, batches: seq<Request>, i: nat, id: string)
    requires Servable(batches) && |v.before| == |batches| && i < |batches| && Undisturbed(v, batches)
    requires UniqueIds(AllOf(batches, NotebookKind)) && Arrived(v, batches, i, id)
    ensures LiveNotebook(v.before[i], v.owner, id)
  {
    hide Run, Inv, LiveNotebook, WellFormed, UniqueIds;
    if i > 0 {
      assert batches[..i] == batches[..i - 1] + [batches[i - 1]];
      AllOfLast(batches[..i - 1], batches[i - 1], NotebookKind);
      if exists c :: c in batches[i - 1].notebooks && c.record.Id() == id && !c.record.IsDeleted() {
      } else {
        assert Arrived(v, batches, i - 1, id);
        ArrivedIsLive(v, batches, i - 1, id);
        NotNamed(v, batches, i - 1, id);
      }
      BatchAccepted(v, batches, i - 1);
      BatchKeepsLive(v.before[i - 1], v.owner, v.scan, batches[i - 1], v.now, id);
      assert LiveNotebook(Served(v, batches, i - 1).store, v.owner, id);
    }
  }

  lemma BatchAccepted(v: Serving, batches: seq<Request>, i: nat)
    requires Servable(batches) && |v.before| == |batches| && i < |batches| && Undisturbed(v, batches)
    ensures Inv(v.before[i]) && WellFormed(batches[i]) && UniqueIds(batches[i].notebooks) && UniqueIds(batches[i].notes)
    ensures var o := Run(v.before[i], v.owner, v.scan, batches[i], CLIENT, v.now);
      o == Served(v, batches, i) && forall j :: 0 <= j < |batches[i].notebooks| ==> o.notebooks[j].Accepted()
  {
    hide Run, Inv, LiveNotebook, UniqueIds;
    forall j | 0 <= j < |batches[i].notebooks| ensures Run(v.before[i], v.owner, v.scan, batches[i], CLIENT, v.now).notebooks[j].Accepted() {
      assert Served(v, batches, i).notebooks[j].Accepted();
    }
  }

  lemma NotNamed(v: Serving, batches: seq<Request>, i: nat, id: string)
    requires i < |v.before| && i < |batches| && Arrived(v, batches, i, id) && UniqueIds(AllOf(batches, NotebookKind))
    ensures forall c :: c in batches[i].notebooks ==> c.record.Id() != id
  {
    forall d | d in batches[i].notebooks ensures d.record.Id() != id {
      AllOfMember(batches, i, d);
      if c :| c in AllOf(batches[..i], NotebookKind) && c.record.Id() == id && !c.record.IsDeleted() {
        SentOnce(batches, i, c, d);
      }
    }
  }

  /**
   Reference safety. If every pending notebook is accepted and nobody deletes a notebook meanwhile, the server keeps
   every reference of a pushed note to a notebook that is live or pending.
   */
  lemma ReferencesSurviveThePush(v: Serving, batches: seq<Request>, notebooks: seq<Change>, i: nat, note: Note, id: string)
    requires Servable(batches) && |v.before| == |batches| && i < |batches| && Undisturbed(v, batches)
    requires NotebooksFirst(batches, notebooks) && AllOf(batches, NotebookKind) == notebooks && UniqueIds(notebooks)
    requires (exists c :: c in batches[i].notes && c.record == NoteEntity(note)) && id in NoteNotebookIds(note)
    requires Wanted(v, notebooks, id)
    ensures id in Syncable(ApplyVerdicts(v.before[i], v.owner, Served(v, batches, i).notebooks, v.now), v.owner, note).notebookIds
  {
    hide LiveNotebook, NoteNotebookIds, Run, Undisturbed, ApplyVerdicts, NotebooksFirst, UniqueIds, AllOf, Wanted, Syncable, WellFormed;
    WantedIsLive(v, batches, notebooks, i, id);
    SyncableKeeps(ApplyVerdicts(v.before[i], v.owner, Served(v, batches, i).notebooks, v.now), v.owner, note, id);
  }

  lemma SyncableKeeps(t: Store, owner: string, note: Note, id: string)
    requires id in NoteNotebookIds(note) && LiveNotebook(t, owner, id)
    ensures id in Syncable(t, owner, note).notebookIds
  {
  }

  /** A wanted notebook is live by the time a batch with notes has written its own notebooks. */
  lemma WantedIsLive(v: Serving, batches: seq<Request>, notebooks: seq<Change>, i: nat, id: string)
    requires Servable(batches) && |v.before| == |batches| && i < |batches| && Undisturbed(v, batches)
    requires NotebooksFirst(batches, notebooks) && AllOf(batches, NotebookKind) == notebooks && UniqueIds(notebooks)
    requires batches[i].notes != [] && Wanted(v, notebooks, id)
    ensures LiveNotebook(ApplyVerdicts(v.before[i], v.owner, Served(v, batches, i).notebooks, v.now), v.owner, id)
  {
    hide Run, Inv, LiveNotebook, WellFormed, UniqueIds, ApplyVerdicts, Servable, Undisturbed, Served;
    assert batches[..i + 1] == batches[..i] + [batches[i]];
    AllOfLast(batches[..i], batches[i], NotebookKind);
    if exists c :: c in batches[i].notebooks && c.record.Id() == id && !c.record.IsDeleted() {
    } else {
      assert Arrived(v, batches, i, id);
      ArrivedIsLive(v, batches, i, id);
      NotNamed(v, batches, i, id);
    }
    BatchAccepted(v, batches, i);
    BatchKeepsLive(v.before[i], v.owner, v.scan, batches[i], v.now, id);
  }

  /******* Pulling *******/

  /** What the queries of page `k` see: tables in order, and the next page sees later ones. */
  ghost predicate InOrder(views: nat -> View, k: nat) {
    Ordered(views(k)) && Evolves(views(k).notebooks, views(k + 1).revision)
  }

  /**
   One entity after pulling from `start` to `cursor`: as in the tables when it was last logged in between, as before when it
   was not logged since the start.
   */
  ghost predicate Pulled(t: Store, owner: string, start: nat, cursor: nat, before: map<Ref, Entity>, replica: map<Ref, Entity>, ref: Ref) {
    && (ref.owner != owner || LatestRevision(t.log, ref) <= start ==> Lookup(replica, ref) == Lookup(before, ref))
    && (ref.owner == owner && start < LatestRevision(t.log, ref) <= cursor ==> Lookup(replica, ref) == EntityAt(t, ref))
  }

  /** Nothing that was logged when the last page was asked for, and is unchanged since, lies beyond the cursor. */
  ghost predicate Passed(v: View, owner: string, cursor: nat, ref: Ref) {
    ref.owner == owner && LatestRevision(v.notebooks.log, ref) <= CurrentRevision(v.revision.log, owner) ==>
      LatestRevision(v.notebooks.log, ref) <= cursor
  }

  /** An entity that was not logged beyond the cursor is the same on both sides of a page. */
  lemma PagePassesBy(t: Store, v: View, owner: string, cursor: nat, limit: nat, replica: map<Ref, Entity>, ref: Ref)
    requires Ordered(v) && Evolves(t, v.revision) && limit >= 1 && cursor < t.nextRevision
    requires ref.owner == owner && LatestRevision(v.notebooks.log, ref) <= cursor
    ensures LatestRevision(t.log, ref) == LatestRevision(v.notebooks.log, ref) && EntityAt(t, ref) == EntityAt(v.notebooks, ref)
    ensures Lookup(ApplyPage(replica, PageOf(v, owner, cursor, limit)), ref) == Lookup(replica, ref)
  {
    hide PageOf, ApplyPage, Inv, LatestInWindow;
    var page := PageOf(v, owner, cursor, limit);
    StaysPut(v, owner, ref, cursor);
    assert Moved(t, v.revision, ref);
    assert SameAt(t, v.revision, ref) && RowAt(t, ref) == RowAt(v.revision, ref);
    AppliedAt(v, owner, cursor, limit, replica, ref);
    NotListed(v, owner, cursor, limit, ref);
  }

  lemma NotListed(v: View, owner: string, cursor: nat, limit: nat, ref: Ref)
    requires Ordered(v) && limit >= 1 && LatestRevision(v.latest.log, ref) <= cursor
    ensures forall e :: e in PageOf(v, owner, cursor, limit).changes ==> e.ref != ref
  {
    hide Inv, Evolves, CurrentRevision, Window, LatestInWindow;
    Untouched(v, owner, cursor, PageOf(v, owner, cursor, limit).serverRevision, ref);
  }

  /** A page moves what was pulled from the tables before it to the tables behind it. */
  lemma PagePulls(t: Store, v: View, owner: string, start: nat, cursor: nat, limit: nat, before: map<Ref, Entity>, replica: map<Ref, Entity>, ref: Ref)
    requires Ordered(v) && Evolves(t, v.revision) && limit >= 1 && start <= cursor < t.nextRevision
    requires Pulled(t, owner, start, cursor, before, replica, ref)
    ensures var page := PageOf(v, owner, cursor, limit);
      Pulled(v.notebooks, owner, start, page.serverRevision, before, ApplyPage(replica, page), ref)
  {
    hide PageOf, ApplyPage, Inv, Evolves, LatestRevision, EntityAt;
    if ref.owner != owner {
      OtherOwnersUntouched(v, owner, cursor, limit, replica, ref);
    } else if LatestRevision(v.notebooks.log, ref) <= cursor {
      PagePassesBy(t, v, owner, cursor, limit, replica, ref);
    } else if LatestRevision(v.notebooks.log, ref) <= PageOf(v, owner, cursor, limit).serverRevision {
      CurrentIfNew(v, owner, cursor, limit, replica, ref);
    }
  }

  lemma NothingPulled(t: Store, owner: string, start: nat, before: map<Ref, Entity>, ref: Ref)
    ensures Pulled(t, owner, start, start, before, before, ref)
  {
  }

  /** A page without a successor has passed all that its first query counted. */
  lemma LastPagePasses(v: View, owner: string, since: nat, limit: nat, ref: Ref)
    requires Ordered(v) && limit >= 1 && !PageOf(v, owner, since, limit).hasMore
    ensures Passed(v, owner, Larger(since, PageOf(v, owner, since, limit).serverRevision), ref)
  {
    hide PageOf, Inv, Window, CurrentRevision, Evolves;
    var current := CurrentRevision(v.revision.log, owner);
    if ref.owner == owner && since < LatestRevision(v.notebooks.log, ref) <= current {
      var e := Latest(v.notebooks.log, ref).value;
      InvLog(v.revision);
      InvLog(v.page);
      CurrentBelowNext(v.revision, owner);
      StaysPut(v, owner, ref, current);
      LastPageRevision(v, owner, since, limit);
      WindowEndsAtMax(v.page.log, owner, since, current, e);
    }
  }

  /** A page falls behind the cursor exactly when the server has, which it has not when the cursor is from earlier tables. */
  lemma PageGoesOn(t: Store, v: View, owner: string, cursor: nat, limit: nat)
    requires Inv(t) && Ordered(v) && Evolves(t, v.revision) && limit >= 1
    ensures var page, current := PageOf(v, owner, cursor, limit), CurrentRevision(v.revision.log, owner);
      && CurrentRevision(t.log, owner) < t.nextRevision
      && CurrentRevision(t.log, owner) <= current <= CurrentRevision(v.notebooks.log, owner)
      && page.serverRevision <= current && (page.serverRevision < cursor <==> current < cursor)
      && (page.hasMore ==> page.serverRevision > cursor)
      && (cursor <= CurrentRevision(t.log, owner) ==>
            SafeRevisionCursor(page.serverRevision, cursor, page.hasMore) == Ok(page.serverRevision))
    ensures Inv(v.notebooks)
  {
    hide PageOf, Inv, CurrentRevision, Evolves;
    PageRevisionBounds(v, owner, cursor, limit);
    OrderedEvolves(v);
    InvLog(t);
    CurrentBelowNext(t, owner);
    CurrentNeverDrops(t, v.revision, owner);
    CurrentNeverDrops(v.revision, v.notebooks, owner);
    if cursor <= CurrentRevision(t.log, owner) { CursorAlwaysAdvances(t, v, owner, cursor, limit); }
  }

  /** The writers pause at last: no page's first query sees a revision beyond the bound. */
  ghost predicate Paused(views: nat -> View, owner: string, bound: nat, k: nat) {
    CurrentRevision(views(k).revision.log, owner) <= bound
  }

  /** Where the loop starts: at the stored cursor, or at 0 when the server has fallen behind it. */
  function StartOf(v: View, owner: string, lastPulled: nat): nat {
    if CurrentRevision(v.revision.log, owner) < lastPulled then 0 else lastPulled
  }

  /**
   The pull loop while everybody writes, between its pages and between the queries of a page. No cursor is ever refused; the
   cursor is reset at most once, before the first page that counts; and in the end each entity that was logged since the start
   and not written during the last page is what it is on the server, the others are as before.
   */
  method PullLoop(views: nat -> View, owner: string, lastPulled: nat, before: map<Ref, Entity>, limits: nat -> nat, ghost bound: nat)
    returns (cursor: nat, replica: map<Ref, Entity>, pages: nat)
    requires forall k: nat :: InOrder(views, k)
    requires forall k: nat :: Paused(views, owner, bound, k)
    ensures pages > 0
    ensures var v, start := views(pages - 1), StartOf(views(0), owner, lastPulled);
      && start <= cursor <= CurrentRevision(v.revision.log, owner)
      && (forall ref :: Pulled(v.notebooks, owner, start, cursor, before, replica, ref))
      && (forall ref :: Passed(v, owner, cursor, ref))
  {
    hide PageOf, Inv, ApplyPage, CurrentRevision, Evolves, Pulled, Passed, SafeRevisionCursor;
    ghost var t, last := views(0).revision, views(0);
    ghost var start := StartOf(views(0), owner, lastPulled);
    assert InOrder(views, 0) && Inv(t);
    hide Ordered;
    EvolvesRefl(t);
    pages, cursor, replica := 0, lastPulled, before;
    var hasMore, reset := true, false;
    while hasMore
      invariant Inv(t) && Evolves(t, views(pages).revision)
      invariant pages == 0 ==> cursor == lastPulled && replica == before && !reset && t == views(0).revision
      invariant pages > 0 ==> t == views(pages - 1).notebooks && start <= cursor <= CurrentRevision(t.log, owner)
      invariant pages > 0 ==> forall ref :: Pulled(t, owner, start, cursor, before, replica, ref)
      invariant pages > 0 ==> last == views(pages - 1)
      invariant !hasMore ==> pages > 0 && cursor <= CurrentRevision(last.revision.log, owner)
      invariant !hasMore ==> forall ref :: Passed(last, owner, cursor, ref)
      decreases hasMore, !reset, bound - cursor
    {
      var v := views(pages);
      var limit := Larger(1, limits(pages));
      assert InOrder(views, pages) && Paused(views, owner, bound, pages);
      var page := PageOf(v, owner, cursor, limit);
      PageGoesOn(t, v, owner, cursor, limit);
      if page.serverRevision < cursor && !reset {
        reset, cursor, pages, t, last := true, 0, pages + 1, v.notebooks, v;
        forall ref ensures Pulled(t, owner, start, 0, before, replica, ref) { NothingPulled(t, owner, 0, before, ref); }
        continue;
      }
      var next := SafeRevisionCursor(page.serverRevision, cursor, page.hasMore);
      forall ref ensures Pulled(v.notebooks, owner, start, page.serverRevision, before, ApplyPage(replica, page), ref) {
        if pages == 0 { NothingPulled(t, owner, start, before, ref); }
        PagePulls(t, v, owner, start, cursor, limit, before, replica, ref);
      }
      if !page.hasMore {
        forall ref ensures Passed(v, owner, page.serverRevision, ref) { LastPagePasses(v, owner, cursor, limit, ref); }
      }
      replica := ApplyPage(replica, page);
      cursor, hasMore, pages, t, last := next.value, page.hasMore, pages + 1, v.notebooks, v;
    }
  }
}
