/** A mirror pass during which an edit of the target is lost: the pass wrote the note, and trusts that nobody else did since. */
module MirrorLoss {
  import opened Wrappers
  import opened SyncSpec
  import opened Tables
  import opened Push
  import opened Pull
  import opened Mirror
  import opened MirrorPage
  import opened MirrorSafety
  import opened MirrorExamples

  const OWNER := "o"
  const NOTE := Ref(OWNER, NoteKind, "n")
  const OTHER := Ref(OWNER, NoteKind, "m")

  /** A note with the given title, its version also its time. */
  function N(id: string, title: string, version: nat): Entity {
    NoteEntity(Note(id, title, "", None, None, [], None, 0, version, None, None, false, "d", version))
  }

  const X := N("n", "x", 1)
  const Y := N("n", "y", 2)
  const Z := N("n", "z", 3)
  const M := N("m", "m", 1)

  const E1 := Entry(1, NOTE, Upsert)
  const E2 := Entry(2, OTHER, Upsert)
  const E3 := Entry(3, NOTE, Upsert)

  /** The source holds two notes; later the first one has changed (and the log was compacted). */
  const FIRST := Put(Put(EMPTY, NOTE, X, 9), OTHER, M, 9)
  const LATER := Store(map[NOTE := Row(Z, None), OTHER := Row(M, None)], map[], [E2, E3], 4)

  /** The target: what page one brings, what its own user makes of that, what pages two and three leave. */
  const BROUGHT := Put(EMPTY, NOTE, X, 9)
  const EDITED := Put(BROUGHT, NOTE, Y, 9)
  const MORE := Put(EDITED, OTHER, M, 9)
  const REPLACED := Put(MORE, NOTE, Z, 9)

  /** The rows are large ones: each fills the byte budget of a page. */
  const TURN := Turn(1, [], 9)
  const PAGES := [PageTurn(FIRST, EMPTY, 0, TURN), PageTurn(LATER, EDITED, 1, TURN), PageTurn(LATER, MORE, 2, TURN)]

  lemma Consistent()
    ensures Inv(EMPTY) && Inv(FIRST) && Inv(LATER) && Inv(EDITED) && Inv(MORE)
    ensures Evolves(EMPTY, EMPTY) && Evolves(BROUGHT, EDITED) && Evolves(MORE, MORE)
    ensures Rows(FIRST) && Rows(LATER)
  {
    hide Put, Inv, Evolves;
    EmptyOk();
    EvolvesRefl(EMPTY);
    PutKeeps(EMPTY, NOTE, X, 9);
    PutKeeps(BROUGHT, OTHER, M, 9);
    LaterOk();
    PutKeeps(BROUGHT, NOTE, Y, 9);
    PutKeeps(EDITED, OTHER, M, 9);
    EvolvesRefl(MORE);
    InvRows(FIRST);
    InvRows(LATER);
  }

  lemma LaterOk()
    ensures Inv(LATER)
  {
    assert LATER.log[..1] == [E2] && LATER.log[..1][..0] == [];
    forall ref ensures EntityOk(LATER, ref) {}
  }

  lemma FirstLog()
    ensures FIRST.log == [E1, E2] && NOTE in FIRST.rows && FIRST.rows[NOTE].entity == X
  {
    assert "n"[0] != "m"[0];
  }

  /** The first page, with a second row still to come. */
  lemma FirstPage()
    ensures PageOf(Still(FIRST), OWNER, 0, 1) == Page(1, [E1], map[NOTE := X], true, 1)
  {
    FirstLog();
    hide PageOf, Window, CurrentRevision, LatestInWindow, LatestUpTo, Put;
    assert [] + [E1] == [E1] && [E1] + [E2] == [E1, E2];
    CurrentLast([E1], E2, OWNER);
    WindowNone(OWNER, 0, 2);
    WindowLast([], E1, OWNER, 0, 2);
    WindowLast([E1], E2, OWNER, 0, 2);
    WindowNone(OWNER, 0, 1);
    WindowLast([], E1, OWNER, 0, 1);
    WindowLast([E1], E2, OWNER, 0, 1);
    UpToLast([E1], E2, NOTE, 1);
    UpToLast([], E1, NOTE, 1);
    LatestInOne(FIRST.log, OWNER, 0, 1, E1);
    PageOfOne(FIRST, OWNER, 0, 1, E1, true);
  }

  lemma LaterPages()
    ensures PageOf(Still(LATER), OWNER, 1, 1) == Page(2, [E2], map[OTHER := M], true, 1)
    ensures PageOf(Still(LATER), OWNER, 2, 1) == Page(3, [E3], map[NOTE := Z], false, 1)
  {
    hide PageOf, Window, CurrentRevision, LatestInWindow, LatestUpTo;
    assert "n"[0] != "m"[0];
    assert [] + [E2] == [E2] && [E2] + [E3] == LATER.log;
    CurrentLast([E2], E3, OWNER);
    WindowNone(OWNER, 1, 3);
    WindowLast([], E2, OWNER, 1, 3);
    WindowLast([E2], E3, OWNER, 1, 3);
    WindowNone(OWNER, 1, 2);
    WindowLast([], E2, OWNER, 1, 2);
    WindowLast([E2], E3, OWNER, 1, 2);
    UpToLast([E2], E3, OTHER, 2);
    UpToLast([], E2, OTHER, 2);
    LatestInOne(LATER.log, OWNER, 1, 2, E2);
    PageOfOne(LATER, OWNER, 1, 1, E2, true);
    WindowNone(OWNER, 2, 3);
    WindowLast([], E2, OWNER, 2, 3);
    WindowLast([E2], E3, OWNER, 2, 3);
    UpToLast([E2], E3, NOTE, 3);
    LatestInOne(LATER.log, OWNER, 2, 3, E3);
    PageOfOne(LATER, OWNER, 2, 1, E3, false);
  }

  lemma TextsDiffer()
    ensures CoreOf(Y) != CoreOf(X) && CoreOf(Z) != CoreOf(Y)
    ensures ContentOf(Y) != ContentOf(X) && ContentOf(Z) != ContentOf(Y) && RecordsDiffer(Z, Y)
  {
    assert "x"[0] != "y"[0] && "y"[0] != "z"[0];
    assert KeyOfText(None, "x") == ByText("x") && KeyOfText(None, "y") == ByText("y") && KeyOfText(None, "z") == ByText("z");
    RecordsDifferIffContentDiffers(Z, Y);
  }

  lemma Targets()
    ensures NOTE in BROUGHT.rows && BROUGHT.rows[NOTE].entity == X
    ensures NOTE in EDITED.rows && EDITED.rows[NOTE].entity == Y && OTHER !in EDITED.rows && OTHER !in EDITED.tombs
    ensures NOTE in MORE.rows && MORE.rows[NOTE].entity == Y
    ensures NOTE in REPLACED.rows && REPLACED.rows[NOTE].entity == Z
    ensures LatestRevision(EDITED.log, NOTE) == 2 && EDITED.nextRevision == 3 && BROUGHT.nextRevision == 2
    ensures LatestRevision(MORE.log, NOTE) == 2 && MORE.nextRevision == 4
  {
    assert "n"[0] != "m"[0];
    LatestAppend(EDITED.log, Entry(3, OTHER, Upsert), NOTE);
    LatestAppend(BROUGHT.log, Entry(2, NOTE, Upsert), NOTE);
  }

  lemma Verdicts()
    ensures NoteVerdict(EMPTY, OWNER, Change(X, 0), MIRROR) == Push.Written(X)
    ensures NoteVerdict(EDITED, OWNER, Change(M, 0), MIRROR) == Push.Written(M)
    ensures NoteVerdict(MORE, OWNER, Change(Z, 2), MIRROR) == Push.Written(Z)
  {
    Targets();
    hide Syncable, RecordsDiffer, Put;
    NothingToDrop(EMPTY, OWNER, X.note);
    NothingToDrop(EDITED, OWNER, M.note);
    NothingToDrop(MORE, OWNER, Z.note);
    TextsDiffer();
  }

  lemma Decisions()
    ensures DecideUpsert(X, EMPTY, NOTE, Clean(EMPTY, NOTE, 0, {})) == Copy(X, 0)
    ensures DecideUpsert(M, EDITED, OTHER, Clean(EDITED, OTHER, 0, {NOTE})) == Copy(M, 0)
    ensures DecideUpsert(Z, MORE, NOTE, Clean(MORE, NOTE, 0, {NOTE, OTHER})) == Copy(Z, 2)
  {
    Targets();
    hide RecordsDiffer, Put;
    TextsDiffer();
  }

  lemma FirstTaken()
    ensures Rows(FIRST)
    ensures var r := TakePage(Pass(FIRST, EMPTY, 0, {}, true), OWNER, 0, TURN);
      r.Ok? && r.value.target == BROUGHT && r.value.mirrored == {NOTE}
  {
    hide PageOf, TakePage, NoteVerdict, DecideUpsert, Put, Inv;
    Consistent();
    FirstPage();
    Verdicts();
    Decisions();
    CopyNotePage(Pass(FIRST, EMPTY, 0, {}, true), OWNER, 0, TURN, X, E1, 0, X, true);
    assert {} + {NOTE} == {NOTE};
  }

  lemma SecondTaken()
    ensures Rows(LATER)
    ensures var r := TakePage(Pass(LATER, EDITED, 1, {NOTE}, true), OWNER, 0, TURN);
      r.Ok? && r.value.target == MORE && r.value.mirrored == {NOTE, OTHER}
  {
    hide PageOf, TakePage, NoteVerdict, DecideUpsert, Put, Inv;
    Consistent();
    LaterPages();
    Verdicts();
    Decisions();
    CopyNotePage(Pass(LATER, EDITED, 1, {NOTE}, true), OWNER, 0, TURN, M, E2, 0, M, true);
    assert {NOTE} + {OTHER} == {NOTE, OTHER};
  }

  lemma ThirdTaken()
    ensures Rows(LATER)
    ensures var r := TakePage(Pass(LATER, MORE, 2, {NOTE, OTHER}, true), OWNER, 0, TURN);
      r.Ok? && r.value.target == REPLACED && r.value.mirrored == {NOTE, OTHER}
  {
    hide PageOf, TakePage, NoteVerdict, DecideUpsert, Put, Inv;
    Consistent();
    LaterPages();
    Verdicts();
    Decisions();
    CopyNotePage(Pass(LATER, MORE, 2, {NOTE, OTHER}, true), OWNER, 0, TURN, Z, E3, 2, Z, false);
    assert {NOTE, OTHER} + {NOTE} == {NOTE, OTHER};
  }

  /** One more page of a sequence. */
  lemma OneMorePage(t: Store, pages: seq<PageTurn>, last: PageTurn, target: Store, mirrored: set<Ref>, next: Store, written: set<Ref>)
    requires Follows(t, OWNER, 0, pages) && Through(t, OWNER, 0, pages) == Ok((target, mirrored)) && Evolves(target, last.target)
    requires Inv(last.source) && Inv(last.target) && Rows(last.source) && last.turn.limit >= 1 && 0 < last.target.nextRevision
    requires var r := TakePage(Pass(last.source, last.target, last.cursor, mirrored, true), OWNER, 0, last.turn);
      r.Ok? && r.value.target == next && r.value.mirrored == written
    ensures Follows(t, OWNER, 0, pages + [last]) && Through(t, OWNER, 0, pages + [last]) == Ok((next, written))
  {
    hide TakePage, Inv, Evolves, Rows;
    assert (pages + [last])[..|pages|] == pages;
  }

  lemma PassTaken()
    ensures Follows(EMPTY, OWNER, 0, PAGES) && Through(EMPTY, OWNER, 0, PAGES) == Ok((REPLACED, {NOTE, OTHER}))
    ensures Through(EMPTY, OWNER, 0, PAGES[..1]) == Ok((BROUGHT, {NOTE})) && Through(EMPTY, OWNER, 0, PAGES[..2]) == Ok((MORE, {NOTE, OTHER}))
  {
    FirstTaken();
    SecondTaken();
    ThirdTaken();
    Consistent();
    Targets();
    Nothing();
    hide TakePage, Inv, Evolves, Rows, Put, Follows, Through;
    OneMorePage(EMPTY, [], PAGES[0], EMPTY, {}, BROUGHT, {NOTE});
    assert [] + [PAGES[0]] == PAGES[..1];
    OneMorePage(EMPTY, PAGES[..1], PAGES[1], BROUGHT, {NOTE}, MORE, {NOTE, OTHER});
    assert PAGES[..1] + [PAGES[1]] == PAGES[..2];
    OneMorePage(EMPTY, PAGES[..2], PAGES[2], MORE, {NOTE, OTHER}, REPLACED, {NOTE, OTHER});
    assert PAGES[..2] + [PAGES[2]] == PAGES;
  }

  lemma Nothing()
    ensures Follows(EMPTY, OWNER, 0, []) && Through(EMPTY, OWNER, 0, []) == Ok((EMPTY, {}))
  {
  }

  /** The pages of one pass of the source's loop: it starts at the stored cursor, and goes on exactly while there is more. */
  ghost predicate OnePass(owner: string, cursor: nat, pages: seq<PageTurn>) {
    && pages != [] && pages[0].cursor == cursor
    && (forall i :: 0 <= i < |pages| ==>
          pages[i].turn.limit >= 1 && ServedPage(pages[i].source, owner, pages[i].cursor) == Ok(PageAt(owner, pages[i])))
    && (forall i :: 0 <= i < |pages| && pages[i].turn.limit >= 1 ==>
          (PageAt(owner, pages[i]).hasMore <==> i < |pages| - 1)
          && (i < |pages| - 1 ==> pages[i + 1].cursor == PageAt(owner, pages[i]).serverRevision))
  }

  function PageAt(owner: string, p: PageTurn): Page
    requires p.turn.limit >= 1
  {
    PageOf(Still(p.source), owner, p.cursor, p.turn.limit)
  }

  lemma PagesAreOnePass()
    ensures OnePass(OWNER, 0, PAGES)
  {
    hide PageOf, ServedPage, Put;
    FirstPage();
    LaterPages();
    LargeRowsComeOneByOne(FIRST, OWNER, 0);
    LargeRowsComeOneByOne(LATER, OWNER, 1);
    LargeRowsComeOneByOne(LATER, OWNER, 2);
  }

  /** The text of the entity in a target. */
  function TextAt(t: Store, ref: Ref): Option<Core> {
    if ref in t.rows then Some(CoreOf(t.rows[ref].entity)) else None
  }

  /** Page `i` finds the target as the page before it left it. */
  ghost predicate Undisturbed(t: Store, owner: string, outbound: nat, pages: seq<PageTurn>, i: nat)
    requires i < |pages|
  {
    Through(t, owner, outbound, pages[..i]).Ok? && pages[i].target == Through(t, owner, outbound, pages[..i]).value.0
  }

  /**
   One pass of three pages without an error: the first leaves a text of the entity, a user of the target replaces it, nobody
   else writes there, and what the pass leaves is not what the user wrote.
   */
  ghost predicate LosesAnEdit(t: Store, owner: string, outbound: nat, pages: seq<PageTurn>, ref: Ref) {
    && Inv(t) && outbound < t.nextRevision && |pages| == 3 && OnePass(owner, 0, pages)
    && Follows(t, owner, outbound, pages) && Through(t, owner, outbound, pages).Ok? && Through(t, owner, outbound, pages[..1]).Ok?
    && LiveAt(pages[1].target, ref) && LatestRevision(pages[1].target.log, ref) > outbound
    && TextAt(Through(t, owner, outbound, pages[..1]).value.0, ref) != TextAt(pages[1].target, ref)
    && Undisturbed(t, owner, outbound, pages, 2)
    && TextAt(Through(t, owner, outbound, pages).value.0, ref) != TextAt(pages[1].target, ref)
  }

  /** So there is a pass that ends well and loses an edit of the target: nobody is told. */
  lemma EditDuringPassIsLost()
    ensures exists t, owner, outbound, pages, ref :: LosesAnEdit(t, owner, outbound, pages, ref)
  {
    PassTaken();
    PagesAreOnePass();
    Consistent();
    TextsDiffer();
    Targets();
    hide TakePage, Inv, Evolves, Rows, Follows, Through, OnePass, Put, CoreOf;
    assert LosesAnEdit(EMPTY, OWNER, 0, PAGES, NOTE);
  }
}
