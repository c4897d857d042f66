/**
 A synchronisation that ends without an error and leaves two contents: the third pass brings a note back under the version
 that resurrecting it gave, after its notebook was deleted on both sides, and stores it without the reference.
 */
module MirrorDrop {
  import opened Wrappers
  import opened SyncSpec
  import opened Tables
  import opened Push
  import opened Pull
  import opened Mirror
  import opened MirrorPage
  import opened MirrorRuns
  import opened MirrorSync
  import opened MirrorExamples
  import Seqs
  import Text

  const OWNER := "o"
  const NOTE := Ref(OWNER, NoteKind, "n")
  const BOOK := Ref(OWNER, NotebookKind, "b")

  /** The note of time 4 with the given notebooks; the notebook, live at time 1 and deleted at time 5. */
  function N(ids: seq<string>, version: nat): Entity {
    NoteEntity(Note("n", "x", "", None, None, ids, if ids == [] then None else Some(ids[0]), 0, 4, None, None, false, "d", version))
  }

  const LIVE := NotebookEntity(Notebook("b", "enc:v4:", Some("h"), 0, 1, None, "d", 1))
  const DEAD := NotebookEntity(Notebook("b", "enc:v4:", Some("h"), 0, 5, Some(5), "d", 2))

  /** Here the note is new and the notebook deleted; there the note is buried and the notebook live, all of it mirrored. */
  const HERE := Store(map[NOTE := Row(N(["b"], 3), None), BOOK := Row(DEAD, Some(5))], map[],
                      [Entry(2, NOTE, Upsert), Entry(3, BOOK, Upsert)], 4)
  const THERE := Store(map[BOOK := Row(LIVE, None)], map[NOTE := Tombstone(2, "d", 7)],
                       [Entry(1, BOOK, Upsert), Entry(2, NOTE, Delete)], 3)

  /** The two rows are large ones: each fills the byte budget of a page. */
  const TURN := Turn(1, [], 9)

  /** Resurrected there, then the notebook deleted there, then brought back here. */
  const REVIVED := Put(THERE, NOTE, N(["b"], 8), 9)
  const CLEARED := Put(REVIVED, BOOK, DEAD, 9)
  const RETURNED := Put(HERE, NOTE, N([], 8), 9)

  lemma HereInv()
    ensures Inv(HERE)
  {
    hide NoteNotebookIds;
    assert HERE.log[..1] == [Entry(2, NOTE, Upsert)] && HERE.log[..1][..0] == [];
    forall ref ensures EntityOk(HERE, ref) {}
  }

  lemma HereTidy()
    ensures TidyRows(HERE)
  {
    hide Tidy, NoteNotebookIds;
    NoteIds(["b"], 3);
    forall ref | ref in HERE.rows && HERE.rows[ref].entity.NoteEntity? ensures Tidy(HERE.rows[ref].entity.note) {
      assert ref == NOTE || ref == BOOK;
    }
  }

  lemma HereOk()
    ensures Inv(HERE) && TidyRows(HERE) && Rows(HERE)
  {
    hide *;
    HereInv();
    HereTidy();
    InvRows(HERE);
  }

  lemma ThereOk()
    ensures Inv(THERE) && TidyRows(THERE) && Rows(THERE)
  {
    assert THERE.log[..1] == [Entry(1, BOOK, Upsert)] && THERE.log[..1][..0] == [];
    forall ref ensures EntityOk(THERE, ref) {}
    InvRows(THERE);
  }

  lemma NoteIds(ids: seq<string>, version: nat)
    requires ids == ["b"] || ids == []
    ensures NoteNotebookIds(N(ids, version).note) == ids && Tidy(N(ids, version).note)
  {
    Text.TrimOfTight("b");
    NormalizedStay(ids);
    if ids == ["b"] {
      assert NormalizedId(Some("b")) == Some("b");
    }
  }

  lemma ClearedOk()
    ensures Inv(REVIVED) && Inv(CLEARED) && Rows(CLEARED)
    ensures CLEARED.log == [Entry(1, BOOK, Upsert), Entry(2, NOTE, Delete), Entry(3, NOTE, Upsert), Entry(4, BOOK, Upsert)]
    ensures CLEARED.rows == map[NOTE := Row(N(["b"], 8), None), BOOK := Row(DEAD, Some(9))]
  {
    hide Inv;
    ThereOk();
    PutKeeps(THERE, NOTE, N(["b"], 8), 9);
    PutKeeps(REVIVED, BOOK, DEAD, 9);
    InvRows(CLEARED);
  }

  /** Both databases and cursors satisfy the two-cursor invariant. */
  lemma StartOk()
    ensures PairOk(Pair(HERE, THERE, 1, 2), OWNER)
  {
    hide Inv, TidyRows, Agree;
    HereOk();
    ThereOk();
    forall ref: Ref | ref.owner == OWNER ensures SettledAt(HERE, THERE, 1, 2, ref) {
      LatestHere(ref);
      if ref != NOTE && ref != BOOK { Absent(ref); }
    }
  }

  lemma LatestHere(ref: Ref)
    ensures ref == NOTE ==> LatestRevision(HERE.log, ref) == 2
    ensures ref == BOOK ==> LatestRevision(HERE.log, ref) == 3
  {
    assert HERE.log[..1] == [Entry(2, NOTE, Upsert)];
  }

  lemma Absent(ref: Ref)
    requires ref != NOTE && ref != BOOK
    ensures Agree(HERE, THERE, ref)
  {
  }

  /******* The pages *******/

  /** Pass 1 finds nothing new. */
  lemma FirstPass()
    ensures Rows(THERE) && PageOf(Still(THERE), OWNER, 2, 1) == Page(2, [], map[], false, 0)
    ensures TakePage(Pass(THERE, HERE, 2, {}, true), OWNER, 1, TURN) == Ok(Pass(THERE, HERE, 2, {}, true))
  {
    hide TakePage, Window, CurrentRevision, Inv, LatestInWindow;
    ThereOk();
    var a, b := Entry(1, BOOK, Upsert), Entry(2, NOTE, Delete);
    assert [] + [a] == [a] && [a] + [b] == THERE.log;
    CurrentLast([a], b, OWNER);
    WindowNone(OWNER, 2, 2);
    WindowLast([], a, OWNER, 2, 2);
    WindowLast([a], b, OWNER, 2, 2);
    EmptyPage(Pass(THERE, HERE, 2, {}, true), OWNER, 1, TURN, 2);
  }

  lemma HerePages()
    ensures PageOf(Still(HERE), OWNER, 1, 1) == Page(2, [Entry(2, NOTE, Upsert)], map[NOTE := N(["b"], 3)], true, 1)
    ensures PageOf(Still(HERE), OWNER, 2, 1) == Page(3, [Entry(3, BOOK, Upsert)], map[BOOK := DEAD], false, 1)
  {
    hide PageOf, Window, CurrentRevision, LatestInWindow, LatestUpTo;
    var a, b := Entry(2, NOTE, Upsert), Entry(3, BOOK, Upsert);
    assert [] + [a] == [a] && [a] + [b] == HERE.log;
    CurrentLast([a], b, OWNER);
    WindowNone(OWNER, 1, 3);
    WindowLast([], a, OWNER, 1, 3);
    WindowLast([a], b, OWNER, 1, 3);
    assert Window(HERE.log, OWNER, 1, 3) == [a, b];
    WindowNone(OWNER, 1, 2);
    WindowLast([], a, OWNER, 1, 2);
    WindowLast([a], b, OWNER, 1, 2);
    UpToNone(NOTE, 2);
    UpToLast([], a, NOTE, 2);
    UpToLast([a], b, NOTE, 2);
    LatestInOne(HERE.log, OWNER, 1, 2, a);
    PageOfOne(HERE, OWNER, 1, 1, a, true);
    WindowNone(OWNER, 2, 3);
    WindowLast([], a, OWNER, 2, 3);
    WindowLast([a], b, OWNER, 2, 3);
    UpToLast([a], b, BOOK, 3);
    LatestInOne(HERE.log, OWNER, 2, 3, b);
    PageOfOne(HERE, OWNER, 2, 1, b, false);
  }

  lemma ClearedPages()
    ensures PageOf(Still(CLEARED), OWNER, 2, 1) == Page(3, [Entry(3, NOTE, Upsert)], map[NOTE := N(["b"], 8)], true, 1)
    ensures PageOf(Still(CLEARED), OWNER, 3, 1) == Page(4, [Entry(4, BOOK, Upsert)], map[BOOK := DEAD], false, 1)
  {
    ClearedOk();
    hide *;
    var a, b, c, d := Entry(1, BOOK, Upsert), Entry(2, NOTE, Delete), Entry(3, NOTE, Upsert), Entry(4, BOOK, Upsert);
    ClearedWindow(2, 4);
    ClearedWindow(2, 3);
    ClearedWindow(3, 4);
    ClearedLatest();
    LatestInOne(CLEARED.log, OWNER, 2, 3, c);
    PageOfOne(CLEARED, OWNER, 2, 1, c, true);
    LatestInOne(CLEARED.log, OWNER, 3, 4, d);
    PageOfOne(CLEARED, OWNER, 3, 1, d, false);
  }

  lemma ClearedWindow(lo: nat, hi: nat)
    requires 2 <= lo <= 3 && hi <= 4
    ensures Window(CLEARED.log, OWNER, lo, hi) ==
      (if lo == 2 && hi >= 3 then [Entry(3, NOTE, Upsert)] else []) + (if hi == 4 then [Entry(4, BOOK, Upsert)] else [])
  {
    ClearedOk();
    hide Window, Put, Inv;
    var a, b, c, d := Entry(1, BOOK, Upsert), Entry(2, NOTE, Delete), Entry(3, NOTE, Upsert), Entry(4, BOOK, Upsert);
    assert [] + [a] == [a] && [a] + [b] == [a, b] && [a, b] + [c] == [a, b, c] && [a, b, c] + [d] == CLEARED.log;
    WindowNone(OWNER, lo, hi);
    WindowLast([], a, OWNER, lo, hi);
    WindowLast([a], b, OWNER, lo, hi);
    WindowLast([a, b], c, OWNER, lo, hi);
    WindowLast([a, b, c], d, OWNER, lo, hi);
  }

  lemma ClearedLatest()
    ensures CurrentRevision(CLEARED.log, OWNER) == 4
    ensures NOTE in CLEARED.rows && CLEARED.rows[NOTE].entity == N(["b"], 8)
    ensures BOOK in CLEARED.rows && CLEARED.rows[BOOK].entity == DEAD
    ensures LatestUpTo(CLEARED.log, NOTE, 3) == Some(Entry(3, NOTE, Upsert))
    ensures LatestUpTo(CLEARED.log, BOOK, 4) == Some(Entry(4, BOOK, Upsert))
    ensures Entry(3, NOTE, Upsert).ref == NOTE && Entry(4, BOOK, Upsert).ref == BOOK
  {
    ClearedOk();
    hide LatestUpTo, CurrentRevision, Put, Inv;
    var a, b, c, d := Entry(1, BOOK, Upsert), Entry(2, NOTE, Delete), Entry(3, NOTE, Upsert), Entry(4, BOOK, Upsert);
    assert [a, b] + [c] == [a, b, c] && [a, b, c] + [d] == CLEARED.log;
    CurrentLast([a, b, c], d, OWNER);
    UpToLast([a, b, c], d, NOTE, 3);
    UpToLast([a, b], c, NOTE, 3);
    UpToLast([a, b, c], d, BOOK, 4);
  }

  /******* What the pages write *******/

  lemma Revive()
    ensures NoteVerdict(THERE, OWNER, Change(N(["b"], 3), 7), MIRROR) == Push.Written(N(["b"], 8))
  {
    hide Syncable, NoteNotebookIds, RecordsDiffer, NewerOrTie;
    ThereLive();
    Keeps(THERE, ["b"], 3);
  }

  lemma ThereLive()
    ensures LiveNotebook(THERE, OWNER, "b")
  {
  }

  lemma Arrived()
    ensures RefsArrive(THERE, OWNER, [Change(N(["b"], 3), 7)])
  {
    hide NoteNotebookIds;
    NoteIds(["b"], 3);
    ThereLive();
  }

  lemma ReviveDecision()
    ensures DecideUpsert(N(["b"], 3), THERE, NOTE, Clean(THERE, NOTE, 2, {})) == Copy(N(["b"], 3), 7)
  {
    hide RecordsDiffer, NoteNotebookIds;
    LatestAppend([Entry(1, BOOK, Upsert)], Entry(2, NOTE, Delete), NOTE);
    assert [Entry(1, BOOK, Upsert)] + [Entry(2, NOTE, Delete)] == THERE.log;
    assert LatestRevision(THERE.log, NOTE) == 2;
  }

  /** Nothing is dropped while the notebook is live; then the reference is. */
  lemma Keeps(s: Store, ids: seq<string>, version: nat)
    requires ids == ["b"]
    ensures LiveNotebook(s, OWNER, "b") ==> Syncable(s, OWNER, N(ids, version).note) == N(ids, version).note
    ensures !LiveNotebook(s, OWNER, "b") ==> Syncable(s, OWNER, N(ids, version).note) == N([], version).note
  {
    hide LiveNotebook, NoteNotebookIds;
    NoteIds(ids, version);
    assert [] + ["b"] == ["b"];
    FilterLast([], "b", id => LiveNotebook(s, OWNER, id));
  }

  lemma SecondPassNote()
    ensures Rows(HERE)
    ensures TakePage(Pass(HERE, THERE, 1, {}, true), OWNER, 2, TURN) == Ok(Pass(HERE, REVIVED, 2, {NOTE}, true))
  {
    hide TakePage, PageOf, NoteVerdict, RefsArrive, Inv, Put, DecideUpsert, TidyRows;
    HereOk();
    HerePages();
    Revive();
    Arrived();
    ReviveDecision();
    assert {} + {NOTE} == {NOTE};
    CopyNotePage(Pass(HERE, THERE, 1, {}, true), OWNER, 2, TURN, N(["b"], 3), Entry(2, NOTE, Upsert), 7, N(["b"], 8), true);
  }

  lemma Revived()
    ensures BOOK in REVIVED.rows && REVIVED.rows[BOOK].entity == LIVE && LatestRevision(REVIVED.log, BOOK) == 1
  {
    LatestAppend(THERE.log, Entry(3, NOTE, Upsert), BOOK);
    LatestAppend([Entry(1, BOOK, Upsert)], Entry(2, NOTE, Delete), BOOK);
    assert [Entry(1, BOOK, Upsert)] + [Entry(2, NOTE, Delete)] == THERE.log;
    LatestAppend([], Entry(1, BOOK, Upsert), BOOK);
  }

  lemma Bury()
    ensures DecideUpsert(DEAD, REVIVED, BOOK, Clean(REVIVED, BOOK, 2, {NOTE})) == Copy(DEAD, 1)
    ensures NotebookVerdict(REVIVED, OWNER, [], Acc([], map[], {}), Change(DEAD, 1), MIRROR) == Push.Written(DEAD)
  {
    hide Put, LatestRevision;
    Revived();
  }

  lemma SecondPassBook()
    ensures TakePage(Pass(HERE, REVIVED, 2, {NOTE}, true), OWNER, 2, TURN) == Ok(Pass(HERE, CLEARED, 3, {NOTE, BOOK}, true))
  {
    hide TakePage, PageOf, NotebookVerdict, Inv, Put, DecideUpsert, TidyRows;
    HereOk();
    HerePages();
    Bury();
    assert {NOTE} + {BOOK} == {NOTE, BOOK};
    CopyBookPage(Pass(HERE, REVIVED, 2, {NOTE}, true), OWNER, 2, TURN, DEAD, Entry(3, BOOK, Upsert), 1, DEAD, false);
  }

  lemma NotLive()
    ensures !LiveNotebook(HERE, OWNER, "b")
  {
    assert BOOK in HERE.rows;
  }

  lemma ReturnDecision()
    ensures DecideUpsert(N(["b"], 8), HERE, NOTE, Clean(HERE, NOTE, 3, {})) == Copy(N(["b"], 8), 3)
  {
    hide NormalizedIds, NewerOrTie, Clean;
    assert !RecordsDiffer(N(["b"], 8), N(["b"], 3));
  }

  lemma HereNote()
    ensures NOTE in HERE.rows && HERE.rows[NOTE].entity == N(["b"], 3)
  {
  }

  lemma Return()
    ensures NoteVerdict(HERE, OWNER, Change(N(["b"], 8), 3), MIRROR) == Push.Written(N([], 8))
  {
    HereNote();
    hide Syncable, NoteNotebookIds, RecordsDiffer, LiveNotebook, Put, HERE;
    NotLive();
    Keeps(HERE, ["b"], 8);
    NoteIds(["b"], 8);
  }

  lemma NotArrived()
    ensures !RefsArrive(HERE, OWNER, [Change(N(["b"], 8), 3)])
  {
    hide NoteNotebookIds, LiveNotebook;
    NotLive();
    NoteIds(["b"], 8);
    assert Change(N(["b"], 8), 3) in [Change(N(["b"], 8), 3)];
    assert "b" in NoteNotebookIds(N(["b"], 8).note);
  }

  lemma ThirdPassNote()
    ensures Rows(CLEARED)
    ensures TakePage(Pass(CLEARED, HERE, 2, {}, true), OWNER, 3, TURN) == Ok(Pass(CLEARED, RETURNED, 3, {NOTE}, false))
  {
    hide TakePage, PageOf, NoteVerdict, RefsArrive, Inv, Put, DecideUpsert;
    ClearedOk();
    ClearedPages();
    Return();
    ReturnDecision();
    NotArrived();
    assert {} + {NOTE} == {NOTE};
    CopyNotePage(Pass(CLEARED, HERE, 2, {}, true), OWNER, 3, TURN, N(["b"], 8), Entry(3, NOTE, Upsert), 3, N([], 8), true);
  }

  lemma ThirdPassBook()
    ensures TakePage(Pass(CLEARED, RETURNED, 3, {NOTE}, false), OWNER, 3, TURN) == Ok(Pass(CLEARED, RETURNED, 4, {NOTE}, false))
  {
    hide TakePage, PageOf, Inv, LatestRevision;
    ClearedOk();
    ClearedPages();
    assert BOOK in RETURNED.rows && RETURNED.rows[BOOK].entity == DEAD;
    SkipPage(Pass(CLEARED, RETURNED, 3, {NOTE}, false), OWNER, 3, TURN, DEAD, Entry(4, BOOK, Upsert), false);
  }

  /******* The synchronisation *******/

  function Turns(): nat -> Turn { _ => TURN }

  const SCRIPT := Script(Turns(), Turns(), Turns())

  lemma PassOne()
    ensures PassOk(Pass(THERE, HERE, 2, {}, true), 1) && Limited(Turns())
    ensures PassFrom(Pass(THERE, HERE, 2, {}, true), OWNER, 1, Turns(), 0, false) == Ok(Pass(THERE, HERE, 2, {}, true))
  {
    hide TakePage, PageOf, Inv, TidyRows, Rows;
    HereOk();
    ThereOk();
    FirstPass();
  }

  lemma PassTwo()
    ensures PassOk(Pass(HERE, THERE, 1, {}, true), 2) && Limited(Turns())
    ensures PassFrom(Pass(HERE, THERE, 1, {}, true), OWNER, 2, Turns(), 0, false) == Ok(Pass(HERE, CLEARED, 3, {NOTE, BOOK}, true))
  {
    hide TakePage, PageOf, Inv, TidyRows, Rows, Put;
    HereOk();
    ThereOk();
    HerePages();
    SecondPassNote();
    SecondPassBook();
    var p := Pass(HERE, THERE, 1, {}, true);
    PageKeepsPassOk(p, OWNER, 2, TURN);
    assert PassFrom(Pass(HERE, REVIVED, 2, {NOTE}, true), OWNER, 2, Turns(), 1, false) == Ok(Pass(HERE, CLEARED, 3, {NOTE, BOOK}, true));
  }

  lemma PassThree()
    requires PassOk(Pass(CLEARED, HERE, 2, {}, true), 3)
    ensures Limited(Turns())
    ensures PassFrom(Pass(CLEARED, HERE, 2, {}, true), OWNER, 3, Turns(), 0, false) == Ok(Pass(CLEARED, RETURNED, 4, {NOTE}, false))
  {
    hide TakePage, PageOf, Inv, TidyRows, Rows, Put;
    ClearedPages();
    ThirdPassNote();
    ThirdPassBook();
    var p := Pass(CLEARED, HERE, 2, {}, true);
    PageKeepsPassOk(p, OWNER, 3, TURN);
    assert PassFrom(Pass(CLEARED, RETURNED, 3, {NOTE}, false), OWNER, 3, Turns(), 1, false) == Ok(Pass(CLEARED, RETURNED, 4, {NOTE}, false));
  }

  lemma Disagree()
    ensures !Agree(RETURNED, CLEARED, NOTE)
  {
    hide NoteNotebookIds, Inv;
    ClearedOk();
    PutStores(HERE, NOTE, N([], 8), 9);
    hide Put;
    NoteIds(["b"], 8);
    NoteIds([], 8);
    RefsDiffer();
  }

  lemma RefsDiffer()
    ensures ContentOf(N(["b"], 8)) != ContentOf(N([], 8))
  {
    hide NoteNotebookIds;
    NoteIds(["b"], 8);
    NoteIds([], 8);
    assert "b" in RefSet(N(["b"], 8).note) && "b" !in RefSet(N([], 8).note);
  }

  /**
   So agreement needs what `MirrorAgreement` asks for: this synchronisation ends without an error and leaves the note with
   its reference on one side and without it on the other.
   */
  lemma DroppedReferenceIsUnseen()
    ensures PairOk(Pair(HERE, THERE, 1, 2), OWNER) && LimitedScript(SCRIPT)
    ensures var r := SyncDatabases(Pair(HERE, THERE, 1, 2), OWNER, SCRIPT);
      r.Ok? && !r.value.refsKept && !Agree(r.value.pair.local, r.value.pair.remote, NOTE)
    ensures forall s, cursor :: ServedPage(s, OWNER, cursor) == Ok(PageOf(Still(s), OWNER, cursor, TURN.limit))
  {
    RowsFillPages();
    StartOk();
    PassOne();
    PassTwo();
    PassKeeps(Pass(HERE, THERE, 1, {}, true), OWNER, 2, Turns(), 0, false);
    assert PassOk(Pass(CLEARED, HERE, 2, {}, true), 3);
    PassThree();
    Disagree();
    hide PageOf, ServedPage, PassFrom;
  }

  lemma RowsFillPages()
    ensures forall s, cursor :: ServedPage(s, OWNER, cursor) == Ok(PageOf(Still(s), OWNER, cursor, TURN.limit))
  {
    hide PageOf, ServedPage;
    forall s, cursor ensures ServedPage(s, OWNER, cursor) == Ok(PageOf(Still(s), OWNER, cursor, TURN.limit)) {
      LargeRowsComeOneByOne(s, OWNER, cursor);
    }
  }
}
