/** apps/web/src/lib/server/repository.ts as an object over its tables; every method refines a table function. */
module RepositoryModule {
  import opened Wrappers
  import opened SyncSpec
  import opened Tables
  import opened Push
  import opened Pull
  import Seqs

  /** How many of the refs are of one kind. */
  function CountOf(refs: seq<Ref>, kind: Kind): nat { |Seqs.Filter(refs, (ref: Ref) => ref.kind == kind)| }

  lemma NoneCounted()
    ensures CountOf([], NoteKind) == 0 && CountOf([], NotebookKind) == 0
  {
  }

  lemma CountLast(refs: seq<Ref>, ref: Ref)
    ensures CountOf(refs + [ref], NoteKind) == CountOf(refs, NoteKind) + (if ref.kind == NoteKind then 1 else 0)
    ensures CountOf(refs + [ref], NotebookKind) == CountOf(refs, NotebookKind) + (if ref.kind == NotebookKind then 1 else 0)
  {
    assert (refs + [ref])[..|refs|] == refs;
  }

  class Repository {
    var rows: map<Ref, Row>
    var tombs: map<Ref, Tombstone>
    var log: seq<Entry>
    var nextRevision: nat

    function State(): Store
      reads this
    {
      Store(rows, tombs, log, nextRevision)
    }

    constructor ()
      ensures State() == EMPTY && Inv(State())
    {
      rows, tombs, log, nextRevision := map[], map[], [], 1;
      new;
      EmptyOk();
    }

    /** INSERT ... ON CONFLICT DO UPDATE, the tombstone clean-up and the log entry of each accepted record. */
    method PutEntities(owner: string, verdicts: seq<Verdict>, now: Time)
      modifies this
      ensures State() == ApplyVerdicts(old(State()), owner, verdicts, now)
    {
      for i := 0 to |verdicts|
        invariant State() == ApplyVerdicts(old(State()), owner, verdicts[..i], now)
      {
        assert verdicts[..i + 1] == verdicts[..i] + [verdicts[i]];
        ApplyLast(old(State()), owner, verdicts[..i], verdicts[i], now);
        if verdicts[i].Written? {
          var e := verdicts[i].entity;
          var ref := RefOf(owner, e);
          rows := rows[ref := Row(e, RetentionAfter(if ref in rows then Some(rows[ref]) else None, e, now))];
          tombs := tombs - {ref};
          log := log + [Entry(nextRevision, ref, Upsert)];
          nextRevision := nextRevision + 1;
        }
      }
      assert verdicts[..|verdicts|] == verdicts;
    }

    /** assertUniqueEntityIds: scan with a set of the ids seen so far. */
    method CheckUnique(changes: seq<Change>) returns (unique: bool)
      ensures unique <==> UniqueIds(changes)
    {
      var seen: set<string> := {};
      for i := 0 to |changes|
        invariant UniqueIds(changes[..i])
        invariant seen == set j | 0 <= j < i :: changes[j].record.Id()
      {
        if changes[i].record.Id() in seen { return false; }
        seen := seen + {changes[i].record.Id()};
      }
      assert changes[..|changes|] == changes;
      return true;
    }

    /**
     A whole push in one transaction. A request with a repeated id changes nothing; any other request is applied
     verdict by verdict, and the tables stay consistent.
     */
    method PushChanges(request: Request, owner: string, scan: seq<Ref>, options: Options, now: Time)
      returns (result: Result<(seq<Verdict>, seq<Verdict>), string>)
      requires WellFormed(request)
      modifies this
      ensures result.Ok? <==> UniqueIds(request.notebooks) && UniqueIds(request.notes)
      ensures result.Err? ==> State() == old(State())
      ensures result.Ok? ==>
        Outcome(State(), result.value.0, result.value.1) == Run(old(State()), owner, scan, request, options, now)
      ensures Inv(old(State())) ==> Inv(State()) && Evolves(old(State()), State())
      ensures Inv(old(State())) && !options.preserveVersions ==> Rises(old(State()), State())
    {
      ghost var before := State();
      EvolvesRefl(before);
      var uniqueNotebooks := CheckUnique(request.notebooks);
      var uniqueNotes := CheckUnique(request.notes);
      if !uniqueNotebooks { return Err("Duplicate notebook id in sync push"); }
      if !uniqueNotes { return Err("Duplicate note id in sync push"); }
      var acc := JudgeNotebooks(request.notebooks, owner, scan, options);
      PutEntities(owner, acc.verdicts, now);
      var notes := JudgeNotes(request.notes, owner, options);
      PutEntities(owner, notes, now);
      if Inv(before) {
        RunPhases(before, owner, scan, request, options, now);
      }
      return Ok((acc.verdicts, notes));
    }

    /** The notebook loop of a push: each change is judged by the tables and by what was accepted before it. */
    method JudgeNotebooks(changes: seq<Change>, owner: string, scan: seq<Ref>, options: Options) returns (acc: Acc)
      requires AllNotebooks(changes)
      ensures acc == NotebookVerdicts(State(), owner, scan, changes, options)
    {
      acc := Acc([], map[], {});
      for i := 0 to |changes|
        invariant AllNotebooks(changes[..i])
        invariant acc == NotebookVerdicts(State(), owner, scan, changes[..i], options)
      {
        assert changes[i] in changes;
        assert changes[..i + 1] == changes[..i] + [changes[i]];
        LoopLast(State(), owner, scan, changes[..i], changes[i], options);
        acc := Record(acc, NotebookVerdict(State(), owner, scan, acc, changes[i], options));
      }
      assert changes[..|changes|] == changes;
    }

    method JudgeNotes(changes: seq<Change>, owner: string, options: Options) returns (verdicts: seq<Verdict>)
      requires AllNotes(changes)
      ensures verdicts == NoteVerdicts(State(), owner, changes, options)
    {
      hide NoteVerdict;
      verdicts := [];
      for i := 0 to |changes|
        invariant |verdicts| == i
        invariant forall j :: 0 <= j < i ==> verdicts[j] == NoteVerdict(State(), owner, changes[j], options)
      {
        verdicts := verdicts + [NoteVerdict(State(), owner, changes[i], options)];
      }
    }

    /** deleteNotesByIds and deleteNotebooksByIds. */
    method DeleteByIds(refs: seq<Ref>, now: Time)
      modifies this
      ensures State() == DeleteAll(old(State()), refs, now)
    {
      for i := 0 to |refs|
        invariant State() == DeleteAll(old(State()), refs[..i], now)
      {
        assert refs[..i + 1][..i] == refs[..i];
        var ref := refs[i];
        var existing := RowAt(State(), ref);
        var latest := LatestOp(log, ref);
        rows := rows - {ref};
        if existing.Some? {
          tombs := tombs[ref := Tombstone(now, existing.value.entity.DeviceId(), NextVersionAfter(existing.value.entity.Version()))];
        } else if ref !in tombs {
          tombs := tombs[ref := Tombstone(now, "server", 1)];
        }
        if latest != Some(Delete) {
          log := log + [Entry(nextRevision, ref, Delete)];
          nextRevision := nextRevision + 1;
        }
      }
      assert refs[..|refs|] == refs;
    }

    /** Bury the rows whose retention started before the cutoff; answer how many notes and notebooks went. */
    method CleanupTrash(scan: seq<Ref>, cutoff: Time, now: Time, who: Option<string>) returns (deletedNotes: nat, deletedNotebooks: nat)
      modifies this
      ensures State() == Cleanup(old(State()), scan, cutoff, now, who)
      ensures deletedNotes == CountOf(ExpiredRefs(old(State()), scan, cutoff, who), NoteKind)
      ensures deletedNotebooks == CountOf(ExpiredRefs(old(State()), scan, cutoff, who), NotebookKind)
    {
      hide CountOf, StartsRetention;
      NoneCounted();
      var expired := ExpiredRefs(State(), scan, cutoff, who);
      var before := rows;
      deletedNotes, deletedNotebooks := 0, 0;
      for i := 0 to |expired|
        invariant before == old(rows)
        invariant deletedNotes == CountOf(expired[..i], NoteKind) && deletedNotebooks == CountOf(expired[..i], NotebookKind)
        invariant State() == CleanupRows(old(State()), expired[..i], now)
      {
        assert expired[..i + 1][..i] == expired[..i];
        var ref := expired[i];
        assert ref in expired;
        var e := before[ref].entity;
        rows := rows - {ref};
        tombs := tombs[ref := Tombstone(now, e.DeviceId(), NextVersionAfter(e.Version()))];
        log := log + [Entry(nextRevision, ref, Delete)];
        nextRevision := nextRevision + 1;
        CountLast(expired[..i], ref);
        assert expired[..i + 1] == expired[..i] + [ref];
        if ref.kind == NoteKind { deletedNotes := deletedNotes + 1; } else { deletedNotebooks := deletedNotebooks + 1; }
      }
      assert expired[..|expired|] == expired;
    }

    /** Keep only the newest entry per entity in scope; answer how many entries went. */
    method CompactEntityChanges(who: Option<string>) returns (deleted: nat)
      modifies this`log
      ensures State() == Compact(old(State()), who)
      ensures deleted == |old(log)| - |log|
    {
      var all := log;
      var kept: seq<Entry> := [];
      for i := 0 to |all|
        invariant |kept| <= i
        invariant kept == Seqs.Filter(all[..i], Survivors(all, who))
      {
        assert all[..i + 1][..i] == all[..i];
        if Survives(all, all[i], who) {
          kept := kept + [all[i]];
        }
      }
      assert all[..|all|] == all;
      deleted := |all| - |kept|;
      log := kept;
    }

    /**
     Page the log, halving the page while the answer is too big. Every attempt, and every query of it, sees the tables as
     they are by then; `views` is what they see. Reading changes nothing.
     */
    method PullChanges(views: nat -> View, since: nat, owner: string, limit: Option<int>, bytes: Page -> nat, maxBytes: nat)
      returns (result: Result<Page, string>)
      ensures result == PullPage(views, 0, owner, since, PullLimit(limit), bytes, maxBytes)
    {
      hide PageOf, PullLimit;
      var rowsPerPage := PullLimit(limit);
      var attempt: nat := 0;
      var page := PageOf(views(attempt), owner, since, rowsPerPage);
      while page.visible > 1 && bytes(page) > maxBytes
        invariant rowsPerPage >= 1
        invariant page == PageOf(views(attempt), owner, since, rowsPerPage)
        invariant PullPage(views, 0, owner, since, PullLimit(limit), bytes, maxBytes)
               == PullPage(views, attempt, owner, since, rowsPerPage, bytes, maxBytes)
        decreases rowsPerPage
      {
        PageRevisionBounds(views(attempt), owner, since, rowsPerPage);
        rowsPerPage := Larger(1, page.visible / 2);
        attempt := attempt + 1;
        page := PageOf(views(attempt), owner, since, rowsPerPage);
      }
      if page.visible == 1 && bytes(page) > maxBytes {
        return Err("A stored sync record exceeds the pull response byte limit");
      }
      return Ok(page);
    }
  }
}
