/**
 Duplicate notebook names. A notebook has one key for its name hash and one for its plain name. The check of a push looks
 at the first candidate only, so a notebook with both can slip past it. Here is exactly when, and that with one key it cannot.
 */
module Names {
  import opened Wrappers
  import opened SyncSpec
  import opened Tables
  import opened Push
  import opened Conflicts
  import Seqs
  import Text

  /**
   A notebook whose stored form the candidate queries can find: its hash has no white space around it, and a plain name
   is not blank, folds alike in script and database, and does not fold to something that looks encrypted.
   */
  predicate Regular(n: Notebook) {
    && (n.nameHash.Some? ==> Text.Trim(n.nameHash.value) == n.nameHash.value)
    && (!IsEncryptedName(n.name) ==>
          FoldedName(n.name) != "" && StoredFold(n.name) == FoldedName(n.name) && !IsEncryptedName(FoldedName(n.name)))
  }

  /** One duplicate key: an encrypted name with a hash (all the sync route lets in), or a plain name without one. */
  predicate OneKey(n: Notebook) {
    Regular(n) && |DuplicateKeys(n)| == 1
  }

  predicate Active(s: Store, owner: string, ref: Ref) {
    ref.owner == owner && ref.kind == NotebookKind && ref in s.rows &&
    s.rows[ref].entity.NotebookEntity? && !s.rows[ref].entity.IsDeleted()
  }

  ghost predicate RegularRows(s: Store, owner: string) {
    forall ref :: Active(s, owner, ref) ==> Regular(s.rows[ref].entity.notebook)
  }

  ghost predicate ShareKey(a: Notebook, b: Notebook) {
    exists k :: k in DuplicateKeys(a) && k in DuplicateKeys(b)
  }

  /** No two active notebooks of the owner share a key. */
  ghost predicate UniqueNames(s: Store, owner: string) {
    forall a, b :: Active(s, owner, a) && Active(s, owner, b) && a != b
      ==> !ShareKey(s.rows[a].entity.notebook, s.rows[b].entity.notebook)
  }

  ghost predicate NamesOk(s: Store, owner: string) {
    RegularRows(s, owner) && UniqueNames(s, owner)
  }

  ghost predicate RegularChanges(changes: seq<Change>) {
    forall c :: c in changes ==> c.record.NotebookEntity? && Regular(c.record.notebook)
  }

  ghost predicate OneKeyChanges(changes: seq<Change>) {
    forall c :: c in changes ==> c.record.NotebookEntity? && OneKey(c.record.notebook)
  }

  /** The scan lists every row, in whatever order. */
  ghost predicate Covers(scan: seq<Ref>, s: Store) {
    forall ref :: ref in s.rows ==> ref in scan
  }

  /******* What the queries find *******/

  /** Trimming keeps a front whose ends are not white space. */
  lemma TrimKeepsFront(name: string, n: nat)
    requires 0 < n <= |name| && !Text.IsSpace(name[0]) && !Text.IsSpace(name[n - 1])
    ensures |Text.Trim(name)| >= n && Text.Trim(name)[..n] == name[..n]
  {
    hide Text.IsSpace;
    assert Text.TrimStart(name) == name;
    var r := Text.TrimEnd(name);
    assert r == name[..|r|];
    assert |r| >= n;
  }

  lemma FoldKeepsPrefix(name: string, prefix: string)
    requires prefix <= name && prefix != "" && !Text.IsSpace(prefix[0]) && !Text.IsSpace(prefix[|prefix| - 1])
    requires Text.Lower(prefix) == prefix
    ensures prefix <= FoldedName(name)
  {
    hide Text.Trim, Text.IsSpace;
    TrimKeepsFront(name, |prefix|);
    var r := Text.Trim(name);
    assert r[..|prefix|] == prefix;
    forall i | 0 <= i < |prefix| ensures Text.Lower(r)[i] == prefix[i] {
      assert r[i] == prefix[i] && Text.Lower(prefix)[i] == prefix[i];
    }
    assert Text.Lower(r)[..|prefix|] == prefix;
  }

  lemma EncryptedStaysEncrypted(name: string)
    requires IsEncryptedName(name)
    ensures IsEncryptedName(FoldedName(name))
  {
    hide FoldedName;
    assert Text.Lower("enc:v3:") == "enc:v3:" && Text.Lower("enc:v4:") == "enc:v4:";
    FoldKeepsPrefix(name, if "enc:v3:" <= name then "enc:v3:" else "enc:v4:");
  }

  /** Among regular notebooks the query for a key finds exactly those that have the key. */
  lemma FoundIffKey(row: Notebook, record: Notebook, key: NameKey)
    requires Regular(row) && Regular(record) && key in DuplicateKeys(record)
    ensures RowHasKey(row, key) <==> key in DuplicateKeys(row)
  {
    hide FoldedName, StoredFold, IsEncryptedName, Text.Trim;
    if IsEncryptedName(row.name) {
      EncryptedStaysEncrypted(row.name);
    }
  }

  lemma VersionKeepsKeys(n: Notebook, version: int)
    ensures DuplicateKeys(n.(version := version)) == DuplicateKeys(n) && (Regular(n) ==> Regular(n.(version := version)))
  {
  }

  /******* What the notebook loop remembers *******/

  /** The keys of every accepted active notebook are remembered, and the accepted deletions are listed. */
  ghost predicate Remembers(acc: Acc) {
    && (forall j, k :: 0 <= j < |acc.verdicts| && NamedBy(acc.verdicts[j], k) ==> k in acc.active)
    && (forall id :: id in acc.deleted ==> exists j :: 0 <= j < |acc.verdicts| && DeletesId(acc.verdicts[j], id))
    && (forall j, id :: 0 <= j < |acc.verdicts| && DeletesId(acc.verdicts[j], id) ==> id in acc.deleted)
  }

  predicate NamedBy(v: Verdict, k: NameKey) {
    v.Accepted() && v.entity.NotebookEntity? && !v.entity.IsDeleted() && k in DuplicateKeys(v.entity.notebook)
  }

  predicate DeletesId(v: Verdict, id: string) {
    v.Accepted() && v.entity.NotebookEntity? && v.entity.IsDeleted() && v.entity.Id() == id
  }

  lemma RecordRemembers(acc: Acc, v: Verdict)
    requires Remembers(acc)
    ensures Remembers(Record(acc, v))
  {
    hide DuplicateKeys;
    var next := Record(acc, v);
    assert next.verdicts == acc.verdicts + [v];
    forall id | id in next.deleted ensures exists j :: 0 <= j < |next.verdicts| && DeletesId(next.verdicts[j], id) {
      if id in acc.deleted {
        var j :| 0 <= j < |acc.verdicts| && DeletesId(acc.verdicts[j], id);
        assert DeletesId(next.verdicts[j], id);
      } else {
        assert DeletesId(next.verdicts[|acc.verdicts|], id);
      }
    }
  }

  lemma {:induction false} LoopRemembers(s: Store, owner: string, scan: seq<Ref>, changes: seq<Change>, options: Options)
    requires AllNotebooks(changes)
    ensures Remembers(NotebookVerdicts(s, owner, scan, changes, options))
  {
    hide Remembers, NotebookVerdict;
    if changes == [] {
      NothingRemembered();
    } else {
      var front := changes[..|changes| - 1];
      forall c | c in front ensures c in changes {}
      LoopRemembers(s, owner, scan, front, options);
      var acc := NotebookVerdicts(s, owner, scan, front, options);
      RecordRemembers(acc, NotebookVerdict(s, owner, scan, acc, changes[|changes| - 1], options));
    }
  }

  lemma NothingRemembered()
    ensures Remembers(Acc([], map[], {}))
  {
  }

  /******* One accepted notebook *******/

  /** An accepted notebook is the stored row, or what was sent under another version, and no duplicate was reported. */
  lemma VerdictEntity(s: Store, owner: string, scan: seq<Ref>, acc: Acc, c: Change, options: Options)
    requires c.record.NotebookEntity?
    ensures var v := NotebookVerdict(s, owner, scan, acc, c, options); var ref := RefOf(owner, c.record);
      && (v.Written? ==> v.entity == NotebookEntity(c.record.notebook.(version := v.entity.Version())))
      && (v.Kept? ==> ref in s.rows && v.entity == s.rows[ref].entity)
      && (v.Accepted() ==> Duplicate(s, owner, scan, acc, c.record.notebook).None?)
  {
    hide RecordsDiffer, ShouldConflict, Duplicate, TombstoneOverwriteAllowed, AcceptedVersion;
  }

  /** The loop's bookkeeping when it comes to change `i`, and the verdict it reaches. */
  ghost predicate Facing(s: Store, owner: string, scan: seq<Ref>, changes: seq<Change>, options: Options, i: nat, acc: Acc, v: Verdict) {
    && AllNotebooks(changes) && UniqueIds(changes) && i < |changes|
    && acc == NotebookVerdicts(s, owner, scan, changes[..i], options)
    && v == NotebookVerdicts(s, owner, scan, changes, options).verdicts[i]
    && v == NotebookVerdict(s, owner, scan, acc, changes[i], options)
    && acc.verdicts == NotebookVerdicts(s, owner, scan, changes, options).verdicts[..i]
    && Remembers(acc) && ActiveAccepted(acc)
  }

  lemma FacingAt(s: Store, owner: string, scan: seq<Ref>, changes: seq<Change>, options: Options, i: nat)
    requires AllNotebooks(changes) && UniqueIds(changes) && i < |changes|
    ensures AllNotebooks(changes[..i])
    ensures Facing(s, owner, scan, changes, options, i, NotebookVerdicts(s, owner, scan, changes[..i], options),
      NotebookVerdicts(s, owner, scan, changes, options).verdicts[i])
  {
    hide NotebookVerdicts, NotebookVerdict, Remembers, ActiveAccepted;
    VerdictAt(s, owner, scan, changes, options, i);
    LoopRemembers(s, owner, scan, changes[..i], options);
    LoopActive(s, owner, scan, changes[..i], options);
  }

  /** The entity of an accepted verdict is the one the change is about. */
  lemma AcceptedIsOwn(s: Store, owner: string, scan: seq<Ref>, changes: seq<Change>, options: Options, j: nat)
    requires Inv(s) && AllNotebooks(changes) && j < |changes|
    requires NotebookVerdicts(s, owner, scan, changes, options).verdicts[j].Accepted()
    ensures var e := NotebookVerdicts(s, owner, scan, changes, options).verdicts[j].entity;
      RefOf(owner, e) == RefOf(owner, changes[j].record) && e.NotebookEntity? && changes[j].record.NotebookEntity?
  {
    hide NotebookVerdicts;
    assert changes[j] in changes;
    VerdictsLawful(s, owner, scan, changes, options);
    assert Lawful(s, owner, changes[j], NotebookVerdicts(s, owner, scan, changes, options).verdicts[j], options);
    InvAt(s, RefOf(owner, changes[j].record));
  }

  /** A notebook remembered by its name was accepted as active, so it is no deletion, and it is not the one faced now. */
  lemma RememberedIsOther(s: Store, owner: string, scan: seq<Ref>, changes: seq<Change>, options: Options, i: nat, acc: Acc, v: Verdict, k: NameKey)
    requires Inv(s) && Facing(s, owner, scan, changes, options, i, acc, v) && k in acc.active
    ensures acc.active[k].id != changes[i].record.Id() && acc.active[k].id !in acc.deleted
  {
    hide NotebookVerdict, NotebookVerdicts, DuplicateKeys;
    var all := NotebookVerdicts(s, owner, scan, changes, options).verdicts;
    var j :| 0 <= j < |acc.verdicts| && Rememberable(acc.verdicts[j], acc.active[k], k);
    assert all[j] == acc.verdicts[j];
    AcceptedIsOwn(s, owner, scan, changes, options, j);
    assert changes[j].record.Id() == acc.active[k].id;
    forall l | 0 <= l < |acc.verdicts| ensures !DeletesId(acc.verdicts[l], acc.active[k].id) {
      assert all[l] == acc.verdicts[l];
      if all[l].Accepted() {
        AcceptedIsOwn(s, owner, scan, changes, options, l);
      }
    }
  }

  /**
   What acceptance means for an active notebook: no notebook accepted before it in the request has one of its keys, and
   the first stored candidate, if there is one, was deleted before it in the request.
   */
  lemma AcceptedNameIsFree(s: Store, owner: string, scan: seq<Ref>, changes: seq<Change>, options: Options, i: nat, acc: Acc, v: Verdict)
    requires Inv(s) && Facing(s, owner, scan, changes, options, i, acc, v) && v.Accepted() && !changes[i].record.IsDeleted()
    ensures var record := changes[i].record.notebook;
      && (forall k :: k in DuplicateKeys(record) ==> k !in acc.active)
      && (var first := FirstStoredDuplicate(s, owner, scan, record, DuplicateKeys(record));
          first.Some? ==> first.value.id in acc.deleted)
  {
    hide NotebookVerdict, NotebookVerdicts, DuplicateKeys, FirstStoredDuplicate, FirstAccepted, Remembers, ActiveAccepted;
    assert changes[i] in changes;
    var record := changes[i].record.notebook;
    VerdictEntity(s, owner, scan, acc, changes[i], options);
    var keys := DuplicateKeys(record);
    var inRequest := FirstAccepted(acc.active, record, keys);
    if inRequest.Some? {
      var k :| k in keys && k in acc.active && acc.active[k] == inRequest.value;
      RememberedIsOther(s, owner, scan, changes, options, i, acc, v, k);
    }
    forall k | k in keys ensures k !in acc.active {
      if k in acc.active {
        RememberedIsOther(s, owner, scan, changes, options, i, acc, v, k);
      }
    }
    var first := FirstStoredDuplicate(s, owner, scan, record, keys);
    if first.Some? {
      CandidateIsRow(s, owner, scan, record, keys);
    }
  }

  lemma CandidateIsRow(s: Store, owner: string, scan: seq<Ref>, record: Notebook, keys: seq<NameKey>)
    requires Inv(s) && FirstStoredDuplicate(s, owner, scan, record, keys).Some?
    ensures var ref := FirstStoredDuplicate(s, owner, scan, record, keys).value;
      Active(s, owner, ref) && s.rows[ref].entity.notebook.id == ref.id && ref.id != record.id
      && exists k :: k in keys && RowHasKey(s.rows[ref].entity.notebook, k)
  {
    hide FirstStoredDuplicate, RowHasKey;
    var ref := FirstStoredDuplicate(s, owner, scan, record, keys).value;
    var k :| k in keys && IsCandidate(s, owner, ref, record, k);
    InvAt(s, ref);
  }

  /** A notebook has its trimmed hash as a key unless blank, and its folded name unless encrypted; the sync route lets only the former through. */
  lemma KeysOf(n: Notebook)
    ensures forall h :: HashKey(h) in DuplicateKeys(n) <==> h != "" && n.nameHash.Some? && Text.Trim(n.nameHash.value) == h
    ensures forall p :: PlainKey(p) in DuplicateKeys(n) <==> !("enc:v3:" <= n.name) && !("enc:v4:" <= n.name) && p == FoldedName(n.name)
    ensures Seqs.Distinct(DuplicateKeys(n)) && (|DuplicateKeys(n)| == 2 ==> DuplicateKeys(n)[0].HashKey?)
  {
    hide FoldedName, Text.Trim;
  }

  /** A name is free again once its holders were deleted earlier in the request: nothing is refused for a name without a holder. */
  lemma DeletedNameIsFree(s: Store, owner: string, scan: seq<Ref>, acc: Acc, record: Notebook)
    requires forall k :: k in DuplicateKeys(record) && k in acc.active ==> acc.active[k].id == record.id
    requires Inv(s)
    requires forall ref, k :: k in DuplicateKeys(record) && IsCandidate(s, owner, ref, record, k) ==> ref.id in acc.deleted
    ensures Duplicate(s, owner, scan, acc, record) == None
  {
    hide DuplicateKeys, IsCandidate, FirstStoredDuplicate, FirstAccepted;
    var first := FirstStoredDuplicate(s, owner, scan, record, DuplicateKeys(record));
    if record.deletedAt.None? && first.Some? {
      CandidateIsRow(s, owner, scan, record, DuplicateKeys(record));
    }
  }

  /** Two names are the same in a push exactly when they differ in white space around them and in the case of letters. */
  lemma SameNameIff(a: string, b: string)
    ensures FoldedName(a) == FoldedName(b) <==> Text.SameLetters(Text.Trim(a), Text.Trim(b))
  {
    hide Text.Trim, Text.SameLetters;
    Text.LowerSameIff(Text.Trim(a), Text.Trim(b));
  }

  /******* The whole request *******/

  /** The notebook with this reference was written by the request. */
  ghost predicate WrittenIn(owner: string, changes: seq<Change>, verdicts: seq<Verdict>, ref: Ref)
    requires |verdicts| == |changes|
  {
    exists j :: 0 <= j < |changes| && verdicts[j].Written? && RefOf(owner, changes[j].record) == ref
  }

  /**
   Change `i` slips past the check: it is written as an active notebook although `other`, a stored active notebook that
   the request does not write, has one of its keys, because the first candidate was deleted earlier in the request.
   */
  ghost predicate SlipsPast(s: Store, owner: string, scan: seq<Ref>, changes: seq<Change>, options: Options, i: nat, other: Ref)
    requires AllNotebooks(changes)
  {
    var all := NotebookVerdicts(s, owner, scan, changes, options).verdicts;
    && i < |changes| && AllNotebooks(changes[..i]) && changes[i].record.NotebookEntity?
    && all[i].Written? && !changes[i].record.IsDeleted()
    && var record := changes[i].record.notebook;
       var first := FirstStoredDuplicate(s, owner, scan, record, DuplicateKeys(record));
       && first.Some? && first.value.id in NotebookVerdicts(s, owner, scan, changes[..i], options).deleted
       && Active(s, owner, other) && other.id != record.id && ShareKey(s.rows[other].entity.notebook, record)
       && !WrittenIn(owner, changes, all, other)
  }

  /** What the request leaves of a notebook: the sent one under its new version, or the stored row. */
  lemma WrittenRow(s: Store, t: Store, owner: string, scan: seq<Ref>, changes: seq<Change>, options: Options, i: nat)
    requires Inv(s) && AllNotebooks(changes) && UniqueIds(changes) && i < |changes|
    requires Effect(s, t, owner, changes, NotebookVerdicts(s, owner, scan, changes, options).verdicts)
    requires NotebookVerdicts(s, owner, scan, changes, options).verdicts[i].Written?
    ensures var ref := RefOf(owner, changes[i].record);
      && changes[i].record.NotebookEntity? && ref in t.rows
      && exists version :: t.rows[ref].entity == NotebookEntity(changes[i].record.notebook.(version := version))
  {
    hide NotebookVerdict, NotebookVerdicts, LawfulAll;
    FacingAt(s, owner, scan, changes, options, i);
    assert changes[i] in changes;
    var acc := NotebookVerdicts(s, owner, scan, changes[..i], options);
    VerdictEntity(s, owner, scan, acc, changes[i], options);
    var v := NotebookVerdicts(s, owner, scan, changes, options).verdicts[i];
    assert v.Accepted();
    assert t.rows[RefOf(owner, changes[i].record)].entity == NotebookEntity(changes[i].record.notebook.(version := v.entity.Version()));
  }

  lemma UnwrittenSame(s: Store, t: Store, owner: string, changes: seq<Change>, verdicts: seq<Verdict>, ref: Ref)
    requires |verdicts| == |changes| && Effect(s, t, owner, changes, verdicts) && !WrittenIn(owner, changes, verdicts, ref)
    ensures SameAt(s, t, ref) && RowAt(s, ref) == RowAt(t, ref)
  {
  }

  lemma RegularAfter(s: Store, t: Store, owner: string, scan: seq<Ref>, changes: seq<Change>, options: Options)
    requires Inv(s) && AllNotebooks(changes) && UniqueIds(changes) && RegularChanges(changes) && RegularRows(s, owner)
    requires Effect(s, t, owner, changes, NotebookVerdicts(s, owner, scan, changes, options).verdicts)
    ensures RegularRows(t, owner)
  {
    hide NotebookVerdicts, Effect, Regular;
    var all := NotebookVerdicts(s, owner, scan, changes, options).verdicts;
    forall ref | Active(t, owner, ref) ensures Regular(t.rows[ref].entity.notebook) {
      if j :| 0 <= j < |changes| && all[j].Written? && RefOf(owner, changes[j].record) == ref {
        WrittenRow(s, t, owner, scan, changes, options, j);
        assert changes[j] in changes;
        var version :| t.rows[ref].entity == NotebookEntity(changes[j].record.notebook.(version := version));
        VersionKeepsKeys(changes[j].record.notebook, version);
      } else {
        UnwrittenSame(s, t, owner, changes, all, ref);
      }
    }
  }

  /** Two written notebooks of one request never share a key: the later one would have met the earlier one. */
  lemma WrittenDiffer(s: Store, t: Store, owner: string, scan: seq<Ref>, changes: seq<Change>, options: Options, i: nat, j: nat)
    requires Inv(s) && AllNotebooks(changes) && UniqueIds(changes) && i < j < |changes|
    requires var all := NotebookVerdicts(s, owner, scan, changes, options).verdicts; all[i].Written? && all[j].Written?
    requires changes[i].record.NotebookEntity? && !changes[i].record.IsDeleted()
    requires changes[j].record.NotebookEntity? && !changes[j].record.IsDeleted()
    ensures !ShareKey(changes[i].record.notebook, changes[j].record.notebook)
  {
    hide NotebookVerdict, NotebookVerdicts, DuplicateKeys, ActiveAccepted;
    var all := NotebookVerdicts(s, owner, scan, changes, options).verdicts;
    FacingAt(s, owner, scan, changes, options, i);
    FacingAt(s, owner, scan, changes, options, j);
    var acc := NotebookVerdicts(s, owner, scan, changes[..j], options);
    AcceptedNameIsFree(s, owner, scan, changes, options, j, acc, all[j]);
    VerdictEntity(s, owner, scan, NotebookVerdicts(s, owner, scan, changes[..i], options), changes[i], options);
    VersionKeepsKeys(changes[i].record.notebook, all[i].entity.Version());
    assert acc.verdicts[i] == all[i];
    forall k | k in DuplicateKeys(changes[i].record.notebook) ensures k !in DuplicateKeys(changes[j].record.notebook) {
      assert k in acc.active;
    }
  }

  /** A written notebook that shares a key with a stored one the request leaves alone slipped past the check. */
  lemma SharedMeansSlipped(s: Store, owner: string, scan: seq<Ref>, changes: seq<Change>, options: Options, i: nat, other: Ref)
    requires Inv(s) && RegularRows(s, owner) && Covers(scan, s)
    requires AllNotebooks(changes) && UniqueIds(changes) && RegularChanges(changes) && i < |changes|
    requires var all := NotebookVerdicts(s, owner, scan, changes, options).verdicts;
      all[i].Written? && !WrittenIn(owner, changes, all, other)
    requires changes[i].record.NotebookEntity? && !changes[i].record.IsDeleted()
    requires Active(s, owner, other) && other.id != changes[i].record.Id() && ShareKey(s.rows[other].entity.notebook, changes[i].record.notebook)
    ensures SlipsPast(s, owner, scan, changes, options, i, other)
  {
    hide NotebookVerdict, NotebookVerdicts, DuplicateKeys, FirstStoredDuplicate, Regular, RowHasKey, Remembers, ActiveAccepted;
    var record := changes[i].record.notebook;
    assert changes[i] in changes;
    FacingAt(s, owner, scan, changes, options, i);
    var acc := NotebookVerdicts(s, owner, scan, changes[..i], options);
    AcceptedNameIsFree(s, owner, scan, changes, options, i, acc, NotebookVerdicts(s, owner, scan, changes, options).verdicts[i]);
    var k :| k in DuplicateKeys(s.rows[other].entity.notebook) && k in DuplicateKeys(record);
    FoundIffKey(s.rows[other].entity.notebook, record, k);
    assert IsCandidate(s, owner, other, record, k);
  }

  /** After the notebooks of a request: names are unique exactly if none of them slipped past the check. */
  lemma NotebookPhaseIff(s: Store, t: Store, owner: string, scan: seq<Ref>, changes: seq<Change>, options: Options)
    requires Inv(s) && NamesOk(s, owner) && Covers(scan, s)
    requires AllNotebooks(changes) && UniqueIds(changes) && RegularChanges(changes)
    requires Effect(s, t, owner, changes, NotebookVerdicts(s, owner, scan, changes, options).verdicts)
    ensures UniqueNames(t, owner) <==> forall i: nat, other :: !SlipsPast(s, owner, scan, changes, options, i, other)
  {
    hide NotebookVerdicts, Effect, SlipsPast, Inv, RegularChanges, UniqueIds, AllNotebooks;
    if UniqueNames(t, owner) {
      forall i: nat, other ensures !SlipsPast(s, owner, scan, changes, options, i, other) {
        if SlipsPast(s, owner, scan, changes, options, i, other) {
          SlippedShares(s, t, owner, scan, changes, options, i, other);
        }
      }
    } else {
      var a, b :| Active(t, owner, a) && Active(t, owner, b) && a != b && ShareKey(t.rows[a].entity.notebook, t.rows[b].entity.notebook);
      SomeoneSlipped(s, t, owner, scan, changes, options, a, b);
    }
  }

  lemma SlippedShares(s: Store, t: Store, owner: string, scan: seq<Ref>, changes: seq<Change>, options: Options, i: nat, other: Ref)
    requires Inv(s) && AllNotebooks(changes) && UniqueIds(changes)
    requires Effect(s, t, owner, changes, NotebookVerdicts(s, owner, scan, changes, options).verdicts)
    requires SlipsPast(s, owner, scan, changes, options, i, other)
    ensures !UniqueNames(t, owner)
  {
    hide NotebookVerdicts, Effect, DuplicateKeys, FirstStoredDuplicate;
    var ref := RefOf(owner, changes[i].record);
    WrittenRow(s, t, owner, scan, changes, options, i);
    var version :| t.rows[ref].entity == NotebookEntity(changes[i].record.notebook.(version := version));
    VersionKeepsKeys(changes[i].record.notebook, version);
    UnwrittenSame(s, t, owner, changes, NotebookVerdicts(s, owner, scan, changes, options).verdicts, other);
    assert Active(t, owner, ref) && Active(t, owner, other) && ref != other;
    var k :| k in DuplicateKeys(s.rows[other].entity.notebook) && k in DuplicateKeys(changes[i].record.notebook);
    assert ShareKey(t.rows[ref].entity.notebook, t.rows[other].entity.notebook);
  }

  lemma ShareSymmetric(a: Notebook, b: Notebook)
    ensures ShareKey(a, b) <==> ShareKey(b, a)
  {
  }

  /** What a written active notebook of the tables was sent as. */
  lemma SentAs(s: Store, t: Store, owner: string, scan: seq<Ref>, changes: seq<Change>, options: Options, i: nat)
    requires Inv(s) && AllNotebooks(changes) && UniqueIds(changes) && i < |changes|
    requires Effect(s, t, owner, changes, NotebookVerdicts(s, owner, scan, changes, options).verdicts)
    requires NotebookVerdicts(s, owner, scan, changes, options).verdicts[i].Written?
    requires Active(t, owner, RefOf(owner, changes[i].record))
    ensures changes[i].record.NotebookEntity? && !changes[i].record.IsDeleted()
    ensures DuplicateKeys(t.rows[RefOf(owner, changes[i].record)].entity.notebook) == DuplicateKeys(changes[i].record.notebook)
  {
    hide NotebookVerdicts, Effect, DuplicateKeys;
    var ref := RefOf(owner, changes[i].record);
    WrittenRow(s, t, owner, scan, changes, options, i);
    var version :| t.rows[ref].entity == NotebookEntity(changes[i].record.notebook.(version := version));
    VersionKeepsKeys(changes[i].record.notebook, version);
  }

  lemma SomeoneSlipped(s: Store, t: Store, owner: string, scan: seq<Ref>, changes: seq<Change>, options: Options, a: Ref, b: Ref)
    requires Inv(s) && NamesOk(s, owner) && Covers(scan, s)
    requires AllNotebooks(changes) && UniqueIds(changes) && RegularChanges(changes)
    requires Effect(s, t, owner, changes, NotebookVerdicts(s, owner, scan, changes, options).verdicts)
    requires Active(t, owner, a) && Active(t, owner, b) && a != b && ShareKey(t.rows[a].entity.notebook, t.rows[b].entity.notebook)
    ensures exists i: nat, other :: SlipsPast(s, owner, scan, changes, options, i, other)
  {
    hide NotebookVerdicts, Effect, SlipsPast, Inv, RegularChanges, UniqueIds, AllNotebooks, DuplicateKeys, Covers;
    var all := NotebookVerdicts(s, owner, scan, changes, options).verdicts;
    if i :| 0 <= i < |changes| && all[i].Written? && RefOf(owner, changes[i].record) == a {
      SentAs(s, t, owner, scan, changes, options, i);
      if j :| 0 <= j < |changes| && all[j].Written? && RefOf(owner, changes[j].record) == b {
        SentAs(s, t, owner, scan, changes, options, j);
        BothWritten(s, t, owner, scan, changes, options, i, j);
      } else {
        UnwrittenSame(s, t, owner, changes, all, b);
        ShareSymmetric(s.rows[b].entity.notebook, changes[i].record.notebook);
        SharedMeansSlipped(s, owner, scan, changes, options, i, b);
      }
    } else {
      UnwrittenSame(s, t, owner, changes, all, a);
      if j :| 0 <= j < |changes| && all[j].Written? && RefOf(owner, changes[j].record) == b {
        SentAs(s, t, owner, scan, changes, options, j);
        SharedMeansSlipped(s, owner, scan, changes, options, j, a);
      } else {
        UnwrittenSame(s, t, owner, changes, all, b);
      }
    }
  }

  lemma BothWritten(s: Store, t: Store, owner: string, scan: seq<Ref>, changes: seq<Change>, options: Options, i: nat, j: nat)
    requires Inv(s) && AllNotebooks(changes) && UniqueIds(changes) && i < |changes| && j < |changes|
    requires var all := NotebookVerdicts(s, owner, scan, changes, options).verdicts; all[i].Written? && all[j].Written?
    requires RefOf(owner, changes[i].record) != RefOf(owner, changes[j].record)
    requires changes[i].record.NotebookEntity? && !changes[i].record.IsDeleted()
    requires changes[j].record.NotebookEntity? && !changes[j].record.IsDeleted()
    ensures !ShareKey(changes[i].record.notebook, changes[j].record.notebook)
  {
    hide NotebookVerdicts, DuplicateKeys;
    if i < j {
      WrittenDiffer(s, t, owner, scan, changes, options, i, j);
    } else {
      WrittenDiffer(s, t, owner, scan, changes, options, j, i);
      ShareSymmetric(changes[i].record.notebook, changes[j].record.notebook);
    }
  }

  /** Active notebooks of `t` are active notebooks of `s`, unchanged. */
  lemma FewerNames(s: Store, t: Store, owner: string)
    requires NamesOk(s, owner)
    requires forall ref :: Active(t, owner, ref) ==> RowAt(s, ref) == RowAt(t, ref)
    ensures NamesOk(t, owner)
  {
    hide Regular, ShareKey;
    forall ref | Active(t, owner, ref) ensures Active(s, owner, ref) && s.rows[ref] == t.rows[ref] {
      assert RowAt(s, ref) == RowAt(t, ref);
    }
  }

  lemma SameNames(s: Store, t: Store, owner: string)
    requires forall ref: Ref :: ref.kind == NotebookKind ==> SameAt(s, t, ref)
    ensures UniqueNames(s, owner) <==> UniqueNames(t, owner)
    ensures RegularRows(s, owner) <==> RegularRows(t, owner)
  {
    hide Regular, ShareKey;
    forall ref: Ref | ref.kind == NotebookKind
      ensures Active(s, owner, ref) <==> Active(t, owner, ref)
      ensures Active(s, owner, ref) ==> s.rows[ref] == t.rows[ref]
    {
      assert SameAt(s, t, ref);
      assert RowAt(s, ref) == RowAt(t, ref);
    }
  }

  /**
   Exactly when a push keeps names unique, for regular notebooks with any keys, in either push mode and whatever it
   accepts, rejects, deletes, renames and resurrects: if and only if none of its notebooks slips past the check.
   */
  lemma PushKeepsNamesUniqueIff(s: Store, owner: string, scan: seq<Ref>, request: Request, options: Options, now: Time)
    requires Inv(s) && NamesOk(s, owner) && Covers(scan, s)
    requires WellFormed(request) && UniqueIds(request.notebooks) && UniqueIds(request.notes)
    requires RegularChanges(request.notebooks)
    ensures var t := Run(s, owner, scan, request, options, now).store;
      RegularRows(t, owner)
      && (UniqueNames(t, owner) <==> forall i: nat, other :: !SlipsPast(s, owner, scan, request.notebooks, options, i, other))
  {
    hide SlipsPast, NamesOk, UniqueNames, RegularRows, RegularChanges, Covers, Effect, LawfulAll, Inv, Evolves, Rises, NotebookVerdicts;
    var o := Run(s, owner, scan, request, options, now);
    var mid := ApplyVerdicts(s, owner, o.notebooks, now);
    RunPhases(s, owner, scan, request, options, now);
    NotebookPhaseIff(s, mid, owner, scan, request.notebooks, options);
    assert RegularRows(s, owner) by { NamesParts(s, owner); }
    RegularAfter(s, mid, owner, scan, request.notebooks, options);
    NotebooksStay(mid, o.store, owner, request.notes, o.notes);
    SameNames(mid, o.store, owner);
  }

  lemma NamesParts(s: Store, owner: string)
    ensures NamesOk(s, owner) <==> RegularRows(s, owner) && UniqueNames(s, owner)
  {
  }

  /** With one key a notebook does not slip past: its only candidate is the one that was deleted. */
  lemma OneKeyNeverSlips(s: Store, owner: string, scan: seq<Ref>, changes: seq<Change>, options: Options, i: nat, other: Ref)
    requires Inv(s) && NamesOk(s, owner) && AllNotebooks(changes) && UniqueIds(changes) && OneKeyChanges(changes)
    ensures !SlipsPast(s, owner, scan, changes, options, i, other)
  {
    hide NotebookVerdict, NotebookVerdicts, DuplicateKeys, FirstStoredDuplicate, Regular, RowHasKey, ActiveAccepted;
    if SlipsPast(s, owner, scan, changes, options, i, other) {
      var all := NotebookVerdicts(s, owner, scan, changes, options).verdicts;
      var record := changes[i].record.notebook;
      assert changes[i] in changes;
      var keys := DuplicateKeys(record);
      var first := FirstStoredDuplicate(s, owner, scan, record, keys).value;
      CandidateIsRow(s, owner, scan, record, keys);
      var k :| k in keys && RowHasKey(s.rows[first].entity.notebook, k);
      FoundIffKey(s.rows[first].entity.notebook, record, k);
      var l :| l in DuplicateKeys(s.rows[other].entity.notebook) && l in keys;
      assert k == l;
      OnlyOne(s, owner, first, other, k);
      FacingAt(s, owner, scan, changes, options, i);
      DeletedIsWritten(s, owner, scan, changes, options, i, first);
    }
  }

  lemma OnlyOne(s: Store, owner: string, a: Ref, b: Ref, k: NameKey)
    requires UniqueNames(s, owner) && Active(s, owner, a) && Active(s, owner, b)
    requires k in DuplicateKeys(s.rows[a].entity.notebook) && k in DuplicateKeys(s.rows[b].entity.notebook)
    ensures a == b
  {
  }

  /** An active notebook whose deletion was accepted is written by the request. */
  lemma DeletedIsWritten(s: Store, owner: string, scan: seq<Ref>, changes: seq<Change>, options: Options, i: nat, ref: Ref)
    requires Inv(s) && Active(s, owner, ref) && AllNotebooks(changes) && UniqueIds(changes) && i < |changes| && AllNotebooks(changes[..i])
    requires ref.id in NotebookVerdicts(s, owner, scan, changes[..i], options).deleted
    ensures WrittenIn(owner, changes, NotebookVerdicts(s, owner, scan, changes, options).verdicts, ref)
  {
    hide NotebookVerdict, NotebookVerdicts, DuplicateKeys, ActiveAccepted;
    var all := NotebookVerdicts(s, owner, scan, changes, options).verdicts;
    FacingAt(s, owner, scan, changes, options, i);
    var acc := NotebookVerdicts(s, owner, scan, changes[..i], options);
    var j :| 0 <= j < |acc.verdicts| && DeletesId(acc.verdicts[j], ref.id);
    assert all[j] == acc.verdicts[j];
    AcceptedIsOwn(s, owner, scan, changes, options, j);
    FacingAt(s, owner, scan, changes, options, j);
    VerdictEntity(s, owner, scan, NotebookVerdicts(s, owner, scan, changes[..j], options), changes[j], options);
    InvAt(s, ref);
    assert RefOf(owner, changes[j].record) == ref;
  }

  /**
   So with one key per pushed notebook, hashed or plain in any mix, and any regular notebooks stored, a push keeps names
   unique whatever it accepts, rejects, deletes, renames and resurrects.
   */
  lemma PushKeepsNamesUnique(s: Store, owner: string, scan: seq<Ref>, request: Request, options: Options, now: Time)
    requires Inv(s) && NamesOk(s, owner) && Covers(scan, s)
    requires WellFormed(request) && UniqueIds(request.notebooks) && UniqueIds(request.notes)
    requires OneKeyChanges(request.notebooks)
    ensures NamesOk(Run(s, owner, scan, request, options, now).store, owner)
  {
    hide SlipsPast, UniqueNames, RegularRows, Regular, DuplicateKeys, Covers, Inv, Run;
    PushKeepsNamesUniqueIff(s, owner, scan, request, options, now);
    forall i: nat, other ensures !SlipsPast(s, owner, scan, request.notebooks, options, i, other) {
      OneKeyNeverSlips(s, owner, scan, request.notebooks, options, i, other);
    }
  }

  /** Deletions and cleanups keep the names unique too. */
  lemma RemovalsKeepNamesUnique(s: Store, owner: string, refs: seq<Ref>, scan: seq<Ref>, cutoff: Time, now: Time, who: Option<string>)
    requires Inv(s) && NamesOk(s, owner)
    ensures NamesOk(DeleteAll(s, refs, now), owner) && NamesOk(Cleanup(s, scan, cutoff, now, who), owner)
  {
    hide NamesOk;
    var t := DeleteAll(s, refs, now);
    DeleteAllKeeps(s, refs, now);
    forall ref | Active(t, owner, ref) ensures RowAt(s, ref) == RowAt(t, ref) {
      assert ref !in refs;
      assert SameAt(s, t, ref);
    }
    FewerNames(s, t, owner);
    var buried := ExpiredRefs(s, scan, cutoff, who);
    var u := Cleanup(s, scan, cutoff, now, who);
    CleanupRowsKeeps(s, buried, now);
    forall ref | Active(u, owner, ref) ensures RowAt(s, ref) == RowAt(u, ref) {
      assert ref !in buried;
      assert SameAt(s, u, ref);
    }
    FewerNames(s, u, owner);
  }

  /******* Two keys are one too many *******/

  const A := Notebook("a", "enc:v4:", Some("h"), 0, 0, None, "d", 1)
  const B := Notebook("b", "n", None, 0, 0, None, "d", 1)
  const C := Notebook("c", "n", Some("h"), 0, 0, None, "d", 1)
  const REF_A := Ref("o", NotebookKind, "a")
  const REF_B := Ref("o", NotebookKind, "b")
  const REF_C := Ref("o", NotebookKind, "c")
  const TWO := Store(map[REF_A := Row(NotebookEntity(A), None), REF_B := Row(NotebookEntity(B), None)], map[],
                     [Entry(1, REF_A, Upsert), Entry(2, REF_B, Upsert)], 3)
  const DELETE_A := Change(NotebookEntity(A.(deletedAt := Some(0), version := 2)), 1)
  const CREATE_C := Change(NotebookEntity(C), 0)

  lemma ExampleKeys()
    ensures DuplicateKeys(A) == [HashKey("h")] && DuplicateKeys(B) == [PlainKey("n")]
    ensures DuplicateKeys(C) == [HashKey("h"), PlainKey("n")]
  {
    Text.TrimOfTight("h");
    Text.TrimOfTight("n");
    assert Text.Lower("n") == "n";
  }

  lemma ExampleFirst()
    ensures NotebookVerdicts(TWO, "o", [REF_A, REF_B], [DELETE_A], MIRROR)
      == Acc([Written(DELETE_A.record)], map[], {"a"})
  {
    LoopLast(TWO, "o", [REF_A, REF_B], [], DELETE_A, MIRROR);
    assert [] + [DELETE_A] == [DELETE_A];
    assert NotebookVerdict(TWO, "o", [REF_A, REF_B], Acc([], map[], {}), DELETE_A, MIRROR)
      == Written(DELETE_A.record);
  }

  lemma ExampleStored()
    ensures FirstStoredDuplicate(TWO, "o", [REF_A, REF_B], C, [HashKey("h"), PlainKey("n")]) == Some(REF_A)
  {
    hide FoldedName;
    assert TWO.rows[REF_A] == Row(NotebookEntity(A), None);
    assert "a"[0] != "c"[0];
    assert IsCandidate(TWO, "o", REF_A, C, HashKey("h"));
    assert FirstWithKey(TWO, "o", [REF_A, REF_B], C, HashKey("h")) == Some(REF_A);
  }

  lemma ExampleDuplicate(acc: Acc)
    requires acc.active == map[] && acc.deleted == {"a"}
    ensures Duplicate(TWO, "o", [REF_A, REF_B], acc, C) == None
  {
    hide DuplicateKeys, IsCandidate, FoldedName;
    ExampleKeys();
    ExampleStored();
    assert FirstAccepted(acc.active, C, [HashKey("h"), PlainKey("n")]) == None;
  }

  lemma ExampleSecond(acc: Acc)
    requires acc.active == map[] && acc.deleted == {"a"}
    ensures NotebookVerdict(TWO, "o", [REF_A, REF_B], acc, CREATE_C, MIRROR) == Written(NotebookEntity(C))
  {
    hide Duplicate;
    ExampleDuplicate(acc);
    assert "c"[0] != "a"[0] && "c"[0] != "b"[0];
    assert REF_C !in TWO.rows;
  }

  const BOTH := Request([DELETE_A, CREATE_C], [])

  lemma ExampleRun()
    ensures WellFormed(BOTH) && UniqueIds(BOTH.notebooks)
    ensures Run(TWO, "o", [REF_A, REF_B], BOTH, MIRROR, 0).store
      == Put(Put(TWO, REF_A, DELETE_A.record, 0), REF_C, NotebookEntity(C), 0)
  {
    hide DuplicateKeys, NotebookVerdict, Put;
    ExampleFirst();
    var acc := NotebookVerdicts(TWO, "o", [REF_A, REF_B], [DELETE_A], MIRROR);
    ExampleSecond(acc);
    LoopLast(TWO, "o", [REF_A, REF_B], [DELETE_A], CREATE_C, MIRROR);
    assert [DELETE_A] + [CREATE_C] == [DELETE_A, CREATE_C];
    assert "a"[0] != "c"[0];
    var first := Push.Written(DELETE_A.record);
    ApplyLast(TWO, "o", [], first, 0);
    ApplyLast(TWO, "o", [first], Push.Written(NotebookEntity(C)), 0);
    assert [] + [first] == [first];
  }

  /**
   Two keys are not enough: a mirror of rows from before names were encrypted copies a deletion of a notebook and a new one
   with that notebook's hash and the plain name of another. The hash matches the deleted notebook first, which hides that
   the name matches the other.
   */
  lemma TwoKeysSlipThrough()
    ensures WellFormed(BOTH) && UniqueIds(BOTH.notebooks)
    ensures !ShareKey(A, B) && Active(TWO, "o", REF_A) && Active(TWO, "o", REF_B)
    ensures
      var t := Run(TWO, "o", [REF_A, REF_B], BOTH, MIRROR, 0).store;
      && Active(t, "o", REF_B) && Active(t, "o", REF_C)
      && ShareKey(t.rows[REF_B].entity.notebook, t.rows[REF_C].entity.notebook)
  {
    hide DuplicateKeys, Run, RetentionAfter;
    ExampleKeys();
    ExampleRun();
    assert "b"[0] != "a"[0] && "b"[0] != "c"[0];
    assert PlainKey("n") in DuplicateKeys(B) && PlainKey("n") in DuplicateKeys(C);
  }
}
