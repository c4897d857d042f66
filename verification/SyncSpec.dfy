/**
 The record comparisons of packages/sync-spec, shared by server, clients and mirror.
 A note or a notebook is an `Entity`. Timestamps are the milliseconds of a valid date.
 */
module SyncSpec {
  import opened Wrappers
  import Seqs
  import Text

  type Time = int

  datatype Note = Note(
    id: string, title: string, body: string,
    titleHash: Option<string>, bodyHash: Option<string>,
    notebookIds: seq<string>, notebookId: Option<string>,
    createdAt: Time, updatedAt: Time, deletedAt: Option<Time>, trashedAt: Option<Time>,
    isFavorite: bool, deviceId: string, version: int)

  datatype Notebook = Notebook(
    id: string, name: string, nameHash: Option<string>,
    createdAt: Time, updatedAt: Time, deletedAt: Option<Time>,
    deviceId: string, version: int)

  datatype Kind = NoteKind | NotebookKind

  datatype Entity = NoteEntity(note: Note) | NotebookEntity(notebook: Notebook) {
    function Kind(): Kind { if NoteEntity? then NoteKind else NotebookKind }
    function Id(): string { if NoteEntity? then note.id else notebook.id }
    function Version(): int { if NoteEntity? then note.version else notebook.version }
    function UpdatedAt(): Time { if NoteEntity? then note.updatedAt else notebook.updatedAt }
    function DeletedAt(): Option<Time> { if NoteEntity? then note.deletedAt else notebook.deletedAt }
    function DeviceId(): string { if NoteEntity? then note.deviceId else notebook.deviceId }

    predicate IsDeleted() { DeletedAt().Some? }

    function WithVersion(v: int): Entity {
      if NoteEntity? then NoteEntity(note.(version := v)) else NotebookEntity(notebook.(version := v))
    }
  }

  function NextVersionAfter(version: int): int { version + 1 }

  /******* recordsDiffer *******/

  /** An optional string counts as present unless it is null or empty. */
  predicate Truthy(h: Option<string>) { h.Some? && h.value != "" }

  /** Hash first: as soon as one side has a hash, only the hashes are compared. */
  predicate TextDiffers(aHash: Option<string>, a: string, bHash: Option<string>, b: string) {
    if Truthy(aHash) || Truthy(bHash) then aHash != bHash else a != b
  }

  function NormalizedIds(ids: seq<string>): (r: seq<string>)
    ensures Seqs.Distinct(r)
    ensures forall id :: id in r ==> id != "" && Text.Trim(id) == id
  {
    var trimmed := Seqs.Map(Text.Trim, ids);
    var kept := Seqs.Filter(trimmed, id => id != "");
    forall id | id in kept ensures Text.Trim(id) == id {
      var i :| 0 <= i < |trimmed| && trimmed[i] == id;
      Text.TrimIdempotent(ids[i]);
    }
    Seqs.Dedupe(kept)
  }

  function NormalizedId(id: Option<string>): Option<string> {
    if id.Some? && Text.Trim(id.value) != "" then Some(Text.Trim(id.value)) else None
  }

  /** A note's notebook ids, falling back on the legacy single id. */
  function NoteNotebookIds(note: Note): (r: seq<string>)
    ensures Seqs.Distinct(r)
    ensures forall id :: id in r ==> id != "" && Text.Trim(id) == id
  {
    NormalizedIds(
      if |note.notebookIds| > 0 then note.notebookIds
      else if Truthy(note.notebookId) then [note.notebookId.value]
      else [])
  }

  function RefSet(note: Note): set<string> {
    set id | id in NoteNotebookIds(note)
  }

  predicate RecordsDiffer(a: Entity, b: Entity) {
    match (a, b)
    case (NoteEntity(m), NoteEntity(n)) =>
      || TextDiffers(m.titleHash, m.title, n.titleHash, n.title)
      || TextDiffers(m.bodyHash, m.body, n.bodyHash, n.body)
      || RefSet(m) != RefSet(n)
      || NormalizedId(m.notebookId) != NormalizedId(n.notebookId)
      || m.deletedAt != n.deletedAt
      || m.trashedAt != n.trashedAt
      || m.isFavorite != n.isFavorite
    case (NotebookEntity(m), NotebookEntity(n)) =>
      || TextDiffers(m.nameHash, m.name, n.nameHash, n.name)
      || m.deletedAt != n.deletedAt
    case _ => true
  }

  /** What the comparison can see of a text: its hash when it has one, else the text. */
  datatype TextKey = ByHash(hash: string) | ByText(text: string)

  function KeyOfText(hash: Option<string>, text: string): TextKey {
    if Truthy(hash) then ByHash(hash.value) else ByText(text)
  }

  /** The content of an entity apart from its notebook references. */
  datatype Core =
    | NoteCore(title: TextKey, body: TextKey, deletedAt: Option<Time>, trashedAt: Option<Time>, isFavorite: bool)
    | NotebookCore(name: TextKey, deletedAt: Option<Time>)

  datatype Content = Content(core: Core, refs: set<string>, primary: Option<string>)

  function CoreOf(e: Entity): Core {
    match e
    case NoteEntity(n) =>
      NoteCore(KeyOfText(n.titleHash, n.title), KeyOfText(n.bodyHash, n.body), n.deletedAt, n.trashedAt, n.isFavorite)
    case NotebookEntity(n) => NotebookCore(KeyOfText(n.nameHash, n.name), n.deletedAt)
  }

  function ContentOf(e: Entity): Content {
    match e
    case NoteEntity(n) => Content(CoreOf(e), RefSet(n), NormalizedId(n.notebookId))
    case NotebookEntity(n) => Content(CoreOf(e), {}, None)
  }

  /** All that was written, word by word, where the comparison may be content with a hash. No references and no stamps. */
  datatype Wording =
    | NoteWording(title: string, body: string, titleHash: Option<string>, bodyHash: Option<string>,
                  createdAt: Time, deletedAt: Option<Time>, trashedAt: Option<Time>, isFavorite: bool)
    | NotebookWording(name: string, nameHash: Option<string>, createdAt: Time, deletedAt: Option<Time>)

  ghost function WordingOf(e: Entity): Wording {
    match e
    case NoteEntity(n) =>
      NoteWording(n.title, n.body, n.titleHash, n.bodyHash, n.createdAt, n.deletedAt, n.trashedAt, n.isFavorite)
    case NotebookEntity(n) => NotebookWording(n.name, n.nameHash, n.createdAt, n.deletedAt)
  }

  /** The reference fields of a note, as they are stored. */
  ghost function RefsOf(e: Entity): (seq<string>, Option<string>) {
    if e.NoteEntity? then (e.note.notebookIds, e.note.notebookId) else ([], None)
  }

  lemma SameWordingSameCore(a: Entity, b: Entity)
    requires WordingOf(a) == WordingOf(b)
    ensures CoreOf(a) == CoreOf(b)
  {
  }

  /** A new version number changes nothing else. */
  lemma OnlyTheVersionChanges(e: Entity, version: int)
    ensures var x := e.WithVersion(version);
      && x.Version() == version && x.Kind() == e.Kind() && x.Id() == e.Id()
      && WordingOf(x) == WordingOf(e) && RefsOf(x) == RefsOf(e) && x.UpdatedAt() == e.UpdatedAt() && x.DeviceId() == e.DeviceId()
  {
  }

  /** The comparison is equality of a canonical content, hence an equivalence relation. */
  lemma RecordsDifferIffContentDiffers(a: Entity, b: Entity)
    ensures RecordsDiffer(a, b) <==> ContentOf(a) != ContentOf(b)
  {
    if a.NoteEntity? && b.NoteEntity? {
      TextDiffersIffKeys(a.note.titleHash, a.note.title, b.note.titleHash, b.note.title);
      TextDiffersIffKeys(a.note.bodyHash, a.note.body, b.note.bodyHash, b.note.body);
    } else if a.NotebookEntity? && b.NotebookEntity? {
      TextDiffersIffKeys(a.notebook.nameHash, a.notebook.name, b.notebook.nameHash, b.notebook.name);
    }
  }

  lemma TextDiffersIffKeys(aHash: Option<string>, a: string, bHash: Option<string>, b: string)
    ensures TextDiffers(aHash, a, bHash, b) <==> KeyOfText(aHash, a) != KeyOfText(bHash, b)
  {
  }

  lemma SameContentIsEquivalence(a: Entity, b: Entity, c: Entity)
    ensures !RecordsDiffer(a, a)
    ensures RecordsDiffer(a, b) <==> RecordsDiffer(b, a)
    ensures !RecordsDiffer(a, b) && !RecordsDiffer(b, c) ==> !RecordsDiffer(a, c)
  {
    RecordsDifferIffContentDiffers(a, a);
    RecordsDifferIffContentDiffers(a, b);
    RecordsDifferIffContentDiffers(b, a);
    RecordsDifferIffContentDiffers(b, c);
    RecordsDifferIffContentDiffers(a, c);
  }

  /** Normalizing trims every id, drops what is blank and keeps nothing else; the legacy id is trimmed the same way. */
  lemma NormalizedIdsAre(ids: seq<string>, id: string)
    ensures id in NormalizedIds(ids) <==> id != "" && exists x :: x in ids && Text.Trim(x) == id
    ensures NormalizedId(Some(id)) == if Text.Trim(id) == "" then None else Some(Text.Trim(id))
    ensures NormalizedId(None) == None
  {
    hide Text.Trim;
    var trimmed := Seqs.Map(Text.Trim, ids);
    forall x | x in ids ensures Text.Trim(x) in trimmed {
      var i :| 0 <= i < |ids| && ids[i] == x;
      assert trimmed[i] == Text.Trim(x);
    }
    if id in trimmed {
      var i :| 0 <= i < |trimmed| && trimmed[i] == id;
      assert ids[i] in ids && Text.Trim(ids[i]) == id;
    }
  }

  /** Ids keep the order in which they first come up; one that is blank or came before adds nothing. */
  lemma NormalizedIdsGrow(ids: seq<string>, id: string)
    ensures NormalizedIds([]) == []
    ensures var r := NormalizedIds(ids);
      NormalizedIds(ids + [id]) == if Text.Trim(id) == "" || Text.Trim(id) in r then r else r + [Text.Trim(id)]
  {
    hide Text.Trim, Seqs.Dedupe;
    var trimmed := Seqs.Map(Text.Trim, ids);
    assert Seqs.Map(Text.Trim, []) == [] && Seqs.Dedupe<string>([]) == [] by { NoIds(); }
    assert Seqs.Map(Text.Trim, ids + [id]) == trimmed + [Text.Trim(id)];
    assert (trimmed + [Text.Trim(id)])[..|trimmed|] == trimmed;
    Seqs.DedupeKeepsTheFirst(Seqs.Filter(trimmed, id => id != ""), Text.Trim(id));
  }

  lemma NoIds()
    ensures Seqs.Dedupe<string>([]) == []
  {
  }

  /** The notebooks of a note: those of its list, and the legacy id of a note that has no list. */
  lemma NotebookIdsAre(n: Note, id: string)
    ensures id in NoteNotebookIds(n) <==>
      && id != ""
      && ((exists x :: x in n.notebookIds && Text.Trim(x) == id)
          || (n.notebookIds == [] && n.notebookId.Some? && n.notebookId.value != "" && Text.Trim(n.notebookId.value) == id))
  {
    hide NormalizedIds, NormalizedId, Text.Trim;
    NormalizedIdsAre(n.notebookIds, id);
    NormalizedIdsAre([], id);
    if n.notebookId.Some? { NormalizedIdsAre([n.notebookId.value], id); }
  }

  /** Ids that are distinct, trimmed and non-empty are already normal. */
  lemma NormalizedStay(ids: seq<string>)
    requires Seqs.Distinct(ids) && forall id :: id in ids ==> id != "" && Text.Trim(id) == id
    ensures NormalizedIds(ids) == ids
  {
    assert Seqs.Map(Text.Trim, ids) == ids;
    Seqs.FilterAll(ids, id => id != "");
    Seqs.DedupeDistinct(ids);
  }

  /******* Conflicts *******/

  predicate ShouldConflict(local: Entity, remote: Entity, baseVersion: int) {
    RecordsDiffer(local, remote) && baseVersion != remote.Version()
  }

  datatype Choice = KeepNewer | KeepOlder | KeepLocal | KeepRemote | DuplicateBoth

  /** The order of two conflict versions: time first, then version. */
  function CompareVersions(local: Entity, remote: Entity): int {
    if local.UpdatedAt() != remote.UpdatedAt() then local.UpdatedAt() - remote.UpdatedAt()
    else local.Version() - remote.Version()
  }

  /** True when the choice selects the remote version of the conflict. */
  predicate SelectsRemote(local: Entity, remote: Entity, choice: Choice) {
    match choice
    case KeepLocal => false
    case KeepRemote => true
    case KeepNewer => CompareVersions(local, remote) < 0
    case KeepOlder => CompareVersions(local, remote) > 0
    case DuplicateBoth => false
  }

  /******* Cursors *******/

  /** The next pull cursor; an error when the server's answer would not advance a paged pull. */
  function SafeRevisionCursor(serverRevision: int, previousRevision: int, hasMore: bool): (r: Result<int, string>)
    ensures r.Ok? ==> r.value >= previousRevision >= 0 && (hasMore ==> r.value > previousRevision)
  {
    if previousRevision < 0 then Err("Invalid previous revision")
    else if serverRevision < 0 then Err("Invalid revision from server")
    else if serverRevision < previousRevision || (hasMore && serverRevision == previousRevision) then
      Err("Cursor did not advance")
    else Ok(serverRevision)
  }
}
