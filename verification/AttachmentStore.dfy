/** The attachment store as a machine of atomic steps: database transactions, single file operations and the start or end
    of a suspended call, in any interleaving, with crashes. Row fields that no decision reads are left out. */
module AttachmentStore {
  import opened Options
  import opened Text

  type Byte = b: int | 0 <= b < 256
  type Bytes = seq<Byte>
  type Id = string
  type Digest = Bytes -> string

  const MIB := 1024 * 1024
  const FILE_BYTES := 10 * MIB
  const CONCURRENT_UPLOADS := 2
  const RETAINED_BYTES := 512 * MIB
  const RETAINED_FILES := 1000
  const DRAFT_MS := 24 * 60 * 60 * 1000
  const UPLOAD_MS := 2 * 60 * 1000

  datatype Media = Png | Jpeg
  datatype Row = Uploading(requestId: string, workspace: string, createdAt: int, reserved: nat, leaseExpiresAt: int)
               | Ready(requestId: string, workspace: string, createdAt: int, reserved: nat, media: Media, sha256: string)
  /** A file of the store: the partial upload, or the image under either extension. */
  datatype Suffix = Part | PngFile | JpgFile
  datatype Name = Name(id: Id, suffix: Suffix)
  datatype Use = Use(id: Id, kind: string, refId: string)
  datatype Descriptor = Descriptor(id: Id, media: Media, sha256: string)

  function Extension(media: Media): Suffix {
    if media == Png then PngFile else JpgFile
  }

  function AllNames(id: Id): set<Name> {
    {Name(id, Part), Name(id, PngFile), Name(id, JpgFile)}
  }

  // ---- Reading a request body ----

  datatype Chunk = Data(bytes: Bytes) | End | Broken | Expired
  datatype BodyError = TooLarge | Incomplete | Timeout

  predicate Exceeds(total: nat, declared: Option<nat>) {
    total > FILE_BYTES || (declared.Some? && total > declared.value)
  }

  predicate Acceptable(body: Bytes, declared: Option<nat>) {
    body != [] && (declared.Some? ==> |body| == declared.value)
  }

  function BodyOf(stream: seq<Chunk>, declared: Option<nat>, got: Bytes): Result<Bytes, BodyError> {
    if stream == [] || stream[0].Broken? then Err(Incomplete)
    else match stream[0]
      case Expired => Err(Timeout)
      case End => if Acceptable(got, declared) then Ok(got) else Err(Incomplete)
      case Data(bytes) =>
        if Exceeds(|got| + |bytes|, declared) then Err(TooLarge) else BodyOf(stream[1..], declared, got + bytes)
  }

  method ReadBody(stream: seq<Chunk>, declared: Option<nat>) returns (r: Result<Bytes, BodyError>)
    ensures r == BodyOf(stream, declared, [])
  {
    var chunks: seq<Bytes>, total, i := [], 0, 0;
    while true
      invariant i <= |stream| && total == |Concat(chunks)|
      invariant BodyOf(stream, declared, []) == BodyOf(stream[i..], declared, Concat(chunks))
      decreases |stream| - i
    {
      if i == |stream| || stream[i].Broken? { return Err(Incomplete); }
      if stream[i].Expired? { return Err(Timeout); }
      if stream[i].End? { break; }
      var value := stream[i].bytes;
      total := total + |value|;
      if Exceeds(total, declared) { return Err(TooLarge); }
      ConcatAppend(chunks, [value]);
      assert Concat([value]) == value;
      assert stream[i..][1..] == stream[i + 1..];
      chunks := chunks + [value];
      i := i + 1;
    }
    if total == 0 || (declared.Some? && total != declared.value) { return Err(Incomplete); }
    return Ok(Concat(chunks));
  }

  function Reservation(declared: Option<nat>): nat {
    declared.GetOr(FILE_BYTES)
  }

  /** A body is never larger than what its upload reserved. */
  lemma {:induction false} BodyFitsReservation(stream: seq<Chunk>, declared: Option<nat>, got: Bytes)
    requires |got| <= FILE_BYTES && BodyOf(stream, declared, got).Ok?
    ensures var body := BodyOf(stream, declared, got).value;
            got <= body && 0 < |body| <= FILE_BYTES && |body| <= Reservation(declared) && Acceptable(body, declared)
  {
    if stream[0].Data? {
      BodyFitsReservation(stream[1..], declared, got + stream[0].bytes);
    }
  }

  // ---- State ----

  /** An upload request between its awaits. */
  datatype Phase = Receiving | Received(body: Bytes, media: Media) | Parted(body: Bytes, media: Media)
                 | Linked(body: Bytes, media: Media) | Stored(body: Bytes, media: Media) | Discarding(left: seq<Suffix>)
  datatype Task = Admitted(requestId: string, workspace: string, declared: Option<nat>)
                | Upload(id: Id, declared: Option<nat>, phase: Phase)

  /** Persistent: rows, uses, files, and every identifier ever drawn. The rest dies with the process: running uploads,
      decided unlinks, reclaim candidates past their scan, and the uploads a recovery scan found interrupted. */
  datatype Store = Store(rows: map<Id, Row>, uses: set<Use>, files: map<Name, Bytes>, drawn: set<Id>,
                         tasks: map<nat, Task>, doomed: set<Name>, candidates: set<Id>, interrupted: set<Id>)

  const EmptyStore := Store(map[], {}, map[], {}, map[], {}, {}, {})

  /** The service's `uploading` set; its `active` counter is the number of tasks. */
  function UploadIds(tasks: map<nat, Task>): set<Id> {
    set t | t in tasks && tasks[t].Upload? :: tasks[t].id
  }

  predicate Referenced(uses: set<Use>, id: Id) {
    exists u <- uses :: u.id == id
  }

  ghost function Reserved(rows: map<Id, Row>): nat
    decreases |rows|
  {
    if rows == map[] then 0 else var k :| k in rows; rows[k].reserved + Reserved(rows - {k})
  }

  ghost predicate Reservable(rows: map<Id, Row>, requestId: string, reserved: nat) {
    Reserved(rows) + reserved <= RETAINED_BYTES && |rows| + 1 <= RETAINED_FILES
    && forall k <- rows :: rows[k].requestId != requestId
  }

  predicate Reclaimable(row: Row, uploading: bool, now: int) {
    if row.Ready? then row.createdAt + DRAFT_MS <= now else !uploading && row.leaseExpiresAt <= now
  }

  predicate Pinnable(rows: map<Id, Row>, d: Descriptor) {
    d.id in rows && rows[d.id].Ready? && rows[d.id].sha256 == d.sha256
  }

  // ---- Steps ----

  /** What a running upload does next. */
  datatype UploadStep =
    | Receive(stream: seq<Chunk>, media: Option<Media>)
    | WritePart(ok: bool, partial: Option<Bytes>)
    | LinkFinal(ok: bool)
    | DropPart(ok: bool)
    | Publish(ok: bool)
    | DiscardFile(ok: bool)
    | DiscardRow

  /** Removal, reclaiming and recovery, each split at its awaits. */
  datatype CleanupStep =
    | Remove(id: Id)
    | ReclaimScan(now: int)
    | ReclaimRow(id: Id)
    | RecoverScan
    | RecoverFiles(id: Id)
    | RecoverRow(id: Id)
    | RecoverOrphan(name: Name)
    | Unlink(name: Name)

  datatype Step =
    | Admit(task: nat, requestId: string, workspace: string, declared: Option<nat>)
    | Leave(task: nat)
    | Reserve(task: nat, id: Id, now: int)
    | Continue(task: nat, upload: UploadStep)
    | Cleanup(cleanup: CleanupStep)
    | Pin(descriptors: seq<Descriptor>, kind: string, refId: string)
    | Crash

  function Phased(s: Store, t: nat, phase: Phase): Store
    requires t in s.tasks && s.tasks[t].Upload?
  {
    s.(tasks := s.tasks[t := s.tasks[t].(phase := phase)])
  }

  /** The failure path: the files of the upload are unlinked one by one, then its row is deleted. */
  function Failed(s: Store, t: nat): Store
    requires t in s.tasks && s.tasks[t].Upload?
  {
    Phased(s, t, Discarding([Part, PngFile, JpgFile]))
  }

  predicate InPhase(s: Store, t: nat) {
    t in s.tasks && s.tasks[t].Upload?
  }

  ghost function Reserving(s: Store, t: nat, id: Id, now: int): Store
    requires t in s.tasks && s.tasks[t].Admitted?
  {
    var task := s.tasks[t];
    var reserved := Reservation(task.declared);
    if !Reservable(s.rows, task.requestId, reserved) then s.(tasks := s.tasks - {t})
    else s.(rows := s.rows[id := Uploading(task.requestId, task.workspace, now, reserved, now + 2 * UPLOAD_MS)],
            drawn := s.drawn + {id}, tasks := s.tasks[t := Upload(id, task.declared, Receiving)])
  }

  function Receiving'(s: Store, t: nat, stream: seq<Chunk>, media: Option<Media>): Store
    requires InPhase(s, t)
  {
    var body := BodyOf(stream, s.tasks[t].declared, []);
    if body.Err? || media.None? then Failed(s, t) else Phased(s, t, Received(body.value, media.value))
  }

  /** Exclusive creation refuses an existing file; a failed write may leave a partial file of its own. */
  function WritingPart(s: Store, t: nat, ok: bool, partial: Option<Bytes>): Store
    requires InPhase(s, t) && s.tasks[t].phase.Received?
  {
    var name, p := Name(s.tasks[t].id, Part), s.tasks[t].phase;
    if name in s.files then Failed(s, t)
    else if !ok then Failed(if partial.Some? then s.(files := s.files[name := partial.value]) else s, t)
    else Phased(s.(files := s.files[name := p.body]), t, Parted(p.body, p.media))
  }

  function LinkingFinal(s: Store, t: nat, ok: bool): Store
    requires InPhase(s, t) && s.tasks[t].phase.Parted?
  {
    var p := s.tasks[t].phase;
    var name := Name(s.tasks[t].id, Extension(p.media));
    if name in s.files || !ok then Failed(s, t) else Phased(s.(files := s.files[name := p.body]), t, Linked(p.body, p.media))
  }

  function DroppingPart(s: Store, t: nat, ok: bool): Store
    requires InPhase(s, t) && s.tasks[t].phase.Linked?
  {
    var p := s.tasks[t].phase;
    if !ok then Failed(s, t) else Phased(s.(files := s.files - {Name(s.tasks[t].id, Part)}), t, Stored(p.body, p.media))
  }

  /** The size check of the stored file, then the UPDATE, the last step that can fail. */
  function Publishing(s: Store, t: nat, ok: bool, digest: Digest): Store
    requires InPhase(s, t) && s.tasks[t].phase.Stored?
  {
    var id, p := s.tasks[t].id, s.tasks[t].phase;
    var name := Name(id, Extension(p.media));
    if !ok || name !in s.files || |s.files[name]| != |p.body| then Failed(s, t)
    else
      var rows := if id !in s.rows then s.rows else
        s.rows[id := Ready(s.rows[id].requestId, s.rows[id].workspace, s.rows[id].createdAt, |p.body|, p.media, digest(p.body))];
      s.(rows := rows, tasks := s.tasks - {t})
  }

  function DiscardingFile(s: Store, t: nat, ok: bool): Store
    requires InPhase(s, t) && s.tasks[t].phase.Discarding? && s.tasks[t].phase.left != []
  {
    var left := s.tasks[t].phase.left;
    Phased(if ok then s.(files := s.files - {Name(s.tasks[t].id, left[0])}) else s, t, Discarding(left[1..]))
  }

  function DroppedIfUploading(rows: map<Id, Row>, id: Id): map<Id, Row> {
    if id in rows && rows[id].Uploading? then rows - {id} else rows
  }

  function Removing(s: Store, id: Id): Store {
    if id !in s.rows || !s.rows[id].Ready? || Referenced(s.uses, id) then s
    else s.(rows := s.rows - {id}, doomed := s.doomed + {Name(id, Extension(s.rows[id].media))})
  }

  function Candidates(s: Store, now: int): set<Id> {
    set id | id in s.rows && !Referenced(s.uses, id) && Reclaimable(s.rows[id], id in UploadIds(s.tasks), now)
  }

  function ReclaimingRow(s: Store, id: Id): Store {
    if id !in s.candidates || Referenced(s.uses, id) || id in UploadIds(s.tasks) || id !in s.rows then s
    else s.(rows := s.rows - {id}, doomed := s.doomed + AllNames(id))
  }

  function Interrupted(s: Store): set<Id> {
    set id | id in s.rows && s.rows[id].Uploading? && id !in UploadIds(s.tasks)
  }

  /** A file without a row, or the partial file of a published image. */
  predicate Orphan(s: Store, name: Name) {
    name in s.files && name.id !in UploadIds(s.tasks)
    && (name.id !in s.rows || (name.suffix == Part && s.rows[name.id].Ready?))
  }

  function Pinning(s: Store, ds: seq<Descriptor>, kind: string, refId: string): Store {
    if forall i | 0 <= i < |ds| :: Pinnable(s.rows, ds[i]) then s.(uses := s.uses + set d | d in ds :: Use(d.id, kind, refId)) else s
  }

  predicate Fitting(phase: Phase, step: UploadStep) {
    match step
    case Receive(_, _) => phase.Receiving?
    case WritePart(_, _) => phase.Received?
    case LinkFinal(_) => phase.Parted?
    case DropPart(_) => phase.Linked?
    case Publish(_) => phase.Stored?
    case DiscardFile(_) => phase.Discarding? && phase.left != []
    case DiscardRow => phase == Discarding([])
  }

  function NextUpload(s: Store, t: nat, step: UploadStep, digest: Digest): Store
    requires InPhase(s, t) && Fitting(s.tasks[t].phase, step)
  {
    match step
    case Receive(stream, media) => Receiving'(s, t, stream, media)
    case WritePart(ok, partial) => WritingPart(s, t, ok, partial)
    case LinkFinal(ok) => LinkingFinal(s, t, ok)
    case DropPart(ok) => DroppingPart(s, t, ok)
    case Publish(ok) => Publishing(s, t, ok, digest)
    case DiscardFile(ok) => DiscardingFile(s, t, ok)
    case DiscardRow => s.(rows := DroppedIfUploading(s.rows, s.tasks[t].id), tasks := s.tasks - {t})
  }

  function NextCleanup(s: Store, step: CleanupStep): Store {
    match step
    case Remove(id) => Removing(s, id)
    case ReclaimScan(now) => s.(candidates := s.candidates + Candidates(s, now))
    case ReclaimRow(id) => ReclaimingRow(s, id)
    case RecoverScan => s.(interrupted := s.interrupted + Interrupted(s))
    case RecoverFiles(id) => if id in s.interrupted then s.(doomed := s.doomed + AllNames(id)) else s
    case RecoverRow(id) => if id in s.interrupted then s.(rows := DroppedIfUploading(s.rows, id)) else s
    case RecoverOrphan(name) => if Orphan(s, name) then s.(doomed := s.doomed + {name}) else s
    case Unlink(name) => if name in s.doomed then s.(files := s.files - {name}, doomed := s.doomed - {name}) else s
  }

  /** A step that the state does not allow leaves it as it is. An admitted request whose identifier is already stored, or
      whose reclaim fails, only leaves. */
  ghost function Next(s: Store, step: Step, digest: Digest): Store {
    match step
    case Admit(t, requestId, workspace, declared) =>
      if t in s.tasks || (declared.Some? && !(1 <= declared.value <= FILE_BYTES)) || |s.tasks| >= CONCURRENT_UPLOADS then s
      else s.(tasks := s.tasks[t := Admitted(requestId, workspace, declared)])
    case Leave(t) => if t in s.tasks && s.tasks[t].Admitted? then s.(tasks := s.tasks - {t}) else s
    case Reserve(t, id, now) => if t in s.tasks && s.tasks[t].Admitted? && id !in s.drawn then Reserving(s, t, id, now) else s
    case Continue(t, upload) => if InPhase(s, t) && Fitting(s.tasks[t].phase, upload) then NextUpload(s, t, upload, digest) else s
    case Cleanup(cleanup) => NextCleanup(s, cleanup)
    case Pin(ds, kind, refId) => Pinning(s, ds, kind, refId)
    case Crash => s.(tasks := map[], doomed := {}, candidates := {}, interrupted := {})
  }

  ghost function Run(steps: seq<Step>, digest: Digest): Store {
    if steps == [] then EmptyStore else Next(Run(steps[..|steps| - 1], digest), steps[|steps| - 1], digest)
  }
}
