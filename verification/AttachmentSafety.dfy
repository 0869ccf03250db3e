/** What every interleaving of the attachment store keeps. */
module AttachmentSafety {
  import opened Options
  import opened AttachmentStore

  // ---- Invariants ----

  ghost predicate Budget(s: Store) {
    Reserved(s.rows) <= RETAINED_BYTES && |s.rows| <= RETAINED_FILES && |s.tasks| <= CONCURRENT_UPLOADS
  }

  ghost predicate OneRowPerRequest(s: Store) {
    forall j, k | j in s.rows && k in s.rows && j != k :: s.rows[j].requestId != s.rows[k].requestId
  }

  ghost predicate Drawn(s: Store) {
    && s.rows.Keys <= s.drawn && UploadIds(s.tasks) <= s.drawn && s.interrupted <= s.drawn
    && (forall n <- s.files :: n.id in s.drawn) && (forall n <- s.doomed :: n.id in s.drawn)
  }

  predicate BodyWithin(phase: Phase, reserved: nat) {
    phase.Received? || phase.Parted? || phase.Linked? || phase.Stored? ==> |phase.body| <= reserved
  }

  ghost predicate Owns(s: Store, t: nat)
    requires t in s.tasks
  {
    s.tasks[t].Upload? ==>
      && s.tasks[t].id in s.rows && s.rows[s.tasks[t].id].Uploading?
      && s.rows[s.tasks[t].id].reserved == Reservation(s.tasks[t].declared)
      && BodyWithin(s.tasks[t].phase, Reservation(s.tasks[t].declared))
  }

  /** Every running upload alone owns its row, which is still uploading. */
  ghost predicate Owners(s: Store) {
    && (forall t <- s.tasks :: Owns(s, t))
    && (forall t, u | t in s.tasks && u in s.tasks && t != u && s.tasks[t].Upload? && s.tasks[u].Upload? :: s.tasks[t].id != s.tasks[u].id)
  }

  /** Nothing decided for deletion concerns a running upload or the image file of a published row. */
  ghost predicate Dead(s: Store) {
    && (forall id <- s.interrupted :: id !in UploadIds(s.tasks) && (id in s.rows ==> s.rows[id].Uploading?))
    && (forall n <- s.doomed :: n.id !in UploadIds(s.tasks) && (n.id in s.rows ==> s.rows[n.id].Uploading? || n.suffix == Part))
  }

  ghost predicate Holds(files: map<Name, Bytes>, id: Id, media: Media, body: Bytes) {
    var n := Name(id, Extension(media)); n in files && files[n] == body
  }

  /** A published row has its image: the recorded size and digest are those of the file. */
  ghost predicate Filed(s: Store, digest: Digest, id: Id)
    requires id in s.rows
  {
    s.rows[id].Ready? ==>
      var n := Name(id, Extension(s.rows[id].media));
      n in s.files && digest(s.files[n]) == s.rows[id].sha256 && |s.files[n]| == s.rows[id].reserved
  }

  ghost predicate Files(s: Store, digest: Digest) {
    && (forall id <- s.rows :: Filed(s, digest, id))
    && (forall t <- s.tasks :: s.tasks[t].Upload? && (s.tasks[t].phase.Linked? || s.tasks[t].phase.Stored?) ==>
          Holds(s.files, s.tasks[t].id, s.tasks[t].phase.media, s.tasks[t].phase.body))
  }

  /** Every recorded use is of a published row. */
  ghost predicate Uses(s: Store) {
    forall u <- s.uses :: u.id in s.rows && s.rows[u.id].Ready?
  }

  ghost predicate Invariant(s: Store, digest: Digest) {
    Budget(s) && OneRowPerRequest(s) && Drawn(s) && Owners(s) && Dead(s) && Files(s, digest) && Uses(s)
  }

  // ---- Reserved bytes ----

  lemma {:induction false} ReservedWithout(rows: map<Id, Row>, k: Id)
    requires k in rows
    ensures Reserved(rows) == rows[k].reserved + Reserved(rows - {k})
    decreases |rows|
  {
    var j :| j in rows && Reserved(rows) == rows[j].reserved + Reserved(rows - {j});
    if j != k {
      ReservedWithout(rows - {j}, k);
      ReservedWithout(rows - {k}, j);
      assert rows - {j} - {k} == rows - {k} - {j};
    }
  }

  lemma ReservedWith(rows: map<Id, Row>, k: Id, row: Row)
    requires k !in rows
    ensures Reserved(rows[k := row]) == Reserved(rows) + row.reserved && |rows[k := row]| == |rows| + 1
  {
    ReservedWithout(rows[k := row], k);
    assert rows[k := row] - {k} == rows;
  }

  lemma ReservedUpdate(rows: map<Id, Row>, k: Id, row: Row)
    requires k in rows && row.reserved <= rows[k].reserved
    ensures Reserved(rows[k := row]) <= Reserved(rows) && |rows[k := row]| == |rows|
  {
    ReservedWithout(rows, k);
    ReservedWithout(rows[k := row], k);
    assert rows[k := row] - {k} == rows - {k};
    assert rows[k := row].Keys == rows.Keys;
  }

  lemma ReservedLess(rows: map<Id, Row>, k: Id)
    requires k in rows
    ensures Reserved(rows - {k}) <= Reserved(rows) && |rows - {k}| < |rows|
  {
    ReservedWithout(rows, k);
    assert |rows - {k}| < |rows| by {
      assert rows == (rows - {k})[k := rows[k]];
    }
  }

  // ---- How a step changes rows ----

  datatype RowChange = SameRows | AddedRow(id: Id, row: Row) | DeletedRow(id: Id) | PublishedRow(id: Id, row: Row)

  function Applied(rows: map<Id, Row>, c: RowChange): map<Id, Row> {
    match c
    case SameRows => rows
    case AddedRow(id, row) => rows[id := row]
    case DeletedRow(id) => rows - {id}
    case PublishedRow(id, row) => rows[id := row]
  }

  /** A row is only added under a new identifier within the quota, deleted unreferenced or unfinished, and published once
      by its own upload, at no more than it reserved. */
  ghost predicate ChangeAllowed(s: Store, c: RowChange) {
    match c
    case SameRows => true
    case AddedRow(id, row) => id !in s.drawn && row.Uploading? && Reservable(s.rows, row.requestId, row.reserved)
    case DeletedRow(id) => id in s.rows && (s.rows[id].Uploading? || !Referenced(s.uses, id))
    case PublishedRow(id, row) => id in UploadIds(s.tasks) && id in s.rows && s.rows[id].Uploading? && row.Ready?
                                  && row.reserved <= s.rows[id].reserved && row.requestId == s.rows[id].requestId
  }

  lemma UploadOwns(s: Store, t: nat)
    requires Owners(s) && InPhase(s, t)
    ensures s.tasks[t].id in UploadIds(s.tasks) && s.tasks[t].id in s.rows && s.rows[s.tasks[t].id].Uploading?
    ensures BodyWithin(s.tasks[t].phase, s.rows[s.tasks[t].id].reserved)
  {
    assert Owns(s, t);
  }

  function UploadRows(s: Store, t: nat, step: UploadStep, digest: Digest): RowChange
    requires InPhase(s, t) && Fitting(s.tasks[t].phase, step)
  {
    var id := s.tasks[t].id;
    if step.Publish? && id in s.rows && NextUpload(s, t, step, digest).rows != s.rows then
      PublishedRow(id, NextUpload(s, t, step, digest).rows[id])
    else if step.DiscardRow? && id in s.rows && s.rows[id].Uploading? then DeletedRow(id)
    else SameRows
  }

  function CleanupRows(s: Store, step: CleanupStep): RowChange {
    match step
    case Remove(id) => if NextCleanup(s, step).rows == s.rows then SameRows else DeletedRow(id)
    case ReclaimRow(id) => if NextCleanup(s, step).rows == s.rows then SameRows else DeletedRow(id)
    case RecoverRow(id) => if NextCleanup(s, step).rows == s.rows then SameRows else DeletedRow(id)
    case _ => SameRows
  }

  ghost function ReserveRows(s: Store, t: nat, id: Id, now: int): RowChange
    requires t in s.tasks && s.tasks[t].Admitted? && id !in s.drawn
  {
    var task := s.tasks[t];
    var reserved := Reservation(task.declared);
    if Reservable(s.rows, task.requestId, reserved) then
      AddedRow(id, Uploading(task.requestId, task.workspace, now, reserved, now + 2 * UPLOAD_MS))
    else SameRows
  }

  predicate Continues(s: Store, step: Step) {
    step.Continue? && InPhase(s, step.task) && Fitting(s.tasks[step.task].phase, step.upload)
  }

  predicate Reserves(s: Store, step: Step) {
    step.Reserve? && step.task in s.tasks && s.tasks[step.task].Admitted? && step.id !in s.drawn
  }

  ghost function RowsChange(s: Store, step: Step, digest: Digest): RowChange {
    if Reserves(s, step) then ReserveRows(s, step.task, step.id, step.now)
    else if Continues(s, step) then UploadRows(s, step.task, step.upload, digest)
    else if step.Cleanup? then CleanupRows(s, step.cleanup)
    else SameRows
  }

  lemma UploadRowsMove(s: Store, t: nat, step: UploadStep, digest: Digest)
    requires Owners(s) && InPhase(s, t) && Fitting(s.tasks[t].phase, step)
    ensures NextUpload(s, t, step, digest).rows == Applied(s.rows, UploadRows(s, t, step, digest))
    ensures ChangeAllowed(s, UploadRows(s, t, step, digest))
  {
    UploadOwns(s, t);
  }

  lemma CleanupRowsMove(s: Store, step: CleanupStep)
    ensures NextCleanup(s, step).rows == Applied(s.rows, CleanupRows(s, step))
    ensures ChangeAllowed(s, CleanupRows(s, step))
  {
  }

  lemma ReserveRowsMove(s: Store, t: nat, id: Id, now: int)
    requires t in s.tasks && s.tasks[t].Admitted? && id !in s.drawn
    ensures Reserving(s, t, id, now).rows == Applied(s.rows, ReserveRows(s, t, id, now))
    ensures ChangeAllowed(s, ReserveRows(s, t, id, now))
  {
  }

  lemma RowsMove(s: Store, step: Step, digest: Digest)
    requires Owners(s)
    ensures Next(s, step, digest).rows == Applied(s.rows, RowsChange(s, step, digest))
    ensures ChangeAllowed(s, RowsChange(s, step, digest))
  {
    if Reserves(s, step) {
      ReserveRowsMove(s, step.task, step.id, step.now);
    } else if Continues(s, step) {
      UploadRowsMove(s, step.task, step.upload, digest);
    } else if step.Cleanup? {
      CleanupRowsMove(s, step.cleanup);
    } else {
      OthersKeepUploads(s, step, digest);
    }
  }

  // ---- What follows from row changes ----

  lemma AllowedKeepsBudget(s: Store, c: RowChange)
    requires ChangeAllowed(s, c) && s.rows.Keys <= s.drawn
    requires Reserved(s.rows) <= RETAINED_BYTES && |s.rows| <= RETAINED_FILES
    ensures Reserved(Applied(s.rows, c)) <= RETAINED_BYTES && |Applied(s.rows, c)| <= RETAINED_FILES
  {
    match c
    case SameRows =>
    case AddedRow(id, row) => ReservedWith(s.rows, id, row);
    case DeletedRow(id) => ReservedLess(s.rows, id);
    case PublishedRow(id, row) => ReservedUpdate(s.rows, id, row);
  }

  lemma ContinueKeepsFew(s: Store, t: nat, step: UploadStep, digest: Digest)
    requires InPhase(s, t) && Fitting(s.tasks[t].phase, step)
    ensures |NextUpload(s, t, step, digest).tasks| <= |s.tasks|
  {
    var n := NextUpload(s, t, step, digest);
    UploadTasks(s, t, step, digest);
    if t in n.tasks {
      SameSize(s.tasks, t, n.tasks[t]);
    } else {
      Fewer(s.tasks, t);
    }
  }

  lemma ReserveKeepsFew(s: Store, t: nat, id: Id, now: int)
    requires t in s.tasks && s.tasks[t].Admitted?
    ensures |Reserving(s, t, id, now).tasks| <= |s.tasks|
  {
    Fewer(s.tasks, t);
    SameSize(s.tasks, t, Upload(id, s.tasks[t].declared, Receiving));
  }

  lemma TasksStayFew(s: Store, step: Step, digest: Digest)
    requires |s.tasks| <= CONCURRENT_UPLOADS
    ensures |Next(s, step, digest).tasks| <= CONCURRENT_UPLOADS
  {
    if Continues(s, step) {
      ContinueKeepsFew(s, step.task, step.upload, digest);
    } else if Reserves(s, step) {
      ReserveKeepsFew(s, step.task, step.id, step.now);
    } else {
      OthersKeepFew(s, step, digest);
    }
  }

  lemma OthersKeepFew(s: Store, step: Step, digest: Digest)
    requires |s.tasks| <= CONCURRENT_UPLOADS && !Reserves(s, step) && !Continues(s, step)
    ensures |Next(s, step, digest).tasks| <= CONCURRENT_UPLOADS
  {
    match step
    case Admit(t, requestId, workspace, declared) =>
      if t !in s.tasks { OneMore(s.tasks, t, Admitted(requestId, workspace, declared)); }
    case Leave(t) => if t in s.tasks { Fewer(s.tasks, t); }
    case Cleanup(cleanup) => CleanupKeepsTasks(s, cleanup);
    case _ =>
  }

  lemma CleanupKeepsTasks(s: Store, step: CleanupStep)
    ensures NextCleanup(s, step).tasks == s.tasks
  {
  }

  lemma OneMore<K, V>(m: map<K, V>, k: K, v: V)
    requires k !in m
    ensures |m[k := v]| == |m| + 1
  {
  }

  lemma Fewer<K, V>(m: map<K, V>, k: K)
    requires k in m
    ensures |m - {k}| < |m|
  {
    assert m == (m - {k})[k := m[k]];
  }

  lemma SameSize<K, V>(m: map<K, V>, k: K, v: V)
    requires k in m
    ensures |m[k := v]| == |m|
  {
    assert m[k := v].Keys == m.Keys;
  }

  /** A running upload keeps its place among the tasks, or leaves it. */
  lemma UploadTasks(s: Store, t: nat, step: UploadStep, digest: Digest)
    requires InPhase(s, t) && Fitting(s.tasks[t].phase, step)
    ensures var n := NextUpload(s, t, step, digest).tasks;
            && (t in n ==> n == s.tasks[t := n[t]] && n[t].Upload? && n[t].id == s.tasks[t].id && n[t].declared == s.tasks[t].declared)
            && (t !in n ==> n == s.tasks - {t})
  {
  }

  lemma StepKeepsBudget(s: Store, step: Step, digest: Digest)
    requires Budget(s) && Owners(s) && Drawn(s)
    ensures Budget(Next(s, step, digest))
  {
    RowsMove(s, step, digest);
    AllowedKeepsBudget(s, RowsChange(s, step, digest));
    TasksStayFew(s, step, digest);
  }

  lemma StepKeepsOneRow(s: Store, step: Step, digest: Digest)
    requires OneRowPerRequest(s) && Owners(s)
    ensures OneRowPerRequest(Next(s, step, digest))
  {
    RowsMove(s, step, digest);
    AllowedKeepsOneRow(s, RowsChange(s, step, digest), Next(s, step, digest));
  }

  lemma AllowedKeepsOneRow(s: Store, c: RowChange, n: Store)
    requires OneRowPerRequest(s) && ChangeAllowed(s, c) && n.rows == Applied(s.rows, c)
    ensures OneRowPerRequest(n)
  {
  }

  /** A referenced published row is beyond every change. */
  lemma ReferencedRowStays(s: Store, c: RowChange, id: Id)
    requires ChangeAllowed(s, c) && s.rows.Keys <= s.drawn && id in s.rows && s.rows[id].Ready? && Referenced(s.uses, id)
    ensures id in Applied(s.rows, c) && Applied(s.rows, c)[id] == s.rows[id]
  {
  }

  lemma UsesOnlyGrow(s: Store, step: Step, digest: Digest)
    ensures s.uses <= Next(s, step, digest).uses
    ensures forall u <- Next(s, step, digest).uses :: u in s.uses || (u.id in s.rows && s.rows[u.id].Ready? && Next(s, step, digest).rows == s.rows)
  {
    if Continues(s, step) {
      UploadKeepsUses(s, step.task, step.upload, digest);
    } else if step.Cleanup? {
      CleanupKeepsUses(s, step.cleanup);
    } else if step.Pin? {
      PinUses(s, step.descriptors, step.kind, step.refId);
    }
  }

  lemma UploadKeepsUses(s: Store, t: nat, step: UploadStep, digest: Digest)
    requires InPhase(s, t) && Fitting(s.tasks[t].phase, step)
    ensures NextUpload(s, t, step, digest).uses == s.uses
  {
  }

  lemma CleanupKeepsUses(s: Store, step: CleanupStep)
    ensures NextCleanup(s, step).uses == s.uses
  {
  }

  /** A pin refers to published rows only, and changes none. */
  lemma PinUses(s: Store, ds: seq<Descriptor>, kind: string, refId: string)
    ensures var n := Pinning(s, ds, kind, refId);
            && s.uses <= n.uses && n.rows == s.rows
            && forall u <- n.uses :: u in s.uses || (u.id in s.rows && s.rows[u.id].Ready?)
  {
  }

  lemma StepKeepsUses(s: Store, step: Step, digest: Digest)
    requires Uses(s) && Owners(s) && Drawn(s)
    ensures Uses(Next(s, step, digest))
  {
    RowsMove(s, step, digest);
    UsesOnlyGrow(s, step, digest);
    var n := Next(s, step, digest);
    forall u | u in n.uses ensures u.id in n.rows && n.rows[u.id].Ready? {
      if u in s.uses {
        ReferencedRowStays(s, RowsChange(s, step, digest), u.id);
      }
    }
  }

  // ---- Running uploads ----

  lemma BodiesFit(s: Store, t: nat, step: UploadStep, digest: Digest)
    requires InPhase(s, t) && Fitting(s.tasks[t].phase, step) && Owners(s)
    ensures var n := NextUpload(s, t, step, digest).tasks;
            t in n ==> BodyWithin(n[t].phase, Reservation(n[t].declared))
  {
    assert Owns(s, t);
    if step.Receive? && BodyOf(step.stream, s.tasks[t].declared, []).Ok? {
      BodyFitsReservation(step.stream, s.tasks[t].declared, []);
    }
  }

  /** Cleaning up never deletes the row of a running upload. */
  lemma CleanupSparesUploads(s: Store, step: CleanupStep)
    requires Owners(s) && Dead(s)
    ensures CleanupRows(s, step).DeletedRow? ==> CleanupRows(s, step).id !in UploadIds(s.tasks)
  {
    forall t | t in s.tasks && s.tasks[t].Upload?
      ensures s.tasks[t].id in s.rows && s.rows[s.tasks[t].id].Uploading?
    {
      assert Owns(s, t);
    }
  }

  lemma ContinueKeepsOwners(s: Store, t: nat, step: UploadStep, digest: Digest)
    requires Owners(s) && Drawn(s) && InPhase(s, t) && Fitting(s.tasks[t].phase, step)
    ensures Owners(NextUpload(s, t, step, digest))
  {
    var n := NextUpload(s, t, step, digest);
    UploadTasks(s, t, step, digest);
    UploadRowsMove(s, t, step, digest);
    BodiesFit(s, t, step, digest);
    assert Owns(s, t);
    forall u | u in n.tasks ensures Owns(n, u) {
      assert Owns(s, u);
    }
  }

  lemma CleanupKeepsOwners(s: Store, step: CleanupStep)
    requires Owners(s) && Dead(s)
    ensures Owners(NextCleanup(s, step))
  {
    var n := NextCleanup(s, step);
    CleanupKeepsTasks(s, step);
    CleanupSparesUploads(s, step);
    CleanupRowsMove(s, step);
    forall t | t in n.tasks ensures Owns(n, t) {
      assert Owns(s, t);
      assert s.tasks[t].Upload? ==> s.tasks[t].id in UploadIds(s.tasks);
    }
  }

  lemma ReserveKeepsOwners(s: Store, t: nat, id: Id, now: int)
    requires Owners(s) && Drawn(s) && t in s.tasks && s.tasks[t].Admitted? && id !in s.drawn
    ensures Owners(Reserving(s, t, id, now))
  {
    var n := Reserving(s, t, id, now);
    forall u | u in n.tasks ensures Owns(n, u) {
      assert Owns(s, u);
      assert u != t && s.tasks[u].Upload? ==> s.tasks[u].id in UploadIds(s.tasks);
    }
    forall u, v | u in n.tasks && v in n.tasks && u != v && n.tasks[u].Upload? && n.tasks[v].Upload?
      ensures n.tasks[u].id != n.tasks[v].id
    {
      assert u != t ==> s.tasks[u].id in UploadIds(s.tasks);
      assert v != t ==> s.tasks[v].id in UploadIds(s.tasks);
    }
  }

  lemma StepKeepsOwners(s: Store, step: Step, digest: Digest)
    requires Owners(s) && Drawn(s) && Dead(s)
    ensures Owners(Next(s, step, digest))
  {
    if Reserves(s, step) {
      ReserveKeepsOwners(s, step.task, step.id, step.now);
    } else if Continues(s, step) {
      ContinueKeepsOwners(s, step.task, step.upload, digest);
    } else if step.Cleanup? {
      CleanupKeepsOwners(s, step.cleanup);
    } else {
      OthersKeepUploads(s, step, digest);
      OthersKeepOwners(s, Next(s, step, digest));
    }
  }

  /** Admission, leaving, pinning and crashes start no upload, change no row and decide no deletion. */
  ghost predicate UploadsKept(s: Store, n: Store) {
    && n.rows == s.rows && n.doomed <= s.doomed && n.interrupted <= s.interrupted
    && forall t <- n.tasks :: n.tasks[t].Upload? ==> t in s.tasks && n.tasks[t] == s.tasks[t]
  }

  lemma OthersKeepUploads(s: Store, step: Step, digest: Digest)
    requires !Reserves(s, step) && !Continues(s, step) && !step.Cleanup?
    ensures UploadsKept(s, Next(s, step, digest))
  {
  }

  lemma KeptIds(s: Store, n: Store)
    requires UploadsKept(s, n)
    ensures UploadIds(n.tasks) <= UploadIds(s.tasks)
  {
    forall t | t in n.tasks && n.tasks[t].Upload?
      ensures n.tasks[t].id in UploadIds(s.tasks)
    {
      assert s.tasks[t].Upload?;
    }
  }

  lemma OthersKeepOwners(s: Store, n: Store)
    requires Owners(s) && UploadsKept(s, n)
    ensures Owners(n)
  {
    forall t | t in n.tasks
      ensures Owns(n, t)
    {
      if n.tasks[t].Upload? {
        assert Owns(s, t);
      }
    }
  }

  // ---- Identifiers ----

  lemma UploadFiles(s: Store, t: nat, step: UploadStep, digest: Digest)
    requires InPhase(s, t) && Fitting(s.tasks[t].phase, step)
    ensures var n := NextUpload(s, t, step, digest);
            && n.drawn == s.drawn && n.doomed == s.doomed && n.interrupted == s.interrupted
            && (forall name <- n.files :: name in s.files || name.id == s.tasks[t].id)
            && (forall name <- s.files :: name.id != s.tasks[t].id ==> name in n.files && n.files[name] == s.files[name])
  {
  }

  lemma CleanupNames(s: Store, step: CleanupStep)
    requires Drawn(s)
    ensures var n := NextCleanup(s, step);
            && n.drawn == s.drawn && n.tasks == s.tasks && n.files.Keys <= s.files.Keys
            && n.interrupted <= s.drawn && forall name <- n.doomed :: name.id in s.drawn
  {
    match step
    case Remove(id) => assert id in s.rows ==> id in s.drawn;
    case ReclaimRow(id) => assert id in s.rows ==> id in s.drawn;
    case RecoverOrphan(name) => assert name in s.files ==> name.id in s.drawn;
    case _ =>
  }

  lemma ContinueKeepsDrawn(s: Store, t: nat, step: UploadStep, digest: Digest)
    requires Drawn(s) && Owners(s) && InPhase(s, t) && Fitting(s.tasks[t].phase, step)
    ensures Drawn(NextUpload(s, t, step, digest)) && s.drawn == NextUpload(s, t, step, digest).drawn
  {
    var n := NextUpload(s, t, step, digest);
    UploadFiles(s, t, step, digest);
    UploadTasks(s, t, step, digest);
    UploadRowsMove(s, t, step, digest);
    UploadOwns(s, t);
    forall u | u in n.tasks && n.tasks[u].Upload?
      ensures n.tasks[u].id in s.drawn
    {
      assert s.tasks[u].id in UploadIds(s.tasks);
    }
  }

  lemma CleanupKeepsDrawn(s: Store, step: CleanupStep)
    requires Drawn(s)
    ensures Drawn(NextCleanup(s, step)) && s.drawn == NextCleanup(s, step).drawn
  {
    CleanupNames(s, step);
    CleanupRowsMove(s, step);
  }

  lemma ReserveKeepsDrawn(s: Store, t: nat, id: Id, now: int)
    requires Drawn(s) && t in s.tasks && s.tasks[t].Admitted? && id !in s.drawn
    ensures Drawn(Reserving(s, t, id, now)) && s.drawn <= Reserving(s, t, id, now).drawn
  {
    var n := Reserving(s, t, id, now);
    forall u | u in n.tasks && n.tasks[u].Upload?
      ensures n.tasks[u].id in n.drawn
    {
      assert u != t ==> s.tasks[u].id in UploadIds(s.tasks);
    }
  }

  lemma OthersKeepDrawn(s: Store, step: Step, digest: Digest)
    requires Drawn(s) && !Reserves(s, step) && !Continues(s, step) && !step.Cleanup?
    ensures Drawn(Next(s, step, digest)) && s.drawn == Next(s, step, digest).drawn
  {
    OthersKeepUploads(s, step, digest);
    KeptIds(s, Next(s, step, digest));
  }

  lemma StepKeepsDrawn(s: Store, step: Step, digest: Digest)
    requires Drawn(s) && Owners(s)
    ensures Drawn(Next(s, step, digest)) && s.drawn <= Next(s, step, digest).drawn
  {
    if Continues(s, step) {
      ContinueKeepsDrawn(s, step.task, step.upload, digest);
    } else if step.Cleanup? {
      CleanupKeepsDrawn(s, step.cleanup);
    } else if Reserves(s, step) {
      ReserveKeepsDrawn(s, step.task, step.id, step.now);
    } else {
      OthersKeepDrawn(s, step, digest);
    }
  }

  // ---- Decided deletions ----

  lemma CleanupKeepsDead(s: Store, step: CleanupStep)
    requires Owners(s) && Dead(s)
    ensures Dead(NextCleanup(s, step))
  {
    var n := NextCleanup(s, step);
    CleanupRowsMove(s, step);
    CleanupSparesUploads(s, step);
    forall name | name in n.doomed
      ensures name.id !in UploadIds(n.tasks) && (name.id in n.rows ==> n.rows[name.id].Uploading? || name.suffix == Part)
    {
      CleanupKeepsTasks(s, step);
      if step.RecoverFiles? && name !in s.doomed {
        assert name.id == step.id && step.id in s.interrupted;
      }
    }
  }

  lemma ContinueKeepsDead(s: Store, t: nat, step: UploadStep, digest: Digest)
    requires Owners(s) && Dead(s) && InPhase(s, t) && Fitting(s.tasks[t].phase, step)
    ensures Dead(NextUpload(s, t, step, digest))
  {
    var n := NextUpload(s, t, step, digest);
    UploadFiles(s, t, step, digest);
    UploadTasks(s, t, step, digest);
    UploadRowsMove(s, t, step, digest);
    UploadOwns(s, t);
    forall id | id in UploadIds(n.tasks)
      ensures id in UploadIds(s.tasks)
    {
      var u :| u in n.tasks && n.tasks[u].Upload? && n.tasks[u].id == id;
      assert s.tasks[u].Upload?;
    }
  }

  lemma ReserveKeepsDead(s: Store, t: nat, id: Id, now: int)
    requires Dead(s) && Drawn(s) && t in s.tasks && s.tasks[t].Admitted? && id !in s.drawn
    ensures Dead(Reserving(s, t, id, now))
  {
    var n := Reserving(s, t, id, now);
    forall i | i in UploadIds(n.tasks)
      ensures i in UploadIds(s.tasks) || i == id
    {
      var u :| u in n.tasks && n.tasks[u].Upload? && n.tasks[u].id == i;
      assert u != t ==> s.tasks[u].Upload?;
    }
  }

  lemma OthersKeepDead(s: Store, n: Store)
    requires Dead(s) && UploadsKept(s, n)
    ensures Dead(n)
  {
    KeptIds(s, n);
  }

  lemma StepKeepsDead(s: Store, step: Step, digest: Digest)
    requires Owners(s) && Dead(s) && Drawn(s)
    ensures Dead(Next(s, step, digest))
  {
    if step.Cleanup? {
      CleanupKeepsDead(s, step.cleanup);
    } else if Continues(s, step) {
      ContinueKeepsDead(s, step.task, step.upload, digest);
    } else if Reserves(s, step) {
      ReserveKeepsDead(s, step.task, step.id, step.now);
    } else {
      OthersKeepUploads(s, step, digest);
      OthersKeepDead(s, Next(s, step, digest));
    }
  }

  // ---- Files ----

  /** The file of a published row is out of reach of its upload, which is over, and of every decided deletion. */
  lemma PublishedFileStays(s: Store, step: Step, digest: Digest, id: Id)
    requires Owners(s) && Dead(s) && id in s.rows && s.rows[id].Ready?
    ensures var name := Name(id, Extension(s.rows[id].media));
            name in s.files ==> name in Next(s, step, digest).files && Next(s, step, digest).files[name] == s.files[name]
  {
    if Continues(s, step) {
      assert Owns(s, step.task);
      UploadFiles(s, step.task, step.upload, digest);
    }
  }

  lemma OwnFile(s: Store, t: nat, step: UploadStep, digest: Digest)
    requires Owners(s) && Files(s, digest) && InPhase(s, t) && Fitting(s.tasks[t].phase, step)
    ensures var n := NextUpload(s, t, step, digest);
            && (t in n.tasks && (n.tasks[t].phase.Linked? || n.tasks[t].phase.Stored?) ==>
                  Holds(n.files, n.tasks[t].id, n.tasks[t].phase.media, n.tasks[t].phase.body))
            && (s.tasks[t].id in n.rows ==> Filed(n, digest, s.tasks[t].id))
  {
    assert Owns(s, t);
  }

  lemma ContinueKeepsFiles(s: Store, t: nat, step: UploadStep, digest: Digest)
    requires Owners(s) && Files(s, digest) && InPhase(s, t) && Fitting(s.tasks[t].phase, step)
    ensures Files(NextUpload(s, t, step, digest), digest)
  {
    var n := NextUpload(s, t, step, digest);
    OwnFile(s, t, step, digest);
    UploadFiles(s, t, step, digest);
    UploadTasks(s, t, step, digest);
    UploadRowsMove(s, t, step, digest);
    forall id | id in n.rows ensures Filed(n, digest, id) {
      if id != s.tasks[t].id { assert Filed(s, digest, id); }
    }
  }

  lemma CleanupKeepsFiled(s: Store, step: CleanupStep, digest: Digest, id: Id)
    requires Owners(s) && Dead(s) && Files(s, digest) && id in NextCleanup(s, step).rows
    ensures Filed(NextCleanup(s, step), digest, id)
  {
    CleanupRowsMove(s, step);
    assert Filed(s, digest, id);
  }

  lemma CleanupKeepsHeld(s: Store, step: CleanupStep, digest: Digest, t: nat)
    requires Dead(s) && Files(s, digest) && t in s.tasks && s.tasks[t].Upload?
    requires s.tasks[t].phase.Linked? || s.tasks[t].phase.Stored?
    ensures Holds(NextCleanup(s, step).files, s.tasks[t].id, s.tasks[t].phase.media, s.tasks[t].phase.body)
  {
    assert s.tasks[t].id in UploadIds(s.tasks);
  }

  lemma CleanupKeepsFiles(s: Store, step: CleanupStep, digest: Digest)
    requires Owners(s) && Dead(s) && Files(s, digest)
    ensures Files(NextCleanup(s, step), digest)
  {
    var n := NextCleanup(s, step);
    CleanupKeepsTasks(s, step);
    forall id | id in n.rows ensures Filed(n, digest, id) {
      CleanupKeepsFiled(s, step, digest, id);
    }
    forall t | t in n.tasks && n.tasks[t].Upload? && (n.tasks[t].phase.Linked? || n.tasks[t].phase.Stored?)
      ensures Holds(n.files, n.tasks[t].id, n.tasks[t].phase.media, n.tasks[t].phase.body)
    {
      CleanupKeepsHeld(s, step, digest, t);
    }
  }

  /** Admission, reservation, pinning and crashes publish nothing and touch no file. */
  ghost predicate FilesUntouched(s: Store, n: Store) {
    && n.files == s.files
    && (forall id <- n.rows :: n.rows[id].Ready? ==> id in s.rows && n.rows[id] == s.rows[id])
    && (forall t <- n.tasks :: n.tasks[t].Upload? && !n.tasks[t].phase.Receiving? ==> t in s.tasks && n.tasks[t] == s.tasks[t])
  }

  lemma OtherStepsUntouched(s: Store, step: Step, digest: Digest)
    requires !Continues(s, step) && !step.Cleanup?
    ensures FilesUntouched(s, Next(s, step, digest))
  {
    if Reserves(s, step) {
      ReserveUntouched(s, step.task, step.id, step.now);
    } else {
      OthersKeepUploads(s, step, digest);
    }
  }

  lemma ReserveUntouched(s: Store, t: nat, id: Id, now: int)
    requires t in s.tasks && s.tasks[t].Admitted? && id !in s.drawn
    ensures FilesUntouched(s, Reserving(s, t, id, now))
  {
  }

  lemma OtherStepsKeepFiles(s: Store, n: Store, digest: Digest)
    requires Files(s, digest) && FilesUntouched(s, n)
    ensures Files(n, digest)
  {
    forall id | id in n.rows ensures Filed(n, digest, id) {
      if id in s.rows { assert Filed(s, digest, id); }
    }
  }

  lemma StepKeepsFiles(s: Store, step: Step, digest: Digest)
    requires Owners(s) && Dead(s) && Files(s, digest)
    ensures Files(Next(s, step, digest), digest)
  {
    if Continues(s, step) {
      ContinueKeepsFiles(s, step.task, step.upload, digest);
    } else if step.Cleanup? {
      CleanupKeepsFiles(s, step.cleanup, digest);
    } else {
      OtherStepsUntouched(s, step, digest);
      OtherStepsKeepFiles(s, Next(s, step, digest), digest);
    }
  }

  // ---- Every reachable state ----

  lemma StepKeepsInvariant(s: Store, step: Step, digest: Digest)
    requires Invariant(s, digest)
    ensures Invariant(Next(s, step, digest), digest)
  {
    StepKeepsBudget(s, step, digest);
    StepKeepsOneRow(s, step, digest);
    StepKeepsDrawn(s, step, digest);
    StepKeepsOwners(s, step, digest);
    StepKeepsDead(s, step, digest);
    StepKeepsFiles(s, step, digest);
    StepKeepsUses(s, step, digest);
  }

  /** In every reachable state, crashes included: the quota, the file count and the upload limit hold, request identifiers
      name one row each, and every published row has a file of the recorded size and digest. */
  lemma {:induction false} ReachableStates(steps: seq<Step>, digest: Digest)
    ensures Invariant(Run(steps, digest), digest)
    ensures var s := Run(steps, digest); Reserved(s.rows) <= 512 * 1024 * 1024 && |s.rows| <= 1000 && |s.tasks| <= 2
  {
    if steps != [] {
      ReachableStates(steps[..|steps| - 1], digest);
      StepKeepsInvariant(Run(steps[..|steps| - 1], digest), steps[|steps| - 1], digest);
    }
  }

  lemma {:induction false} PinnedStays(steps: seq<Step>, i: nat, id: Id, digest: Digest)
    requires i <= |steps| && Referenced(Run(steps[..i], digest).uses, id)
    ensures var s, n := Run(steps[..i], digest), Run(steps, digest);
            && id in s.rows && s.rows[id].Ready? && id in n.rows && n.rows[id] == s.rows[id] && Referenced(n.uses, id)
            && var name := Name(id, Extension(s.rows[id].media));
               name in s.files && name in n.files && n.files[name] == s.files[name] && digest(n.files[name]) == s.rows[id].sha256
    decreases |steps|
  {
    ReachableStates(steps[..i], digest);
    assert Filed(Run(steps[..i], digest), digest, id);
    if i == |steps| {
      assert steps[..i] == steps;
    } else {
      var before, step := steps[..|steps| - 1], steps[|steps| - 1];
      assert before[..i] == steps[..i];
      PinnedStays(before, i, id, digest);
      var m := Run(before, digest);
      ReachableStates(before, digest);
      RowsMove(m, step, digest);
      ReferencedRowStays(m, RowsChange(m, step, digest), id);
      UsesOnlyGrow(m, step, digest);
      PublishedFileStays(m, step, digest, id);
    }
  }

  /** Once a pin succeeds, no interleaving of uploads, removals, reclaims already past their scan, recoveries or crashes
      ever deletes or changes the pinned rows or their files, which match the pinned descriptors. */
  lemma PinnedImagesAreKept(steps: seq<Step>, i: nat, k: nat, digest: Digest)
    requires i < |steps| && steps[i].Pin? && k < |steps[i].descriptors|
    requires forall j | 0 <= j < |steps[i].descriptors| ::
               var d, rows := steps[i].descriptors[j], Run(steps[..i], digest).rows;
               d.id in rows && rows[d.id].Ready? && rows[d.id].sha256 == d.sha256
    ensures var d, s, n := steps[i].descriptors[k], Run(steps[..i], digest), Run(steps, digest);
            && d.id in s.rows && d.id in n.rows && n.rows[d.id] == s.rows[d.id]
            && n.rows[d.id].Ready? && n.rows[d.id].sha256 == d.sha256
            && var name := Name(d.id, Extension(n.rows[d.id].media));
               name in n.files && digest(n.files[name]) == d.sha256
  {
    var d := steps[i].descriptors[k];
    assert steps[..i + 1][..i] == steps[..i] && steps[..i + 1][i] == steps[i];
    var s := Run(steps[..i + 1], digest);
    assert Use(d.id, steps[i].kind, steps[i].refId) in s.uses;
    PinnedStays(steps, i + 1, d.id, digest);
  }
}
