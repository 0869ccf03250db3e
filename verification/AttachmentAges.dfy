/** When a row of the attachment store may go: drafts by age, unfinished uploads by the end of their lease. */
module AttachmentAges {
  import opened Options
  import opened AttachmentStore
  import opened AttachmentSafety

  const DAY := 86400000
  const LEASE := 240000

  // ---- Ages ----

  /** The row was reserved by that step: its age counts from there, and so does its lease. */
  predicate ReservedBy(row: Row, step: Step, id: Id) {
    step.Reserve? && step.id == id && row.createdAt == step.now && (row.Uploading? ==> row.leaseExpiresAt == step.now + LEASE)
  }

  lemma ChangeKeepsAge(s: Store, step: Step, digest: Digest, id: Id)
    requires Owners(s) && id in Next(s, step, digest).rows
    ensures var row := Next(s, step, digest).rows[id];
            ReservedBy(row, step, id)
            || (id in s.rows && row.createdAt == s.rows[id].createdAt && (row.Uploading? ==> row == s.rows[id]))
  {
    RowsMove(s, step, digest);
    if Continues(s, step) {
      UploadKeepsAge(s, step.task, step.upload, digest);
    }
  }

  lemma UploadKeepsAge(s: Store, t: nat, step: UploadStep, digest: Digest)
    requires InPhase(s, t) && Fitting(s.tasks[t].phase, step)
    ensures UploadRows(s, t, step, digest).PublishedRow? ==>
              var c := UploadRows(s, t, step, digest);
              c.id in s.rows && c.row.createdAt == s.rows[c.id].createdAt && c.row.Ready?
  {
  }

  /** The age of every row of every run counts from its reservation. */
  lemma {:induction false} AgesCountFromReservation(steps: seq<Step>, digest: Digest, id: Id)
    requires id in Run(steps, digest).rows
    ensures exists j :: 0 <= j < |steps| && ReservedBy(Run(steps, digest).rows[id], steps[j], id)
  {
    var before, step := steps[..|steps| - 1], steps[|steps| - 1];
    ReachableStates(before, digest);
    ChangeKeepsAge(Run(before, digest), step, digest, id);
    if !ReservedBy(Run(steps, digest).rows[id], step, id) {
      AgesCountFromReservation(before, digest, id);
      var j :| 0 <= j < |before| && ReservedBy(Run(before, digest).rows[id], before[j], id);
      assert ReservedBy(Run(steps, digest).rows[id], steps[j], id);
    }
  }

  // ---- Candidates ----

  /** At that time the row is a draft of a day or more, or an upload not running whose lease has ended. */
  predicate Due(s: Store, id: Id, now: int) {
    id in s.rows
    && if s.rows[id].Ready? then s.rows[id].createdAt + DAY <= now
       else s.rows[id].leaseExpiresAt <= now && id !in UploadIds(s.tasks)
  }

  /** Step j scanned for reclaiming when the row, as it still stands, was due. */
  ghost predicate ScannedAt(steps: seq<Step>, j: nat, id: Id, row: Row, digest: Digest) {
    && j < |steps| && steps[j].Cleanup? && steps[j].cleanup.ReclaimScan?
    && Due(Run(steps[..j], digest), id, steps[j].cleanup.now) && Run(steps[..j], digest).rows[id] == row
  }

  /** Every candidate that is still a row was due at some scan, and is no running upload if it is unfinished. */
  ghost predicate Justified(steps: seq<Step>, digest: Digest, id: Id) {
    var s := Run(steps, digest);
    && id in s.drawn
    && (id in s.rows ==>
          && (exists j :: ScannedAt(steps, j, id, s.rows[id], digest))
          && (s.rows[id].Uploading? ==> id !in UploadIds(s.tasks)))
  }

  /** An identifier already drawn never becomes that of a running upload again. */
  lemma IdsStayOut(s: Store, step: Step, digest: Digest, id: Id)
    requires id in s.drawn && id !in UploadIds(s.tasks)
    ensures id !in UploadIds(Next(s, step, digest).tasks)
  {
    if Continues(s, step) {
      UploadTasks(s, step.task, step.upload, digest);
    } else if step.Cleanup? {
      CleanupKeepsTasks(s, step.cleanup);
    } else if !Reserves(s, step) {
      OthersKeepUploads(s, step, digest);
    }
    var n := Next(s, step, digest);
    forall t | t in n.tasks && n.tasks[t].Upload?
      ensures n.tasks[t].id != id
    {
      assert t in s.tasks && s.tasks[t].Upload? ==> s.tasks[t].id in UploadIds(s.tasks);
    }
  }

  lemma DrawnGrows(s: Store, step: Step, digest: Digest)
    requires Drawn(s) && Owners(s)
    ensures s.drawn <= Next(s, step, digest).drawn
  {
    StepKeepsDrawn(s, step, digest);
  }

  /** A drawn row of no running upload stays as it is, or goes. */
  lemma RowStaysOrGoes(s: Store, step: Step, digest: Digest, id: Id)
    requires Owners(s) && id in s.drawn && (id in s.rows && s.rows[id].Uploading? ==> id !in UploadIds(s.tasks))
    ensures id in Next(s, step, digest).rows ==> id in s.rows && Next(s, step, digest).rows[id] == s.rows[id]
  {
    RowsMove(s, step, digest);
  }

  lemma NewCandidates(s: Store, step: Step, digest: Digest, id: Id)
    requires id in Next(s, step, digest).candidates && id !in s.candidates
    ensures step.Cleanup? && step.cleanup.ReclaimScan? && Due(s, id, step.cleanup.now) && Next(s, step, digest).rows == s.rows
    ensures Next(s, step, digest).tasks == s.tasks && Next(s, step, digest).drawn == s.drawn
  {
  }

  lemma ScannedStays(steps: seq<Step>, j: nat, id: Id, row: Row, digest: Digest)
    requires steps != [] && ScannedAt(steps[..|steps| - 1], j, id, row, digest)
    ensures ScannedAt(steps, j, id, row, digest)
  {
    assert steps[..|steps| - 1][..j] == steps[..j] && steps[..|steps| - 1][j] == steps[j];
  }

  lemma {:induction false} CandidatesAreJustified(steps: seq<Step>, digest: Digest, id: Id)
    requires id in Run(steps, digest).candidates
    ensures Justified(steps, digest, id)
  {
    var before := steps[..|steps| - 1];
    if id in Run(before, digest).candidates {
      CandidatesAreJustified(before, digest, id);
      CandidateStays(steps, digest, id);
    } else {
      NewcomerIsJustified(steps, digest, id);
    }
  }

  lemma NewcomerIsJustified(steps: seq<Step>, digest: Digest, id: Id)
    requires steps != [] && id in Run(steps, digest).candidates && id !in Run(steps[..|steps| - 1], digest).candidates
    ensures Justified(steps, digest, id)
  {
    var before, step := steps[..|steps| - 1], steps[|steps| - 1];
    var s := Run(before, digest);
    ReachableStates(before, digest);
    NewCandidates(s, step, digest, id);
    assert ScannedAt(steps, |before|, id, s.rows[id], digest);
  }

  lemma CandidateStays(steps: seq<Step>, digest: Digest, id: Id)
    requires steps != [] && Justified(steps[..|steps| - 1], digest, id)
    ensures Justified(steps, digest, id)
  {
    var before, step := steps[..|steps| - 1], steps[|steps| - 1];
    var s, n := Run(before, digest), Run(steps, digest);
    ReachableStates(before, digest);
    DrawnGrows(s, step, digest);
    RowStaysOrGoes(s, step, digest, id);
    if id in n.rows {
      var j :| ScannedAt(before, j, id, s.rows[id], digest);
      ScannedStays(steps, j, id, s.rows[id], digest);
      if n.rows[id].Uploading? {
        IdsStayOut(s, step, digest, id);
      }
    }
  }

  // ---- What may go ----

  /** The step deletes the row of the upload it ends. */
  predicate EndsUpload(s: Store, step: Step, id: Id) {
    Continues(s, step) && step.upload.DiscardRow? && s.tasks[step.task].id == id
  }

  lemma WhatDeletes(s: Store, step: Step, digest: Digest, id: Id)
    requires Owners(s) && id in s.rows && id !in Next(s, step, digest).rows
    ensures || EndsUpload(s, step, id)
            || step == Cleanup(Remove(id))
            || (step == Cleanup(ReclaimRow(id)) && id in s.candidates)
            || (step == Cleanup(RecoverRow(id)) && id in s.interrupted)
    ensures s.rows[id].Ready? ==> !Referenced(s.uses, id) && (step == Cleanup(Remove(id)) || step == Cleanup(ReclaimRow(id)))
    ensures step == Cleanup(Remove(id)) ==> s.rows[id].Ready?
  {
    RowsMove(s, step, digest);
  }

  predicate ScansFrom(step: Step, limit: int) {
    step.Cleanup? && step.cleanup.ReclaimScan? && limit <= step.cleanup.now
  }

  /** Some reclaiming scan of the run had a clock at that limit or later. */
  ghost predicate Scanned(steps: seq<Step>, limit: int) {
    exists j :: 0 <= j < |steps| && ScansFrom(steps[j], limit)
  }

  lemma CandidateWasDue(steps: seq<Step>, digest: Digest, id: Id)
    requires id in Run(steps, digest).candidates && id in Run(steps, digest).rows
    ensures var s := Run(steps, digest);
            if s.rows[id].Ready? then Scanned(steps, s.rows[id].createdAt + DAY)
            else id !in UploadIds(s.tasks) && Scanned(steps, s.rows[id].leaseExpiresAt)
  {
    CandidatesAreJustified(steps, digest, id);
    var row := Run(steps, digest).rows[id];
    forall j: nat | ScannedAt(steps, j, id, row, digest)
      ensures Scanned(steps, Limit(row))
    {
      WasScanned(steps, j, id, row, digest);
    }
  }

  function Limit(row: Row): int {
    if row.Ready? then row.createdAt + DAY else row.leaseExpiresAt
  }

  lemma WasScanned(steps: seq<Step>, j: nat, id: Id, row: Row, digest: Digest)
    requires ScannedAt(steps, j, id, row, digest)
    ensures Scanned(steps, Limit(row))
  {
    assert ScansFrom(steps[j], Limit(row));
  }

  /** In every run a published image goes only unreferenced, and by its own removal or because some earlier scan found it a
      day old or older. */
  lemma DraftsGoByAge(before: seq<Step>, step: Step, digest: Digest, id: Id)
    requires id in Run(before, digest).rows && Run(before, digest).rows[id].Ready?
    requires id !in Run(before + [step], digest).rows
    ensures var s := Run(before, digest);
            && (forall u <- s.uses :: u.id != id)
            && (step == Cleanup(Remove(id)) || (step == Cleanup(ReclaimRow(id)) && Scanned(before, s.rows[id].createdAt + 86400000)))
  {
    var s := Run(before, digest);
    RunSnoc(before, step, digest);
    ReachableStates(before, digest);
    WhatDeletes(s, step, digest, id);
    if step == Cleanup(ReclaimRow(id)) {
      CandidateWasDue(before, digest, id);
    }
  }

  /** In every run an unfinished upload goes only by its own end, by the recovery of an interrupted one, or because some
      earlier scan found its lease ended; except for its own end, it is not running. */
  lemma UploadsGoByLease(before: seq<Step>, step: Step, digest: Digest, id: Id)
    requires id in Run(before, digest).rows && Run(before, digest).rows[id].Uploading?
    requires id !in Run(before + [step], digest).rows
    ensures var s := Run(before, digest);
            || EndsUpload(s, step, id)
            || (step == Cleanup(RecoverRow(id)) && id in s.interrupted && id !in UploadIds(s.tasks))
            || (step == Cleanup(ReclaimRow(id)) && id !in UploadIds(s.tasks) && Scanned(before, s.rows[id].leaseExpiresAt))
  {
    var s := Run(before, digest);
    RunSnoc(before, step, digest);
    ReachableStates(before, digest);
    WhatDeletes(s, step, digest, id);
    if step == Cleanup(ReclaimRow(id)) {
      CandidateWasDue(before, digest, id);
    }
  }

  lemma RunSnoc(before: seq<Step>, step: Step, digest: Digest)
    ensures Run(before + [step], digest) == Next(Run(before, digest), step, digest)
  {
    assert (before + [step])[..|before|] == before;
  }

  /** A scan followed by the deletion it calls for takes a row exactly when nothing uses it and it is due: a day old, or
      unfinished, not running and past its lease. */
  lemma ReclaimTakesExactly(s: Store, id: Id, now: int, digest: Digest)
    requires id in s.rows && id !in s.candidates
    ensures var n := Next(Next(s, Cleanup(ReclaimScan(now)), digest), Cleanup(ReclaimRow(id)), digest);
            id !in n.rows <==>
              && (forall u <- s.uses :: u.id != id)
              && id !in UploadIds(s.tasks)
              && if s.rows[id].Ready? then s.rows[id].createdAt + 86400000 <= now else s.rows[id].leaseExpiresAt <= now
  {
  }
}
