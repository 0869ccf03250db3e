/** The service's calls as the source runs them between awaits, over its mutable tables: each is proved to do to them what
    the machine's step does. The files of `stuck` cannot be unlinked. */
module AttachmentCalls {
  import opened Options
  import opened AttachmentStore
  import opened AttachmentSafety

  /** With UnlinkFailed the row is gone and the call fails; recovery finds the file without a row. */
  datatype Removal = Removed | NothingToRemove | InProgress | InUse | UnlinkFailed

  /** The rows that are left when the unfinished uploads of earlier processes are gone. */
  function Surviving(rows: map<Id, Row>, uploading: set<Id>): map<Id, Row> {
    map id | id in rows && (rows[id].Ready? || id in uploading) :: rows[id]
  }

  class AttachmentService {
    var rows: map<Id, Row>
    var uses: set<Use>
    var files: map<Name, Bytes>
    var uploading: set<Id>

    constructor ()
      ensures rows == map[] && uses == {} && files == map[] && uploading == {}
    {
      rows, uses, files, uploading := map[], {}, map[], {};
    }

    /** The sums of the quota check. */
    method Usage() returns (bytes: nat, count: nat)
      ensures bytes == Reserved(rows) && count == |rows|
    {
      bytes, count := 0, 0;
      var left := rows;
      while left != map[]
        invariant forall k <- left :: k in rows && left[k] == rows[k]
        invariant bytes + Reserved(left) == Reserved(rows) && count + |left| == |rows|
        decreases |left|
      {
        var k :| k in left;
        ReservedWithout(left, k);
        Fewer(left, k);
        SmallerByOne(left, k);
        bytes, count := bytes + left[k].reserved, count + 1;
        left := left - {k};
      }
    }

    /** The reservation transaction; false stands for the refusal ATTACHMENTS_FULL or the unique request constraint. */
    method Reserve(id: Id, requestId: string, workspace: string, declared: Option<nat>, now: int) returns (ok: bool)
      requires id !in rows
      modifies this`rows, this`uploading
      ensures ok <==> Reserved(old(rows)) + declared.GetOr(10 * 1024 * 1024) <= 512 * 1024 * 1024 && |old(rows)| + 1 <= 1000
                      && forall k <- old(rows) :: old(rows)[k].requestId != requestId
      ensures ok ==> rows == old(rows)[id := Uploading(requestId, workspace, now, declared.GetOr(10 * 1024 * 1024), now + 240000)]
                     && uploading == old(uploading) + {id}
      ensures !ok ==> rows == old(rows) && uploading == old(uploading)
    {
      var bytes, count := Usage();
      if bytes + Reservation(declared) > RETAINED_BYTES || count + 1 > RETAINED_FILES { return false; }
      if exists k | k in rows :: rows[k].requestId == requestId { return false; }
      rows := rows[id := Uploading(requestId, workspace, now, Reservation(declared), now + 2 * UPLOAD_MS)];
      uploading := uploading + {id};
      return true;
    }

    /** One transaction: either every descriptor's use is recorded or none is. */
    method Pin(descriptors: seq<Descriptor>, kind: string, refId: string) returns (ok: bool)
      modifies this`uses
      ensures ok <==> forall i | 0 <= i < |descriptors| ::
                descriptors[i].id in rows && rows[descriptors[i].id].Ready? && rows[descriptors[i].id].sha256 == descriptors[i].sha256
      ensures uses == if ok then old(uses) + (set d | d in descriptors :: Use(d.id, kind, refId)) else old(uses)
    {
      var recorded: set<Use> := {};
      for i := 0 to |descriptors|
        invariant forall j | 0 <= j < i :: Pinnable(rows, descriptors[j])
        invariant recorded == set d | d in descriptors[..i] :: Use(d.id, kind, refId)
      {
        var d := descriptors[i];
        if !Pinnable(rows, d) { return false; }
        assert descriptors[..i + 1] == descriptors[..i] + [d];
        recorded := recorded + {Use(d.id, kind, refId)};
      }
      assert descriptors[..|descriptors|] == descriptors;
      uses := uses + recorded;
      return true;
    }

    /** Removing a file that is already gone succeeds. */
    method Remove(id: Id, stuck: set<Name>) returns (r: Removal)
      modifies this`rows, this`files
      ensures r == Removed || r == UnlinkFailed <==> id in old(rows) && old(rows)[id].Ready? && forall u <- uses :: u.id != id
      ensures r == Removed ==> rows == old(rows) - {id} && files == old(files) - {Name(id, Extension(old(rows)[id].media))}
      ensures r == UnlinkFailed ==> rows == old(rows) - {id} && files == old(files)
                                    && Name(id, Extension(old(rows)[id].media)) in old(files).Keys * stuck
      ensures r != Removed && r != UnlinkFailed ==> rows == old(rows) && files == old(files)
      ensures r == InUse <==> id in rows && rows[id].Ready? && exists u <- uses :: u.id == id
      ensures r == InProgress <==> id in rows && rows[id].Uploading?
    {
      if id !in rows { return NothingToRemove; }
      var row := rows[id];
      if !row.Ready? { return InProgress; }
      if Referenced(uses, id) { return InUse; }
      rows := rows - {id};
      var name := Name(id, Extension(row.media));
      if name in files && name in stuck { return UnlinkFailed; }
      files := files - {name};
      return Removed;
    }

    /** The deletion of one upload: its row, then exactly its files. */
    method Delete(id: Id, stuck: set<Name>, ghost stored: map<Name, Bytes>, ghost done: set<Id>)
      requires files == Without(stored, done, stuck)
      modifies this`rows, this`files
      ensures rows == old(rows) - {id} && files == Without(stored, done + {id}, stuck)
    {
      rows := rows - {id};
      files := files - (AllNames(id) - stuck);
      WithoutOneMore(stored, done, id, stuck);
    }

    /** Deletes one candidate after another. */
    method DeleteAll(candidates: set<Id>, stuck: set<Name>) returns (removed: nat)
      modifies this`rows, this`files
      ensures rows == old(rows) - candidates && removed == |candidates| && files == Without(old(files), candidates, stuck)
    {
      ghost var before, stored := rows, files;
      var left := candidates;
      ghost var done: set<Id> := {};
      removed := 0;
      while left != {}
        invariant done !! left && done + left == candidates && removed == |done|
        invariant rows == before - done && files == Without(stored, done, stuck)
        decreases left
      {
        var id :| id in left;
        Delete(id, stuck, stored, done);
        left, done, removed := left - {id}, done + {id}, removed + 1;
      }
      assert done == candidates;
    }

    /** Deletes the rows and files of unused drafts a day old and of abandoned uploads past their lease, and of nothing
        else. */
    method Reclaim(now: int, stuck: set<Name>) returns (removed: nat)
      modifies this`rows, this`files
      ensures forall id <- old(rows) :: id !in rows <==>
                (forall u <- uses :: u.id != id)
                && if old(rows)[id].Ready? then old(rows)[id].createdAt + 86400000 <= now
                   else id !in uploading && old(rows)[id].leaseExpiresAt <= now
      ensures var gone := old(rows).Keys - rows.Keys;
              && rows == old(rows) - gone && removed == |gone|
              && files == map n | n in old(files) && (n.id !in gone || n in stuck) :: old(files)[n]
    {
      var candidates := set id | id in rows && !Referenced(uses, id) && Reclaimable(rows[id], id in uploading, now);
      removed := DeleteAll(candidates, stuck);
      assert old(rows).Keys - rows.Keys == candidates;
    }

    /** Interrupted uploads of earlier processes: their files, then their rows. */
    method RecoverUploads(stuck: set<Name>)
      modifies this`rows, this`files
      ensures rows == Surviving(old(rows), uploading)
      ensures files == Without(old(files), old(rows).Keys - rows.Keys, stuck)
    {
      ghost var before, stored := rows, files;
      var left := set id | id in rows && rows[id].Uploading? && id !in uploading;
      ghost var interrupted, done: set<Id> := left, {};
      while left != {}
        invariant done + left == interrupted && done !! left
        invariant rows == before - done && files == Without(stored, done, stuck)
        decreases left
      {
        var id :| id in left;
        files := files - (AllNames(id) - stuck);
        WithoutOneMore(stored, done, id, stuck);
        rows := DroppedIfUploading(rows, id);
        left, done := left - {id}, done + {id};
      }
      assert done == interrupted;
      assert before.Keys - rows.Keys == interrupted;
    }

    ghost predicate Stays(name: Name)
      reads this`uploading, this`rows
    {
      name.id in uploading || (name.id in rows && !(name.suffix == Part && rows[name.id].Ready?))
    }

    /** Files without a row, and partial files of published images. */
    method RecoverOrphans(stuck: set<Name>)
      modifies this`files
      ensures files == map n | n in old(files) && (Stays(n) || n in stuck) :: old(files)[n]
    {
      ghost var listed := files;
      var names := files.Keys;
      ghost var seen: set<Name> := {};
      while names != {}
        invariant seen + names == listed.Keys
        invariant files == map n | n in listed && (n !in seen || Stays(n) || n in stuck) :: listed[n]
        decreases names
      {
        var name :| name in names;
        names := names - {name};
        if name.id !in uploading && (name.id !in rows || (name.suffix == Part && rows[name.id].Ready?)) {
          files := files - ({name} - stuck);
        }
        seen := seen + {name};
      }
    }

    /** At startup: no unfinished upload of an earlier process keeps a row or a file, no file is without a row, and
        nothing published is touched, but for files that cannot be unlinked. */
    method Recover(stuck: set<Name>)
      modifies this`rows, this`files
      ensures rows == map id | id in old(rows) && (old(rows)[id].Ready? || id in uploading) :: old(rows)[id]
      ensures files == map n | n in old(files)
                               && (n.id in uploading || n in stuck
                                   || (n.id in old(rows) && old(rows)[n.id].Ready? && n.suffix != Part)) :: old(files)[n]
    {
      RecoverUploads(stuck);
      RecoverOrphans(stuck);
    }
  }

  /** The files of other uploads, and those that cannot be unlinked. */
  function Without(files: map<Name, Bytes>, ids: set<Id>, stuck: set<Name>): map<Name, Bytes> {
    map n | n in files && (n.id !in ids || n in stuck) :: files[n]
  }

  lemma WithoutOneMore(files: map<Name, Bytes>, ids: set<Id>, id: Id, stuck: set<Name>)
    ensures Without(files, ids, stuck) - (AllNames(id) - stuck) == Without(files, ids + {id}, stuck)
  {
    forall n: Name ensures n in AllNames(id) <==> n.id == id {
      match n.suffix
      case Part =>
      case PngFile =>
      case JpgFile =>
    }
  }

  lemma SmallerByOne<K, V>(m: map<K, V>, k: K)
    requires k in m
    ensures |m| == |m - {k}| + 1
  {
    assert m == (m - {k})[k := m[k]];
  }
}
