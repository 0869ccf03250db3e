/** What one upload does when nothing goes wrong, and what it leaves when something does. */
module AttachmentUploads {
  import opened Options
  import opened Text
  import opened AttachmentStore

  // ---- Bodies ----

  /** The chunks of data before the first `n`. */
  predicate Delivers(stream: seq<Chunk>, n: nat) {
    n < |stream| && stream[n].End? && forall i | 0 <= i < n :: stream[i].Data?
  }

  function Delivered(stream: seq<Chunk>, n: nat): Bytes
    requires n <= |stream| && forall i | 0 <= i < n :: stream[i].Data?
  {
    if n == 0 then [] else stream[0].bytes + Delivered(stream[1..], n - 1)
  }

  /** No more than 10 MiB, and exactly the declared length if there is one. */
  predicate Proper(length: nat, declared: Option<nat>) {
    1 <= length <= 10 * 1024 * 1024 && (declared.Some? ==> length == declared.value)
  }

  /** The body is read exactly when the stream ends after data that makes a proper body, which it then is. */
  lemma {:induction false} BodyReadExactly(stream: seq<Chunk>, declared: Option<nat>, got: Bytes, body: Bytes)
    requires !Exceeds(|got|, declared)
    ensures BodyOf(stream, declared, got) == Ok(body) <==>
              exists n :: Delivers(stream, n) && body == got + Delivered(stream, n) && Proper(|body|, declared)
    decreases |stream|
  {
    if stream != [] && stream[0].Data? {
      DataRead(stream, declared, got, body);
    } else if stream != [] && stream[0].End? {
      assert Delivers(stream, 0) && got + Delivered(stream, 0) == got;
    }
  }

  lemma {:induction false} DataRead(stream: seq<Chunk>, declared: Option<nat>, got: Bytes, body: Bytes)
    requires stream != [] && stream[0].Data? && !Exceeds(|got|, declared)
    ensures BodyOf(stream, declared, got) == Ok(body) <==>
              exists n :: Delivers(stream, n) && body == got + Delivered(stream, n) && Proper(|body|, declared)
    decreases |stream|, 0
  {
    var rest, more := stream[1..], got + stream[0].bytes;
    if !Exceeds(|more|, declared) {
      BodyReadExactly(rest, declared, more, body);
    }
    forall n: nat | Delivers(rest, n)
      ensures Delivers(stream, n + 1) && got + Delivered(stream, n + 1) == more + Delivered(rest, n)
    {
      OneMoreChunk(stream, got, n + 1);
    }
    forall n: nat | Delivers(stream, n)
      ensures n > 0 && Delivers(rest, n - 1) && got + Delivered(stream, n) == more + Delivered(rest, n - 1)
    {
      OneMoreChunk(stream, got, n);
    }
  }

  lemma OneMoreChunk(stream: seq<Chunk>, got: Bytes, n: nat)
    requires stream != [] && stream[0].Data?
    ensures Delivers(stream, n) <==> n > 0 && Delivers(stream[1..], n - 1)
    ensures Delivers(stream, n) ==> got + Delivered(stream, n) == got + stream[0].bytes + Delivered(stream[1..], n - 1)
  {
    var rest := stream[1..];
    if n > 0 {
      assert forall i | 0 <= i < |rest| :: rest[i] == stream[i + 1];
      if Delivers(stream, n) {
        assert stream[n] == rest[n - 1];
        assert got + (stream[0].bytes + Delivered(rest, n - 1)) == got + stream[0].bytes + Delivered(rest, n - 1);
      }
    }
  }

  // ---- A whole upload ----

  /** The upload's row is unfinished, and none of its files exists. */
  predicate Starting(s: Store, t: nat) {
    && InPhase(s, t) && s.tasks[t].phase.Receiving? && s.tasks[t].id in s.rows && s.rows[s.tasks[t].id].Uploading?
    && forall n <- s.files :: n.id != s.tasks[t].id
  }

  ghost function Then(s: Store, t: nat, step: UploadStep, digest: Digest): Store {
    Next(s, Continue(t, step), digest)
  }

  /** The body is written, linked under the final name, and the part dropped. */
  lemma BodyIsStored(s: Store, t: nat, body: Bytes, media: Media, digest: Digest)
    requires InPhase(s, t) && s.tasks[t].phase == Received(body, media) && forall n <- s.files :: n.id != s.tasks[t].id
    ensures var n := Then(Then(Then(s, t, WritePart(true, None), digest), t, LinkFinal(true), digest), t, DropPart(true), digest);
            n == Phased(s.(files := s.files[Name(s.tasks[t].id, if media == Png then PngFile else JpgFile) := body]), t, Stored(body, media))
  {
    var id := s.tasks[t].id;
    var final := Name(id, Extension(media));
    var a := Then(s, t, WritePart(true, None), digest);
    assert a == Phased(s.(files := s.files[Name(id, Part) := body]), t, Parted(body, media));
    var b := Then(a, t, LinkFinal(true), digest);
    assert b == Phased(s.(files := s.files[Name(id, Part) := body][final := body]), t, Linked(body, media));
    assert s.files[Name(id, Part) := body][final := body] - {Name(id, Part)} == s.files[final := body];
  }

  lemma StoredIsPublished(s: Store, t: nat, body: Bytes, media: Media, digest: Digest)
    requires InPhase(s, t) && s.tasks[t].phase == Stored(body, media)
    requires s.tasks[t].id in s.rows && s.rows[s.tasks[t].id].Uploading?
    requires Name(s.tasks[t].id, Extension(media)) in s.files && s.files[Name(s.tasks[t].id, Extension(media))] == body
    ensures var id, row := s.tasks[t].id, s.rows[s.tasks[t].id];
            Then(s, t, Publish(true), digest) ==
            s.(rows := s.rows[id := Ready(row.requestId, row.workspace, row.createdAt, |body|, media, digest(body))], tasks := s.tasks - {t})
  {
  }

  lemma BodyIsReceived(s: Store, t: nat, stream: seq<Chunk>, body: Bytes, media: Media, digest: Digest)
    requires Starting(s, t) && BodyOf(stream, s.tasks[t].declared, []) == Ok(body)
    ensures Then(s, t, Receive(stream, Some(media)), digest) == Phased(s, t, Received(body, media))
  {
  }

  /** An upload of a proper image, with no file operation failing, publishes exactly that image: its row keeps request,
      workspace and age, and its one file holds the body. */
  lemma GoodUploadIsPublished(s: Store, t: nat, stream: seq<Chunk>, body: Bytes, media: Media, digest: Digest)
    requires Starting(s, t) && BodyOf(stream, s.tasks[t].declared, []) == Ok(body)
    ensures var a := Then(s, t, Receive(stream, Some(media)), digest);
            var b := Then(Then(Then(a, t, WritePart(true, None), digest), t, LinkFinal(true), digest), t, DropPart(true), digest);
            var n := Then(b, t, Publish(true), digest);
            var id, row := s.tasks[t].id, s.rows[s.tasks[t].id];
            && n.rows == s.rows[id := Ready(row.requestId, row.workspace, row.createdAt, |body|, media, digest(body))]
            && n.files == s.files[Name(id, if media == Png then PngFile else JpgFile) := body]
            && n.tasks == s.tasks - {t} && n.uses == s.uses
  {
    var a := Phased(s, t, Received(body, media));
    BodyIsReceived(s, t, stream, body, media, digest);
    BodyIsStored(a, t, body, media, digest);
    var b := Phased(a.(files := s.files[Name(s.tasks[t].id, if media == Png then PngFile else JpgFile) := body]), t, Stored(body, media));
    StoredIsPublished(b, t, body, media, digest);
    assert b.tasks - {t} == s.tasks - {t};
  }

  lemma FileIsDiscarded(s: Store, t: nat, digest: Digest)
    requires InPhase(s, t) && s.tasks[t].phase.Discarding? && s.tasks[t].phase.left != []
    ensures var left := s.tasks[t].phase.left;
            Then(s, t, DiscardFile(true), digest)
            == Phased(s.(files := s.files - {Name(s.tasks[t].id, left[0])}), t, Discarding(left[1..]))
  {
  }

  lemma RowIsDiscarded(s: Store, t: nat, digest: Digest)
    requires InPhase(s, t) && s.tasks[t].phase == Discarding([])
    requires s.tasks[t].id in s.rows && s.rows[s.tasks[t].id].Uploading?
    ensures Then(s, t, DiscardRow, digest) == s.(rows := s.rows - {s.tasks[t].id}, tasks := s.tasks - {t})
  {
  }

  lemma FilesOfUpload(files: map<Name, Bytes>, id: Id)
    ensures files - {Name(id, Part)} - {Name(id, PngFile)} - {Name(id, JpgFile)}
            == map name | name in files && name.id != id :: files[name]
  {
    forall name | name in files && name.id == id
      ensures name in {Name(id, Part), Name(id, PngFile), Name(id, JpgFile)}
    {
      match name.suffix
      case Part =>
      case PngFile =>
      case JpgFile =>
    }
  }

  /** An upload that failed leaves no row, and no file that can be unlinked. */
  lemma FailedUploadLeavesNothing(s: Store, t: nat, digest: Digest)
    requires InPhase(s, t) && s.tasks[t].phase == Discarding([Part, PngFile, JpgFile])
    requires s.tasks[t].id in s.rows && s.rows[s.tasks[t].id].Uploading?
    ensures var d := DiscardFile(true);
            var n := Then(Then(Then(Then(s, t, d, digest), t, d, digest), t, d, digest), t, DiscardRow, digest);
            && n.rows == s.rows - {s.tasks[t].id} && n.tasks == s.tasks - {t} && n.uses == s.uses
            && n.files == map name | name in s.files && name.id != s.tasks[t].id :: s.files[name]
  {
    var id, d := s.tasks[t].id, DiscardFile(true);
    FileIsDiscarded(s, t, digest);
    var a := Then(s, t, d, digest);
    FileIsDiscarded(a, t, digest);
    var b := Then(a, t, d, digest);
    FileIsDiscarded(b, t, digest);
    var c := Then(b, t, d, digest);
    RowIsDiscarded(c, t, digest);
    FilesOfUpload(s.files, id);
    assert c.tasks - {t} == s.tasks - {t};
  }
}
