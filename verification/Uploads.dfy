/** Uploads of one data source (`upload_source_file`): a file is stored, its
    batch and file rows are inserted and committed, or everything is undone.
    Uploads are interleaved; every store call and every statement is one step.
 */
module Uploads {
  import opened Wrappers

  /** `landing/.../{day}/{digest}/{name}`; the digest is taken to be injective on contents. */
  datatype ObjectKey = ObjectKey(day: int, digest: string, name: string)

  datatype Request = Request(key: string, digest: string, day: int, name: string)

  function KeyOf(r: Request): ObjectKey {
    ObjectKey(r.day, r.digest, r.name)
  }

  /** A stored object.  `owner` is history only: the upload that created it. */
  datatype Object = Object(owner: nat, digest: string, whole: bool)

  // ---------------------------------------------------------------- the store

  datatype PutError = ObjectAlreadyExists | CopyFailed

  /** The store on a file system: creation is exclusive. */
  class FilesystemObjectStorage {
    var objects: map<ObjectKey, Object>

    constructor ()
      ensures objects == map[]
    {
      objects := map[];
    }

    /** `copied` says whether the copy after the exclusive creation goes through. */
    method PutFile(key: ObjectKey, owner: nat, digest: string, copied: bool) returns (r: Result<(), PutError>)
      modifies this
      ensures key in old(objects) ==> r == Err(ObjectAlreadyExists) && objects == old(objects)
      ensures key !in old(objects) && copied ==>
        r == Ok(()) && objects == old(objects)[key := Object(owner, digest, true)]
      ensures key !in old(objects) && !copied ==>
        r == Err(CopyFailed) && objects == old(objects)[key := Object(owner, digest, false)]
    {
      if key in objects {
        return Err(ObjectAlreadyExists);
      }
      objects := objects[key := Object(owner, digest, false)];
      if !copied {
        return Err(CopyFailed);
      }
      objects := objects[key := objects[key].(whole := true)];
      return Ok(());
    }

    method DeleteObject(key: ObjectKey)
      modifies this
      ensures objects == old(objects) - {key}
    {
      objects := objects - {key};
    }
  }

  // ---------------------------------------------------------------- receiving the contents

  datatype StreamError = UploadTooLarge | EmptyUpload

  /** What the pieces read so far amount to. */
  function Joined(chunks: seq<string>): string {
    if chunks == [] then "" else Joined(chunks[..|chunks| - 1]) + chunks[|chunks| - 1]
  }

  /** The contents are the chunks one after the other, however they are cut. */
  lemma {:induction false} JoinedAdds(a: seq<string>, b: seq<string>)
    ensures Joined(a + b) == Joined(a) + Joined(b)
    ensures forall chunk :: Joined([chunk]) == chunk
    decreases |b|
  {
    if b == [] {
      assert a + b == a;
    } else {
      JoinedAdds(a, b[..|b| - 1]);
      assert (a + b)[..|a + b| - 1] == a + b[..|b| - 1];
    }
  }

  lemma {:induction false} JoinedGrows(chunks: seq<string>, n: nat)
    requires n <= |chunks|
    ensures |Joined(chunks[..n])| <= |Joined(chunks)|
    decreases |chunks| - n
  {
    if n < |chunks| {
      assert chunks[..n + 1][..n] == chunks[..n];
      JoinedGrows(chunks, n + 1);
    } else {
      assert chunks[..n] == chunks;
    }
  }

  /** Copy piece by piece, giving up as soon as the limit is passed (`_stream_upload`). */
  method StreamUpload(chunks: seq<string>, maximum: nat) returns (r: Result<string, StreamError>)
    ensures r == if |Joined(chunks)| > maximum then Err(UploadTooLarge)
      else if Joined(chunks) == "" then Err(EmptyUpload) else Ok(Joined(chunks))
  {
    var size, output := 0, "";
    for i := 0 to |chunks|
      invariant output == Joined(chunks[..i]) && size == |output| <= maximum
    {
      size := size + |chunks[i]|;
      assert chunks[..i + 1][..i] == chunks[..i];
      JoinedGrows(chunks, i + 1);
      if size > maximum {
        return Err(UploadTooLarge);
      }
      output := output + chunks[i];
    }
    assert chunks[..|chunks|] == chunks;
    return if size == 0 then Err(EmptyUpload) else Ok(output);
  }

  // ---------------------------------------------------------------- states

  datatype Batch = Batch(key: string, digest: string)
  datatype File = File(batch: nat, digest: string, objectKey: ObjectKey)

  /** What a failed upload had created: nothing, an object that `stored_new`
      records, or (history only) one whose copy broke before the flag was set. */
  datatype Left = Nothing | Recorded | Partial

  /** Where an upload stands. */
  datatype Upload =
    | Received(req: Request)
    | Streamed(req: Request)
    | Vetted(req: Request)
    | Copying(req: Request)
    | Stored(req: Request)
    | BatchFlushed(req: Request)
    | FileFlushed(req: Request)
    | RollingBack(req: Request, left: Left)
    | Aborted(req: Request, left: Left)
    | Finished(req: Request, batch: nat)

  /** Committed rows, named after the upload that inserted them, and all uploads. */
  datatype State = State(
    objects: map<ObjectKey, Object>,
    batches: map<nat, Batch>,
    files: map<nat, File>,
    uploads: map<nat, Upload>)

  const INITIAL := State(map[], map[], map[], map[])

  datatype Action =
    | Receive(id: nat, req: Request)
    | Stream(id: nat, accepted: bool)
    | CheckDuplicate(id: nat)
    | OpenExclusive(id: nat)
    | FinishCopy(id: nat)
    | BreakCopy(id: nat)
    | FlushBatch(id: nat)
    | FlushFile(id: nat)
    | Commit(id: nat)
    | Fail(id: nat)
    | CleanUp(id: nat)

  function Moved(s: State, id: nat, u: Upload): State {
    s.(uploads := s.uploads[id := u])
  }

  /** The batch row that a transaction has inserted and not yet committed. */
  predicate BatchInFlight(u: Upload) {
    u.BatchFlushed? || u.FileFlushed?
  }

  predicate FileInFlight(u: Upload) {
    u.FileFlushed?
  }

  ghost function BatchWithKey(s: State, key: string): Option<nat> {
    if b :| b in s.batches && s.batches[b].key == key then Some(b) else None
  }

  ghost function FileWithDigest(s: State, digest: string): Option<nat> {
    if f :| f in s.files && s.files[f].digest == digest then Some(f) else None
  }

  /** The insert waits while another transaction holds the same unique value. */
  ghost predicate BatchWaits(s: State, id: nat, key: string) {
    exists o :: o in s.uploads && o != id && BatchInFlight(s.uploads[o]) && s.uploads[o].req.key == key
  }

  ghost predicate FileWaits(s: State, id: nat, digest: string) {
    exists o :: o in s.uploads && o != id && FileInFlight(s.uploads[o]) && s.uploads[o].req.digest == digest
  }

  /** One step of one upload, from its program point. */
  ghost function Advanced(s: State, a: Action, u: Upload): State {
    match (a, u)
    case (Stream(id, accepted), Received(req)) =>
      Moved(s, id, if accepted then Streamed(req) else RollingBack(req, Nothing))
    case (CheckDuplicate(id), Streamed(req)) =>
      var found := FileWithDigest(s, req.digest);
      Moved(s, id, if found.Some? then Finished(req, s.files[found.value].batch) else Vetted(req))
    case (OpenExclusive(id), Vetted(req)) =>
      if KeyOf(req) in s.objects then Moved(s, id, RollingBack(req, Nothing))
      else Moved(s.(objects := s.objects[KeyOf(req) := Object(id, req.digest, false)]), id, Copying(req))
    case (FinishCopy(id), Copying(req)) =>
      Moved(s.(objects := s.objects[KeyOf(req) := Object(id, req.digest, true)]), id, Stored(req))
    case (BreakCopy(id), Copying(req)) => Moved(s, id, RollingBack(req, Partial))
    case (FlushBatch(id), Stored(req)) =>
      if BatchWithKey(s, req.key).Some? then Moved(s, id, RollingBack(req, Recorded)) else
      if BatchWaits(s, id, req.key) then s else Moved(s, id, BatchFlushed(req))
    case (FlushFile(id), BatchFlushed(req)) =>
      if FileWithDigest(s, req.digest).Some? then Moved(s, id, RollingBack(req, Recorded)) else
      if FileWaits(s, id, req.digest) then s else Moved(s, id, FileFlushed(req))
    case (Commit(id), FileFlushed(req)) =>
      var batches := s.batches[id := Batch(req.key, req.digest)];
      var files := s.files[id := File(id, req.digest, KeyOf(req))];
      Moved(s.(batches := batches, files := files), id, Finished(req, id))
    case (Fail(id), _) =>
      if u.Copying? || u.RollingBack? || u.Aborted? || u.Finished? then s else
      Moved(s, id, RollingBack(u.req, if u.Stored? || BatchInFlight(u) then Recorded else Nothing))
    case (CleanUp(id), RollingBack(req, left)) =>
      if left.Recorded? then Moved(s.(objects := s.objects - {KeyOf(req)}), id, Aborted(req, Nothing))
      else Moved(s, id, Aborted(req, left))
    case _ => s
  }

  ghost function Next(s: State, a: Action): State {
    match a
    case Receive(id, req) =>
      if id in s.uploads then s else
      Moved(s, id, match BatchWithKey(s, req.key) case Some(b) => Finished(req, b) case None => Received(req))
    case _ => if a.id in s.uploads then Advanced(s, a, s.uploads[a.id]) else s
  }

  ghost function Run(s: State, actions: seq<Action>): State
    decreases |actions|
  {
    if actions == [] then s else Run(Next(s, actions[0]), actions[1..])
  }

  // ---------------------------------------------------------------- the invariant

  /** The upload has created an object that is still its own. */
  predicate Owns(u: Upload, id: nat) {
    u.Copying? || u.Stored? || BatchInFlight(u) || (u.RollingBack? && !u.left.Nothing?) ||
      (u.Aborted? && u.left.Partial?) ||
    (u.Finished? && u.batch == id)
  }

  /** The object is complete. */
  predicate Complete(u: Upload) {
    u.Stored? || BatchInFlight(u) || u.Finished?
  }

  type Objects = map<ObjectKey, Object>
  type Table = map<nat, Upload>

  /** The object was created by the upload that owns it, under that upload's key. */
  ghost predicate ObjectOwned(objects: Objects, uploads: Table, k: ObjectKey)
    requires k in objects
  {
    var o := objects[k].owner;
    o in uploads && Owns(uploads[o], o) && KeyOf(uploads[o].req) == k && objects[k].digest == k.digest
  }

  /** The upload, if it owns an object, finds it in the store, whole when it should be. */
  ghost predicate OwnerHasObject(objects: Objects, uploads: Table, id: nat)
    requires id in uploads
  {
    var k := KeyOf(uploads[id].req);
    Owns(uploads[id], id) ==> k in objects && objects[k].owner == id && (Complete(uploads[id]) ==> objects[k].whole)
  }

  ghost predicate ObjectsMatch(objects: Objects, uploads: Table) {
    (forall k :: k in objects ==> ObjectOwned(objects, uploads, k)) &&
    (forall id :: id in uploads ==> OwnerHasObject(objects, uploads, id))
  }

  /** A committed batch and its file are those of an upload that finished with them. */
  ghost predicate RowOf(s: State, b: nat)
    requires b in s.batches
  {
    b in s.uploads && b in s.files && s.uploads[b] == Finished(s.uploads[b].req, b) &&
    var req := s.uploads[b].req;
    s.batches[b] == Batch(req.key, req.digest) && s.files[b] == File(b, req.digest, KeyOf(req))
  }

  /** A finished upload returned a batch for its key or for its contents. */
  ghost predicate ResultOf(s: State, id: nat)
    requires id in s.uploads
  {
    var u := s.uploads[id];
    u.Finished? ==>
      u.batch in s.batches &&
      (s.batches[u.batch].key == u.req.key || s.batches[u.batch].digest == u.req.digest)
  }

  ghost predicate RowsMatch(s: State) {
    s.batches.Keys == s.files.Keys &&
    (forall b :: b in s.batches ==> RowOf(s, b)) &&
    (forall id :: id in s.uploads ==> ResultOf(s, id))
  }

  /** The upload has a batch row, committed or in flight. */
  predicate HasBatchRow(u: Upload, id: nat) {
    BatchInFlight(u) || (u.Finished? && u.batch == id)
  }

  predicate HasFileRow(u: Upload, id: nat) {
    FileInFlight(u) || (u.Finished? && u.batch == id)
  }

  predicate Apart(u: Upload, a: nat, v: Upload, b: nat) {
    (HasBatchRow(u, a) && HasBatchRow(v, b) ==> u.req.key != v.req.key) &&
    (HasFileRow(u, a) && HasFileRow(v, b) ==> u.req.digest != v.req.digest)
  }

  /** At most one batch row per key and one file row per digest. */
  ghost predicate RowsUnique(uploads: Table) {
    forall a, b :: a in uploads && b in uploads && a != b ==> Apart(uploads[a], a, uploads[b], b)
  }

  ghost predicate Valid(s: State) {
    ObjectsMatch(s.objects, s.uploads) && RowsMatch(s) && RowsUnique(s.uploads)
  }

  // ---------------------------------------------------------------- every step keeps it

  /** A move that keeps what the upload owns. */
  lemma MoveKeepsObjects(objects: Objects, uploads: Table, id: nat, u: Upload)
    requires ObjectsMatch(objects, uploads)
    requires id in uploads ==> u.req == uploads[id].req && (Owns(u, id) <==> Owns(uploads[id], id))
    requires id in uploads && Owns(u, id) && Complete(u) ==> Complete(uploads[id])
    requires id !in uploads ==> !Owns(u, id)
    ensures ObjectsMatch(objects, uploads[id := u])
  {
    hide Owns, Complete, KeyOf;
    var after := uploads[id := u];
    forall k | k in objects ensures ObjectOwned(objects, after, k) {
      assert ObjectOwned(objects, uploads, k);
    }
    forall o | o in after ensures OwnerHasObject(objects, after, o) {
      assert o in uploads ==> OwnerHasObject(objects, uploads, o);
    }
  }

  /** Creating or completing the upload's own object. */
  lemma WriteKeepsObjects(objects: Objects, uploads: Table, id: nat, u: Upload, whole: bool)
    requires ObjectsMatch(objects, uploads) && id in uploads && u.req == uploads[id].req
    requires Owns(u, id) && (Complete(u) ==> whole)
    requires Owns(uploads[id], id) || KeyOf(u.req) !in objects
    ensures ObjectsMatch(objects[KeyOf(u.req) := Object(id, u.req.digest, whole)], uploads[id := u])
  {
    hide Owns, Complete;
    var k0 := KeyOf(u.req);
    var stored, after := objects[k0 := Object(id, u.req.digest, whole)], uploads[id := u];
    assert OwnerHasObject(objects, uploads, id);
    forall k | k in stored ensures ObjectOwned(stored, after, k) {
      if k != k0 {
        assert ObjectOwned(objects, uploads, k);
      }
    }
    forall o | o in after ensures OwnerHasObject(stored, after, o) {
      if o != id {
        assert OwnerHasObject(objects, uploads, o);
      }
    }
  }

  /** Deleting the upload's own object. */
  lemma DeleteKeepsObjects(objects: Objects, uploads: Table, id: nat, u: Upload)
    requires ObjectsMatch(objects, uploads) && id in uploads && u.req == uploads[id].req
    requires Owns(uploads[id], id) && !Owns(u, id)
    ensures ObjectsMatch(objects - {KeyOf(u.req)}, uploads[id := u])
  {
    hide Owns, Complete, KeyOf;
    var kept, after := objects - {KeyOf(u.req)}, uploads[id := u];
    assert OwnerHasObject(objects, uploads, id);
    forall k | k in kept ensures ObjectOwned(kept, after, k) {
      assert ObjectOwned(objects, uploads, k);
    }
    forall o | o in after ensures OwnerHasObject(kept, after, o) {
      if o != id {
        assert OwnerHasObject(objects, uploads, o);
      }
    }
  }

  lemma ResultIsAnother(s: State, id: nat, b: nat)
    requires RowsMatch(s) && b in s.batches && (id !in s.uploads || !s.uploads[id].Finished?)
    ensures b != id
  {
    assert RowOf(s, b);
  }

  lemma FileBatch(s: State, f: nat)
    requires RowsMatch(s) && f in s.files
    ensures f in s.batches && s.files[f].batch == f && s.batches[f].digest == s.files[f].digest
  {
    assert RowOf(s, f);
  }

  /** The result of one step on the upload itself and on the store. */
  lemma NextKeepsObjects(s: State, a: Action)
    requires ObjectsMatch(s.objects, s.uploads) && RowsMatch(s)
    ensures ObjectsMatch(Next(s, a).objects, Next(s, a).uploads)
  {
    hide ObjectsMatch, RowsMatch, KeyOf;
    match a
    case Receive(id, req) =>
      if id !in s.uploads {
        var found := BatchWithKey(s, req.key);
        if found.Some? {
          ResultIsAnother(s, id, found.value);
        }
        MoveKeepsObjects(s.objects, s.uploads, id, Next(s, a).uploads[id]);
      }
    case _ =>
      if a.id in s.uploads {
        AdvanceKeepsObjects(s, a);
      }
  }

  lemma AdvanceKeepsObjects(s: State, a: Action)
    requires ObjectsMatch(s.objects, s.uploads) && RowsMatch(s) && !a.Receive? && a.id in s.uploads
    ensures var t := Advanced(s, a, s.uploads[a.id]); ObjectsMatch(t.objects, t.uploads)
  {
    hide ObjectsMatch, RowsMatch, KeyOf;
    var id := a.id;
    var t := Advanced(s, a, s.uploads[id]);
    if t != s {
      var u, v := s.uploads[id], t.uploads[id];
      if v.Copying? {
        WriteKeepsObjects(s.objects, s.uploads, id, v, false);
      } else if v.Stored? {
        WriteKeepsObjects(s.objects, s.uploads, id, v, true);
      } else if a.CleanUp? && u.left.Recorded? {
        DeleteKeepsObjects(s.objects, s.uploads, id, v);
      } else {
        if v.Finished? && !a.Commit? {
          FileBatch(s, FileWithDigest(s, u.req.digest).value);
          ResultIsAnother(s, id, v.batch);
        }
        MoveKeepsObjects(s.objects, s.uploads, id, v);
      }
    }
  }

  /** A move that commits nothing. */
  lemma MoveKeepsRows(s: State, id: nat, u: Upload)
    requires RowsMatch(s)
    requires id in s.uploads ==> !s.uploads[id].Finished?
    requires u.Finished? ==>
      u.batch in s.batches && (s.batches[u.batch].key == u.req.key || s.batches[u.batch].digest == u.req.digest)
    ensures RowsMatch(Moved(s, id, u))
  {
    var t := Moved(s, id, u);
    forall b | b in t.batches ensures RowOf(t, b) {
      assert RowOf(s, b);
    }
    forall o | o in t.uploads ensures ResultOf(t, o) {
      assert o in s.uploads ==> ResultOf(s, o);
    }
  }

  lemma CommitKeepsRows(s: State, id: nat)
    requires RowsMatch(s) && id in s.uploads && s.uploads[id].FileFlushed?
    ensures RowsMatch(Advanced(s, Commit(id), s.uploads[id]))
  {
    var t := Advanced(s, Commit(id), s.uploads[id]);
    forall b | b in t.batches ensures RowOf(t, b) {
      assert b in s.batches ==> RowOf(s, b);
    }
    forall o | o in t.uploads ensures ResultOf(t, o) {
      assert o in s.uploads ==> ResultOf(s, o);
      assert s.uploads[id].FileFlushed?;
    }
  }

  lemma ObjectsKeepRows(s: State, objects: Objects)
    requires RowsMatch(s)
    ensures RowsMatch(s.(objects := objects))
  {
    forall b | b in s.batches ensures RowOf(s.(objects := objects), b) {
      assert RowOf(s, b);
    }
    forall o | o in s.uploads ensures ResultOf(s.(objects := objects), o) {
      assert ResultOf(s, o);
    }
  }

  lemma NextKeepsRows(s: State, a: Action)
    requires RowsMatch(s)
    ensures RowsMatch(Next(s, a))
  {
    hide RowsMatch, KeyOf;
    if a.Receive? {
      if a.id !in s.uploads {
        MoveKeepsRows(s, a.id, Next(s, a).uploads[a.id]);
      }
    } else if a.id in s.uploads && Next(s, a) != s {
      var u := Next(s, a).uploads[a.id];
      if a.Commit? {
        CommitKeepsRows(s, a.id);
      } else {
        if u.Finished? {
          FileBatch(s, FileWithDigest(s, s.uploads[a.id].req.digest).value);
        }
        MoveKeepsRows(s, a.id, u);
        ObjectsKeepRows(Moved(s, a.id, u), Next(s, a).objects);
      }
    }
  }

  lemma MoveKeepsUnique(uploads: Table, id: nat, u: Upload)
    requires RowsUnique(uploads)
    requires forall o :: o in uploads && o != id ==> Apart(u, id, uploads[o], o)
    ensures RowsUnique(uploads[id := u])
  {
    hide Apart;
    forall o | o in uploads && o != id ensures Apart(uploads[o], o, u, id) {
      ApartIsSymmetric(u, id, uploads[o], o);
    }
  }

  lemma ApartIsSymmetric(u: Upload, a: nat, v: Upload, b: nat)
    ensures Apart(u, a, v, b) <==> Apart(v, b, u, a)
  {
  }

  /** An upload that gains no row stays apart from the others. */
  lemma FewerRows(uploads: Table, id: nat, u: Upload)
    requires RowsUnique(uploads)
    requires HasBatchRow(u, id) ==> id in uploads && HasBatchRow(uploads[id], id) && u.req.key == uploads[id].req.key
    requires HasFileRow(u, id) ==>
      id in uploads && HasFileRow(uploads[id], id) && u.req.digest == uploads[id].req.digest
    ensures RowsUnique(uploads[id := u])
  {
    forall o | o in uploads && o != id ensures Apart(u, id, uploads[o], o) {
      assert id in uploads ==> Apart(uploads[id], id, uploads[o], o);
    }
    MoveKeepsUnique(uploads, id, u);
  }

  lemma FinishedIsRow(s: State, id: nat)
    requires RowsMatch(s) && id in s.uploads && s.uploads[id].Finished? && s.uploads[id].batch == id
    ensures id in s.batches && id in s.files && s.batches[id].key == s.uploads[id].req.key &&
      s.files[id].digest == s.uploads[id].req.digest
  {
    assert ResultOf(s, id) && RowOf(s, id);
  }

  lemma FlushBatchKeepsUnique(s: State, id: nat)
    requires RowsMatch(s) && RowsUnique(s.uploads) && id in s.uploads && s.uploads[id].Stored?
    requires BatchWithKey(s, s.uploads[id].req.key).None? && !BatchWaits(s, id, s.uploads[id].req.key)
    ensures RowsUnique(s.uploads[id := BatchFlushed(s.uploads[id].req)])
  {
    hide RowsMatch;
    var u := BatchFlushed(s.uploads[id].req);
    forall o | o in s.uploads && o != id ensures Apart(u, id, s.uploads[o], o) {
      if s.uploads[o].Finished? && s.uploads[o].batch == o {
        FinishedIsRow(s, o);
      }
    }
    MoveKeepsUnique(s.uploads, id, u);
  }

  lemma FlushFileKeepsUnique(s: State, id: nat)
    requires RowsMatch(s) && RowsUnique(s.uploads) && id in s.uploads && s.uploads[id].BatchFlushed?
    requires FileWithDigest(s, s.uploads[id].req.digest).None? && !FileWaits(s, id, s.uploads[id].req.digest)
    ensures RowsUnique(s.uploads[id := FileFlushed(s.uploads[id].req)])
  {
    hide RowsMatch;
    var u := FileFlushed(s.uploads[id].req);
    forall o | o in s.uploads && o != id ensures Apart(u, id, s.uploads[o], o) {
      assert Apart(s.uploads[id], id, s.uploads[o], o);
      if s.uploads[o].Finished? && s.uploads[o].batch == o {
        FinishedIsRow(s, o);
      }
    }
    MoveKeepsUnique(s.uploads, id, u);
  }

  lemma NextKeepsUnique(s: State, a: Action)
    requires RowsMatch(s) && RowsUnique(s.uploads)
    ensures RowsUnique(Next(s, a).uploads)
  {
    hide RowsMatch, RowsUnique, KeyOf, BatchWaits, FileWaits;
    var id := a.id;
    if a.Receive? {
      if id !in s.uploads {
        var found := BatchWithKey(s, a.req.key);
        if found.Some? {
          ResultIsAnother(s, id, found.value);
        }
        FewerRows(s.uploads, id, Next(s, a).uploads[id]);
      }
    } else if id in s.uploads && Next(s, a) != s {
      var u, v := s.uploads[id], Next(s, a).uploads[id];
      if v.BatchFlushed? {
        FlushBatchKeepsUnique(s, id);
      } else if v.FileFlushed? {
        FlushFileKeepsUnique(s, id);
      } else {
        if v.Finished? && !a.Commit? {
          FileBatch(s, FileWithDigest(s, u.req.digest).value);
          ResultIsAnother(s, id, v.batch);
        }
        FewerRows(s.uploads, id, v);
      }
    }
  }

  lemma {:induction false} RunsKeepValid(s: State, actions: seq<Action>)
    requires Valid(s)
    ensures Valid(Run(s, actions))
    decreases |actions|
  {
    if actions == [] {
    } else {
      hide Next, ObjectsMatch, RowsMatch, RowsUnique;
      NextKeepsObjects(s, actions[0]);
      NextKeepsRows(s, actions[0]);
      NextKeepsUnique(s, actions[0]);
      RunsKeepValid(Next(s, actions[0]), actions[1..]);
    }
  }

  // ---------------------------------------------------------------- what holds in every interleaving

  /** Every committed file names a whole object with its contents. */
  ghost predicate FilesStored(s: State) {
    forall f :: f in s.files ==>
      var k := s.files[f].objectKey;
      k in s.objects && s.objects[k].whole && s.objects[k].digest == s.files[f].digest
  }

  /** Keys of batches and contents of files are unique, and a file's batch exists. */
  ghost predicate Unique(s: State) {
    (forall a, b :: a in s.batches && b in s.batches && s.batches[a].key == s.batches[b].key ==> a == b) &&
    (forall a, b :: a in s.files && b in s.files && s.files[a].digest == s.files[b].digest ==> a == b) &&
    (forall f :: f in s.files ==>
      s.files[f].batch in s.batches && s.batches[s.files[f].batch].digest == s.files[f].digest)
  }

  /** An aborted upload has an object in the store exactly when its copy broke
      after the object had been created. */
  ghost predicate AbortsAreClean(s: State) {
    forall id :: id in s.uploads && s.uploads[id].Aborted? ==>
      ((exists k :: k in s.objects && s.objects[k].owner == id) <==> s.uploads[id].left.Partial?)
  }

  ghost predicate ResultsAnswer(s: State) {
    forall id :: id in s.uploads && s.uploads[id].Finished? ==>
      var u := s.uploads[id];
      u.batch in s.batches && (s.batches[u.batch].key == u.req.key || s.batches[u.batch].digest == u.req.digest)
  }

  lemma ValidFiles(s: State)
    requires Valid(s)
    ensures FilesStored(s) && ResultsAnswer(s)
  {
    hide RowsUnique;
    forall f | f in s.files
      ensures var k := s.files[f].objectKey;
        k in s.objects && s.objects[k].whole &&
        s.objects[k].digest == s.files[f].digest
    {
      assert RowOf(s, f);
      assert OwnerHasObject(s.objects, s.uploads, f);
      assert ObjectOwned(s.objects, s.uploads, s.files[f].objectKey);
    }
    forall id | id in s.uploads && s.uploads[id].Finished?
      ensures var u := s.uploads[id];
        u.batch in s.batches && (s.batches[u.batch].key == u.req.key || s.batches[u.batch].digest == u.req.digest)
    {
      assert ResultOf(s, id);
    }
  }

  lemma ValidIsUnique(s: State)
    requires Valid(s)
    ensures Unique(s)
  {
    hide ObjectsMatch;
    forall a | a in s.batches ensures RowOf(s, a) {
    }
    forall a, b | a in s.batches && b in s.batches && a != b
      ensures s.batches[a].key != s.batches[b].key && s.files[a].digest != s.files[b].digest
    {
      assert RowOf(s, a) && RowOf(s, b);
      assert Apart(s.uploads[a], a, s.uploads[b], b);
    }
  }

  lemma ValidAborts(s: State)
    requires Valid(s)
    ensures AbortsAreClean(s)
  {
    hide RowsMatch, RowsUnique;
    forall id | id in s.uploads && s.uploads[id].Aborted?
      ensures (exists k :: k in s.objects && s.objects[k].owner == id) <==> s.uploads[id].left.Partial?
    {
      var own := KeyOf(s.uploads[id].req);
      assert OwnerHasObject(s.objects, s.uploads, id);
      if s.uploads[id].left.Partial? {
        assert s.objects[own].owner == id;
      } else {
        forall k | k in s.objects ensures s.objects[k].owner != id {
          assert ObjectOwned(s.objects, s.uploads, k);
        }
      }
    }
  }

  /** Safety of every interleaving of uploads. */
  lemma UploadsAreSafe(actions: seq<Action>)
    ensures var s := Run(INITIAL, actions); FilesStored(s) && Unique(s) && AbortsAreClean(s) && ResultsAnswer(s)
  {
    RunsKeepValid(INITIAL, actions);
    hide Run, Valid;
    var s := Run(INITIAL, actions);
    ValidFiles(s);
    ValidIsUnique(s);
    ValidAborts(s);
  }

  /** An upload deletes at most an object that it created itself, and no committed file's object. */
  lemma CleanUpDeletesOwnObject(s: State, id: nat, k: ObjectKey)
    requires Valid(s)
    ensures k in s.objects && k !in Next(s, CleanUp(id)).objects ==>
      s.objects[k].owner == id && forall f :: f in s.files ==> s.files[f].objectKey != k
  {
    hide *;
    CleanUpDeletesOne(s, id, k);
    if k in s.objects && k !in Next(s, CleanUp(id)).objects {
      forall f | f in s.files ensures s.files[f].objectKey != k {
        FileOwnsObject(s, f);
      }
    }
  }

  lemma CleanUpDeletesOne(s: State, id: nat, k: ObjectKey)
    requires Valid(s)
    ensures k in s.objects && k !in Next(s, CleanUp(id)).objects ==>
      s.objects[k].owner == id && id in s.uploads && !s.uploads[id].Finished?
  {
    hide RowsUnique, RowsMatch;
    if k in s.objects && k !in Next(s, CleanUp(id)).objects {
      assert OwnerHasObject(s.objects, s.uploads, id);
    }
  }

  lemma FileOwnsObject(s: State, f: nat)
    requires Valid(s) && f in s.files
    ensures f in s.uploads && s.uploads[f].Finished?
    ensures s.files[f].objectKey in s.objects && s.objects[s.files[f].objectKey].owner == f
  {
    hide RowsUnique;
    assert RowOf(s, f);
    assert OwnerHasObject(s.objects, s.uploads, f);
  }

  /** No other step deletes an object. */
  lemma OnlyCleanUpDeletes(s: State, a: Action)
    ensures !a.CleanUp? ==> s.objects.Keys <= Next(s, a).objects.Keys
  {
    hide BatchWaits, FileWaits, BatchWithKey, FileWithDigest;
  }

  /** Only a commit changes the tables, by the upload's own two rows. */
  lemma OnlyCommitInserts(s: State, a: Action)
    ensures var t := Next(s, a);
      (t.batches == s.batches && t.files == s.files) ||
      (a.id in s.uploads && s.uploads[a.id].FileFlushed? &&
       var req := s.uploads[a.id].req;
       t.batches == s.batches[a.id := Batch(req.key, req.digest)] &&
         t.files == s.files[a.id := File(a.id, req.digest, KeyOf(req))])
  {
    hide BatchWaits, FileWaits, BatchWithKey, FileWithDigest, KeyOf;
  }

  lemma FinishedDoesNotFlush(s: State, id: nat)
    requires Valid(s)
    ensures id in s.uploads && s.uploads[id].FileFlushed? ==> id !in s.batches && id !in s.files
  {
    hide ObjectsMatch, RowsUnique;
    if id in s.batches {
      assert RowOf(s, id);
    }
  }

  /** Committed rows never change. */
  lemma RowsStay(s: State, a: Action)
    requires Valid(s)
    ensures s.batches.Keys <= Next(s, a).batches.Keys && forall b :: b in s.batches ==>
      Next(s, a).batches[b] == s.batches[b]
    ensures s.files.Keys <= Next(s, a).files.Keys && forall f :: f in s.files ==> Next(s, a).files[f] == s.files[f]
  {
    hide *;
    OnlyCommitInserts(s, a);
    FinishedDoesNotFlush(s, a.id);
  }

  /** Once a key has created a batch, every later upload with that key returns it at once. */
  lemma {:induction false} ReplayReturnsBatch(s: State, actions: seq<Action>, b: nat, id: nat, req: Request)
    requires Valid(s) && b in s.batches && s.batches[b].key == req.key
    ensures var t := Run(s, actions);
      id !in t.uploads ==>
        Next(t, Receive(id, req)).uploads == t.uploads[id := Finished(req, b)] &&
        Next(t, Receive(id, req)).batches == t.batches && Next(t, Receive(id, req)).objects == t.objects
    decreases |actions|
  {
    if actions == [] {
      ReplayNow(s, b, id, req);
    } else {
      RunsKeepValid(s, [actions[0]]);
      assert [actions[0]][1..] == [];
      RowsStay(s, actions[0]);
      hide Next, Valid;
      ReplayReturnsBatch(Next(s, actions[0]), actions[1..], b, id, req);
    }
  }

  lemma ReplayNow(s: State, b: nat, id: nat, req: Request)
    requires Valid(s) && b in s.batches && s.batches[b].key == req.key
    ensures id !in s.uploads ==> Next(s, Receive(id, req)) == Moved(s, id, Finished(req, b))
  {
    ValidIsUnique(s);
    hide Valid;
  }

  /** A broken copy leaves an object under which the same file cannot be stored again that day. */
  lemma BrokenCopyBlocks(s: State, broken: nat, id: nat)
    requires Valid(s) && broken in s.uploads && s.uploads[broken].Aborted? && s.uploads[broken].left.Partial?
    requires id in s.uploads && s.uploads[id].Vetted? && KeyOf(s.uploads[id].req) == KeyOf(s.uploads[broken].req)
    ensures Next(s, OpenExclusive(id)).uploads[id] == RollingBack(s.uploads[id].req, Nothing)
  {
    hide RowsMatch, RowsUnique;
    assert OwnerHasObject(s.objects, s.uploads, broken);
  }

  function Single(u: Upload): State {
    INITIAL.(uploads := map[0 := u])
  }

  lemma BrokenStart(req: Request)
    ensures Next(INITIAL, Receive(0, req)) == Single(Received(req))
    ensures Next(Single(Received(req)), Stream(0, true)) == Single(Streamed(req))
    ensures Next(Single(Streamed(req)), CheckDuplicate(0)) == Single(Vetted(req))
  {
    hide BatchWaits, FileWaits, KeyOf;
    assert BatchWithKey(INITIAL, req.key).None?;
    assert FileWithDigest(Single(Streamed(req)), req.digest).None?;
    hide BatchWithKey, FileWithDigest;
  }

  lemma BrokenEnd(req: Request)
    ensures var left := map[KeyOf(req) := Object(0, req.digest, false)];
      Next(Single(Vetted(req)), OpenExclusive(0)) == Single(Copying(req)).(objects := left) &&
      Next(Single(Copying(req)).(objects := left), BreakCopy(0)) == Single(RollingBack(req, Partial)).(objects := left)
    ensures var left := map[KeyOf(req) := Object(0, req.digest, false)];
      Next(Single(RollingBack(req, Partial)).(objects := left), CleanUp(0)) ==
      Single(Aborted(req, Partial)).(objects := left)
  {
    hide *;
    BrokenOpens(req);
    BrokenBreaks(req);
    BrokenCleans(req);
  }

  lemma BrokenOpens(req: Request)
    ensures Next(Single(Vetted(req)), OpenExclusive(0)) ==
      Single(Copying(req)).(objects := map[KeyOf(req) := Object(0, req.digest, false)])
  {
    hide BatchWaits, FileWaits, KeyOf, BatchWithKey, FileWithDigest;
  }

  lemma BrokenBreaks(req: Request)
    ensures var left := map[KeyOf(req) := Object(0, req.digest, false)];
      Next(Single(Copying(req)).(objects := left), BreakCopy(0)) == Single(RollingBack(req, Partial)).(objects := left)
  {
    hide BatchWaits, FileWaits, KeyOf, BatchWithKey, FileWithDigest;
  }

  lemma BrokenCleans(req: Request)
    ensures var left := map[KeyOf(req) := Object(0, req.digest, false)];
      Next(Single(RollingBack(req, Partial)).(objects := left), CleanUp(0)) ==
      Single(Aborted(req, Partial)).(objects := left)
  {
    hide BatchWaits, FileWaits, KeyOf, BatchWithKey, FileWithDigest;
  }

  /** Such a run: the copy breaks, and the aborted upload leaves its object behind. */
  lemma BrokenCopyLeavesObject(req: Request)
    ensures Run(INITIAL, [Receive(0, req), Stream(0, true), CheckDuplicate(0), OpenExclusive(0), BreakCopy(0),
      CleanUp(0)])
      == Single(Aborted(req, Partial)).(objects := map[KeyOf(req) := Object(0, req.digest, false)])
  {
    hide *;
    BrokenStart(req);
    BrokenEnd(req);
    var left := map[KeyOf(req) := Object(0, req.digest, false)];
    var last, three := [BreakCopy(0), CleanUp(0)], [OpenExclusive(0), BreakCopy(0), CleanUp(0)];
    var four, five := [CheckDuplicate(0)] + three, [Stream(0, true), CheckDuplicate(0)] + three;
    assert [Receive(0, req), Stream(0, true), CheckDuplicate(0), OpenExclusive(0), BreakCopy(0), CleanUp(0)] ==
      [Receive(0, req)] + five;
    RunStep(INITIAL, Receive(0, req), five);
    assert five == [Stream(0, true)] + four;
    RunStep(Single(Received(req)), Stream(0, true), four);
    RunStep(Single(Streamed(req)), CheckDuplicate(0), three);
    assert three == [OpenExclusive(0)] + last;
    RunStep(Single(Vetted(req)), OpenExclusive(0), last);
    assert last == [BreakCopy(0)] + [CleanUp(0)];
    RunStep(Single(Copying(req)).(objects := left), BreakCopy(0), [CleanUp(0)]);
    assert [CleanUp(0)] == [CleanUp(0)] + [];
    RunStep(Single(RollingBack(req, Partial)).(objects := left), CleanUp(0), []);
  }

  lemma RunStep(s: State, a: Action, rest: seq<Action>)
    ensures Run(s, [a] + rest) == Run(Next(s, a), rest)
    ensures Run(Next(s, a), []) == Next(s, a)
  {
    hide Next;
    assert ([a] + rest)[1..] == rest;
  }

  /** The store's call in two steps: exclusive creation, then the copy, which
      completes the object or breaks; other uploads may step in between. */
  lemma StepsArePutFile(s: State, id: nat)
    requires id in s.uploads && s.uploads[id].Vetted?
    ensures var k, digest, created := KeyOf(s.uploads[id].req), s.uploads[id].req.digest, Next(s, OpenExclusive(id));
      id in created.uploads && id in Next(created, FinishCopy(id)).uploads &&
        id in Next(created, BreakCopy(id)).uploads &&
      if k in s.objects then created.objects == s.objects && created.uploads[id].RollingBack?
      else Next(created, FinishCopy(id)).objects == s.objects[k := Object(id, digest, true)] &&
           Next(created, BreakCopy(id)).objects == s.objects[k := Object(id, digest, false)] &&
           Next(created, FinishCopy(id)).uploads[id].Stored? && Next(created, BreakCopy(id)).uploads[id].left.Partial?
  {
    hide KeyOf, BatchWithKey, FileWithDigest, BatchWaits, FileWaits;
    var k, req := KeyOf(s.uploads[id].req), s.uploads[id].req;
    assert s.objects[k := Object(id, req.digest, false)][k := Object(id, req.digest, true)] ==
      s.objects[k := Object(id, req.digest, true)];
  }

  // ---------------------------------------------------------------- one upload that nothing disturbs

  /** Nothing stored, recorded or in flight stands in the way of the upload. */
  ghost predicate Unhindered(s: State, id: nat, req: Request) {
    id !in s.uploads && ObjectKey(req.day, req.digest, req.name) !in s.objects &&
    (forall b :: b in s.batches ==> s.batches[b].key != req.key) &&
    (forall f :: f in s.files ==> s.files[f].digest != req.digest) &&
    forall o :: o in s.uploads && (s.uploads[o].BatchFlushed? || s.uploads[o].FileFlushed?) ==>
      s.uploads[o].req.key != req.key && s.uploads[o].req.digest != req.digest
  }

  function AloneSteps(id: nat, req: Request): (r: seq<Action>)
    ensures |r| == 8
  {
    [Receive(id, req), Stream(id, true), CheckDuplicate(id), OpenExclusive(id), FinishCopy(id), FlushBatch(id),
     FlushFile(id), Commit(id)]
  }

  /** The state after the first `i` of these steps. */
  function AloneState(s: State, id: nat, req: Request, i: nat): State
    requires 0 < i <= 8
  {
    var key := ObjectKey(req.day, req.digest, req.name);
    var u := match i
      case 1 => Received(req)
      case 2 => Streamed(req)
      case 3 => Vetted(req)
      case 4 => Copying(req)
      case 5 => Stored(req)
      case 6 => BatchFlushed(req)
      case 7 => FileFlushed(req)
      case _ => Finished(req, id);
    State(
      if i < 4 then s.objects else s.objects[key := Object(id, req.digest, i > 4)],
      if i < 8 then s.batches else s.batches[id := Batch(req.key, req.digest)],
      if i < 8 then s.files else s.files[id := File(id, req.digest, key)],
      s.uploads[id := u])
  }

  lemma AloneBegins(s: State, id: nat, req: Request)
    requires Unhindered(s, id, req)
    ensures Next(s, Receive(id, req)) == AloneState(s, id, req, 1)
  {
  }

  lemma AloneNext(s: State, id: nat, req: Request, i: nat)
    requires Unhindered(s, id, req) && 0 < i < 8
    ensures Next(AloneState(s, id, req, i), AloneSteps(id, req)[i]) == AloneState(s, id, req, i + 1)
  {
    NothingInTheWay(s, id, req, i);
    hide FileWithDigest, BatchWithKey, BatchWaits, FileWaits, Unhindered;
    match i
    case 1 => AloneMoves(s, id, req, 1);
    case 2 => AloneMoves(s, id, req, 2);
    case 3 => AloneOpens(s, id, req);
    case 4 => AloneCopies(s, id, req);
    case 5 => AloneFlushes(s, id, req, 5);
    case 6 => AloneFlushes(s, id, req, 6);
    case _ => AloneCommits(s, id, req);
  }

  lemma NothingInTheWay(s: State, id: nat, req: Request, i: nat)
    requires Unhindered(s, id, req) && 0 < i < 8
    ensures var t := AloneState(s, id, req, i);
      FileWithDigest(t, req.digest) == None && BatchWithKey(t, req.key) == None && !BatchWaits(t, id, req.key) &&
      !FileWaits(t, id, req.digest) && KeyOf(req) !in s.objects
  {
  }

  lemma AloneMoves(s: State, id: nat, req: Request, i: nat)
    requires (i == 1 || i == 2) && FileWithDigest(AloneState(s, id, req, i), req.digest) == None
    ensures Next(AloneState(s, id, req, i), AloneSteps(id, req)[i]) == AloneState(s, id, req, i + 1)
  {
    hide FileWithDigest, BatchWithKey, BatchWaits, FileWaits;
  }

  lemma AloneFlushes(s: State, id: nat, req: Request, i: nat)
    requires i == 5 || i == 6
    requires var t := AloneState(s, id, req, i);
      FileWithDigest(t, req.digest) == None && BatchWithKey(t, req.key) == None && !BatchWaits(t, id, req.key) &&
      !FileWaits(t, id, req.digest)
    ensures Next(AloneState(s, id, req, i), AloneSteps(id, req)[i]) == AloneState(s, id, req, i + 1)
  {
    hide FileWithDigest, BatchWithKey, BatchWaits, FileWaits;
  }

  lemma AloneOpens(s: State, id: nat, req: Request)
    requires KeyOf(req) !in s.objects
    ensures Next(AloneState(s, id, req, 3), AloneSteps(id, req)[3]) == AloneState(s, id, req, 4)
  {
    hide FileWithDigest, BatchWithKey, BatchWaits, FileWaits;
  }

  lemma AloneCopies(s: State, id: nat, req: Request)
    ensures Next(AloneState(s, id, req, 4), AloneSteps(id, req)[4]) == AloneState(s, id, req, 5)
  {
    hide FileWithDigest, BatchWithKey, BatchWaits, FileWaits;
  }

  lemma AloneCommits(s: State, id: nat, req: Request)
    ensures Next(AloneState(s, id, req, 7), AloneSteps(id, req)[7]) == AloneState(s, id, req, 8)
  {
    hide FileWithDigest, BatchWithKey, BatchWaits, FileWaits;
  }

  lemma {:induction false} AlonePrefix(s: State, id: nat, req: Request, n: nat)
    requires Unhindered(s, id, req) && 0 < n <= 8
    ensures Run(s, AloneSteps(id, req)[..n]) == AloneState(s, id, req, n)
  {
    var steps := AloneSteps(id, req);
    hide Unhindered, AloneState, Next, AloneSteps;
    if n == 1 {
      AloneBegins(s, id, req);
      FirstStep(id, req);
      RunStep(s, Receive(id, req), []);
    } else {
      AlonePrefix(s, id, req, n - 1);
      AloneNext(s, id, req, n - 1);
      assert steps[..n] == steps[..n - 1] + [steps[n - 1]];
      RunMore(s, steps[..n - 1], steps[n - 1]);
    }
  }

  lemma FirstStep(id: nat, req: Request)
    ensures AloneSteps(id, req)[..1] == [Receive(id, req)] + []
  {
  }

  lemma {:induction false} RunMore(s: State, actions: seq<Action>, a: Action)
    ensures Run(s, actions + [a]) == Next(Run(s, actions), a)
    decreases |actions|
  {
    hide Next;
    if actions == [] {
      assert [] + [a] == [a] && [a][1..] == [];
    } else {
      RunMore(Next(s, actions[0]), actions[1..], a);
      assert (actions + [a])[1..] == actions[1..] + [a];
    }
  }

  /** Such an upload succeeds: its object is stored whole under its day, digest
      and name, its batch and its file are recorded, and nothing else changes. */
  lemma UploadAloneSucceeds(s: State, id: nat, req: Request)
    requires Unhindered(s, id, req)
    ensures var key := ObjectKey(req.day, req.digest, req.name);
      Run(s, AloneSteps(id, req)) ==
      State(s.objects[key := Object(id, req.digest, true)], s.batches[id := Batch(req.key, req.digest)],
            s.files[id := File(id, req.digest, key)], s.uploads[id := Finished(req, id)])
  {
    AlonePrefix(s, id, req, 8);
    hide AloneSteps, Unhindered;
    assert AloneSteps(id, req)[..8] == AloneSteps(id, req);
  }

  /** If it fails after any of its steps but the opening of the object, whose
      copy can only break, the clean-up restores objects, batches and files. */
  lemma FailureIsUndone(s: State, id: nat, req: Request, n: nat)
    requires Unhindered(s, id, req) && 0 < n < 8 && n != 4
    ensures Run(s, AloneSteps(id, req)[..n] + [Fail(id)] + [CleanUp(id)]) ==
      s.(uploads := s.uploads[id := Aborted(req, Nothing)])
  {
    AlonePrefix(s, id, req, n);
    AloneUndone(s, id, req, n);
    hide *;
    var steps := AloneSteps(id, req)[..n];
    RunMore(s, steps, Fail(id));
    RunMore(s, steps + [Fail(id)], CleanUp(id));
  }

  lemma AloneUndone(s: State, id: nat, req: Request, n: nat)
    requires Unhindered(s, id, req) && 0 < n < 8 && n != 4
    ensures Next(Next(AloneState(s, id, req, n), Fail(id)), CleanUp(id)) ==
      s.(uploads := s.uploads[id := Aborted(req, Nothing)])
  {
    AloneFails(s, id, req, n);
    hide AloneState, BatchWithKey, FileWithDigest, BatchWaits, FileWaits;
    var key := ObjectKey(req.day, req.digest, req.name);
    assert s.objects[key := Object(id, req.digest, true)] - {key} == s.objects;
  }

  lemma AloneFails(s: State, id: nat, req: Request, n: nat)
    requires 0 < n < 8 && n != 4
    ensures var key := ObjectKey(req.day, req.digest, req.name);
      Next(AloneState(s, id, req, n), Fail(id)) ==
      s.(uploads := s.uploads[id := RollingBack(req, if n > 4 then Recorded else Nothing)],
         objects := if n > 4 then s.objects[key := Object(id, req.digest, true)] else s.objects)
  {
    hide BatchWithKey, FileWithDigest, BatchWaits, FileWaits;
  }

  /** Contents that a committed file already has are found before anything is
      stored: the upload answers with a batch of the same contents. */
  lemma DuplicateIsFound(s: State, id: nat, f: nat)
    requires Valid(s) && id in s.uploads && s.uploads[id].Streamed?
    requires f in s.files && s.files[f].digest == s.uploads[id].req.digest
    ensures var t := Next(s, CheckDuplicate(id));
      t == s.(uploads := t.uploads) && t.uploads == s.uploads[id := t.uploads[id]] && t.uploads[id].Finished? &&
      t.uploads[id].batch in s.batches && s.batches[t.uploads[id].batch].digest == s.files[f].digest
  {
    hide ObjectsMatch, RowsUnique;
    var found := FileWithDigest(s, s.uploads[id].req.digest);
    assert found.Some?;
    FileBatch(s, found.value);
    hide RowsMatch;
  }

  /** An upload whose contents are refused ends without a trace. */
  lemma RefusedStreamLeavesNothing(s: State, id: nat)
    requires id in s.uploads && s.uploads[id].Received?
    ensures Next(Next(s, Stream(id, false)), CleanUp(id)) ==
      s.(uploads := s.uploads[id := Aborted(s.uploads[id].req, Nothing)])
  {
    hide BatchWithKey, FileWithDigest, BatchWaits, FileWaits;
  }

  /** Contents that another upload committed first are a conflict as well. */
  lemma SameContentsAreUndone(s: State, id: nat, f: nat)
    requires id in s.uploads && s.uploads[id].BatchFlushed?
    requires f in s.files && s.files[f].digest == s.uploads[id].req.digest
    ensures var req := s.uploads[id].req;
      Next(Next(s, FlushFile(id)), CleanUp(id)) ==
      s.(objects := s.objects - {ObjectKey(req.day, req.digest, req.name)},
         uploads := s.uploads[id := Aborted(req, Nothing)])
  {
    assert FileWithDigest(s, s.uploads[id].req.digest).Some?;
    hide BatchWithKey, FileWithDigest, BatchWaits, FileWaits;
  }

  /** A key that another upload committed first is a conflict, and the stored
      object is taken back. */
  lemma ConflictIsUndone(s: State, id: nat, b: nat)
    requires id in s.uploads && s.uploads[id].Stored? && b in s.batches && s.batches[b].key == s.uploads[id].req.key
    ensures var req := s.uploads[id].req;
      Next(Next(s, FlushBatch(id)), CleanUp(id)) ==
      s.(objects := s.objects - {ObjectKey(req.day, req.digest, req.name)},
         uploads := s.uploads[id := Aborted(req, Nothing)])
  {
    assert BatchWithKey(s, s.uploads[id].req.key).Some?;
    hide BatchWithKey, FileWithDigest, BatchWaits, FileWaits;
  }
}
