/** The maintenance script that removes orphan faces from the Rekognition
    collection (scripts/limpiar-rekognition.js): every face id that no user row
    refers to is deleted, in batches of 100. The pages listFaces answers with are
    passed in. */
module OrphanCleanup {
  import opened Common
  import opened Server
  import opened AwsRekognition

  /** Face ids per deleteFaces call. */
  const BatchSize: nat := 100

  /** One answer of listFaces: the face ids on the page and the continuation token. */
  datatype Page = Page(faceIds: seq<string>, nextToken: Option<string>)

  /** `new Set(rows.map(u => u.rekognition_face_id))` over the rows whose face id is not
      NULL. */
  function ValidFaceIds(users: seq<User>): (valid: set<string>)
    ensures forall id :: id in valid <==>
              exists i :: 0 <= i < |users| && users[i].rekognitionFaceId == Some(id)
  {
    set i | 0 <= i < |users| && users[i].rekognitionFaceId.Some? :: users[i].rekognitionFaceId.value
  }

  function Flatten<T>(ss: seq<seq<T>>): seq<T>
    decreases |ss|
  {
    if ss == [] then [] else Flatten(ss[..|ss| - 1]) + ss[|ss| - 1]
  }

  lemma FlattenAppend<T>(ss: seq<seq<T>>, s: seq<T>)
    ensures Flatten(ss + [s]) == Flatten(ss) + s
  {
    assert (ss + [s])[..|ss|] == ss;
  }

  /** The do-while loop stops after the first page without a token. */
  predicate LastPage(pages: seq<Page>, k: nat)
  {
    k < |pages| && !Truthy(pages[k].nextToken) && forall j :: 0 <= j < k ==> Truthy(pages[j].nextToken)
  }

  /** `facesEnRekognition.filter(face => !faceIdsValidos.has(face.FaceId))`, keeping
      only the ids. */
  function Orphans(listed: seq<string>, valid: set<string>): (orphans: seq<string>)
    ensures forall id :: id in orphans <==> id in listed && id !in valid
    ensures |orphans| <= |listed|
    decreases |listed|
  {
    if listed == [] then []
    else (if listed[0] in valid then [] else [listed[0]]) + Orphans(listed[1..], valid)
  }

  /** The filter keeps the listing's order: filtering a concatenation filters each
      part and concatenates the results. */
  lemma {:induction false} OrphansAppend(a: seq<string>, b: seq<string>, valid: set<string>)
    ensures Orphans(a + b, valid) == Orphans(a, valid) + Orphans(b, valid)
    decreases |a|
  {
    if a != [] {
      assert (a + b)[1..] == a[1..] + b;
      OrphansAppend(a[1..], b, valid);
      var head := if a[0] in valid then [] else [a[0]];
      assert Orphans(a + b, valid) == head + Orphans(a[1..] + b, valid);
      assert Orphans(a, valid) == head + Orphans(a[1..], valid);
    } else {
      assert a + b == b;
    }
  }

  /** A single face is kept exactly when no user refers to it. */
  lemma OrphansSingle(id: string, valid: set<string>)
    ensures Orphans([id], valid) == if id in valid then [] else [id]
  {
    assert [id][1..] == [];
  }

  /** `new Set(ids)` */
  function Members(ids: seq<string>): set<string>
  {
    set id | id in ids
  }

  lemma MembersAppend(a: seq<string>, b: seq<string>)
    ensures Members(a + b) == Members(a) + Members(b)
  {
  }

  /** The k-th delete batch: ids k*100 up to (not including) k*100 + 100. */
  function Batch(ids: seq<string>, k: nat): seq<string>
    requires k * BatchSize < |ids|
  {
    ids[k * BatchSize..Min(k * BatchSize + BatchSize, |ids|)]
  }

  function Min(a: int, b: int): int
  {
    if a < b then a else b
  }

  /** The listing: every page's faces, in order, until the first page with no token. */
  method ListAllFaces(pages: seq<Page>, ghost last: nat) returns (listed: seq<string>)
    requires LastPage(pages, last)
    ensures listed == Flatten(seq(last + 1, j requires 0 <= j <= last => pages[j].faceIds))
  {
    ghost var pageIds := seq(last + 1, j requires 0 <= j <= last => pages[j].faceIds);
    listed := [];
    var k := 0;
    var nextToken: Option<string>;
    // first round of the do-while
    listed := listed + pages[k].faceIds;
    nextToken := pages[k].nextToken;
    k := k + 1;
    FlattenAppend([], pages[0].faceIds);
    assert pageIds[..1] == [] + [pages[0].faceIds];
    while Truthy(nextToken)
      invariant 1 <= k <= last + 1
      invariant nextToken == pages[k - 1].nextToken
      invariant listed == Flatten(pageIds[..k])
      decreases last + 1 - k
    {
      assert k <= last;
      FlattenAppend(pageIds[..k], pages[k].faceIds);
      assert pageIds[..k + 1] == pageIds[..k] + [pages[k].faceIds];
      listed := listed + pages[k].faceIds;
      nextToken := pages[k].nextToken;
      k := k + 1;
    }
    assert k == last + 1;
    assert pageIds[..k] == pageIds;
  }

  /** The batch loop: deleteFaces on consecutive slices of at most 100 ids. The
      batches issued are returned. */
  method DeleteInBatches(faces: FaceService, ids: seq<string>) returns (batches: seq<seq<string>>)
    modifies faces
    ensures Flatten(batches) == ids
    ensures |batches| == (|ids| + BatchSize - 1) / BatchSize
    ensures forall k :: 0 <= k < |batches| ==> k * BatchSize < |ids| && batches[k] == Batch(ids, k)
    ensures forall k :: 0 <= k < |batches| ==> 0 < |batches[k]| <= BatchSize
    ensures faces.collection == old(faces.collection) - Members(ids)
    ensures faces.bucket == old(faces.bucket)
  {
    batches := [];
    var i := 0;
    while i < |ids|
      invariant i == |batches| * BatchSize
      invariant i <= |ids| + BatchSize - 1
      invariant forall k :: 0 <= k < |batches| ==> k * BatchSize < |ids| && batches[k] == Batch(ids, k)
      invariant Flatten(batches) == ids[..Min(i, |ids|)]
      invariant faces.collection == old(faces.collection) - Members(ids[..Min(i, |ids|)])
      invariant faces.bucket == old(faces.bucket)
      decreases |ids| - i
    {
      var batch := ids[i..Min(i + BatchSize, |ids|)];
      assert batch == Batch(ids, |batches|);
      faces.DeleteFaces(batch);
      FlattenAppend(batches, batch);
      assert ids[..Min(i + BatchSize, |ids|)] == ids[..i] + batch;
      MembersAppend(ids[..i], batch);
      batches := batches + [batch];
      i := i + BatchSize;
    }
    assert ids[..Min(i, |ids|)] == ids;
  }

  /** `limpiarRekognition()`: lists the collection, computes the orphans against the
      users table and deletes them; with no orphans no delete is issued. */
  method LimpiarRekognition(faces: FaceService, users: seq<User>, pages: seq<Page>, ghost last: nat)
    returns (orphans: seq<string>, batches: seq<seq<string>>)
    requires LastPage(pages, last)
    modifies faces
    ensures orphans == Orphans(Flatten(seq(last + 1, j requires 0 <= j <= last => pages[j].faceIds)),
                               ValidFaceIds(users))
    ensures orphans == [] ==> batches == [] && faces.collection == old(faces.collection)
    ensures Flatten(batches) == orphans
    ensures forall k :: 0 <= k < |batches| ==> 0 < |batches[k]| <= BatchSize
    ensures faces.collection == old(faces.collection) - Members(orphans)
    ensures faces.bucket == old(faces.bucket)
  {
    var valid := ValidFaceIds(users);
    var listed := ListAllFaces(pages, last);
    orphans := Orphans(listed, valid);
    if orphans == [] {
      return [], [];
    }
    batches := DeleteInBatches(faces, orphans);
  }

  /** When the pages list the whole collection, the cleanup leaves exactly the faces
      that some user refers to: no valid face is deleted and no orphan remains. */
  lemma CleanupKeepsExactlyValid(collection: set<string>, listed: seq<string>, valid: set<string>)
    requires forall id :: id in listed <==> id in collection
    ensures collection - Members(Orphans(listed, valid)) == collection * valid
  {
  }

  /** The last page is unique, so the listing is determined by the pages. */
  lemma LastPageUnique(pages: seq<Page>, k: nat, l: nat)
    requires LastPage(pages, k) && LastPage(pages, l)
    ensures k == l
  {
  }
}
