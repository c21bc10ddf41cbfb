/** The face-recognition adapter (lib/aws-rekognition.js). The Rekognition
    collection and the S3 bucket are modelled as a set of face ids and a set of
    object keys held by a FaceService object; what the AWS services answer to each
    call (an upload failure, the face records found, whether a delete succeeds) is
    passed in, since it depends on images and on services outside this model. */
module AwsRekognition {
  import opened Common

  /** Minimum similarity (percent) requested from searchFacesByImage. */
  const FaceMatchThreshold: int := 90
  /** Faces indexed per image. */
  const MaxFaces: int := 1
  /** Prefix of every object key under which enrollment photos are stored. */
  const FacesFolder: string := "faces/"

  const NoFaceMessage: string := "No se detectó ningún rostro en la imagen"
  const MultipleFacesMessage: string :=
    "Se detectaron múltiples rostros. Por favor, toma una foto con solo tu rostro"
  const InvalidFaceMessage: string :=
    "No se detectó un rostro válido en la imagen o hay múltiples rostros"
  const InvalidFormatMessage: string := "Formato de imagen inválido. Usa JPG o PNG"
  const TooLargeMessage: string := "La imagen es demasiado grande. Máximo 15MB"
  const UploadErrorPrefix: string := "Error al subir imagen a S3: "

  /** The `code` of an error raised by the AWS SDK. */
  datatype AwsCode =
    | InvalidParameterException
    | InvalidImageFormatException
    | ImageTooLargeException
    | OtherCode(name: string)

  datatype AwsError = AwsError(code: AwsCode, message: string)

  /** An error the adapter throws to its caller. Errors it creates itself with
      `new Error(...)` carry no `code`; errors it rethrows keep the SDK's. */
  datatype Thrown = Thrown(code: Option<AwsCode>, message: string)

  /** Similarity and confidence scores are floating-point percentages passed
      through unchanged. */
  datatype FaceRecord = FaceRecord(faceId: string, confidence: real)
  datatype FaceMatch = FaceMatch(faceId: string, similarity: real)

  /** What indexFaces answers: the FaceRecords (an absent list is empty) or an error. */
  datatype IndexFacesResponse = FaceRecords(records: seq<FaceRecord>) | IndexFacesFailed(error: AwsError)

  /** What searchFacesByImage answers: the FaceMatches (an absent list is empty) or an error. */
  datatype SearchResponse = FaceMatches(matches: seq<FaceMatch>) | SearchFailed(error: AwsError)

  /** The services' answers during one `indexFace` call. */
  datatype IndexOracle = IndexOracle(
    uploadError: Option<string>,        // message of a failed S3 upload
    response: IndexFacesResponse,       // indexFaces on the uploaded image
    photoDeleteSucceeds: bool,          // the compensating S3 delete
    undeletableFaces: set<string>)      // face ids whose deleteFaces call fails

  datatype IndexedFace = IndexedFace(faceId: string, s3Url: string, confidence: real)

  datatype SearchResult = NotFound | Found(faceId: string, similarity: real)

  function FaceIds(records: seq<FaceRecord>): set<string>
  {
    set r | r in records :: r.faceId
  }

  // ---------------------------------------------------------------------------
  // ExternalImageId: the file name without its extension
  // ---------------------------------------------------------------------------

  predicate InExtension(c: char)
  {
    c != '.' && c != '/'
  }

  /** Length of the longest suffix of s made of characters other than '.' and '/'. */
  function TailRun(s: string): (k: nat)
    ensures k <= |s|
    ensures forall i :: |s| - k <= i < |s| ==> InExtension(s[i])
    ensures k < |s| ==> !InExtension(s[|s| - k - 1])
    decreases |s|
  {
    if s != [] && InExtension(s[|s| - 1]) then 1 + TailRun(s[..|s| - 1]) else 0
  }

  /** `fileName.replace(/\.[^/.]+$/, '')`: removes a final '.' followed by one or more
      characters none of which is '.' or '/'; any other name is returned unchanged. */
  function StripExtension(name: string): (base: string)
    ensures base == name || (
              && |base| < |name|
              && name == base + "." + name[|base| + 1..]
              && name[|base| + 1..] != []
              && forall i :: |base| + 1 <= i < |name| ==> InExtension(name[i]))
  {
    var k := TailRun(name);
    if 0 < k < |name| && name[|name| - k - 1] == '.' then
      assert name == name[..|name| - k - 1] + "." + name[|name| - k..];
      name[..|name| - k - 1]
    else name
  }

  lemma {:induction false} TailRunOfSuffix(prefix: string, ext: string)
    requires forall i :: 0 <= i < |ext| ==> InExtension(ext[i])
    ensures TailRun(prefix + "." + ext) == |ext|
    decreases |ext|
  {
    var s := prefix + "." + ext;
    if ext != [] {
      assert s[..|s| - 1] == prefix + "." + ext[..|ext| - 1];
      TailRunOfSuffix(prefix, ext[..|ext| - 1]);
    }
  }

  /** A name with an extension loses exactly that extension. */
  lemma StripExtensionOfName(base: string, ext: string)
    requires ext != []
    requires forall i :: 0 <= i < |ext| ==> InExtension(ext[i])
    ensures StripExtension(base + "." + ext) == base
  {
    var s := base + "." + ext;
    TailRunOfSuffix(base, ext);
    assert s[|s| - |ext| - 1] == '.';
    assert s[..|s| - |ext| - 1] == base;
  }

  /** Names with no extension are kept: a name whose last '.' is followed by a '/'
      (a dot in a directory) or that ends in '.'. */
  lemma StripExtensionKeepsDotlessTail(name: string)
    requires name == [] || !InExtension(name[|name| - 1])
    ensures StripExtension(name) == name
  {
  }

  // ---------------------------------------------------------------------------
  // S3 object locations and keys
  // ---------------------------------------------------------------------------

  /** The Location S3 reports for an uploaded object. */
  function S3Location(host: string, key: string): string
  {
    "https://" + host + "/" + key
  }

  function IndexOfSlash(s: string): (r: Option<nat>)
    ensures r.Some? ==> r.value < |s| && s[r.value] == '/' && '/' !in s[..r.value]
    ensures r.None? ==> '/' !in s
    decreases |s|
  {
    if s == [] then None
    else if s[0] == '/' then Some(0)
    else match IndexOfSlash(s[1..])
      case None => None
      case Some(i) => assert s[..i + 1] == [s[0]] + s[1..][..i]; Some(i + 1)
  }

  /** `s.split('/').slice(n).join('/')`: what follows the n-th '/', or '' when s has
      fewer than n of them. */
  function DropSegments(s: string, n: nat): string
    decreases n
  {
    if n == 0 then s
    else match IndexOfSlash(s)
      case None => ""
      case Some(i) => DropSegments(s[i + 1..], n - 1)
  }

  /** The object key `deleteFromS3` extracts from a URL: segments 3 onward. */
  function S3Key(s3Url: string): string
  {
    DropSegments(s3Url, 3)
  }

  lemma {:induction false} IndexOfSlashAfter(a: string, b: string)
    requires '/' !in a
    ensures IndexOfSlash(a + "/" + b) == Some(|a|)
    decreases |a|
  {
    if a != [] {
      assert (a + "/" + b)[1..] == a[1..] + "/" + b;
      IndexOfSlashAfter(a[1..], b);
    }
  }

  /** The key extracted from an uploaded object's Location is the object's key. */
  lemma S3KeyOfLocation(host: string, key: string)
    requires '/' !in host
    ensures S3Key(S3Location(host, key)) == key
  {
    var url := S3Location(host, key);
    IndexOfSlashAfter("https:", "/" + host + "/" + key);
    assert url == "https:" + "/" + ("/" + host + "/" + key);
    var s1 := "/" + host + "/" + key;
    assert url[7..] == s1;
    IndexOfSlashAfter("", host + "/" + key);
    assert s1 == "" + "/" + (host + "/" + key);
    var s2 := host + "/" + key;
    assert s1[1..] == s2;
    IndexOfSlashAfter(host, key);
    assert s2[|host| + 1..] == key;
  }

  // ---------------------------------------------------------------------------
  // Results of indexFace and searchFace
  // ---------------------------------------------------------------------------

  /** The catch block of `indexFace` for an error the SDK raised in indexFaces. */
  function TranslateIndexError(e: AwsError): (t: Thrown)
    ensures e.code.OtherCode? <==> t.code.Some?
    ensures e.code.OtherCode? ==> t == Thrown(Some(e.code), e.message)
    ensures e.code.InvalidParameterException? ==> t == Thrown(None, InvalidFaceMessage)
    ensures e.code.InvalidImageFormatException? ==> t == Thrown(None, InvalidFormatMessage)
    ensures e.code.ImageTooLargeException? ==> t == Thrown(None, TooLargeMessage)
  {
    match e.code
    case InvalidParameterException => Thrown(None, InvalidFaceMessage)
    case InvalidImageFormatException => Thrown(None, InvalidFormatMessage)
    case ImageTooLargeException => Thrown(None, TooLargeMessage)
    case OtherCode(_) => Thrown(Some(e.code), e.message)
  }

  /** What `indexFace(image, fileName)` returns or throws, given the services' answers. */
  function IndexFaceResult(host: string, fileName: string, oracle: IndexOracle): (r: Result<IndexedFace, Thrown>)
    ensures r.Ok? <==> oracle.uploadError.None? && oracle.response.FaceRecords?
                       && |oracle.response.records| == 1
    ensures r.Ok? ==> r.value == IndexedFace(oracle.response.records[0].faceId,
                                             S3Location(host, FacesFolder + fileName),
                                             oracle.response.records[0].confidence)
    ensures (oracle.uploadError.None? && oracle.response.FaceRecords? && |oracle.response.records| == 0)
              ==> r == Err(Thrown(None, NoFaceMessage))
    ensures (oracle.uploadError.None? && oracle.response.FaceRecords? && |oracle.response.records| > 1)
              ==> r == Err(Thrown(None, MultipleFacesMessage))
  {
    if oracle.uploadError.Some? then Err(Thrown(None, UploadErrorPrefix + oracle.uploadError.value))
    else match oracle.response
      case IndexFacesFailed(e) => Err(TranslateIndexError(e))
      case FaceRecords(records) =>
        if |records| == 0 then Err(Thrown(None, NoFaceMessage))
        else if |records| > 1 then Err(Thrown(None, MultipleFacesMessage))
        else Ok(IndexedFace(records[0].faceId, S3Location(host, FacesFolder + fileName), records[0].confidence))
  }

  /** Every error `indexFace` throws either has no code or has a code other than the
      three it translates. */
  lemma IndexFaceErrorsLoseKnownCodes(host: string, fileName: string, oracle: IndexOracle)
    requires IndexFaceResult(host, fileName, oracle).Err?
    ensures var t := IndexFaceResult(host, fileName, oracle).error;
            t.code.None? || t.code.value.OtherCode?
  {
  }

  /** What `searchFace(image)` returns or throws, given the answer of
      searchFacesByImage (requested with FaceMatchThreshold and MaxFaces). */
  function SearchFace(response: SearchResponse): (r: Result<SearchResult, Thrown>)
    ensures r.Ok? && r.value.Found? <==> response.FaceMatches? && |response.matches| > 0
    ensures r.Ok? && r.value.Found? ==>
              r.value == Found(response.matches[0].faceId, response.matches[0].similarity)
    ensures r.Err? <==> response.SearchFailed? && !response.error.code.InvalidParameterException?
    ensures response.SearchFailed? && response.error.code.InvalidImageFormatException? ==>
              r == Err(Thrown(None, InvalidFormatMessage))
    ensures response.SearchFailed? && !response.error.code.InvalidParameterException?
            && !response.error.code.InvalidImageFormatException? ==>
              r == Err(Thrown(Some(response.error.code), response.error.message))
  {
    match response
    case FaceMatches(matches) =>
      if |matches| == 0 then Ok(NotFound)
      else Ok(Found(matches[0].faceId, matches[0].similarity))
    case SearchFailed(e) =>
      match e.code
      case InvalidParameterException => Ok(NotFound)
      case InvalidImageFormatException => Err(Thrown(None, InvalidFormatMessage))
      case _ => Err(Thrown(Some(e.code), e.message))
  }

  /** What the service promises for the request searchFace sends (FaceMatchThreshold
      90, at most MaxFaces match): every match is at least 90% similar. */
  predicate AnswersSearchRequest(response: SearchResponse)
  {
    response.FaceMatches? ==>
      |response.matches| <= MaxFaces
      && forall i :: 0 <= i < |response.matches| ==> response.matches[i].similarity >= FaceMatchThreshold as real
  }

  /** A face searchFace reports as found is the single match, at least 90% similar. */
  lemma FoundFaceMeetsThreshold(response: SearchResponse)
    requires AnswersSearchRequest(response)
    requires SearchFace(response).Ok? && SearchFace(response).value.Found?
    ensures SearchFace(response).value.similarity >= FaceMatchThreshold as real
    ensures response.matches == [FaceMatch(SearchFace(response).value.faceId, SearchFace(response).value.similarity)]
  {
  }

  // ---------------------------------------------------------------------------
  // The services' state and the adapter's operations on it
  // ---------------------------------------------------------------------------

  /** The bucket after `indexFace`: the photo is stored under faces/<fileName> once
      the upload succeeds, and deleted again (when that delete succeeds) if the
      image did not hold exactly one face. */
  function BucketAfterIndex(bucket: set<string>, fileName: string, oracle: IndexOracle): set<string>
  {
    var key := FacesFolder + fileName;
    if oracle.uploadError.Some? then bucket
    else if oracle.response.FaceRecords? && |oracle.response.records| != 1 && oracle.photoDeleteSucceeds
    then (bucket + {key}) - {key}
    else bucket + {key}
  }

  /** The collection after `indexFace`: the faces indexFaces added, minus those the
      compensation loop deleted when there was more than one. */
  function CollectionAfterIndex(collection: set<string>, oracle: IndexOracle): set<string>
  {
    if oracle.uploadError.Some? || oracle.response.IndexFacesFailed? then collection
    else
      var ids := FaceIds(oracle.response.records);
      if |oracle.response.records| > 1 then (collection + ids) - (ids - oracle.undeletableFaces)
      else collection + ids
  }

  /** A successful call leaves its face, and only that face, added to the collection
      and its photo in the bucket. */
  lemma IndexedFaceIsStored(host: string, fileName: string, collection: set<string>,
                            bucket: set<string>, oracle: IndexOracle)
    requires IndexFaceResult(host, fileName, oracle).Ok?
    ensures var face := IndexFaceResult(host, fileName, oracle).value;
            && CollectionAfterIndex(collection, oracle) == collection + {face.faceId}
            && BucketAfterIndex(bucket, fileName, oracle) == bucket + {FacesFolder + fileName}
  {
    var records := oracle.response.records;
    assert records == [records[0]];
    assert FaceIds(records) == {records[0].faceId};
  }

  /** A failed call leaves none of the faces it indexed in the collection, unless a
      compensating delete failed, and removes its photo unless that delete failed. */
  lemma RejectedImageLeavesNothing(fileName: string, collection: set<string>, bucket: set<string>,
                                   oracle: IndexOracle)
    requires oracle.uploadError.None? && oracle.response.FaceRecords?
    requires |oracle.response.records| != 1
    requires oracle.photoDeleteSucceeds && oracle.undeletableFaces == {}
    ensures CollectionAfterIndex(collection, oracle) == collection - FaceIds(oracle.response.records)
    ensures BucketAfterIndex(bucket, fileName, oracle) == bucket - {FacesFolder + fileName}
  {
    if |oracle.response.records| == 0 {
      assert FaceIds(oracle.response.records) == {};
    }
  }

  /** An error before or from indexFaces leaves the collection as it was. */
  lemma FailedIndexingKeepsCollection(collection: set<string>, oracle: IndexOracle)
    requires oracle.uploadError.Some? || oracle.response.IndexFacesFailed?
    ensures CollectionAfterIndex(collection, oracle) == collection
  {
  }

  class FaceService {
    /** Face ids in the Rekognition collection. */
    var collection: set<string>
    /** Object keys in the S3 bucket. */
    var bucket: set<string>
    /** Host part of the bucket's object URLs. */
    const host: string

    predicate Valid()
    {
      '/' !in host
    }

    constructor (host: string, collection: set<string>, bucket: set<string>)
      requires '/' !in host
      ensures Valid()
      ensures this.host == host && this.collection == collection && this.bucket == bucket
    {
      this.host := host;
      this.collection := collection;
      this.bucket := bucket;
    }

    /** `uploadToS3(image, fileName)`: stores the object under faces/<fileName>. */
    method UploadToS3(fileName: string, uploadError: Option<string>) returns (r: Result<string, Thrown>)
      modifies this
      ensures uploadError.None? ==> r == Ok(S3Location(host, FacesFolder + fileName))
      ensures uploadError.Some? ==> r == Err(Thrown(None, UploadErrorPrefix + uploadError.value))
      ensures bucket == if uploadError.None? then old(bucket) + {FacesFolder + fileName} else old(bucket)
      ensures collection == old(collection)
    {
      if uploadError.Some? {
        return Err(Thrown(None, UploadErrorPrefix + uploadError.value));
      }
      bucket := bucket + {FacesFolder + fileName};
      r := Ok(S3Location(host, FacesFolder + fileName));
    }

    /** `deleteFromS3(s3Url)`: deletes the object the URL names; a failure is only
        logged, never thrown. */
    method DeleteFromS3(s3Url: string, succeeds: bool)
      modifies this
      ensures bucket == if succeeds then old(bucket) - {S3Key(s3Url)} else old(bucket)
      ensures collection == old(collection)
    {
      if succeeds {
        bucket := bucket - {S3Key(s3Url)};
      }
    }

    /** The SDK's deleteFaces: removes the given ids from the collection. */
    method DeleteFaces(faceIds: seq<string>)
      modifies this
      ensures collection == old(collection) - set id | id in faceIds
      ensures bucket == old(bucket)
    {
      collection := collection - set id | id in faceIds;
    }

    /** `deleteFace(faceId)`: true when deleted; a failure returns false instead of
        throwing. */
    method DeleteFace(faceId: string, succeeds: bool) returns (deleted: bool)
      modifies this
      ensures deleted == succeeds
      ensures collection == if succeeds then old(collection) - {faceId} else old(collection)
      ensures bucket == old(bucket)
    {
      if !succeeds {
        return false;
      }
      DeleteFaces([faceId]);
      assert (set id | id in [faceId]) == {faceId};
      deleted := true;
    }

    /** The compensation loop of `indexFace`: `deleteFace` on each indexed face id,
        of which those in `undeletable` fail. */
    method DeleteIndexedFaces(records: seq<FaceRecord>, undeletable: set<string>)
      modifies this
      ensures collection == old(collection) - (FaceIds(records) - undeletable)
      ensures bucket == old(bucket)
    {
      for i := 0 to |records|
        invariant collection == old(collection) - (FaceIds(records[..i]) - undeletable)
        invariant bucket == old(bucket)
      {
        assert FaceIds(records[..i + 1]) == FaceIds(records[..i]) + {records[i].faceId} by {
          assert records[..i + 1] == records[..i] + [records[i]];
        }
        var _ := DeleteFace(records[i].faceId, records[i].faceId !in undeletable);
      }
      assert records[..|records|] == records;
    }

    /** `indexFace(image, fileName)`: uploads the photo, indexes the face in it and
        returns the face id. With zero face records the photo is deleted again; with
        more than one, the photo and every face just indexed are deleted. */
    method IndexFace(fileName: string, oracle: IndexOracle) returns (r: Result<IndexedFace, Thrown>)
      requires Valid()
      modifies this
      ensures r == IndexFaceResult(host, fileName, oracle)
      ensures bucket == BucketAfterIndex(old(bucket), fileName, oracle)
      ensures collection == CollectionAfterIndex(old(collection), oracle)
    {
      var upload := UploadToS3(fileName, oracle.uploadError);
      if upload.Err? {
        return Err(upload.error);
      }
      var s3Url := upload.value;
      S3KeyOfLocation(host, FacesFolder + fileName);
      match oracle.response {
        case IndexFacesFailed(e) =>
          return Err(TranslateIndexError(e));
        case FaceRecords(records) =>
          collection := collection + FaceIds(records);
          if |records| == 0 {
            DeleteFromS3(s3Url, oracle.photoDeleteSucceeds);
            return Err(Thrown(None, NoFaceMessage));
          }
          if |records| > 1 {
            DeleteFromS3(s3Url, oracle.photoDeleteSucceeds);
            DeleteIndexedFaces(records, oracle.undeletableFaces);
            return Err(Thrown(None, MultipleFacesMessage));
          }
          r := Ok(IndexedFace(records[0].faceId, s3Url, records[0].confidence));
      }
    }
  }
}
