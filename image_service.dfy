/** `ImageProcessingService`: upload, read, delete and transform of user-owned
    images, over an object store (key to bytes, standing in for the S3 bucket)
    and a metadata repository (record id to `Images` record, ids generated on
    save).

    Foreign parts are parameters or constants of the service: the principal is
    `Option<Authentication>` (null or an `{authenticated, credentials}` pair),
    `UUID.randomUUID()` is a `uuid` argument that no stored key starts with,
    `LocalDateTime.now()` readings are `Timestamp` arguments, and `IJ.save` is
    the uninterpreted encoder `saveAs`. */
module ImageService {
  import opened Base
  import opened TransformPipeline

  /** An opaque clock reading. */
  type Timestamp = int

  /** The `Images` entity (table t_images). */
  datatype Images = Images(
    id: nat,
    userId: int,
    s3Url: string,
    fileName: string,
    fileType: string,
    fileSize: nat,
    fileExtension: string,
    createdAt: Timestamp,
    updatedAt: Timestamp)

  /** What the service reads of Spring's `Authentication`: `isAuthenticated()`
      and the user id held in `getCredentials()`. */
  datatype Authentication = Authentication(authenticated: bool, credentials: int)

  /** What the service reads of the uploaded `MultipartFile`. */
  datatype MultipartFile = MultipartFile(originalFilename: string, contentType: string, bytes: seq<bv8>)

  /** The string map `uploadImage` returns: "imageId", "fileName", "fileUrl", "fileType", "size". */
  datatype UploadResponse = UploadResponse(imageId: nat, fileName: string, fileUrl: string, fileType: string, size: nat)

  /** `authentication != null && authentication.isAuthenticated()` */
  predicate IsAuthenticated(auth: Option<Authentication>) {
    auth.Some? && auth.value.authenticated
  }

  /** Java's `s.lastIndexOf(c)`: the last index holding `c`, or -1. */
  function LastIndexOf(s: string, c: char): (r: int)
    ensures -1 <= r < |s|
    ensures r >= 0 ==> s[r] == c
    ensures forall k :: r < k < |s| ==> s[k] != c
  {
    if |s| == 0 then -1
    else if s[|s| - 1] == c then |s| - 1
    else LastIndexOf(s[..|s| - 1], c)
  }

  /** `name.substring(name.lastIndexOf(".") + 1)`: the text after the last dot,
      or the whole name when it has no dot. */
  function Extension(name: string): (ext: string)
    ensures '.' !in ext
    ensures |ext| <= |name| && ext == name[|name| - |ext|..]
    ensures '.' in name ==> |ext| < |name| && name[|name| - |ext| - 1] == '.'
    ensures '.' !in name ==> ext == name
  {
    var i := LastIndexOf(name, '.');
    assert '.' in name ==> i >= 0 by {
      if '.' in name {
        var k :| 0 <= k < |name| && name[k] == '.';
      }
    }
    var ext := name[i + 1..];
    assert '.' !in ext by {
      forall j | 0 <= j < |ext| ensures ext[j] != '.' {
        assert ext[j] == name[i + 1 + j];
      }
    }
    ext
  }

  /** The object key of an upload: `UUID + "_" + originalFilename`. */
  function UploadKey(uuid: string, originalFilename: string): (key: string)
  {
    uuid + "_" + originalFilename
  }

  /** The object key of a transformed image: `UUID + "." + extension`. */
  function TransformKey(uuid: string, extension: string): (key: string)
  {
    uuid + "." + extension
  }

  /** Each key splits back into the UUID and the part after the separator:
      the original file name for an upload, the extension for a transform. */
  lemma KeysNameTheirParts(uuid: string, originalFilename: string, extension: string)
    ensures UploadKey(uuid, originalFilename)[..|uuid|] == uuid
    ensures UploadKey(uuid, originalFilename)[|uuid|] == '_'
    ensures UploadKey(uuid, originalFilename)[|uuid| + 1..] == originalFilename
    ensures TransformKey(uuid, extension)[..|uuid|] == uuid
    ensures TransformKey(uuid, extension)[|uuid|] == '.'
    ensures TransformKey(uuid, extension)[|uuid| + 1..] == extension
  {
  }

  function UrlPrefix(bucket: string, region: string): string {
    "https://" + bucket + ".s3." + region + ".amazonaws.com/"
  }

  /** The public URL of an object in the bucket: the bucket's https prefix
      followed by the key. */
  function ObjectUrl(bucket: string, region: string, key: string): (url: string)
    ensures |url| == |UrlPrefix(bucket, region)| + |key|
    ensures url[..|UrlPrefix(bucket, region)|] == UrlPrefix(bucket, region)
    ensures url[|UrlPrefix(bucket, region)|..] == key
  {
    UrlPrefix(bucket, region) + key
  }

  /** Different keys in one bucket never share a URL. */
  lemma ObjectUrlNamesKey(bucket: string, region: string, key: string, other: string)
    ensures ObjectUrl(bucket, region, key) == ObjectUrl(bucket, region, other) ==> key == other
  {
  }

  /** A freshly generated UUID: no stored key starts with it. */
  ghost predicate FreshName(uuid: string, keys: set<string>) {
    forall k :: k in keys ==> !(uuid <= k)
  }

  /** Keys built from a fresh UUID are new to the store. */
  lemma FreshKeysAreNew(uuid: string, keys: set<string>, originalFilename: string, extension: string)
    requires FreshName(uuid, keys)
    ensures UploadKey(uuid, originalFilename) !in keys
    ensures TransformKey(uuid, extension) !in keys
  {
  }

  /** The repository and the bucket agree: every record is stored under its
      own id, which the repository has already handed out; every record's
      object exists; no two records share an object. */
  ghost predicate Consistent(records: map<nat, Images>, blobs: map<string, seq<bv8>>, nextId: nat) {
    && (forall i :: i in records ==> records[i].id == i && i < nextId)
    && (forall i :: i in records ==> records[i].fileName in blobs)
    && (forall i, j :: i in records && j in records && records[i].fileName == records[j].fileName ==> i == j)
  }

  /** Saving a new record together with its object under a new key keeps the stores consistent. */
  lemma SaveKeepsConsistent(records: map<nat, Images>, blobs: map<string, seq<bv8>>, nextId: nat,
                            image: Images, content: seq<bv8>)
    requires Consistent(records, blobs, nextId)
    requires image.id == nextId && image.fileName !in blobs
    ensures Consistent(records[nextId := image], blobs[image.fileName := content], nextId + 1)
  {
  }

  /** Removing a record together with its object keeps the stores consistent. */
  lemma DeleteKeepsConsistent(records: map<nat, Images>, blobs: map<string, seq<bv8>>, nextId: nat, id: nat)
    requires Consistent(records, blobs, nextId) && id in records
    ensures Consistent(records - {id}, blobs - {records[id].fileName}, nextId)
  {
  }

  class ImageProcessingService {
    const bucketName: string
    const bucketRegion: string
    /** The ids of the user repository (read only here). */
    const userIds: set<int>
    /** `IJ.save`: encodes a raster in the format named by a file extension. */
    const saveAs: (Raster, string) -> seq<bv8>

    /** The S3 bucket: object key to content. */
    var blobs: map<string, seq<bv8>>
    /** The images repository: id to record. */
    var records: map<nat, Images>
    /** The id the repository gives the next record it saves. */
    var nextId: nat

    ghost predicate Valid()
      reads this
    {
      Consistent(records, blobs, nextId)
    }

    constructor (bucketName: string, bucketRegion: string, userIds: set<int>, saveAs: (Raster, string) -> seq<bv8>)
      ensures Valid()
      ensures this.bucketName == bucketName && this.bucketRegion == bucketRegion
      ensures this.userIds == userIds && this.saveAs == saveAs
      ensures blobs == map[] && records == map[] && nextId == 0
    {
      this.bucketName := bucketName;
      this.bucketRegion := bucketRegion;
      this.userIds := userIds;
      this.saveAs := saveAs;
      blobs := map[];
      records := map[];
      nextId := 0;
    }

    /** `getImageData`: the stored record, with no authentication or ownership
        check; a missing id is an `IllegalArgumentException`. */
    function GetImageData(id: nat): (r: Result<Images>)
      reads this
      ensures r.Ok? <==> id in records
      ensures r.Ok? ==> r.value == records[id]
      ensures r.Err? ==> r.error == IllegalArgument(Some("Image not found"))
      ensures Valid() && r.Ok? ==> r.value.id == id && r.value.fileName in blobs
    {
      if id in records then Ok(records[id]) else Err(IllegalArgument(Some("Image not found")))
    }

    /** `uploadImage`: after the authentication and user checks, writes one
        object under a new key and saves one record owned by the caller. */
    method UploadImage(file: MultipartFile, auth: Option<Authentication>, uuid: string,
                       createdAt: Timestamp, updatedAt: Timestamp)
      returns (r: Result<UploadResponse>)
      requires Valid()
      requires FreshName(uuid, blobs.Keys)
      modifies this
      ensures Valid()
      ensures !IsAuthenticated(auth) ==> r == Err(Security(Some("User is not authenticated")))
      ensures IsAuthenticated(auth) && auth.value.credentials !in userIds ==> r == Err(Security(Some("User not found")))
      ensures r.Ok? <==> IsAuthenticated(auth) && auth.value.credentials in userIds
      ensures r.Err? ==> unchanged(this)
      ensures r.Ok? ==>
        var key := UploadKey(uuid, file.originalFilename);
        var url := ObjectUrl(bucketName, bucketRegion, key);
        && key !in old(blobs)
        && blobs == old(blobs)[key := file.bytes]
        && nextId == old(nextId) + 1
        && records == old(records)[old(nextId) := Images(old(nextId), auth.value.credentials, url, key,
                                                         file.contentType, |file.bytes|,
                                                         Extension(file.originalFilename), createdAt, updatedAt)]
        && r.value == UploadResponse(old(nextId), key, url, file.contentType, |file.bytes|)
        && GetImageData(old(nextId)) == Ok(records[old(nextId)])
    {
      if auth.None? || !auth.value.authenticated {
        return Err(Security(Some("User is not authenticated")));
      }
      var userId := auth.value.credentials;
      if userId !in userIds {
        return Err(Security(Some("User not found")));
      }

      var fileName := UploadKey(uuid, file.originalFilename);
      var fileExtension := Extension(file.originalFilename);
      FreshKeysAreNew(uuid, blobs.Keys, file.originalFilename, "");
      var fileUrl := ObjectUrl(bucketName, bucketRegion, fileName);
      var uploadedImage := Images(nextId, userId, fileUrl, fileName, file.contentType, |file.bytes|,
                                  fileExtension, createdAt, updatedAt);
      SaveKeepsConsistent(records, blobs, nextId, uploadedImage, file.bytes);

      blobs := blobs[fileName := file.bytes];
      records := records[nextId := uploadedImage];
      nextId := nextId + 1;

      r := Ok(UploadResponse(uploadedImage.id, fileName, fileUrl, file.contentType, |file.bytes|));
    }

    /** `deleteImage`: authentication first, then existence, then ownership;
        on success the record's object and then the record are removed. */
    method DeleteImage(id: nat, auth: Option<Authentication>) returns (r: Result<()>)
      requires Valid()
      modifies this
      ensures Valid()
      ensures !IsAuthenticated(auth) ==> r == Err(Security(Some("User is not authenticated")))
      ensures IsAuthenticated(auth) && id !in old(records) ==> r == Err(IllegalArgument(Some("Image not found")))
      ensures IsAuthenticated(auth) && id in old(records) && old(records[id]).userId != auth.value.credentials ==>
                r == Err(Security(Some("User is not authorized to delete this image")))
      ensures r.Ok? <==> IsAuthenticated(auth) && id in old(records) && old(records[id]).userId == auth.value.credentials
      ensures r.Err? ==> unchanged(this)
      ensures r.Ok? ==>
        && blobs == old(blobs) - {old(records[id]).fileName}
        && records == old(records) - {id}
        && nextId == old(nextId)
        && GetImageData(id) == Err(IllegalArgument(Some("Image not found")))
    {
      if auth.None? || !auth.value.authenticated {
        return Err(Security(Some("User is not authenticated")));
      }
      var userId := auth.value.credentials;
      if id !in records {
        return Err(IllegalArgument(Some("Image not found")));
      }
      var image := records[id];
      if image.userId != userId {
        return Err(Security(Some("User is not authorized to delete this image")));
      }

      DeleteKeepsConsistent(records, blobs, nextId, id);
      blobs := blobs - {image.fileName};
      records := records - {id};
      r := Ok(());
    }

    /** `transformImage`: after the authentication, existence and ownership
        checks, runs the selected ImageJ operations on the stored object,
        encodes the result and stores it as a new object with a new record
        owned by the caller; the source object and record stay as they were. */
    method TransformImage(id: nat, req: TransformRequest, auth: Option<Authentication>, uuid: string,
                          createdAt: Timestamp, updatedAt: Timestamp)
      returns (r: Result<Images>)
      requires Valid()
      requires FreshName(uuid, blobs.Keys)
      modifies this
      ensures Valid()
      ensures !IsAuthenticated(auth) ==> r == Err(Security(Some("User is not authenticated")))
      ensures IsAuthenticated(auth) && id !in old(records) ==> r == Err(IllegalArgument(Some("Image not found")))
      ensures IsAuthenticated(auth) && id in old(records) && old(records[id]).userId != auth.value.credentials ==>
                r == Err(Security(Some("User is not authorized to transform this image")))
      ensures r.Ok? <==> IsAuthenticated(auth) && id in old(records) && old(records[id]).userId == auth.value.credentials
      ensures r.Err? ==> unchanged(this)
      ensures r.Ok? ==>
        var source := old(records[id]);
        var ext := OutputExtension(req, source.fileExtension);
        var key := TransformKey(uuid, ext);
        var output := saveAs(ApplySteps(Opened(old(blobs[source.fileName]), source.fileExtension), SelectedSteps(req)), ext);
        && key !in old(blobs)
        && blobs == old(blobs)[key := output]
        && nextId == old(nextId) + 1
        && records == old(records)[old(nextId) := Images(old(nextId), auth.value.credentials,
                                                         ObjectUrl(bucketName, bucketRegion, key), key,
                                                         "image/" + ext, |output|, ext, createdAt, updatedAt)]
        && r.value == records[old(nextId)]
        && records[id] == source
        && blobs[source.fileName] == old(blobs[source.fileName])
    {
      if auth.None? || !auth.value.authenticated {
        return Err(Security(Some("User is not authenticated")));
      }
      var userId := auth.value.credentials;
      if id !in records {
        return Err(IllegalArgument(Some("Image not found")));
      }
      var image := records[id];
      if image.userId != userId {
        return Err(Security(Some("User is not authorized to transform this image")));
      }

      // download the object into a temp file named "image<random>." + extension and open it with ImageJ
      var downloaded := blobs[image.fileName];
      var processor := RunPipeline(Opened(downloaded, image.fileExtension), req);

      var ext := OutputExtension(req, image.fileExtension);
      var transformedFileName := TransformKey(uuid, ext);
      var output := saveAs(processor, ext);
      FreshKeysAreNew(uuid, blobs.Keys, "", ext);
      var transformedImage := Images(nextId, userId, ObjectUrl(bucketName, bucketRegion, transformedFileName),
                                     transformedFileName, "image/" + ext, |output|, ext, createdAt, updatedAt);
      SaveKeepsConsistent(records, blobs, nextId, transformedImage, output);

      blobs := blobs[transformedFileName := output];
      records := records[nextId := transformedImage];
      nextId := nextId + 1;

      r := Ok(transformedImage);
    }
  }

  /** The same owner transforming the same image twice with the same request
      gets two distinct records and objects holding identical bytes. */
  method TransformTwice(service: ImageProcessingService, id: nat, req: TransformRequest, auth: Option<Authentication>,
                        uuid1: string, uuid2: string, t: Timestamp)
    returns (first: Result<Images>, second: Result<Images>)
    requires service.Valid()
    requires FreshName(uuid1, service.blobs.Keys) && FreshName(uuid2, service.blobs.Keys)
    requires |uuid1| == |uuid2| && uuid1 != uuid2
    modifies service
    ensures first.Ok? <==> second.Ok?
    ensures first.Ok? ==>
      && first.value.id != second.value.id
      && first.value.fileName != second.value.fileName
      && first.value.fileName in service.blobs && second.value.fileName in service.blobs
      && service.blobs[first.value.fileName] == service.blobs[second.value.fileName]
  {
    first := service.TransformImage(id, req, auth, uuid1, t, t);
    if first.Err? {
      second := first;
      return;
    }
    assert !(uuid2 <= first.value.fileName);
    second := service.TransformImage(id, req, auth, uuid2, t, t);
  }

  /** Two UUIDs of one length that differ: a key built from one never starts with the other. */
  lemma DistinctUuids(uuid: string, other: string, rest: string)
    requires |uuid| == |other| && uuid != other
    ensures !(other <= uuid + rest)
  {
  }

  /** The owner uploads "cat.png". */
  method UploadCat(service: ImageProcessingService, owner: int, bytes: seq<bv8>, uuid: string, t: Timestamp)
    returns (original: Images)
    requires service.Valid()
    requires owner in service.userIds
    requires FreshName(uuid, service.blobs.Keys)
    modifies service
    ensures service.Valid()
    ensures original.id in service.records && service.records[original.id] == original
    ensures original.userId == owner && original.fileName == UploadKey(uuid, "cat.png") && original.fileExtension == "png"
    ensures service.blobs[original.fileName] == bytes
    ensures service.blobs.Keys == old(service.blobs.Keys) + {original.fileName}
  {
    var uploaded := service.UploadImage(MultipartFile("cat.png", "image/png", bytes), Some(Authentication(true, owner)), uuid, t, t);
    original := service.records[uploaded.value.imageId];
    assert LastIndexOf("cat.png", '.') == 3;
  }

  /** The first half of the life of one image: its owner uploads "cat.png",
      then transforms it (resize to 100 by 100, sepia). */
  method UploadAndTransform(service: ImageProcessingService, owner: int, bytes: seq<bv8>,
                            uuid1: string, uuid2: string, t: Timestamp)
    returns (original: Images, copy: Images)
    requires service.Valid()
    requires owner in service.userIds
    requires FreshName(uuid1, service.blobs.Keys) && FreshName(uuid2, service.blobs.Keys)
    requires |uuid1| == |uuid2| && uuid1 != uuid2
    modifies service
    ensures service.Valid()
    ensures original.id in service.records && service.records[original.id] == original
    ensures copy.id in service.records && service.records[copy.id] == copy
    ensures original.id != copy.id && original.userId == owner && copy.userId == owner
    ensures original.fileName == UploadKey(uuid1, "cat.png") && original.fileExtension == "png"
    ensures copy.fileName == TransformKey(uuid2, "png")
    ensures service.blobs[copy.fileName] == service.saveAs(Applied(Opened(bytes, "png"), Resize(100, 100)), "png")
    ensures service.blobs.Keys == old(service.blobs.Keys) + {original.fileName, copy.fileName}
  {
    original := UploadCat(service, owner, bytes, uuid1, t);
    DistinctUuids(uuid1, uuid2, "_cat.png");
    var req := TransformRequest(Some(ResizeSpec(Some(100), Some(100))), None, None, None,
                                Some(FilterSpec(None, Some(true))));
    var transformed := service.TransformImage(original.id, req, Some(Authentication(true, owner)), uuid2, t, t);
    copy := transformed.value;
  }

  /** The life of one image: after the upload and the transform, the owner
      deletes the original, and then another user tries to transform the copy. */
  method Lifecycle(service: ImageProcessingService, owner: int, stranger: int, bytes: seq<bv8>,
                   uuid1: string, uuid2: string, uuid3: string, t: Timestamp)
    requires service.Valid()
    requires owner in service.userIds && stranger != owner
    requires FreshName(uuid1, service.blobs.Keys) && FreshName(uuid2, service.blobs.Keys) && FreshName(uuid3, service.blobs.Keys)
    requires |uuid1| == |uuid2| == |uuid3| && uuid1 != uuid2 && uuid2 != uuid3 && uuid1 != uuid3
    modifies service
  {
    var original, copy := UploadAndTransform(service, owner, bytes, uuid1, uuid2, t);
    assert service.GetImageData(original.id) == Ok(original);

    var deleted := service.DeleteImage(original.id, Some(Authentication(true, owner)));
    assert deleted.Ok?;
    assert service.GetImageData(original.id).Err?;

    DistinctUuids(uuid1, uuid3, "_cat.png");
    DistinctUuids(uuid2, uuid3, ".png");
    var before := service.records;
    var req := TransformRequest(None, None, Some(90), None, None);
    var refused := service.TransformImage(copy.id, req, Some(Authentication(true, stranger)), uuid3, t, t);
    assert refused == Err(Security(Some("User is not authorized to transform this image")));
    assert service.records == before;
  }
}
