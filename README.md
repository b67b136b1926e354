# Image processing service: a Dafny model of its decision core

This project models three pieces of a Spring image service and proves what
they do.

- **`ImageProcessingService`** is modelled in `image_service.dfy` and `transform_pipeline.dfy`. It is a class over two stores:
  - `blobs` is the S3 bucket, a map from object key to bytes;
  - `records` is the images repository, a map from id to an `Images` record, with the fields of `entities/Images.java`. `nextId` is the id the repository hands out on the next save.

  The four operations each check their guards in the source's order and then change the stores:
  - `UploadImage`: authentication, then the user lookup, then one object put, then one record save;
  - `GetImageData`: a plain read with no authentication;
  - `DeleteImage`: authentication, then existence, then ownership, then the object delete and the record delete;
  - `TransformImage`: the delete's three checks, then the ImageJ pipeline, then one new object and one new record.

  The class invariant `Valid` says four things: every record is stored under its own id; every id is below `nextId`, so the next id is fresh; every record's object exists; no two records share an object. Every operation keeps it.
- **The transformation pipeline** decides which ImageJ operations run, with which arguments and in what order. ImageJ itself is uninterpreted. A `Raster` is a term that records how the image was obtained: the bytes and the temp file's extension it was opened from, then the operations applied to it. The encoder `IJ.save` is a function constant `saveAs`.
- **`AuthenticationService`** is modelled in `auth_service.dfy` as a class over a username → `User` map. `Register` and `UpdatePassword` change the map. `Login` and `ValidateToken` are pure decisions over the abstract password encoder, JWT service and AuthenticationManager.
- **`AuthController`** is modelled in `auth_controller.dfy` as pure functions. Each one maps a service outcome (a value or an exception) to a status, headers and body. The module also holds the JWT shape test (exactly two dots) and the stripping of `Bearer `.

Java's exceptions are the constructors of `Base.Exception`, each with a message that may be null, and a call's outcome is a `Base.Result`. The principal is `Option<Authentication>`, where `None` is a null `Authentication`. The UUID and the clock readings are arguments.

Client methods exercise the model:
- `ImageService.UploadCat` uploads "cat.png", and `ImageService.UploadAndTransform` then resizes it with sepia requested; each states the records and objects it leaves behind;
- `ImageService.Lifecycle` has requires clauses but no ensures. It continues with the delete of the original and a refused transform of the copy by a non-owner, asserting each outcome on the way;
- `ImageService.TransformTwice` has a contract: repeating a transform gives two distinct records whose objects hold identical bytes.

Several facts about the code shape the model:
- the sepia branch at `ImageProcessingService.java:194-197` is empty, so sepia does nothing: `TransformPipeline.SepiaHasNoEffect` proves it for every request, and `ImageService.UploadAndTransform` states that a resize with sepia requested stores the resized image only;
- the code has no crop-bounds or dimension validation;
- there is no separate converter and the format is never checked. It becomes the saved file's extension, from which `IJ.save` picks the encoder (the second argument of `saveAs`). It also becomes the object's content type and the record's type and extension (`:209`, `:217`, `:219`);
- the temp files created at `:151` and written by `IJ.save` at `:203` are never deleted;
- a missing image is an `IllegalArgumentException("Image not found")`.

The code's own behaviour has one consequence worth noting. A whitespace-only new password passes the controller's emptiness check. The service then refuses it, so the client gets a 500 rather than a 400 (`AuthController.WhitespacePasswordReachesService`).

## Model

| member | source | states |
|---|---|---|
| `TransformPipeline.Source` | src/main/java/com/imageprocessing/service/ImageProcessingService.java:155 | the raster ImageJ opened from a file, before any operation (pinned down by `SourceAndTrace`) |
| `TransformPipeline.ApplySteps` | src/main/java/com/imageprocessing/service/ImageProcessingService.java:164-191 | the working processor replaced by the result of each operation in turn (characterised by `ApplyStepsTrace`, `ApplyStepsConcat` and `SourceAndTrace`) |
| `TransformPipeline.SourceAndTrace` | src/main/java/com/imageprocessing/service/ImageProcessingService.java:155-191 | every raster is the raster ImageJ opened with its history of operations applied to it |
| `TransformPipeline.ResizeStep` | src/main/java/com/imageprocessing/service/ImageProcessingService.java:159-166 | resize runs only when the "resize" map has both a width and a height (stated by `SelectedStepsExact`) |
| `TransformPipeline.CropStep` | src/main/java/com/imageprocessing/service/ImageProcessingService.java:168-178 | crop runs only when the "crop" map has x, y, width and height (stated by `SelectedStepsExact`) |
| `TransformPipeline.RotateStep` | src/main/java/com/imageprocessing/service/ImageProcessingService.java:180-183 | rotate runs whenever "rotate" is present (stated by `SelectedStepsExact`) |
| `TransformPipeline.GrayscaleStep` | src/main/java/com/imageprocessing/service/ImageProcessingService.java:187-198 | grayscale runs only when filters.grayscale is true; sepia selects nothing (stated by `SelectedStepsExact` and `SepiaHasNoEffect`) |
| `TransformPipeline.SelectedSteps` | src/main/java/com/imageprocessing/service/ImageProcessingService.java:158-198 | the operations a request selects, in the order the code applies them (stated by `SelectedStepsOrdered` and `SelectedStepsExact`) |
| `TransformPipeline.OutputExtension` | src/main/java/com/imageprocessing/service/ImageProcessingService.java:201 | the requested format when there is one, else the source image's extension; it names the key, type and extension at :201, :209, :217 and :219 (used in `TransformImage`'s contract) |
| `TransformPipeline.RunPipeline` | src/main/java/com/imageprocessing/service/ImageProcessingService.java:155-198 | the working processor, replaced step by step, ends as the opened image with exactly the selected operations applied in order; its history is those operations and it goes back to the opened file |
| `TransformPipeline.ApplyStepsTrace` | src/main/java/com/imageprocessing/service/ImageProcessingService.java:156-198 | applying a list of operations appends exactly that list to a raster's history and keeps the file it was opened from (which `SourceAndTrace` ties to the raster) |
| `TransformPipeline.ApplyStepsConcat` | src/main/java/com/imageprocessing/service/ImageProcessingService.java:156-198 | applying operations one after another equals applying their concatenation |
| `TransformPipeline.SelectedStepsOrdered` | src/main/java/com/imageprocessing/service/ImageProcessingService.java:159-198 | at most four operations are selected, and they come in the fixed order resize, crop, rotate, grayscale |
| `TransformPipeline.SelectedStepsExact` | src/main/java/com/imageprocessing/service/ImageProcessingService.java:159-192 | resize(w,h) runs iff both width and height are given; crop iff x, y, width and height all are; rotate(d) iff rotate is d; grayscale iff filters.grayscale is true |
| `TransformPipeline.SepiaHasNoEffect` | src/main/java/com/imageprocessing/service/ImageProcessingService.java:194-197 | whatever the sepia flag says, the selected operations and the resulting image are the same |
| `TransformPipeline.EmptyRequestIsIdentity` | src/main/java/com/imageprocessing/service/ImageProcessingService.java:158-198 | a request with none of resize, crop, rotate or filters leaves the opened image unchanged |
| `ImageService.LastIndexOf` | src/main/java/com/imageprocessing/service/ImageProcessingService.java:58 | the result is -1 or an index holding the character, and no later index holds it |
| `ImageService.Extension` | src/main/java/com/imageprocessing/service/ImageProcessingService.java:58 | the extension is a dot-free suffix of the name; it is preceded by a dot when the name has one, and it is the whole name otherwise |
| `ImageService.IsAuthenticated` | src/main/java/com/imageprocessing/service/ImageProcessingService.java:49 | a principal passes exactly when it is non-null and authenticated; the same test opens delete (:113) and transform (:138), as their contracts state |
| `ImageService.UploadKey` | src/main/java/com/imageprocessing/service/ImageProcessingService.java:57 | the upload key is the UUID, "_" and the original file name (split back by `KeysNameTheirParts`) |
| `ImageService.TransformKey` | src/main/java/com/imageprocessing/service/ImageProcessingService.java:201 | the transform key is the UUID, "." and the output extension (split back by `KeysNameTheirParts`) |
| `ImageService.KeysNameTheirParts` | src/main/java/com/imageprocessing/service/ImageProcessingService.java:57 | an upload key splits back into the UUID, "_" and the file name; a transform key into the UUID, "." and the extension |
| `ImageService.ObjectUrl` | src/main/java/com/imageprocessing/service/ImageProcessingService.java:69 | the URL is the bucket's https prefix followed by exactly the key |
| `ImageService.ObjectUrlNamesKey` | src/main/java/com/imageprocessing/service/ImageProcessingService.java:69 | two different keys in one bucket never share a URL |
| `ImageService.FreshKeysAreNew` | src/main/java/com/imageprocessing/service/ImageProcessingService.java:57 | an upload key (uuid + "_" + name) or a transform key (uuid + "." + extension) built from a fresh UUID is not yet in the bucket |
| `ImageService.DistinctUuids` | src/main/java/com/imageprocessing/service/ImageProcessingService.java:201 | a key built from one UUID never starts with a different UUID of the same length |
| `ImageService.ImageProcessingService.constructor` | src/main/java/com/imageprocessing/service/ImageProcessingService.java:36-46 | the service starts with an empty bucket and repository, its configuration stored, and the invariant holding |
| `ImageService.ImageProcessingService.GetImageData` | src/main/java/com/imageprocessing/service/ImageProcessingService.java:94-110 | a present id yields its record without any authentication check, and under the invariant that record carries the id and has an object; a missing id yields IllegalArgumentException("Image not found") |
| `ImageService.ImageProcessingService.UploadImage` | src/main/java/com/imageprocessing/service/ImageProcessingService.java:48-92 | a null or unauthenticated principal, and then an unknown user id, give a SecurityException and change nothing; otherwise exactly one object is put under uuid_name and one record saved with the caller as owner, the key as fileName, the derived extension and URL; the record is readable afterwards and the invariant holds |
| `ImageService.ImageProcessingService.DeleteImage` | src/main/java/com/imageprocessing/service/ImageProcessingService.java:112-135 | the checks run in the order authentication, existence (IllegalArgumentException), ownership (SecurityException), and any failure changes nothing; success removes exactly the record's object and the record, after which reading the id fails |
| `ImageService.ImageProcessingService.TransformImage` | src/main/java/com/imageprocessing/service/ImageProcessingService.java:137-240 | the checks run in the same order as delete's, and any failure changes nothing; success adds exactly one object under uuid.ext: the encoding of the selected operations applied to the image opened from the source's bytes with the source's extension, and one record owned by the caller with type image/ext, where ext is the format or else the source extension; the source record and object are unchanged |
| `ImageService.UploadCat` | src/main/java/com/imageprocessing/service/ImageProcessingService.java:48-92 | the owner's upload of "cat.png" leaves one new record owned by them, with extension "png" and the key uuid_cat.png, whose object holds the uploaded bytes |
| `ImageService.UploadAndTransform` | src/main/java/com/imageprocessing/service/ImageProcessingService.java:137-240 | after the upload, a resize to 100 by 100 with sepia requested gives a second record owned by the same user, keyed uuid.png, whose object is the encoding of the opened image resized and nothing else |
| `ImageService.TransformTwice` | src/main/java/com/imageprocessing/service/ImageProcessingService.java:201-225 | two identical transforms by the owner give records with different ids and keys whose objects hold identical bytes |
| `AuthService.Trim` | src/main/java/com/imageprocessing/service/AuthenticationService.java:68 | Java's `trim()`: drops leading and trailing characters up to U+0020 (characterised by `TrimEmptyIff`) |
| `AuthService.IsBlank` | src/main/java/com/imageprocessing/service/AuthenticationService.java:68 | a null password, or one that trims to nothing, is blank (characterised through `TrimEmptyIff` in `UpdatedUserDecision`) |
| `AuthService.UpdatedUser` | src/main/java/com/imageprocessing/service/AuthenticationService.java:64-73 | the outcome of a password change on a user table: the saved user or the thrown exception (characterised by `UpdatedUserDecision`) |
| `AuthService.TrimEmptyIff` | src/main/java/com/imageprocessing/service/AuthenticationService.java:68 | `trim()` gives the empty string exactly when every character is at most U+0020 |
| `AuthService.UpdatedUserDecision` | src/main/java/com/imageprocessing/service/AuthenticationService.java:64-73 | an unknown user gives UsernameNotFoundException whatever the password; a known user with a null or whitespace-only password gives IllegalArgumentException; success happens iff the user exists and the password has a non-whitespace character, and it changes only the password, to its encoding |
| `AuthService.AuthenticationService.constructor` | src/main/java/com/imageprocessing/service/AuthenticationService.java:18-22 | the service starts with an empty user table, its collaborators stored, and the invariant holding |
| `AuthService.AuthenticationService.Register` | src/main/java/com/imageprocessing/service/AuthenticationService.java:24-34 | a taken username gives IllegalArgumentException and saves nothing; otherwise exactly one user (a new id, the username, the encoded password) is saved and its generated token returned; ids stay unique |
| `Base.IsAuthenticationException` | src/main/java/com/imageprocessing/service/AuthenticationService.java:48 | the exceptions the `catch (AuthenticationException e)` converts: Spring's UsernameNotFoundException and the manager's other AuthenticationExceptions (used in `Login`'s contract) |
| `AuthService.AuthenticationService.Login` | src/main/java/com/imageprocessing/service/AuthenticationService.java:36-51 | a token is returned iff the authentication manager accepts and the user exists, and it is the token generated for that user; an AuthenticationException becomes IllegalArgumentException("Invalid username or password"); other exceptions pass through, including the empty `orElseThrow()` |
| `AuthService.AuthenticationService.ValidateToken` | src/main/java/com/imageprocessing/service/AuthenticationService.java:53-62 | no extracted username, or an unregistered one, gives false; a registered one gives the JWT service's verdict for that user; true only for a registered user whose token the JWT service accepts |
| `AuthService.AuthenticationService.UpdatePassword` | src/main/java/com/imageprocessing/service/AuthenticationService.java:64-75 | the outcome and the new user table are those of `UpdatedUser`: any failure stores nothing, and success replaces only that user's entry |
| `AuthController.DotCount` | src/main/java/com/imageprocessing/controller/AuthController.java:29 | the number of dots in a string, at most its length |
| `AuthController.IsWellFormedJwt` | src/main/java/com/imageprocessing/controller/AuthController.java:29 | the token shape test, exactly two dots (characterised by `WellFormedFromSegments` and `WellFormedSegments`) |
| `AuthController.DotCountConcat` | src/main/java/com/imageprocessing/controller/AuthController.java:29 | the dot count of a concatenation is the sum of the dot counts |
| `AuthController.DotCountZero` | src/main/java/com/imageprocessing/controller/AuthController.java:48 | a string has dot count zero iff it has no dot |
| `AuthController.FirstDot` | src/main/java/com/imageprocessing/controller/AuthController.java:29 | a string with a dot has a first one, with no dot before it |
| `AuthController.WellFormedFromSegments` | src/main/java/com/imageprocessing/controller/AuthController.java:29 | three dot-free segments joined by dots pass the token shape test |
| `AuthController.WellFormedSegments` | src/main/java/com/imageprocessing/controller/AuthController.java:48 | every token that passes the shape test is three dot-free segments joined by dots |
| `AuthController.Register` | src/main/java/com/imageprocessing/controller/AuthController.java:24-41 | 200 with the token as body and an `Authorization: Bearer <jwt>` header iff the service returns a well-formed token; a malformed token gives 400 "Invalid JWT token"; an IllegalArgumentException gives 400 with its message, and no body when the message is null; other exceptions escape the handler |
| `AuthController.MessageBody` | src/main/java/com/imageprocessing/controller/AuthController.java:39 | a message becomes a text body, and a null one no body |
| `AuthController.Login` | src/main/java/com/imageprocessing/controller/AuthController.java:43-63 | 200 with token and Bearer header iff the token is well formed; 401 "Invalid username or password" exactly for a malformed token or an IllegalArgumentException; any other exception gives 500 |
| `AuthController.AuthorizationHeader` | src/main/java/com/imageprocessing/controller/AuthController.java:34-35 | the `Authorization: Bearer <jwt>` header that register and login send, also at :53-54 (used in `Register`'s and `Login`'s contracts and in `BearerRoundTrip`) |
| `AuthController.StripBearer` | src/main/java/com/imageprocessing/controller/AuthController.java:69-71 | a header starting with "Bearer " loses exactly that prefix, and any other header passes unchanged |
| `AuthController.BearerRoundTrip` | src/main/java/com/imageprocessing/controller/AuthController.java:69-70 | the Authorization header that register and login send strips back to the token |
| `AuthController.ValidateToken` | src/main/java/com/imageprocessing/controller/AuthController.java:65-84 | 200 {valid: true} iff the service says true for the stripped token; false gives 401 {valid: false}; an exception with a message gives 401 {valid: false, error: message}; an exception with a null message makes `Map.of` throw a NullPointerException that escapes the handler, and only then does the handler not return 200 or 401 |
| `AuthController.UpdatePassword` | src/main/java/com/imageprocessing/controller/AuthController.java:86-105 | a null or empty new password gives 400 "New password is required", whatever the service would do; otherwise service success gives 200 and a service exception gives 500 with its message, written "null" when the message is null |
| `AuthController.PasswordService` | src/main/java/com/imageprocessing/controller/AuthController.java:98 | the call `authService.updatePassword(username, newPassword)` as a function of the new password, with `UpdatedUser`'s outcome (used in `WhitespacePasswordReachesService`) |
| `AuthController.UpdateFailureText` | src/main/java/com/imageprocessing/controller/AuthController.java:103 | the failure text is the fixed prefix followed by the message, or by "null" for a null message |
| `AuthController.WhitespacePasswordReachesService` | src/main/java/com/imageprocessing/controller/AuthController.java:93-103 | a non-empty whitespace-only password gets past the controller and ends in a 500; the message is the blank-password one for a known user and user-not-found for an unknown one |

## Left out

- Pixel work: ImageJ's open, resize, crop, rotate, convertToByte and save are uninterpreted. The model proves only which of them run, with which arguments and in what order. A source that ImageJ cannot open, where `openImage` returns null and the next call fails, is not modelled.
- `ImageService.ImageProcessingService.TransformImage`: every ImageJ operation and `IJ.save` is assumed to succeed. The code passes the request's values to ImageJ unchecked: the resize size (`ImageProcessingService.java:164`), the crop rectangle (:175-176), the angle (:182) and the format (:201, :203). A run-time failure there, or a save that writes no file for `RequestBody.fromFile` at :211 to read, ends the call after the guards with nothing stored. So "success iff the guards pass" holds only under this assumption.
- `ImageService.ImageProcessingService.DeleteImage`, `UploadImage` and `TransformImage`: every S3 and repository call is assumed to succeed. Each operation writes in two independent steps: the object put and then the record save (`ImageProcessingService.java:66` then :82, and :211 then :225), and the object delete and then the record delete (:131 then :134). A failure of the second step leaves an orphaned object without a record after upload or transform, or a record whose object is gone after delete. `Valid` rules the second state out, so the model does not represent either half-done state.
- Temporary files: the temp file that `transformImage` downloads into and the transformed file it writes are never deleted, and the model has no notion of them.
- S3 and I/O: the client mechanics, multipart streams and every `IOException` path are left out. The bucket keeps bytes per key but not the object's content type.
- `ImageService.ImageProcessingService.UploadImage`: the UUID is an argument that no stored key starts with. A colliding UUID, which would overwrite an object in S3, is not modelled.
- `ImageService.ImageProcessingService.TransformImage`: the same fresh-UUID assumption applies to the transformed object's key.
- Ids: `Long.valueOf(id)` on the path string, and its `NumberFormatException`, are left out. Ids are natural numbers.
- The response maps: they are records, not string maps. The decimal rendering of ids and sizes is not modelled.
- Casts: the runtime `ClassCastException`s of the credential cast and of the untyped request map are left out. The principal is `{authenticated, credentials}`, and the request has typed optional fields; unknown keys are ignored.
- Clocks: each `LocalDateTime.now()` reading is an opaque timestamp argument.
- Persistence: `@Transactional` rollback is left out. Repository ids come from a counter that is fresh on each save.
- The two user tables: `ImageProcessingService` sees the user repository only as a set of ids. That set is not tied to `AuthenticationService`'s username table.
- `AuthService.AuthenticationService.Register`: the password encoder and `generateToken` are assumed not to throw. The class is not transactional and `repository.save(user)` at `AuthenticationService.java:32` runs before `generateToken` at :33. A throw there would leave the user saved while `register` throws, an outcome the model cannot express.
- Usernames: the user table is a map compared by exact string equality. The repository's `findByUsername` (`AuthenticationService.java:25`, :44, :56, :65) compares with the database column's collation, and case or accent folding there is not modelled. Under a case-insensitive collation, "Alice" after "alice" is refused as taken by the code but saved by the model, and login, token validation and password change find users that the model does not.
- Auth collaborators: JWT generation and parsing, the password encoder and the AuthenticationManager are uninterpreted function constants.
- The security context: the username is bound into the service call that `AuthController.UpdatePassword` receives. A missing authentication in the context, whose null dereference would give a 500, is not modelled.
- Null fields: a null username or password in the register and login request bodies is not modelled. Nor is a null `file.getContentType()`, which `uploadImage` would store as the record's fileType (`ImageProcessingService.java:74`); the content type is a string.
- Concurrency: every operation is atomic and runs alone. Two concurrent registrations of one username can both pass the check at `AuthenticationService.java:25` and both save; the username-keyed map cannot represent that. A delete racing an in-flight transform of the same image is not modelled either.
- Existing stores: both services start from an empty store, and every operation requires the invariant. A bucket or table that already holds data breaking it is not modelled. For example, a record whose object is missing would make `getObject` at `ImageProcessingService.java:152` throw.
- `ImageService.ImageProcessingService.UploadImage`: a null `getOriginalFilename()` is not modelled. It throws a NullPointerException at `ImageProcessingService.java:58`, after the user check and before anything is written.
- Other controllers: `ImageProcessingController` only delegates, and `ImageController` is stubs. Both are left out, and so are logging and CORS.
