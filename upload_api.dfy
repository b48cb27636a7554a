/**
 * `POST /api/upload-image` of app/api/upload-image/route.ts: three checks in
 * a fixed order, then a storage key built from the file name, then one
 * call to the object store. The session, the clock, the random suffix and
 * the object store are inputs.
 */
module UploadApi {
  import opened Wrappers
  import opened Strings

  /** A browser `File`: its name and its declared MIME type. */
  datatype File = File(name: string, contentType: string)

  datatype UploadBody = Url(url: string) | Failure(error: string)

  /**
   * The response, and the storage key the handler asked the object store
   * to write (`None` when it returned before reaching the store).
   */
  datatype UploadResponse = UploadResponse(status: int, body: UploadBody, storedAt: Option<string>)

  /** `fileName.split('.').pop()`. */
  function Extension(fileName: string): (ext: string)
    ensures '.' !in ext
    ensures EndsWith(fileName, ext)
    ensures |ext| < |fileName| ==> fileName[|fileName| - |ext| - 1] == '.'
    ensures '.' !in fileName ==> ext == fileName
  {
    var parts := Split(fileName, '.');
    var ext := parts[|parts| - 1];
    if |parts| == 1 then
      ext
    else
      JoinLast(parts, '.');
      var front := Join(parts[..|parts| - 1], '.');
      assert fileName == front + ['.'] + ext;
      assert fileName[|fileName| - |ext| - 1] == '.';
      ext
  }

  /** `products/${Date.now()}-${random}.${fileExt}`. */
  function StoragePath(stamp: nat, random: string, ext: string): (path: string)
    ensures StartsWith(path, "products/")
    ensures EndsWith(path, "." + ext)
  {
    var path := "products/" + Decimal(stamp) + "-" + random + "." + ext;
    assert path[..9] == "products/";
    assert path[|path| - |ext| - 1..] == "." + ext;
    path
  }

  /**
   * The handler. `authenticated` is the outcome of `supabase.auth.getUser()`,
   * `stamp` is `Date.now()`, `random` is `Math.random().toString(36).substring(2)`,
   * `stored(path)` says whether the upload to the `product-images` bucket
   * succeeded and `publicUrl(path)` is what `getPublicUrl` returns.
   */
  function Upload(
    authenticated: bool, file: Option<File>, stamp: nat, random: string,
    stored: string -> bool, publicUrl: string -> string): (r: UploadResponse)
    ensures r.status == 401 <==> !authenticated
    ensures !authenticated ==> r == UploadResponse(401, Failure("Unauthorized"), None)
    ensures authenticated && file.None? ==> r == UploadResponse(400, Failure("No file provided"), None)
    ensures authenticated && file.Some? && !StartsWith(file.value.contentType, "image/") ==>
      r == UploadResponse(400, Failure("File must be an image"), None)
    ensures r.storedAt.Some? <==> authenticated && file.Some? && StartsWith(file.value.contentType, "image/")
    ensures r.storedAt.Some? ==>
      && r.storedAt.value == StoragePath(stamp, random, Extension(file.value.name))
      && (r.status == 200 <==> stored(r.storedAt.value))
      && (r.status == 200 ==> r.body == Url(publicUrl(r.storedAt.value)))
      && (r.status != 200 ==> r.status == 500 && r.body == Failure("Failed to upload image"))
  {
    if !authenticated then
      UploadResponse(401, Failure("Unauthorized"), None)
    else if file.None? then
      UploadResponse(400, Failure("No file provided"), None)
    else if !StartsWith(file.value.contentType, "image/") then
      UploadResponse(400, Failure("File must be an image"), None)
    else
      var path := StoragePath(stamp, random, Extension(file.value.name));
      if stored(path) then UploadResponse(200, Url(publicUrl(path)), Some(path))
      else UploadResponse(500, Failure("Failed to upload image"), Some(path))
  }
}
