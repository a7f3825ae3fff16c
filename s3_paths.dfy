/** The string rules of the bucket browser: the breadcrumb path
    (`updatePath`), the keys `createFolder`, `createEmptyFile` and `uploadFile`
    write, the region a bucket operation ends up using, the location
    constraint `createBucket` sends, the local name `downloadFile` picks, and
    the two abbreviations `S3Item` shows. */
module S3Paths {
  import opened Strings

  // ---------------------------------------------------------------------
  // updatePath
  // ---------------------------------------------------------------------

  /** The breadcrumb text for a prefix: trim slashes at both ends, split on
      "/" dropping empty pieces, and join with "/". */
  function NormalizePath(prefix: string): string {
    var clean := Trim(prefix, '/');
    if clean == [] then [] else Join(Split(clean, '/', []), '/')
  }

  /** Trimming changes nothing about the pieces. */
  lemma TrimKeepsPieces(s: string)
    ensures Split(Trim(s, '/'), '/', []) == Split(s, '/', [])
  {
    TrimShape(s, '/');
    var k := |s| - |DropLeading(s, '/')|;
    var r := Trim(s, '/');
    SplitLeadingSeps(s, '/', k);
    var t := s[k..];
    assert t[..|r|] == r;
    SplitTrailingSeps(t, '/', |t| - |r|, []);
    assert t[..|t| - (|t| - |r|)] == r;
  }

  /** The breadcrumb is empty exactly when the prefix is nothing but slashes
      (or nothing); otherwise it has no slash at either end and no two in a
      row, and it has the same pieces as the prefix. */
  lemma NormalizePathShape(prefix: string)
    ensures NormalizePath(prefix) == [] <==> forall i :: 0 <= i < |prefix| ==> prefix[i] == '/'
    ensures Clean(NormalizePath(prefix), '/')
    ensures Split(NormalizePath(prefix), '/', []) == Split(prefix, '/', [])
  {
    var clean := Trim(prefix, '/');
    TrimEmptyIff(prefix, '/');
    TrimKeepsPieces(prefix);
    if clean != [] {
      var parts := Split(clean, '/', []);
      SplitPieces(clean, '/', []);
      SplitEmptyIff(clean, '/', []);
      TrimShape(prefix, '/');
      assert clean[0] != '/';
      JoinClean(parts, '/');
      SplitJoin(parts, '/');
    } else {
      SplitEmptyIff(prefix, '/', []);
    }
  }

  /** Normalising twice is normalising once. */
  lemma NormalizePathIdempotent(prefix: string)
    ensures NormalizePath(NormalizePath(prefix)) == NormalizePath(prefix)
  {
    var r := NormalizePath(prefix);
    NormalizePathShape(prefix);
    TrimOfClean(r, '/');
    if r != [] {
      assert [] + r == r;
      JoinSplitClean(r, '/');
    }
  }

  // ---------------------------------------------------------------------
  // Keys of the objects the browser writes
  // ---------------------------------------------------------------------

  /** A `putObject` request: bucket, key and the content type if one is set. */
  datatype ObjectRequest = ObjectRequest(bucket: string, key: string, contentType: Option<string>)

  /** `createFolder`: nothing without a selected bucket and a typed name;
      otherwise an empty object at the prefix, the name with its outer
      slashes trimmed, and two slashes. */
  function CreateFolderRequest(currentBucket: Option<string>, currentPrefix: string, newItemName: string): Option<ObjectRequest> {
    if currentBucket.None? || newItemName == [] then None
    else Some(ObjectRequest(currentBucket.value, currentPrefix + Trim(newItemName, '/') + "//", None))
  }

  /** `createEmptyFile`: the same guard; an empty text object at the prefix
      and the trimmed name. */
  function CreateFileRequest(currentBucket: Option<string>, currentPrefix: string, newItemName: string): Option<ObjectRequest> {
    if currentBucket.None? || newItemName == [] then None
    else Some(ObjectRequest(currentBucket.value, currentPrefix + Trim(newItemName, '/'), Some("text/plain")))
  }

  /** A folder key is the prefix, the trimmed name and "//"; a file key is
      the prefix and the trimmed name; the name can be read back from either
      and has no slash at either end. */
  lemma CreatedKeys(currentBucket: Option<string>, currentPrefix: string, newItemName: string)
    ensures CreateFolderRequest(currentBucket, currentPrefix, newItemName).Some?
        <==> currentBucket.Some? && newItemName != []
    ensures CreateFileRequest(currentBucket, currentPrefix, newItemName).Some?
        <==> currentBucket.Some? && newItemName != []
    ensures currentBucket.Some? && newItemName != [] ==>
      var folder := CreateFolderRequest(currentBucket, currentPrefix, newItemName).value;
      var file := CreateFileRequest(currentBucket, currentPrefix, newItemName).value;
      var name := Trim(newItemName, '/');
      folder.bucket == file.bucket == currentBucket.value
      && StartsWith(folder.key, currentPrefix) && EndsWith(folder.key, "//")
      && folder.key[|currentPrefix|..|folder.key| - 2] == name
      && StartsWith(file.key, currentPrefix) && file.key[|currentPrefix|..] == name
      && (name == [] || (name[0] != '/' && name[|name| - 1] != '/'))
  {
    var name := Trim(newItemName, '/');
    TrimShape(newItemName, '/');
    if currentBucket.Some? && newItemName != [] {
      var k := currentPrefix + name + "//";
      assert k[..|currentPrefix|] == currentPrefix;
      assert k[|k| - 2..] == "//";
      assert k[|currentPrefix|..|k| - 2] == name;
      var f := currentPrefix + name;
      assert f[..|currentPrefix|] == currentPrefix;
    }
  }

  /** The guard looks at the typed name, not the trimmed one: a name of
      slashes only creates the object "prefix//" and the empty file key is
      the prefix itself. */
  lemma SlashOnlyName(bucket: string, currentPrefix: string, newItemName: string)
    requires newItemName != [] && forall i :: 0 <= i < |newItemName| ==> newItemName[i] == '/'
    ensures CreateFolderRequest(Some(bucket), currentPrefix, newItemName) == Some(ObjectRequest(bucket, currentPrefix + "//", None))
    ensures CreateFileRequest(Some(bucket), currentPrefix, newItemName) == Some(ObjectRequest(bucket, currentPrefix, Some("text/plain")))
  {
    TrimEmptyIff(newItemName, '/');
    assert currentPrefix + [] == currentPrefix;
  }

  /** What the file manager reports about the file chosen for upload. */
  datatype LocalFile = LocalFile(
    lastPathComponent: string,
    present: bool,
    isDirectory: bool,
    readable: bool,
    readError: Option<string>)   // why reading its data failed, if it did

  datatype Outcome<T> = Ok(value: T) | Failed(message: string)

  const MissingFile: string := "文件不存在"
  const FolderUpload: string := "不能上傳文件夾"
  const Unreadable: string := "文件無法讀取，請檢查權限"
  const ReadFailurePrefix: string := "無法讀取文件數據："
  const NoBucket: string := "未選擇存儲桶"

  /** `uploadFile` up to the request: existence, not a directory,
      readability, reading the data, a selected bucket, in that order; then
      a text object at the prefix and the file's name. */
  function UploadRequest(file: LocalFile, currentBucket: Option<string>, currentPrefix: string): Outcome<ObjectRequest> {
    if !file.present then Failed(MissingFile)
    else if file.isDirectory then Failed(FolderUpload)
    else if !file.readable then Failed(Unreadable)
    else if file.readError.Some? then Failed(ReadFailurePrefix + file.readError.value)
    else if currentBucket.None? then Failed(NoBucket)
    else Ok(ObjectRequest(currentBucket.value, currentPrefix + file.lastPathComponent, Some("text/plain")))
  }

  /** An upload proceeds exactly when every check passes, and then its key
      is the prefix followed by the file name. The file checks come before
      the bucket check: a missing file is reported as missing even with no
      bucket selected. */
  lemma UploadRequestIff(file: LocalFile, currentBucket: Option<string>, currentPrefix: string)
    ensures UploadRequest(file, currentBucket, currentPrefix).Ok? <==>
      file.present && !file.isDirectory && file.readable && file.readError.None? && currentBucket.Some?
    ensures UploadRequest(file, currentBucket, currentPrefix).Ok? ==>
      var r := UploadRequest(file, currentBucket, currentPrefix).value;
      r.bucket == currentBucket.value && StartsWith(r.key, currentPrefix)
      && r.key[|currentPrefix|..] == file.lastPathComponent
    ensures !file.present ==> UploadRequest(file, currentBucket, currentPrefix) == Failed(MissingFile)
    ensures file.present && UploadRequest(file, currentBucket, currentPrefix) == Failed(NoBucket) ==>
      !file.isDirectory && file.readable && file.readError.None? && currentBucket.None?
  {
    if UploadRequest(file, currentBucket, currentPrefix).Ok? {
      var k := currentPrefix + file.lastPathComponent;
      assert k[..|currentPrefix|] == currentPrefix;
    }
    if file.present && UploadRequest(file, currentBucket, currentPrefix) == Failed(NoBucket) {
      assert NoBucket != MissingFile && NoBucket != FolderUpload && NoBucket != Unreadable;
    }
  }

  // ---------------------------------------------------------------------
  // Regions
  // ---------------------------------------------------------------------

  const DefaultRegion: string := "us-east-1"

  /** How `getBucketLocation` ended: it threw, returned no constraint, or
      returned a constraint's raw value ("" for the default region). */
  datatype LocationAnswer = LocationFailed | NoConstraint | Constraint(raw: string)

  /** The region the operation uses, and whether the client was rebuilt for
      it. */
  datatype RegionChoice = RegionChoice(region: string, rebuilt: bool)

  /** `listObjects` and `uploadFile` start with the configured region and
      switch to the bucket's own when the answer names one; an empty answer
      means the default region. */
  function ResolveRegion(configured: string, answer: LocationAnswer): RegionChoice {
    match answer
    case Constraint(raw) =>
      var bucketRegion := if raw == [] then DefaultRegion else raw;
      RegionChoice(bucketRegion, bucketRegion != configured)
    case _ => RegionChoice(configured, false)
  }

  /** `createBucket` sends a location constraint exactly when the region is
      not the default one, and then it is the region. */
  function LocationConstraint(region: string): Option<string> {
    if region != DefaultRegion then Some(region) else None
  }

  /** The client always ends up on the chosen region: it is rebuilt exactly
      when the chosen region differs from the configured one. Without an
      answer nothing changes. */
  lemma ResolveRegionUsesChosen(configured: string, answer: LocationAnswer)
    ensures var c := ResolveRegion(configured, answer);
      c.rebuilt <==> c.region != configured
    ensures !answer.Constraint? ==> ResolveRegion(configured, answer) == RegionChoice(configured, false)
    ensures answer == Constraint("") ==> ResolveRegion(configured, answer).region == DefaultRegion
  {
  }

  /** A location constraint is sent exactly when the region is not the
      default one, and then it names the region. A bucket whose location is
      later reported as the constraint it was created with is resolved back
      to its region; an empty constraint, which is how the service reports
      the default region, resolves to the default region. */
  lemma CreatedBucketResolvesBack(created: string, configured: string)
    requires created != ""
    ensures LocationConstraint(created).None? <==> created == DefaultRegion
    ensures LocationConstraint(created).Some? ==>
      LocationConstraint(created).value == created
      && ResolveRegion(configured, Constraint(LocationConstraint(created).value)).region == created
    ensures ResolveRegion(configured, Constraint("")).region == DefaultRegion
  {
  }

  // ---------------------------------------------------------------------
  // downloadFile
  // ---------------------------------------------------------------------

  /** The stem of the name given to an object whose key has no last
      component. */
  const FallbackStem: string := "file_"

  /** The local name of a downloaded object: the text after the key's last
      slash (the whole key if it has none), or the fallback stem and a fresh
      UUID when that is empty. */
  function DownloadName(key: string, uuid: string): string {
    var fileName := AfterLast(key, '/');
    if fileName == [] then FallbackStem + uuid else fileName
  }

  /** The name is never empty and never contains a slash (for a slash-free
      UUID). */
  lemma DownloadNameSlashFree(key: string, uuid: string)
    requires NoChar(uuid, '/')
    ensures var n := DownloadName(key, uuid); n != [] && NoChar(n, '/')
  {
    AfterLastShape(key, '/');
    var f := AfterLast(key, '/');
    if f == [] {
      var n := FallbackStem + uuid;
      assert NoChar(FallbackStem, '/');
      forall i | 0 <= i < |n| ensures n[i] != '/' {
        if i < |FallbackStem| {
          assert n[i] == FallbackStem[i];
        } else {
          assert n[i] == uuid[i - |FallbackStem|];
        }
      }
    }
  }

  /** A key ending in a slash (a folder key) or an empty key gets the
      fallback name; any other key gets its own last component, a suffix of
      the key. */
  lemma DownloadNameFallback(key: string, uuid: string)
    ensures key == [] || key[|key| - 1] == '/' ==> DownloadName(key, uuid) == FallbackStem + uuid
    ensures key != [] && key[|key| - 1] != '/' ==>
      DownloadName(key, uuid) == AfterLast(key, '/') && EndsWith(key, DownloadName(key, uuid))
  {
    AfterLastShape(key, '/');
    if key != [] && key[|key| - 1] != '/' {
      var f := AfterLast(key, '/');
      assert f == AfterLast(key[..|key| - 1], '/') + [key[|key| - 1]];
      assert f != [];
    }
  }

  /** Downloading an uploaded or created file gives back its name, when the
      name is a single path component and the browser's prefix is empty or
      a folder key ending in a slash. */
  lemma DownloadRoundTrip(currentPrefix: string, name: string, uuid: string, bucket: string)
    requires Piece(name, '/')
    requires currentPrefix == [] || currentPrefix[|currentPrefix| - 1] == '/'
    ensures DownloadName(UploadRequest(LocalFile(name, true, false, true, None), Some(bucket), currentPrefix).value.key, uuid) == name
    ensures DownloadName(CreateFileRequest(Some(bucket), currentPrefix, name).value.key, uuid) == name
  {
    AfterLastAppend(currentPrefix, name, '/');
    assert name[0] != '/' && name[|name| - 1] != '/';
    TrimOfClean(name, '/');
  }

  // ---------------------------------------------------------------------
  // S3Item display abbreviations
  // ---------------------------------------------------------------------

  /** "-" for no type, else the last non-empty "/"-piece upper-cased, else
      the type itself. */
  function SimpleContentType(contentType: Option<string>): string {
    match contentType
    case None => "-"
    case Some(t) =>
      var pieces := Split(t, '/', []);
      if pieces != [] then Upper(pieces[|pieces| - 1]) else t
  }

  /** The abbreviation is the upper-cased subtype after the last slash:
      "image/png" reads "PNG". */
  lemma SimpleContentTypeIsSubtype(t: string)
    requires AfterLast(t, '/') != []
    ensures SimpleContentType(Some(t)) == Upper(AfterLast(t, '/'))
  {
    SplitLastIsAfterLast(t, '/');
  }

  /** Trailing slashes are ignored: whenever the type has a non-empty piece
      it is shown as the upper-cased text after the last slash once the
      trailing slashes are dropped, so "image/png/" is shown by its
      subtype just as "image/png" is. */
  lemma SimpleContentTypeLastPiece(t: string)
    ensures DropTrailing(t, '/') != [] ==>
      SimpleContentType(Some(t)) == Upper(AfterLast(DropTrailing(t, '/'), '/'))
  {
    var r := DropTrailing(t, '/');
    DropTrailingShape(t, '/');
    if r != [] {
      SplitTrailingSeps(t, '/', |t| - |r|, []);
      assert t[..|t| - (|t| - |r|)] == r;
      assert AfterLast(r, '/') == AfterLast(r[..|r| - 1], '/') + [r[|r| - 1]];
      SplitLastIsAfterLast(r, '/');
    }
  }

  /** A type made only of slashes (or empty) has no pieces and is shown as
      it is; any other type shows a non-empty, slash-free piece. */
  lemma SimpleContentTypeFallback(t: string)
    ensures (forall i :: 0 <= i < |t| ==> t[i] == '/') ==> SimpleContentType(Some(t)) == t
    ensures !(forall i :: 0 <= i < |t| ==> t[i] == '/') ==>
      var r := SimpleContentType(Some(t)); r != [] && NoChar(r, '/')
  {
    SplitEmptyIff(t, '/', []);
    var pieces := Split(t, '/', []);
    if pieces != [] {
      SplitPieces(t, '/', []);
      var p := pieces[|pieces| - 1];
      assert Piece(p, '/');
      var r := Upper(p);
      forall i | 0 <= i < |r| ensures r[i] != '/' {
        assert r[i] == UpperChar(p[i]);
      }
    }
  }

  /** Swift's `replacingOccurrences(of:with:)`: left to right, without
      overlaps. */
  function ReplaceAll(s: string, target: string, replacement: string): string
    requires target != []
    decreases |s|
  {
    if s == [] then []
    else if StartsWith(s, target) then replacement + ReplaceAll(s[|target|..], target, replacement)
    else [s[0]] + ReplaceAll(s[1..], target, replacement)
  }

  /** "-" for no class, else every "STANDARD" shortened to "STD". */
  function SimpleStorageClass(storageClass: Option<string>): string {
    match storageClass
    case None => "-"
    case Some(c) => ReplaceAll(c, "STANDARD", "STD")
  }

  /** Replacing by something shorter never lengthens the text; it leaves the
      text alone exactly when the target does not occur in it. */
  lemma {:induction false} ReplaceShorter(s: string, target: string, replacement: string)
    requires target != [] && |replacement| < |target|
    ensures |ReplaceAll(s, target, replacement)| <= |s|
    ensures ReplaceAll(s, target, replacement) == s <==> !Contains(s, target)
    decreases |s|
  {
    if s != [] {
      if StartsWith(s, target) {
        ReplaceShorter(s[|target|..], target, replacement);
      } else {
        ReplaceShorter(s[1..], target, replacement);
        var r := ReplaceAll(s, target, replacement);
        if r == s {
          assert r[1..] == s[1..];
        }
      }
    }
  }

  /** A storage class is shown unchanged exactly when it does not mention
      STANDARD; "STANDARD_IA" reads "STD_IA". */
  lemma SimpleStorageClassMeaning(c: string)
    ensures SimpleStorageClass(Some(c)) == c <==> !Contains(c, "STANDARD")
    ensures |SimpleStorageClass(Some(c))| <= |c|
    ensures SimpleStorageClass(Some("STANDARD_IA")) == "STD_IA"
  {
    ReplaceShorter(c, "STANDARD", "STD");
    var s := "STANDARD_IA";
    assert s[..8] == "STANDARD";
    assert s[8..] == "_IA";
    assert !StartsWith("_IA", "STANDARD") && !StartsWith("IA", "STANDARD") && !StartsWith("A", "STANDARD");
    assert "_IA"[1..] == "IA" && "IA"[1..] == "A" && "A"[1..] == [];
  }
}
