/** The navigation state of the bucket browser (`MainView`): the selected
    bucket, the current prefix and its breadcrumb text, the stack of places
    visited, the selection, and the object list a listing fills. Each
    navigation step returns the place whose listing it starts; the listing
    itself arrives through `ListObjects`. */
module Browser {
  import opened Strings
  import opened S3Paths
  import opened Listing

  /** One entry of the navigation stack. */
  datatype Location = Location(bucket: string, prefix: string)

  /** How the `listObjectsV2` request ended: a page with its optional
      common prefixes and contents, a service error with its optional
      message, or any other error (client set-up included) with its
      description. */
  datatype ListOutcome =
    | Page(commonPrefixes: Option<seq<CommonPrefix>>, contents: Option<seq<S3Object>>)
    | ServiceError(message: Option<string>)
    | OtherError(description: string)

  /** The two error texts `listObjects` shows, by what they quote: the
      service message and the region, or the error's description and the
      region. */
  datatype ListFailure =
    | ServiceFailure(message: string, region: string)
    | AccessFailure(description: string, region: string)

  const UnknownError: string := "未知錯誤"

  function OrEmpty<T>(s: Option<seq<T>>): seq<T> {
    if s.Some? then s.value else []
  }

  /** The object list a finished listing leaves. */
  function ListedObjects(outcome: ListOutcome, prefix: string): seq<S3Item> {
    match outcome
    case Page(ps, cs) => Partition(OrEmpty(ps), OrEmpty(cs), prefix)
    case _ => []
  }

  /** The error a finished listing leaves. */
  function ListError(outcome: ListOutcome, region: string): Option<ListFailure> {
    match outcome
    case Page(_, _) => None
    case ServiceError(message) => Some(ServiceFailure(if message.Some? then message.value else UnknownError, region))
    case OtherError(description) => Some(AccessFailure(description, region))
  }

  class MainView {
    var selectedBucket: Option<string>
    var currentBucket: Option<string>
    var currentPath: string
    var currentPrefix: string
    var objects: seq<S3Item>
    var isLoadingObjects: bool
    var objectsError: Option<ListFailure>
    var navigationStack: seq<Location>
    var selectedObjects: set<string>
    const region: string

    /** There is a stack exactly when a bucket is open; it stays inside that
      bucket and starts at its root. */
    ghost predicate Valid()
      reads this
    {
      (navigationStack != [] <==> currentBucket.Some?)
      && (navigationStack != [] ==> navigationStack[0] == Location(currentBucket.value, ""))
      && forall k :: 0 <= k < |navigationStack| ==> currentBucket.Some? && navigationStack[k].bucket == currentBucket.value
    }

    constructor (region: string)
      ensures Valid()
      ensures selectedBucket.None? && currentBucket.None? && currentPath == "" && currentPrefix == ""
      ensures objects == [] && !isLoadingObjects && objectsError.None?
      ensures navigationStack == [] && selectedObjects == {} && this.region == region
    {
      selectedBucket := None;
      currentBucket := None;
      currentPath := "";
      currentPrefix := "";
      objects := [];
      isLoadingObjects := false;
      objectsError := None;
      navigationStack := [];
      selectedObjects := {};
      this.region := region;
    }

    /** The breadcrumb text for a prefix. */
    method UpdatePath(newPrefix: string)
      modifies this`currentPath
      ensures currentPath == NormalizePath(newPrefix)
    {
      var cleanPrefix := Trim(newPrefix, '/');
      if cleanPrefix == [] {
        currentPath := "";
      } else {
        var components := Split(cleanPrefix, '/', []);
        currentPath := Join(components, '/');
      }
    }

    /** Opens a bucket at its root: the stack restarts there and the
      selection is cleared. */
    method SelectBucket(name: string) returns (request: Location)
      modifies this`selectedBucket, this`currentBucket, this`currentPrefix, this`currentPath,
        this`navigationStack, this`selectedObjects
      ensures Valid()
      ensures selectedBucket == Some(name) && currentBucket == Some(name)
      ensures currentPrefix == "" && currentPath == "" && currentPath == NormalizePath(currentPrefix)
      ensures navigationStack == [Location(name, "")] && selectedObjects == {}
      ensures request == Location(name, "")
    {
      selectedBucket := Some(name);
      currentBucket := Some(name);
      currentPrefix := "";
      currentPath := "";
      navigationStack := [Location(name, "")];
      selectedObjects := {};
      request := Location(name, "");
    }

    /** A breadcrumb tap: an index outside the stack changes nothing;
      otherwise the stack keeps its entries up to and including `index`,
      whose prefix becomes current. */
    method NavigateToPath(index: int) returns (request: Option<Location>)
      requires Valid()
      modifies this`navigationStack, this`currentPrefix, this`currentPath
      ensures Valid()
      ensures !(0 <= index < |old(navigationStack)|) ==> unchanged(this) && request.None?
      ensures 0 <= index < |old(navigationStack)| ==>
        navigationStack == old(navigationStack)[..index + 1]
        && currentPrefix == old(navigationStack)[index].prefix
        && currentPath == NormalizePath(currentPrefix)
        && request == Some(old(navigationStack)[index])
    {
      if !(0 <= index < |navigationStack|) {
        return None;
      }
      navigationStack := navigationStack[..index + 1];
      var target := navigationStack[|navigationStack| - 1];
      currentPrefix := target.prefix;
      UpdatePath(target.prefix);
      request := Some(target);
    }

    /** The back button: with more than one entry it drops the last one and
      returns to the entry before; otherwise it does nothing. */
    method GoBack() returns (request: Option<Location>)
      requires Valid()
      modifies this`navigationStack, this`currentPrefix, this`currentPath
      ensures Valid()
      ensures |old(navigationStack)| <= 1 ==> unchanged(this) && request.None?
      ensures |old(navigationStack)| > 1 ==>
        navigationStack == old(navigationStack)[..|old(navigationStack)| - 1]
        && |navigationStack| == |old(navigationStack)| - 1
        && currentPrefix == navigationStack[|navigationStack| - 1].prefix
        && currentPath == NormalizePath(currentPrefix)
        && request == Some(navigationStack[|navigationStack| - 1])
    {
      if |navigationStack| <= 1 {
        return None;
      }
      navigationStack := navigationStack[..|navigationStack| - 1];
      var previous := navigationStack[|navigationStack| - 1];
      currentPrefix := previous.prefix;
      UpdatePath(previous.prefix);
      request := Some(previous);
    }

    /** A folder tap: the folder's key becomes current; with a current
      bucket it is pushed on the stack and listed, without one only the
      prefix and the path change. */
    method OpenFolder(key: string) returns (request: Option<Location>)
      requires Valid()
      modifies this`navigationStack, this`currentPrefix, this`currentPath
      ensures Valid()
      ensures currentPrefix == key && currentPath == NormalizePath(key)
      ensures currentBucket.Some? ==>
        navigationStack == old(navigationStack) + [Location(currentBucket.value, key)]
        && request == Some(Location(currentBucket.value, key))
      ensures currentBucket.None? ==> navigationStack == old(navigationStack) && request.None?
    {
      currentPrefix := key;
      UpdatePath(key);
      request := None;
      match currentBucket {
        case Some(bucket) =>
          navigationStack := navigationStack + [Location(bucket, key)];
          request := Some(Location(bucket, key));
        case None =>
      }
    }

    /** The state a listing of `prefix` leaves: the partition of the page
      and no error, or no objects and the error; loading is over either
      way. */
    method ListObjects(prefix: string, outcome: ListOutcome)
      modifies this`objects, this`objectsError, this`isLoadingObjects
      ensures objects == ListedObjects(outcome, prefix)
      ensures objectsError == ListError(outcome, region)
      ensures !isLoadingObjects
    {
      isLoadingObjects := true;
      objectsError := None;
      objects := [];
      match outcome {
        case Page(commonPrefixes, contents) =>
          var folders, files := PartitionPage(OrEmpty(commonPrefixes), OrEmpty(contents), prefix);
          objects := folders + files;
          isLoadingObjects := false;
        case ServiceError(message) =>
          objectsError := Some(ServiceFailure(if message.Some? then message.value else UnknownError, region));
          isLoadingObjects := false;
        case OtherError(description) =>
          objectsError := Some(AccessFailure(description, region));
          isLoadingObjects := false;
      }
    }
  }

  /** The type column of the list: every folder reads "X-DIRECTORY" (the
      upper-cased "x-directory") and every file of a listing reads "-",
      since a listing gives files no content type. */
  lemma ListedTypesShown(ps: seq<CommonPrefix>, cs: seq<S3Object>, prefix: string)
    ensures forall k :: 0 <= k < |Partition(ps, cs, prefix)| ==>
      SimpleContentType(Partition(ps, cs, prefix)[k].contentType)
      == if Partition(ps, cs, prefix)[k].isFolder then Upper("x-directory") else "-"
  {
    DirectoryTypeShown();
    var a, b, c := PrefixFolders(ps), ContentItems(cs, prefix, true), ContentItems(cs, prefix, false);
    PrefixFoldersAreFolders(ps);
    ContentItemsKind(cs, prefix, true);
    ContentItemsKind(cs, prefix, false);
    var r := Partition(ps, cs, prefix);
    assert r == a + b + c;
    forall k | 0 <= k < |r|
      ensures r[k].contentType == if r[k].isFolder then Some(DirectoryType) else None
    {
      if k < |a| {
        assert r[k] == a[k];
      } else if k < |a| + |b| {
        assert r[k] == b[k - |a|];
        ContentTypeOfItem(cs, prefix, true, k - |a|);
      } else {
        assert r[k] == c[k - |a| - |b|];
        ContentTypeOfItem(cs, prefix, false, k - |a| - |b|);
      }
    }
  }

  /** A content item carries the directory type exactly when it is a
      folder. */
  lemma {:induction false} ContentTypeOfItem(cs: seq<S3Object>, prefix: string, folders: bool, k: nat)
    requires k < |ContentItems(cs, prefix, folders)|
    ensures var x := ContentItems(cs, prefix, folders)[k];
      x.contentType == if x.isFolder then Some(DirectoryType) else None
    decreases |cs|
  {
    var init, last := cs[..|cs| - 1], cs[|cs| - 1];
    if k < |ContentItems(init, prefix, folders)| {
      ContentTypeOfItem(init, prefix, folders, k);
    } else {
      ContentItemShape(last);
    }
  }

  /** "application/x-directory" reads as its subtype upper-cased,
      "X-DIRECTORY". */
  lemma DirectoryTypeShown()
    ensures SimpleContentType(Some(DirectoryType)) == Upper("x-directory")
  {
    var x, t := "application", "x-directory";
    DirectoryTypePieces();
    SplitAtSep(x, t, '/');
    SplitAbsorb(t, [], '/', []);
    assert t + [] == t && [] + t == t;
    assert Split(t, '/', []) == [t];
  }

  /** The directory type is two slash-free pieces around one slash. */
  lemma DirectoryTypePieces()
    ensures DirectoryType == "application" + (['/'] + "x-directory")
    ensures Piece("application", '/') && Piece("x-directory", '/')
  {
  }
}
