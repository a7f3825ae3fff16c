/** The partition `listObjects` makes of one `listObjectsV2` page. The common
    prefixes become folders; the contents other than the listed prefix
    itself become folders when their key ends in "/" and files otherwise.
    The list shows the folders first and the files after them. */
module Listing {
  import opened Strings

  /** An `S3Item` as the browser keeps it. The item's fresh UUID identity
      is not modelled. `size` and `lastModified` are carried over as given. */
  datatype S3Item = S3Item(
    key: string,
    size: Option<int>,
    lastModified: Option<int>,
    isFolder: bool,
    storageClass: Option<string>,
    contentType: Option<string>)

  /** The parts of a response the partition reads. */
  datatype CommonPrefix = CommonPrefix(prefix: Option<string>)

  datatype S3Object = S3Object(
    key: Option<string>,
    size: Option<int>,
    lastModified: Option<int>,
    storageClass: Option<string>)

  const DirectoryType: string := "application/x-directory"

  /** The folder a common prefix becomes. */
  function PrefixFolder(key: string): S3Item {
    S3Item(key, None, None, true, None, Some(DirectoryType))
  }

  /** A content key names a folder when it ends in "/". */
  predicate FolderKey(key: string) {
    EndsWith(key, "/")
  }

  /** A content object is shown when it has a key and that key is not the
      listed prefix. */
  predicate Shown(o: S3Object, prefix: string) {
    o.key.Some? && o.key.value != prefix
  }

  /** A shown object goes to the folder group exactly when its key is a
      folder key. */
  predicate InGroup(o: S3Object, prefix: string, folders: bool) {
    Shown(o, prefix) && FolderKey(o.key.value) == folders
  }

  /** The item a shown content object becomes. */
  function ContentItem(o: S3Object): S3Item
    requires o.key.Some?
  {
    var key := o.key.value;
    if FolderKey(key) then
      S3Item(key, None, o.lastModified, true, o.storageClass, Some(DirectoryType))
    else
      S3Item(key, o.size, o.lastModified, false, o.storageClass, None)
  }

  /** The folders the common prefixes give, in order; a prefix without a
      value is skipped. */
  function PrefixFolders(ps: seq<CommonPrefix>): seq<S3Item>
    decreases |ps|
  {
    if ps == [] then []
    else
      var last := ps[|ps| - 1];
      PrefixFolders(ps[..|ps| - 1]) + (if last.prefix.Some? then [PrefixFolder(last.prefix.value)] else [])
  }

  /** The items the shown content objects give, in order: the folders when
      `folders` holds, the files otherwise. */
  function ContentItems(cs: seq<S3Object>, prefix: string, folders: bool): seq<S3Item>
    decreases |cs|
  {
    if cs == [] then []
    else
      var last := cs[|cs| - 1];
      ContentItems(cs[..|cs| - 1], prefix, folders)
      + (if InGroup(last, prefix, folders) then [ContentItem(last)] else [])
  }

  /** The list the browser shows for one page. */
  function Partition(ps: seq<CommonPrefix>, cs: seq<S3Object>, prefix: string): seq<S3Item> {
    PrefixFolders(ps) + ContentItems(cs, prefix, true) + ContentItems(cs, prefix, false)
  }

  /** The two loops of `listObjects`: one over the common prefixes, then one
      over the contents. */
  method PartitionPage(ps: seq<CommonPrefix>, cs: seq<S3Object>, prefix: string)
    returns (folders: seq<S3Item>, files: seq<S3Item>)
    ensures folders == PrefixFolders(ps) + ContentItems(cs, prefix, true)
    ensures files == ContentItems(cs, prefix, false)
    ensures folders + files == Partition(ps, cs, prefix)
  {
    folders := [];
    for i := 0 to |ps|
      invariant folders == PrefixFolders(ps[..i])
    {
      assert ps[..i + 1][..i] == ps[..i];
      match ps[i].prefix {
        case Some(key) =>
          folders := folders + [PrefixFolder(key)];
        case None =>
      }
    }
    assert ps[..|ps|] == ps;
    ghost var fromPrefixes := folders;
    files := [];
    for i := 0 to |cs|
      invariant folders == fromPrefixes + ContentItems(cs[..i], prefix, true)
      invariant files == ContentItems(cs[..i], prefix, false)
    {
      assert cs[..i + 1][..i] == cs[..i];
      match cs[i].key {
        case Some(key) =>
          if key != prefix {
            if FolderKey(key) {
              folders := folders + [ContentItem(cs[i])];
            } else {
              files := files + [ContentItem(cs[i])];
            }
          }
        case None =>
      }
    }
    assert cs[..|cs|] == cs;
  }

  // ---------------------------------------------------------------------
  // What the partition means
  // ---------------------------------------------------------------------

  /** A shown content object becomes a folder exactly when its key ends in
      "/", keeps its key, and only files keep a size and no content type. */
  lemma ContentItemShape(o: S3Object)
    requires o.key.Some?
    ensures var x := ContentItem(o);
      x.key == o.key.value
      && (x.isFolder <==> FolderKey(o.key.value))
      && (x.isFolder ==> x.size.None? && x.contentType == Some(DirectoryType))
      && (!x.isFolder ==> x.size == o.size && x.contentType.None?)
      && x.lastModified == o.lastModified && x.storageClass == o.storageClass
  {
  }

  /** The prefix folders are exactly the folders of the prefixes that have
      a value. */
  lemma {:induction false} PrefixFoldersMembers(ps: seq<CommonPrefix>, x: S3Item)
    ensures x in PrefixFolders(ps) <==> exists p :: p in ps && p.prefix.Some? && x == PrefixFolder(p.prefix.value)
    ensures |PrefixFolders(ps)| <= |ps|
    decreases |ps|
  {
    if ps != [] {
      var init, last := ps[..|ps| - 1], ps[|ps| - 1];
      PrefixFoldersMembers(init, x);
      assert ps == init + [last];
      assert PrefixFolders(ps)
        == PrefixFolders(init) + (if last.prefix.Some? then [PrefixFolder(last.prefix.value)] else []);
      if exists p :: p in ps && p.prefix.Some? && x == PrefixFolder(p.prefix.value) {
        var p :| p in ps && p.prefix.Some? && x == PrefixFolder(p.prefix.value);
        if p != last {
          assert p in init;
        }
      }
    }
  }

  /** The items of a group are exactly the items of its shown objects. */
  lemma {:induction false} ContentItemsMembers(cs: seq<S3Object>, prefix: string, folders: bool, x: S3Item)
    ensures x in ContentItems(cs, prefix, folders) <==>
      exists o :: o in cs && InGroup(o, prefix, folders) && x == ContentItem(o)
    ensures |ContentItems(cs, prefix, folders)| <= |cs|
    decreases |cs|
  {
    if cs != [] {
      var init, last := cs[..|cs| - 1], cs[|cs| - 1];
      ContentItemsMembers(init, prefix, folders, x);
      assert cs == init + [last];
      assert ContentItems(cs, prefix, folders)
        == ContentItems(init, prefix, folders) + (if InGroup(last, prefix, folders) then [ContentItem(last)] else []);
      if exists o :: o in cs && InGroup(o, prefix, folders) && x == ContentItem(o) {
        var o :| o in cs && InGroup(o, prefix, folders) && x == ContentItem(o);
        if o != last {
          assert o in init;
        }
      }
    }
  }

  /** Every prefix item is a folder. */
  lemma {:induction false} PrefixFoldersAreFolders(ps: seq<CommonPrefix>)
    ensures forall k :: 0 <= k < |PrefixFolders(ps)| ==>
      PrefixFolders(ps)[k].isFolder && PrefixFolders(ps)[k].contentType == Some(DirectoryType)
    decreases |ps|
  {
    if ps != [] {
      PrefixFoldersAreFolders(ps[..|ps| - 1]);
    }
  }

  /** Every item of the folder group is a folder, every item of the file
      group is a file, and no item has the listed prefix as its key. */
  lemma {:induction false} ContentItemsKind(cs: seq<S3Object>, prefix: string, folders: bool)
    ensures forall k :: 0 <= k < |ContentItems(cs, prefix, folders)| ==>
      var x := ContentItems(cs, prefix, folders)[k];
      x.isFolder == folders && FolderKey(x.key) == folders && x.key != prefix
    decreases |cs|
  {
    if cs != [] {
      ContentItemsKind(cs[..|cs| - 1], prefix, folders);
    }
  }

  /** The list is its folders followed by its files: every item before
      position `n` is a folder and every item from `n` on is a file. */
  lemma FoldersThenFiles(ps: seq<CommonPrefix>, cs: seq<S3Object>, prefix: string)
    ensures var r := Partition(ps, cs, prefix);
      var n := |PrefixFolders(ps)| + |ContentItems(cs, prefix, true)|;
      n <= |r|
      && (forall k :: 0 <= k < n ==> r[k].isFolder)
      && (forall k :: n <= k < |r| ==> !r[k].isFolder)
  {
    var a, b, c := PrefixFolders(ps), ContentItems(cs, prefix, true), ContentItems(cs, prefix, false);
    PrefixFoldersAreFolders(ps);
    ContentItemsKind(cs, prefix, true);
    ContentItemsKind(cs, prefix, false);
    var r := Partition(ps, cs, prefix);
    assert r == a + b + c;
    forall k | 0 <= k < |a| + |b| ensures r[k].isFolder {
      if k < |a| {
        assert r[k] == a[k];
      } else {
        assert r[k] == b[k - |a|];
      }
    }
    forall k | |a| + |b| <= k < |r| ensures !r[k].isFolder {
      assert r[k] == c[k - |a| - |b|];
    }
  }

  /** What a single object contributes: nothing when it has no key or its
      key is the listed prefix, otherwise its item, in the group its key
      chooses. */
  lemma OneObject(o: S3Object, prefix: string)
    ensures !Shown(o, prefix) ==> ContentItems([o], prefix, true) == [] && ContentItems([o], prefix, false) == []
    ensures Shown(o, prefix) ==>
      ContentItems([o], prefix, FolderKey(o.key.value)) == [ContentItem(o)]
      && ContentItems([o], prefix, !FolderKey(o.key.value)) == []
  {
    assert [o][..0] == [];
  }

  /** Each group of a longer listing is the group of its first part
      followed by the group of the rest, so the order of the objects is
      kept within each group. */
  lemma {:induction false} ContentItemsAppend(a: seq<S3Object>, b: seq<S3Object>, prefix: string, folders: bool)
    ensures ContentItems(a + b, prefix, folders) == ContentItems(a, prefix, folders) + ContentItems(b, prefix, folders)
    decreases |b|
  {
    if b != [] {
      var init := b[..|b| - 1];
      ContentItemsAppend(a, init, prefix, folders);
      assert (a + b)[..|a + b| - 1] == a + init;
      assert (a + b)[|a + b| - 1] == b[|b| - 1];
    } else {
      assert a + b == a;
    }
  }

  /** The same for the common prefixes. */
  lemma {:induction false} PrefixFoldersAppend(a: seq<CommonPrefix>, b: seq<CommonPrefix>)
    ensures PrefixFolders(a + b) == PrefixFolders(a) + PrefixFolders(b)
    decreases |b|
  {
    if b != [] {
      var init := b[..|b| - 1];
      PrefixFoldersAppend(a, init);
      assert (a + b)[..|a + b| - 1] == a + init;
      assert (a + b)[|a + b| - 1] == b[|b| - 1];
    } else {
      assert a + b == a;
    }
  }

  /** Nothing the list shows is lost or invented: an object with a key
      other than the prefix is in the list as its item, and every item of
      the list comes from a common prefix or from a shown object. */
  lemma PartitionMembers(ps: seq<CommonPrefix>, cs: seq<S3Object>, prefix: string, x: S3Item)
    ensures x in Partition(ps, cs, prefix) <==>
      (exists p :: p in ps && p.prefix.Some? && x == PrefixFolder(p.prefix.value))
      || (exists o :: o in cs && Shown(o, prefix) && x == ContentItem(o))
  {
    PrefixFoldersMembers(ps, x);
    ContentItemsMembers(cs, prefix, true, x);
    ContentItemsMembers(cs, prefix, false, x);
    if exists o :: o in cs && Shown(o, prefix) && x == ContentItem(o) {
      var o :| o in cs && Shown(o, prefix) && x == ContentItem(o);
      assert InGroup(o, prefix, FolderKey(o.key.value));
    }
  }
}
