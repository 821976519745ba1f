/** What ReadDir lists for a directory: one file entry per live object directly
    inside it, and one directory entry per distinct name that keys below it
    continue with. */
module GcsFsReadDir {
  import opened Results
  import opened Strings
  import opened Paths
  import opened Bucket
  import opened GcsFs

  /** The file entry ReadDir makes for an object directly inside the listed directory. */
  function FileEntry(o: ObjectAttrs, prefix: string): FileInfo
    requires HasPrefix(o.name, prefix)
  {
    FileInfo(o.name[|prefix|..], false, o.size, o.updated, o.contentType)
  }

  /** A live object directly inside the directory, other than its own marker. */
  predicate IsChildFile(o: ObjectAttrs, prefix: string) {
    !o.deleted && HasPrefix(o.name, prefix) && o.name != prefix && '/' !in o.name[|prefix|..]
  }

  lemma {:induction false} EntriesConcat(a: seq<ListItem>, b: seq<ListItem>, prefix: string)
    ensures Entries(a + b, prefix) == Entries(a, prefix) + Entries(b, prefix)
    decreases |a|
  {
    if |a| == 0 {
      assert a + b == b;
    } else {
      assert (a + b)[0] == a[0];
      assert (a + b)[1..] == a[1..] + b;
      EntriesConcat(a[1..], b, prefix);
    }
  }

  /** The entry an object directly inside the directory gives: a file entry
      when it is a live child, none for the directory's own marker or a
      deleted record. */
  lemma EntryOfDirectObject(o: ObjectAttrs, prefix: string)
    requires HasPrefix(o.name, prefix) && !Nested(o.name, prefix)
    ensures EntryOf(Object(o), prefix) == if IsChildFile(o, prefix) then [FileEntry(o, prefix)] else []
  {
    var rest := o.name[|prefix|..];
    assert TrimPrefix(o.name, prefix) == rest;
    assert '/' !in rest;
    if |rest| > 0 {
      assert rest[|rest| - 1] in rest;
    }
    assert !HasSuffix(rest, "/");
    assert rest == "" <==> o.name == prefix by {
      assert o.name == prefix + rest;
    }
  }

  lemma ObjectItemsCons(d: seq<ObjectAttrs>)
    requires |d| > 0
    ensures ObjectItems(d)[0] == Object(d[0]) && ObjectItems(d)[1..] == ObjectItems(d[1..])
  {
  }

  /** The object entries of a listing give exactly the file entries of its live
      children. */
  lemma {:induction false} ObjectEntries(d: seq<ObjectAttrs>, prefix: string)
    requires forall o :: o in d ==> HasPrefix(o.name, prefix) && !Nested(o.name, prefix)
    ensures forall fi :: fi in Entries(ObjectItems(d), prefix) <==>
      exists o :: o in d && IsChildFile(o, prefix) && fi == FileEntry(o, prefix)
    ensures forall fi :: fi in Entries(ObjectItems(d), prefix) ==> !fi.isDir
    decreases |d|
  {
    if |d| > 0 {
      var o := d[0];
      ObjectItemsCons(d);
      ObjectEntries(d[1..], prefix);
      EntryOfDirectObject(o, prefix);
      assert forall o' :: o' in d <==> o' == o || o' in d[1..];
    }
  }

  predicate NoDirs(es: seq<FileInfo>) {
    forall fi :: fi in es ==> !fi.isDir
  }

  /** Object entries are never directories. */
  lemma ObjectEntriesAreFiles(objects: seq<ObjectAttrs>, prefix: string)
    ensures NoDirs(Entries(ObjectItems(DirectObjects(objects, prefix)), prefix))
  {
    ObjectEntries(DirectObjects(objects, prefix), prefix);
  }

  /** The name a common prefix stands for: what follows the directory, without
      the trailing slash. */
  function ChildName(k: string, prefix: string): string {
    if |k| > |prefix| then k[|prefix|..|k| - 1] else ""
  }

  /** The key a listing entry carries. */
  function KeyOf(item: ListItem): string {
    match item
    case Prefix(p) => p
    case Object(a) => a.name
  }

  /** The directory entry ReadDir makes for a common prefix. */
  function DirEntry(item: ListItem, prefix: string): FileInfo {
    DirInfo(ChildName(KeyOf(item), prefix))
  }

  /** A common prefix one level below the listed directory. */
  predicate ChildKey(item: ListItem, prefix: string) {
    item.Prefix? && HasPrefix(item.prefix, prefix) && |item.prefix| > |prefix| && item.prefix[|item.prefix| - 1] == '/'
  }

  predicate AllChildKeys(items: seq<ListItem>, prefix: string) {
    |items| == 0 || (ChildKey(items[0], prefix) && AllChildKeys(items[1..], prefix))
  }

  lemma {:induction false} AllChildKeysOf(items: seq<ListItem>, prefix: string)
    requires forall i :: 0 <= i < |items| ==> ChildKey(items[i], prefix)
    ensures AllChildKeys(items, prefix)
    decreases |items|
  {
    if |items| > 0 {
      assert forall i :: 0 <= i < |items[1..]| ==> items[1..][i] == items[i + 1];
      AllChildKeysOf(items[1..], prefix);
    }
  }

  lemma EntryOfChildKey(item: ListItem, prefix: string)
    requires ChildKey(item, prefix)
    ensures EntryOf(item, prefix) == [DirEntry(item, prefix)]
  {
    var k := item.prefix;
    var rest := k[|prefix|..];
    assert TrimPrefix(k, prefix) == rest;
    assert HasSuffix(rest, "/");
    assert rest[..|rest| - 1] == k[|prefix|..|k| - 1];
  }

  /** One directory entry per listing entry, in order. */
  function DirEntries(items: seq<ListItem>, prefix: string): seq<FileInfo> {
    if |items| == 0 then [] else [DirEntry(items[0], prefix)] + DirEntries(items[1..], prefix)
  }

  lemma {:induction false} DirEntriesIndex(items: seq<ListItem>, prefix: string)
    ensures |DirEntries(items, prefix)| == |items|
    ensures forall i :: 0 <= i < |items| ==> DirEntries(items, prefix)[i] == DirEntry(items[i], prefix)
    decreases |items|
  {
    if |items| > 0 {
      DirEntriesIndex(items[1..], prefix);
      var es := DirEntries(items, prefix);
      var tail := DirEntries(items[1..], prefix);
      forall i | 1 <= i < |items|
        ensures es[i] == DirEntry(items[i], prefix)
      {
        assert es[i] == tail[i - 1];
        assert items[i] == items[1..][i - 1];
      }
    }
  }

  lemma {:induction false} PrefixEntriesAreDirs(items: seq<ListItem>, prefix: string)
    requires AllChildKeys(items, prefix)
    ensures Entries(items, prefix) == DirEntries(items, prefix)
    decreases |items|
  {
    if |items| > 0 {
      PrefixEntriesAreDirs(items[1..], prefix);
      EntryOfChildKey(items[0], prefix);
    }
  }

  /** Common-prefix entries give one directory entry each, in order. */
  lemma PrefixEntries(items: seq<ListItem>, prefix: string)
    requires AllChildKeys(items, prefix)
    ensures |Entries(items, prefix)| == |items|
    ensures forall i :: 0 <= i < |items| ==> Entries(items, prefix)[i] == DirEntry(items[i], prefix)
  {
    PrefixEntriesAreDirs(items, prefix);
    DirEntriesIndex(items, prefix);
  }

  /** A directory name appears exactly when some key continues below it. */
  lemma GroupKeyOfChild(x: string, prefix: string, n: string)
    requires '/' !in n && HasPrefix(x, prefix + n + "/")
    ensures Nested(x, prefix) && GroupKey(x, prefix) == prefix + n + "/"
  {
    var tail := x[|prefix + n| + 1..];
    assert x == prefix + n + "/" + tail;
    var rest := x[|prefix|..];
    assert rest == n + ['/'] + tail;
    assert rest[|n|] == '/';
    IndexOfAfter(n, '/', tail);
    assert rest[..|n| + 1] == n + "/";
  }

  lemma ChildNameOfGroup(x: string, prefix: string)
    requires Nested(x, prefix)
    ensures var k := GroupKey(x, prefix);
      var n := ChildName(k, prefix);
      '/' !in n && k == prefix + n + "/" && HasPrefix(x, prefix + n + "/")
  {
    var k := GroupKey(x, prefix);
    var n := ChildName(k, prefix);
    assert k == prefix + n + "/";
  }

  /** Every common prefix of a listing lies one level below the listed directory. */
  lemma ListedChildKeys(objects: seq<ObjectAttrs>, prefix: string)
    ensures AllChildKeys(PrefixItems(Dedup(NestedKeys(objects, prefix))), prefix)
  {
    var keys := Dedup(NestedKeys(objects, prefix));
    var pitems := PrefixItems(keys);
    forall i | 0 <= i < |pitems|
      ensures ChildKey(pitems[i], prefix)
    {
      assert keys[i] in keys;
      NestedKeyShape(objects, prefix, keys[i]);
      assert pitems[i] == Prefix(keys[i]);
    }
    AllChildKeysOf(pitems, prefix);
  }

  /** ReadDir of a completed listing: the file entries, then the directory entries. */
  lemma ReadDirParts(fs: Fs, dirname: string)
    requires fs.store.listFault.None?
    ensures var prefix := DirPrefix(dirname);
      var d := DirectObjects(fs.store.objects, prefix);
      var pitems := PrefixItems(Dedup(NestedKeys(fs.store.objects, prefix)));
      && ReadDir(fs, dirname).value == Ok(Entries(ObjectItems(d), prefix) + Entries(pitems, prefix))
      && AllChildKeys(pitems, prefix)
  {
    var prefix := DirPrefix(dirname);
    var objects := fs.store.objects;
    var d := DirectObjects(objects, prefix);
    var pitems := PrefixItems(Dedup(NestedKeys(objects, prefix)));
    assert ReadDir(fs, dirname).value == Ok(Entries(DelimitedItems(objects, prefix), prefix));
    EntriesConcat(ObjectItems(d), pitems, prefix);
    ListedChildKeys(objects, prefix);
  }

  /** Every common prefix lies one level below the listed directory. */
  lemma NestedKeyShape(objects: seq<ObjectAttrs>, prefix: string, k: string)
    requires k in Dedup(NestedKeys(objects, prefix))
    ensures ChildKey(Prefix(k), prefix)
  {
    var o := NestedKeySource(objects, prefix, k);
  }

  /** The directory entry of a common prefix names a way keys below continue. */
  lemma DirNameSource(objects: seq<ObjectAttrs>, prefix: string, i: int) returns (o: ObjectAttrs)
    requires 0 <= i < |Dedup(NestedKeys(objects, prefix))|
    ensures var n := DirEntry(PrefixItems(Dedup(NestedKeys(objects, prefix)))[i], prefix).name;
      '/' !in n && o in objects && HasPrefix(o.name, prefix + n + "/")
  {
    var keys := Dedup(NestedKeys(objects, prefix));
    assert keys[i] in keys;
    o := NestedKeySource(objects, prefix, keys[i]);
    ChildNameOfGroup(o.name, prefix);
  }

  /** Every way keys below continue has its common prefix listed. */
  lemma DirNameListed(objects: seq<ObjectAttrs>, prefix: string, n: string, o: ObjectAttrs) returns (i: int)
    requires '/' !in n && o in objects && HasPrefix(o.name, prefix + n + "/")
    ensures 0 <= i < |Dedup(NestedKeys(objects, prefix))|
    ensures DirEntry(PrefixItems(Dedup(NestedKeys(objects, prefix)))[i], prefix) == DirInfo(n)
  {
    var keys := Dedup(NestedKeys(objects, prefix));
    GroupKeyOfChild(o.name, prefix, n);
    var k := prefix + n + "/";
    assert k in NestedKeys(objects, prefix);
    assert k in keys;
    i :| 0 <= i < |keys| && keys[i] == k;
    assert ChildName(k, prefix) == n;
  }

  /** The directory entries of `pitems` name exactly the ways keys below `prefix` continue. */
  ghost predicate NamesContinuations(pitems: seq<ListItem>, prefix: string, objects: seq<ObjectAttrs>) {
    forall n :: (exists i :: 0 <= i < |pitems| && DirEntry(pitems[i], prefix) == DirInfo(n)) <==>
      '/' !in n && exists o :: o in objects && HasPrefix(o.name, prefix + n + "/")
  }

  /** The directory names a listing's common prefixes stand for. */
  lemma DirNames(objects: seq<ObjectAttrs>, prefix: string)
    ensures NamesContinuations(PrefixItems(Dedup(NestedKeys(objects, prefix))), prefix, objects)
  {
    var pitems := PrefixItems(Dedup(NestedKeys(objects, prefix)));
    forall n: string
      ensures (exists i :: 0 <= i < |pitems| && DirEntry(pitems[i], prefix) == DirInfo(n)) <==>
        '/' !in n && exists o :: o in objects && HasPrefix(o.name, prefix + n + "/")
    {
      if exists i :: 0 <= i < |pitems| && DirEntry(pitems[i], prefix) == DirInfo(n) {
        var i :| 0 <= i < |pitems| && DirEntry(pitems[i], prefix) == DirInfo(n);
        var o := DirNameSource(objects, prefix, i);
      }
      if '/' !in n && exists o :: o in objects && HasPrefix(o.name, prefix + n + "/") {
        var o :| o in objects && HasPrefix(o.name, prefix + n + "/");
        var i := DirNameListed(objects, prefix, n, o);
      }
    }
  }

  /** Distinct common prefixes stand for distinct directory names. */
  lemma DirNamesDistinct(objects: seq<ObjectAttrs>, prefix: string)
    ensures var pitems := PrefixItems(Dedup(NestedKeys(objects, prefix)));
      forall i, j :: 0 <= i < j < |pitems| ==> DirEntry(pitems[i], prefix).name != DirEntry(pitems[j], prefix).name
  {
    var keys := Dedup(NestedKeys(objects, prefix));
    var pitems := PrefixItems(keys);
    forall i, j | 0 <= i < j < |pitems|
      ensures DirEntry(pitems[i], prefix).name != DirEntry(pitems[j], prefix).name
    {
      var ki, kj := keys[i], keys[j];
      assert ki in NestedKeys(objects, prefix) && kj in NestedKeys(objects, prefix);
      var oi :| oi in objects && Nested(oi.name, prefix) && ki == GroupKey(oi.name, prefix);
      var oj :| oj in objects && Nested(oj.name, prefix) && kj == GroupKey(oj.name, prefix);
      ChildNameOfGroup(oi.name, prefix);
      ChildNameOfGroup(oj.name, prefix);
      assert KeyOf(pitems[i]) == ki && KeyOf(pitems[j]) == kj;
    }
  }

  /** File entries drawn from the direct objects, followed by directory
      entries: the non-directory entries are the child files of the bucket. */
  lemma FilesBeforeDirs(files: seq<FileInfo>, dirs: seq<FileInfo>, objects: seq<ObjectAttrs>, prefix: string)
    requires forall fi :: fi in files <==>
      exists o :: o in DirectObjects(objects, prefix) && IsChildFile(o, prefix) && fi == FileEntry(o, prefix)
    requires forall fi :: fi in files ==> !fi.isDir
    requires forall fi :: fi in dirs ==> fi.isDir
    ensures forall fi :: fi in files + dirs && !fi.isDir <==>
      exists o :: o in objects && IsChildFile(o, prefix) && fi == FileEntry(o, prefix)
  {
    var d := DirectObjects(objects, prefix);
    forall fi: FileInfo
      ensures fi in files + dirs && !fi.isDir <==> exists o :: o in objects && IsChildFile(o, prefix) && fi == FileEntry(o, prefix)
    {
      if exists o :: o in objects && IsChildFile(o, prefix) && fi == FileEntry(o, prefix) {
        var o :| o in objects && IsChildFile(o, prefix) && fi == FileEntry(o, prefix);
        assert !Nested(o.name, prefix);
        assert o in d;
      }
    }
  }

  /** Common-prefix entries are all directories. */
  lemma PrefixEntriesAreDirectories(pitems: seq<ListItem>, prefix: string)
    requires AllChildKeys(pitems, prefix)
    ensures forall fi :: fi in Entries(pitems, prefix) ==> fi.isDir
  {
    PrefixEntriesAreDirs(pitems, prefix);
    DirEntriesIndex(pitems, prefix);
  }

  /** The non-directory entries of the two parts are the child files. */
  lemma ListedFiles(objects: seq<ObjectAttrs>, prefix: string)
    requires AllChildKeys(PrefixItems(Dedup(NestedKeys(objects, prefix))), prefix)
    ensures var d := DirectObjects(objects, prefix);
      var pitems := PrefixItems(Dedup(NestedKeys(objects, prefix)));
      forall fi :: fi in Entries(ObjectItems(d), prefix) + Entries(pitems, prefix) && !fi.isDir <==>
        exists o :: o in objects && IsChildFile(o, prefix) && fi == FileEntry(o, prefix)
  {
    var d := DirectObjects(objects, prefix);
    var pitems := PrefixItems(Dedup(NestedKeys(objects, prefix)));
    ObjectEntries(d, prefix);
    PrefixEntriesAreDirectories(pitems, prefix);
    FilesBeforeDirs(Entries(ObjectItems(d), prefix), Entries(pitems, prefix), objects, prefix);
  }

  /** File entries of a completed ReadDir: exactly the live objects directly inside. */
  lemma ReadDirFiles(fs: Fs, dirname: string)
    requires fs.store.listFault.None?
    ensures ReadDir(fs, dirname).value.Ok?
    ensures var es := ReadDir(fs, dirname).value.value;
      var prefix := DirPrefix(dirname);
      forall fi :: fi in es && !fi.isDir <==>
        exists o :: o in fs.store.objects && IsChildFile(o, prefix) && fi == FileEntry(o, prefix)
  {
    ReadDirParts(fs, dirname);
    ListedFiles(fs.store.objects, DirPrefix(dirname));
  }

  /** The directory entries of `es` name, as plain directory entries, exactly
      the ways keys below `prefix` continue. */
  ghost predicate DirsNamed(es: seq<FileInfo>, objects: seq<ObjectAttrs>, prefix: string) {
    && (forall n :: DirInfo(n) in es <==>
          '/' !in n && exists o :: o in objects && HasPrefix(o.name, prefix + n + "/"))
    && (forall fi :: fi in es && fi.isDir ==> fi == DirInfo(fi.name))
  }

  /** Directory names in file entries followed by directory entries. */
  lemma DirsAfterFiles(files: seq<FileInfo>, dirs: seq<FileInfo>, pitems: seq<ListItem>, prefix: string, objects: seq<ObjectAttrs>)
    requires NoDirs(files)
    requires dirs == DirEntries(pitems, prefix)
    requires NamesContinuations(pitems, prefix, objects)
    ensures DirsNamed(files + dirs, objects, prefix)
  {
    DirEntriesIndex(pitems, prefix);
    var es := files + dirs;
    assert forall fi :: fi in dirs ==> fi == DirInfo(fi.name);
    forall n: string
      ensures DirInfo(n) in es <==> '/' !in n && exists o :: o in objects && HasPrefix(o.name, prefix + n + "/")
    {
      if DirInfo(n) in es {
        assert DirInfo(n) !in files;
        var i :| 0 <= i < |dirs| && dirs[i] == DirInfo(n);
      }
      if '/' !in n && exists o :: o in objects && HasPrefix(o.name, prefix + n + "/") {
        var i :| 0 <= i < |pitems| && DirEntry(pitems[i], prefix) == DirInfo(n);
        assert es[|files| + i] == DirInfo(n);
      }
    }
  }

  /** Distinct directory entries after the file entries stay distinct. */
  lemma DistinctAfterFiles(files: seq<FileInfo>, dirs: seq<FileInfo>, pitems: seq<ListItem>, prefix: string)
    requires NoDirs(files)
    requires |dirs| == |pitems| && forall i :: 0 <= i < |pitems| ==> dirs[i] == DirEntry(pitems[i], prefix)
    requires forall i, j :: 0 <= i < j < |pitems| ==> DirEntry(pitems[i], prefix).name != DirEntry(pitems[j], prefix).name
    ensures var es := files + dirs;
      forall i, j :: 0 <= i < j < |es| && es[i].isDir && es[j].isDir ==> es[i].name != es[j].name
  {
    var es := files + dirs;
    forall i, j | 0 <= i < j < |es| && es[i].isDir && es[j].isDir
      ensures es[i].name != es[j].name
    {
      assert es[i] !in files && es[j] !in files;
      assert es[i] == dirs[i - |files|] && es[j] == dirs[j - |files|];
    }
  }

  /** The directory entries of the two parts name exactly the ways keys below continue. */
  lemma ListedDirs(objects: seq<ObjectAttrs>, prefix: string)
    requires AllChildKeys(PrefixItems(Dedup(NestedKeys(objects, prefix))), prefix)
    ensures var d := DirectObjects(objects, prefix);
      var pitems := PrefixItems(Dedup(NestedKeys(objects, prefix)));
      DirsNamed(Entries(ObjectItems(d), prefix) + Entries(pitems, prefix), objects, prefix)
  {
    var d := DirectObjects(objects, prefix);
    var pitems := PrefixItems(Dedup(NestedKeys(objects, prefix)));
    ObjectEntriesAreFiles(objects, prefix);
    PrefixEntriesAreDirs(pitems, prefix);
    DirNames(objects, prefix);
    DirsAfterFiles(Entries(ObjectItems(d), prefix), Entries(pitems, prefix), pitems, prefix, objects);
  }

  /** Directory entries of a completed ReadDir: exactly the names keys below
      continue with. */
  lemma ReadDirDirs(fs: Fs, dirname: string)
    requires fs.store.listFault.None?
    ensures ReadDir(fs, dirname).value.Ok?
    ensures var es := ReadDir(fs, dirname).value.value;
      var prefix := DirPrefix(dirname);
      && (forall n :: DirInfo(n) in es <==>
            '/' !in n && exists o :: o in fs.store.objects && HasPrefix(o.name, prefix + n + "/"))
      && (forall fi :: fi in es && fi.isDir ==> fi == DirInfo(fi.name))
  {
    ReadDirParts(fs, dirname);
    ListedDirs(fs.store.objects, DirPrefix(dirname));
  }

  /** A completed ReadDir names each directory once. */
  lemma ReadDirDistinct(fs: Fs, dirname: string)
    requires fs.store.listFault.None?
    ensures ReadDir(fs, dirname).value.Ok?
    ensures var es := ReadDir(fs, dirname).value.value;
      forall i, j :: 0 <= i < j < |es| && es[i].isDir && es[j].isDir ==> es[i].name != es[j].name
  {
    var prefix := DirPrefix(dirname);
    var objects := fs.store.objects;
    var d := DirectObjects(objects, prefix);
    var pitems := PrefixItems(Dedup(NestedKeys(objects, prefix)));
    ReadDirParts(fs, dirname);
    ObjectEntriesAreFiles(objects, prefix);
    PrefixEntries(pitems, prefix);
    DirNamesDistinct(objects, prefix);
    DistinctAfterFiles(Entries(ObjectItems(d), prefix), Entries(pitems, prefix), pitems, prefix);
  }

  /** ReadDir of a directory whose listing completes: every file entry is a
      live object directly inside it, and each such object gives one; the
      directory entries name, once each, every way keys below it continue. */
  lemma ReadDirContents(fs: Fs, dirname: string)
    requires fs.store.listFault.None?
    ensures ReadDir(fs, dirname).value.Ok?
    ensures var es := ReadDir(fs, dirname).value.value;
      var prefix := DirPrefix(dirname);
      var objects := fs.store.objects;
      && (forall fi :: fi in es && !fi.isDir <==>
            exists o :: o in objects && IsChildFile(o, prefix) && fi == FileEntry(o, prefix))
      && (forall n :: DirInfo(n) in es <==>
            '/' !in n && exists o :: o in objects && HasPrefix(o.name, prefix + n + "/"))
      && (forall fi :: fi in es && fi.isDir ==> fi == DirInfo(fi.name))
      && (forall i, j :: 0 <= i < j < |es| && es[i].isDir && es[j].isDir ==> es[i].name != es[j].name)
  {
    ReadDirFiles(fs, dirname);
    ReadDirDirs(fs, dirname);
    ReadDirDistinct(fs, dirname);
  }
}
