/** The Google Cloud Storage backend of the virtual filesystem (vfs/gcsfs.go):
    path mapping between user paths and object keys, and the filesystem
    operations built from prefix/delimiter listings over a flat key space.
    Every operation is a pure function of the backend value; the calls it
    would make on the bucket are returned alongside its result. */
module GcsFs {
  import opened Results
  import opened Strings
  import opened Paths
  import opened Bucket

  /** The part of GCSFsConfig the logic depends on. */
  datatype Config = Config(keyPrefix: string)

  datatype Fs = Fs(config: Config, store: Store)

  /** vfs.FileInfo as the backend fills it in. */
  datatype FileInfo = FileInfo(name: string, isDir: bool, size: int, modTime: ModTime, contentType: string)

  /** A request the backend sends to the bucket. */
  datatype Call =
    | HeadBucket
    | List(prefix: string, delimited: bool)
    | Copy(src: string, dst: string)
    | Delete(name: string)
    | Write(name: string)
    | Read(name: string, offset: int)

  /** A result together with the bucket requests that produced it. */
  datatype Traced<T> = Traced(value: T, calls: seq<Call>)

  /** The outcome of an operation that may change the bucket. */
  datatype Mutation = Mutation(store: Store, calls: seq<Call>, err: Option<Error>)

  // ---------------------------------------------------------------------------
  // Errors and their classification

  /** The backend's messages that start with an HTTP status. */
  function StatusMessage(status: string, text: string): string {
    status + " " + text
  }

  const NotFoundError: Error := Error(Plain, StatusMessage("404", "no such file or directory"))
  const ErrSymlinksUnsupported: Error := Error(Plain, StatusMessage("403", "symlinks are not supported"))
  const ErrChtimesUnsupported: Error := Error(Plain, StatusMessage("403", "chtimes is not supported"))
  /** errUnsupported, declared elsewhere in the vfs package. */
  const ErrUnsupported: Error := Error(Unsupported, "Not supported")

  /** Go's %#v rendering of a string (escapes inside are not modelled). */
  function Quote(s: string): string {
    "\"" + s + "\""
  }

  function NonEmptyDirError(verb: string, name: string): Error {
    Error(Plain, "Cannot " + verb + " non empty directory: " + Quote(name))
  }

  function GzipRangeError(offset: int): Error {
    Error(Plain, "Range request is not possible for gzip content encoding, requested offset " + FormatInt(offset))
  }

  /** IsNotExist: the client's not-found sentinels, an API 404, or "404" anywhere in the message. */
  predicate IsNotExist(err: Option<Error>): (r: bool)
    ensures r ==> err.Some?
    ensures err.Some? && err.value.tag in {ObjectNotExist, BucketNotExist, Api(404)} ==> r
    ensures err.Some? && err.value.tag !in {ObjectNotExist, BucketNotExist, Api(404)} ==>
      (r <==> Contains(err.value.message, "404"))
  {
    match err
    case None => false
    case Some(e) =>
      e.tag == ObjectNotExist || e.tag == BucketNotExist || e.tag == Api(404) || Contains(e.message, "404")
  }

  /** IsPermission: an API 403 or 401, or "403" anywhere in the message. */
  predicate IsPermission(err: Option<Error>): (r: bool)
    ensures r ==> err.Some?
    ensures err.Some? && err.value.tag in {Api(403), Api(401)} ==> r
    ensures err.Some? && err.value.tag !in {Api(403), Api(401)} ==>
      (r <==> Contains(err.value.message, "403"))
  {
    match err
    case None => false
    case Some(e) => e.tag == Api(403) || e.tag == Api(401) || Contains(e.message, "403")
  }

  // ---------------------------------------------------------------------------
  // Path mapping

  lemma TrimRoot(c: string)
    requires IsAbs(c) ==> IsCleanAbs(c)
    ensures !IsAbs(TrimPrefix(c, "/"))
  {
    if IsAbs(c) && c != "/" {
      CleanRelStartsWithName(c[1..]);
      assert TrimPrefix(c, "/") == c[1..];
    }
  }

  /** GCSFs.Join: path.Join without a leading slash. */
  function Join(elems: seq<string>): (r: string)
    ensures !IsAbs(r)
    ensures (forall i :: 0 <= i < |elems| ==> elems[i] == "") ==> r == ""
    ensures IsAbs(Paths.Join(elems)) ==> "/" + r == Paths.Join(elems)
    ensures !IsAbs(Paths.Join(elems)) ==> r == Paths.Join(elems)
  {
    var j := Paths.Join(elems);
    TrimRoot(j);
    TrimPrefix(j, "/")
  }

  /** ResolvePath: the object key for a user path. A relative path is first made
      absolute and cleaned; an absolute one is taken as it is. */
  function ResolvePath(cfg: Config, sftpPath: string): (r: string)
    ensures !IsAbs(r)
  {
    var p := if !IsAbs(sftpPath) then Clean("/" + sftpPath) else sftpPath;
    Join([cfg.keyPrefix, TrimPrefix(p, "/")])
  }

  /** The absolute, cleaned form of a key that GetRelativePath starts from. */
  function Rooted(name: string): (r: string)
    ensures IsAbs(r)
  {
    var c := Clean(name);
    var rel := if c == "." then "" else c;
    if !IsAbs(rel) then "/" + rel else rel
  }

  /** GetRelativePath: the user path for an object key. Keys outside the key
      prefix collapse to the root. */
  function GetRelativePath(cfg: Config, name: string): (r: string)
    ensures IsAbs(r)
    ensures cfg.keyPrefix != "" ==> IsCleanAbs(r)
    ensures cfg.keyPrefix != "" && !HasPrefix(Rooted(name), "/" + cfg.keyPrefix) ==> r == "/"
  {
    var rel := Rooted(name);
    var kp := cfg.keyPrefix;
    if |kp| > 0 then
      if !HasPrefix(rel, "/" + kp) then
        assert TrimPrefix("/", "/" + kp) == "/";
        assert "/" + "/" == "//";
        CleanDoubleSlash();
        Clean("/" + TrimPrefix("/", "/" + kp))
      else Clean("/" + TrimPrefix(rel, "/" + kp))
    else rel
  }

  /** resolve: a listed key relative to the listing prefix, without its trailing
      slash, and whether it had one. */
  function Resolve(name: string, prefix: string): (r: (string, bool))
    ensures r.0 + (if r.1 then "/" else "") == TrimPrefix(name, prefix)
    ensures r.1 <==> HasSuffix(TrimPrefix(name, prefix), "/")
  {
    var result := TrimPrefix(name, prefix);
    var isDir := HasSuffix(result, "/");
    (if isDir then TrimSuffix(result, "/") else result, isDir)
  }

  /** isEqual: a listed key names `sftpName` up to one trailing slash on either side. */
  predicate IsEqual(key: string, sftpName: string): (r: bool)
    ensures key == sftpName ==> r
    ensures r ==> HasPrefix(key, sftpName) || HasPrefix(sftpName, key)
    ensures r ==> |key| <= |sftpName| + 1 && |sftpName| <= |key| + 1
    ensures r && key != sftpName ==> HasSuffix(key, "/") || HasSuffix(sftpName, "/")
    ensures r <==> (key == sftpName
      || (HasPrefix(key, sftpName) && |key| == |sftpName| + 1 && key[|key| - 1] == '/')
      || (HasPrefix(sftpName, key) && |sftpName| == |key| + 1 && sftpName[|sftpName| - 1] == '/'))
  {
    key == sftpName || key == sftpName + "/" || key + "/" == sftpName
  }

  /** Appends "/" unless it is already there. */
  function WithSlash(s: string): (r: string)
    ensures HasSuffix(r, "/")
    ensures HasSuffix(s, "/") ==> r == s
    ensures !HasSuffix(s, "/") ==> r == s + "/"
  {
    if HasSuffix(s, "/") then s else s + "/"
  }

  /** getPrefixForStat: the listing prefix of the directory holding `name`. */
  function PrefixForStat(name: string): (r: string)
    ensures r == "" || (HasSuffix(r, "/") && !IsAbs(r))
  {
    var d := Dir(name);
    if d == "/" || d == "." || d == "" then ""
    else
      TrimRoot(d);
      WithSlash(TrimPrefix(d, "/"))
  }

  /** The listing prefix ReadDir and Walk use for a directory: no leading slash,
      one trailing slash; the root lists everything. */
  function DirPrefix(dirname: string): (r: string)
    ensures r == "" || HasSuffix(r, "/")
    ensures r == "" <==> dirname == "" || dirname == "."
  {
    if |dirname| > 0 && dirname != "." then WithSlash(TrimPrefix(dirname, "/")) else ""
  }

  // ---------------------------------------------------------------------------
  // Stat

  function DirInfo(name: string): FileInfo {
    FileInfo(name, true, 0, Now, "")
  }

  function ObjectInfo(name: string, a: ObjectAttrs): FileInfo {
    var isDir := HasSuffix(a.name, "/");
    FileInfo(name, isDir, a.size, a.updated, if isDir then "" else a.contentType)
  }

  /** A listing entry Stat accepts for `name`. */
  predicate Matches(item: ListItem, name: string) {
    match item
    case Prefix(p) => IsEqual(p, name)
    case Object(a) => !a.deleted && IsEqual(a.name, name)
  }

  function ItemInfo(item: ListItem, name: string): FileInfo {
    match item
    case Prefix(_) => DirInfo(name)
    case Object(a) => ObjectInfo(name, a)
  }

  /** Stat's scan of the listing: the first accepted entry wins; an exhausted
      listing is "404", a broken one reports its error. */
  function StatScan(items: seq<ListItem>, failure: Option<Error>, name: string): (r: Result<FileInfo, Error>)
    ensures r.Ok? <==> exists i :: 0 <= i < |items| && Matches(items[i], name)
    ensures r.Ok? ==> exists k :: (0 <= k < |items| && Matches(items[k], name) && r.value == ItemInfo(items[k], name)
      && forall j :: 0 <= j < k ==> !Matches(items[j], name))
    ensures r.Err? ==> r.error == failure.GetOr(NotFoundError)
  {
    if |items| == 0 then Err(failure.GetOr(NotFoundError))
    else if Matches(items[0], name) then Ok(ItemInfo(items[0], name))
    else
      var r := StatScan(items[1..], failure, name);
      ScanSkip(items, name, r);
      r
  }

  /** A first entry Stat does not accept changes nothing about the scan's answer. */
  lemma ScanSkip(items: seq<ListItem>, name: string, r: Result<FileInfo, Error>)
    requires |items| > 0 && !Matches(items[0], name)
    requires r.Ok? <==> exists i :: 0 <= i < |items[1..]| && Matches(items[1..][i], name)
    requires r.Ok? ==> exists k :: (0 <= k < |items[1..]| && Matches(items[1..][k], name) && r.value == ItemInfo(items[1..][k], name)
      && forall j :: 0 <= j < k ==> !Matches(items[1..][j], name))
    ensures r.Ok? <==> exists i :: 0 <= i < |items| && Matches(items[i], name)
    ensures r.Ok? ==> exists k :: (0 <= k < |items| && Matches(items[k], name) && r.value == ItemInfo(items[k], name)
      && forall j :: 0 <= j < k ==> !Matches(items[j], name))
  {
    assert forall i :: 1 <= i < |items| ==> items[i] == items[1..][i - 1];
    if r.Ok? {
      var k' :| 0 <= k' < |items[1..]| && Matches(items[1..][k'], name) && r.value == ItemInfo(items[1..][k'], name)
        && forall j :: 0 <= j < k' ==> !Matches(items[1..][j], name);
      assert forall j :: 1 <= j < k' + 1 ==> items[j] == items[1..][j - 1];
      assert Matches(items[k' + 1], name);
    }
  }

  /** Stat: the root is a directory iff the bucket answers; the key prefix's own
      directory needs no request; anything else is looked up in a listing of its
      parent. */
  function Stat(fs: Fs, name: string): (r: Traced<Result<FileInfo, Error>>)
    ensures ReadOnly(r.calls)
    ensures r.value.Ok? ==> r.value.value.name == name
    ensures name == "" || name == "." ==>
      && r.calls == [HeadBucket]
      && (r.value.Ok? <==> fs.store.bucketCheck.None?)
      && (r.value.Ok? ==> r.value.value.isDir)
      && (r.value.Err? ==> fs.store.bucketCheck == Some(r.value.error))
    ensures name != "" && name != "." && fs.config.keyPrefix == name + "/" ==>
      r.calls == [] && r.value == Ok(DirInfo(name))
    ensures name != "" && name != "." && fs.config.keyPrefix != name + "/" ==>
      && r.calls == [List(PrefixForStat(name), true)]
      && (r.value.Err? && fs.store.listFault.None? ==> r.value.error == NotFoundError)
  {
    if |name| == 0 || name == "." then
      match fs.store.bucketCheck
      case Some(e) => Traced(Err(e), [HeadBucket])
      case None => Traced(Ok(DirInfo(name)), [HeadBucket])
    else if fs.config.keyPrefix == name + "/" then
      Traced(Ok(DirInfo(name)), [])
    else
      var prefix := PrefixForStat(name);
      var l := ListDelimited(fs.store, prefix);
      assert fs.store.listFault.None? ==> l.failure.None?;
      Traced(StatScan(l.items, l.failure, name), [List(prefix, true)])
  }

  /** Lstat: there are no symbolic links, so it is Stat. */
  function Lstat(fs: Fs, name: string): (r: Traced<Result<FileInfo, Error>>)
    ensures r == Stat(fs, name)
  {
    Stat(fs, name)
  }

  // ---------------------------------------------------------------------------
  // ReadDir

  /** The directory entries one listing entry contributes: a common prefix is a
      subdirectory; an object is a file unless it is deleted or is the listed
      directory's own marker. */
  function EntryOf(item: ListItem, prefix: string): seq<FileInfo> {
    match item
    case Prefix(p) => [DirInfo(Resolve(p, prefix).0)]
    case Object(a) =>
      var (n, isDir) := Resolve(a.name, prefix);
      if n == "" || a.deleted then []
      else [FileInfo(n, isDir, a.size, a.updated, if isDir then "" else a.contentType)]
  }

  function Entries(items: seq<ListItem>, prefix: string): seq<FileInfo> {
    if |items| == 0 then [] else EntryOf(items[0], prefix) + Entries(items[1..], prefix)
  }

  /** ReadDir: one level of a delimited listing below the directory. */
  function ReadDir(fs: Fs, dirname: string): (r: Traced<Result<seq<FileInfo>, Error>>)
    ensures r.calls == [List(DirPrefix(dirname), true)]
    ensures r.value.Err? <==> ListDelimited(fs.store, DirPrefix(dirname)).failure.Some?
    ensures fs.store.listFault.None? ==> r.value.Ok?
  {
    var prefix := DirPrefix(dirname);
    var l := ListDelimited(fs.store, prefix);
    match l.failure
    case Some(e) => Traced(Err(e), [List(prefix, true)])
    case None => Traced(Ok(Entries(l.items, prefix)), [List(prefix, true)])
  }

  // ---------------------------------------------------------------------------
  // Rename, Remove, Mkdir

  /** No request in `calls` changes the bucket. */
  predicate ReadOnly(calls: seq<Call>) {
    forall i :: 0 <= i < |calls| ==> !calls[i].Copy? && !calls[i].Delete? && !calls[i].Write?
  }

  /** No request in `calls` is a copy. */
  predicate NoCopy(calls: seq<Call>) {
    forall i :: 0 <= i < |calls| ==> !calls[i].Copy?
  }

  /** The first copy request in `calls`, if any. */
  function FirstCopy(calls: seq<Call>): Option<Call> {
    if |calls| == 0 then None
    else if calls[0].Copy? then Some(calls[0])
    else FirstCopy(calls[1..])
  }

  /** Deletes one object: an empty directory's marker, or a file. */
  function DeleteKey(fs: Fs, key: string, calls: seq<Call>): (r: Mutation)
    ensures r.calls == calls + [Delete(key)]
    ensures r.err.None? ==> FindLive(r.store.objects, key).None?
    ensures r.err.Some? ==> r.store == fs.store && r.err == Some(ErrObjectNotExist)
    ensures r.err.Some? <==> FindLive(fs.store.objects, key).None?
  {
    match DeleteObject(fs.store, key)
    case Err(e) => Mutation(fs.store, calls + [Delete(key)], Some(e))
    case Ok(s) => Mutation(s, calls + [Delete(key)], None)
  }

  /** Remove: a directory must list no entries; its marker key ends in "/". */
  function Remove(fs: Fs, name: string, isDir: bool): (r: Mutation)
    ensures NoCopy(r.calls)
    ensures !isDir ==> r == DeleteKey(fs, name, [])
    ensures isDir && ReadDir(fs, name).value.Err? ==>
      r.store == fs.store && ReadOnly(r.calls) && r.err == Some(ReadDir(fs, name).value.error)
    ensures isDir && ReadDir(fs, name).value.Ok? && |ReadDir(fs, name).value.value| > 0 ==>
      r.store == fs.store && ReadOnly(r.calls) && r.err == Some(NonEmptyDirError("remove", name))
    ensures isDir && ReadDir(fs, name).value == Ok([]) ==>
      r == DeleteKey(fs, WithSlash(name), ReadDir(fs, name).calls)
  {
    if isDir then
      var rd := ReadDir(fs, name);
      match rd.value
      case Err(e) => Mutation(fs.store, rd.calls, Some(e))
      case Ok(contents) =>
        if |contents| > 0 then Mutation(fs.store, rd.calls, Some(NonEmptyDirError("remove", name)))
        else DeleteKey(fs, WithSlash(name), rd.calls)
    else DeleteKey(fs, name, [])
  }

  /** Copies `src` to `dst`, then removes the source the way Remove would. */
  function CopyThenRemove(fs: Fs, src: string, dst: string, isDir: bool, calls: seq<Call>): (r: Mutation)
    ensures |r.calls| > |calls| && r.calls[..|calls| + 1] == calls + [Copy(src, dst)]
    ensures forall i :: |calls| < i < |r.calls| ==> !r.calls[i].Copy?
  {
    match CopyObject(fs.store, src, dst)
    case Err(e) => Mutation(fs.store, calls + [Copy(src, dst)], Some(e))
    case Ok(s) =>
      var rm := Remove(fs.(store := s), src, isDir);
      CopyFollowedBy(calls, Copy(src, dst), rm.calls);
      Mutation(rm.store, calls + [Copy(src, dst)] + rm.calls, rm.err)
  }

  lemma ReadOnlyConcat(a: seq<Call>, b: seq<Call>)
    requires ReadOnly(a) && ReadOnly(b)
    ensures ReadOnly(a + b)
  {
    assert forall i :: |a| <= i < |a + b| ==> (a + b)[i] == b[i - |a|];
  }

  /** A request followed by requests that are no copies. */
  lemma CopyFollowedBy(calls: seq<Call>, c: Call, rest: seq<Call>)
    requires NoCopy(rest)
    ensures var all := calls + [c] + rest;
      all[..|calls| + 1] == calls + [c] && forall i :: |calls| < i < |all| ==> !all[i].Copy?
  {
    var all := calls + [c] + rest;
    assert forall i :: |calls| < i < |all| ==> all[i] == rest[i - |calls| - 1];
  }

  /** Rename of a directory Stat has found: it must list no entries, and both
      keys get their trailing slash. */
  function RenameDir(fs: Fs, source: string, target: string, calls: seq<Call>): (r: Mutation)
    requires ReadOnly(calls)
    ensures var rd := ReadDir(fs, source).value;
      && (rd.Err? ==> r.store == fs.store && ReadOnly(r.calls) && r.err == Some(rd.error))
      && (rd.Ok? && |rd.value| > 0 ==>
            r.store == fs.store && ReadOnly(r.calls) && r.err == Some(NonEmptyDirError("rename", source)))
      && (rd.Ok? && |rd.value| == 0 ==>
            FirstCopy(r.calls) == Some(Copy(WithSlash(source), WithSlash(target))))
  {
    var rd := ReadDir(fs, source);
    ReadOnlyConcat(calls, rd.calls);
    match rd.value
    case Err(e) => Mutation(fs.store, calls + rd.calls, Some(e))
    case Ok(contents) =>
      if |contents| > 0 then
        Mutation(fs.store, calls + rd.calls, Some(NonEmptyDirError("rename", source)))
      else
        var r := CopyThenRemove(fs, WithSlash(source), WithSlash(target), true, calls + rd.calls);
        FirstCopyAfter(calls + rd.calls, Copy(WithSlash(source), WithSlash(target)), r.calls);
        r
  }

  /** Rename: a no-op for identical names; otherwise a server-side copy followed
      by Remove of the source. A directory must be empty, and is moved as its
      marker object. */
  function Rename(fs: Fs, source: string, target: string): (r: Mutation)
    ensures source == target ==> r == Mutation(fs.store, [], None)
    ensures source != target && Stat(fs, source).value.Err? ==>
      r.store == fs.store && ReadOnly(r.calls) && r.err == Some(Stat(fs, source).value.error)
    ensures source != target && Stat(fs, source).value.Ok? && Stat(fs, source).value.value.isDir ==>
      r == RenameDir(fs, source, target, Stat(fs, source).calls)
    ensures source != target && Stat(fs, source).value.Ok? && !Stat(fs, source).value.value.isDir ==>
      FirstCopy(r.calls) == Some(Copy(source, target))
  {
    if source == target then Mutation(fs.store, [], None)
    else
      var st := Stat(fs, source);
      match st.value
      case Err(e) => Mutation(fs.store, st.calls, Some(e))
      case Ok(fi) =>
        if fi.isDir then RenameDir(fs, source, target, st.calls)
        else RenameFile(fs, source, target, st.calls)
  }

  /** Rename of a file Stat has found: copy, then remove the source. */
  function RenameFile(fs: Fs, source: string, target: string, calls: seq<Call>): (r: Mutation)
    requires ReadOnly(calls)
    ensures FirstCopy(r.calls) == Some(Copy(source, target))
  {
    var r := CopyThenRemove(fs, source, target, false, calls);
    FirstCopyAfter(calls, Copy(source, target), r.calls);
    r
  }

  lemma {:induction false} FirstCopyAfter(pre: seq<Call>, c: Call, calls: seq<Call>)
    requires ReadOnly(pre) && c.Copy?
    requires |calls| > |pre| && calls[..|pre| + 1] == pre + [c]
    ensures FirstCopy(calls) == Some(c)
    decreases |pre|
  {
    if |pre| == 0 {
      assert calls[0] == c;
    } else {
      assert calls[0] == pre[0];
      assert calls[1..][..|pre[1..]| + 1] == pre[1..] + [c];
      FirstCopyAfter(pre[1..], c, calls[1..]);
    }
  }

  /** Create, once the upload it starts has completed: the object holds the
      uploaded bytes and every other name is left as it was. */
  function Create(fs: Fs, name: string, size: nat, contentType: string): (r: Mutation)
    ensures r.calls == [Write(name)] && r.err.None?
    ensures FindLive(r.store.objects, name) == Some(ObjectAttrs(name, size, false, contentType, "", Now))
    ensures forall n :: n != name ==> FindLive(r.store.objects, n) == FindLive(fs.store.objects, n)
  {
    var o := ObjectAttrs(name, size, false, contentType, "", Now);
    PutFinds(fs.store.objects, o);
    forall n | n != name
      ensures FindLive(Put(fs.store.objects, o), n) == FindLive(fs.store.objects, n)
    {
      PutKeepsOthers(fs.store.objects, o, n);
    }
    Mutation(fs.store.(objects := Put(fs.store.objects, o)), [Write(name)], None)
  }

  /** Put leaves the record found under any other name alone. */
  lemma {:induction false} PutKeepsOthers(objects: seq<ObjectAttrs>, o: ObjectAttrs, n: string)
    requires n != o.name
    ensures FindLive(Put(objects, o), n) == FindLive(objects, n)
    decreases |objects|
  {
    if |objects| == 0 {
      assert Put(objects, o) == [o];
    } else {
      var rest := RemoveLive(objects[1..], o.name);
      if IsLive(objects[0], o.name) {
        assert Put(objects, o) == rest + [o];
        PutKeepsOthers(objects[1..], o, n);
      } else {
        assert Put(objects, o) == [objects[0]] + (rest + [o]);
        assert (rest + [o]) == Put(objects[1..], o);
        PutKeepsOthers(objects[1..], o, n);
      }
    }
  }

  /** Mkdir: nothing to do when Stat finds the name; any error other than
      not-found is returned; otherwise an empty marker object "name/" is written. */
  function Mkdir(fs: Fs, name: string): (r: Mutation)
    ensures Stat(fs, name).value.Ok? ==> r.store == fs.store && r.err.None? && ReadOnly(r.calls)
    ensures Stat(fs, name).value.Err? && !IsNotExist(Some(Stat(fs, name).value.error)) ==>
      r.store == fs.store && ReadOnly(r.calls) && r.err == Some(Stat(fs, name).value.error)
    ensures Stat(fs, name).value.Err? && IsNotExist(Some(Stat(fs, name).value.error)) ==>
      && r.err.None?
      && r.calls == Stat(fs, name).calls + [Write(WithSlash(name))]
      && FindLive(r.store.objects, WithSlash(name)) == Some(ObjectAttrs(WithSlash(name), 0, false, "", "", Now))
  {
    var st := Stat(fs, name);
    var err := st.value.ErrorOf();
    if !IsNotExist(err) then Mutation(fs.store, st.calls, err)
    else
      var c := Create(fs, WithSlash(name), 0, "");
      Mutation(c.store, st.calls + c.calls, c.err)
  }

  /** After Put, the stored record is the one found under its name. */
  lemma {:induction false} PutFinds(objects: seq<ObjectAttrs>, o: ObjectAttrs)
    requires !o.deleted
    ensures FindLive(Put(objects, o), o.name) == Some(o)
  {
    var rest := RemoveLive(objects, o.name);
    FindAfterRemoved(rest, o);
  }

  lemma {:induction false} FindAfterRemoved(rest: seq<ObjectAttrs>, o: ObjectAttrs)
    requires !o.deleted
    requires forall x :: x in rest ==> !IsLive(x, o.name)
    ensures FindLive(rest + [o], o.name) == Some(o)
    decreases |rest|
  {
    if |rest| == 0 {
      assert rest + [o] == [o];
    } else {
      assert (rest + [o])[0] == rest[0];
      assert (rest + [o])[1..] == rest[1..] + [o];
      FindAfterRemoved(rest[1..], o);
    }
  }

  // ---------------------------------------------------------------------------
  // Open

  /** An admitted download: the object and the offset it starts at. */
  datatype Reader = Reader(attrs: ObjectAttrs, offset: int)

  /** Open's admission check: a ranged read of a gzip-encoded object is refused
      with an error naming the offset, and no reader is handed out. */
  function Open(fs: Fs, name: string, offset: int): (r: Traced<Result<Reader, Error>>)
    ensures r.calls == [Read(name, offset)]
    ensures r.value.Ok? ==>
      (IsLive(r.value.value.attrs, name) && r.value.value.offset == offset
       && !(offset > 0 && r.value.value.attrs.contentEncoding == "gzip"))
    ensures FindLive(fs.store.objects, name).None? ==> r.value == Err(ErrObjectNotExist)
    ensures FindLive(fs.store.objects, name).Some? && offset <= 0 ==> r.value.Ok?
    ensures FindLive(fs.store.objects, name).Some? && offset > 0 ==>
      (r.value.Err? <==> FindLive(fs.store.objects, name).value.contentEncoding == "gzip")
    ensures r.value.Err? && offset > 0 && FindLive(fs.store.objects, name).Some? ==>
      r.value.error == GzipRangeError(offset)
  {
    match FindLive(fs.store.objects, name)
    case None => Traced(Err(ErrObjectNotExist), [Read(name, offset)])
    case Some(o) =>
      if offset > 0 && o.contentEncoding == "gzip" then Traced(Err(GzipRangeError(offset)), [Read(name, offset)])
      else Traced(Ok(Reader(o, offset)), [Read(name, offset)])
  }

  // ---------------------------------------------------------------------------
  // Walk

  /** One call of the walk callback: the path, its FileInfo (absent on a listing
      error) and the error passed in. */
  datatype WalkVisit = WalkVisit(path: string, info: Option<FileInfo>, err: Option<Error>)

  datatype WalkScan = WalkScan(visits: seq<WalkVisit>, stoppedBy: Option<Error>)

  datatype WalkOutcome = WalkOutcome(visits: seq<WalkVisit>, err: Option<Error>, calls: seq<Call>)

  /** The callback call Walk makes for one object. */
  function EntryVisit(o: ObjectAttrs): WalkVisit {
    WalkVisit(o.name, Some(FileInfo(Clean(o.name), HasSuffix(o.name, "/"), o.size, o.updated, "")), None)
  }

  /** Walk's loop: the callback is called on each visit in turn until it
      first returns an error. */
  function RunUntilError(visits: seq<WalkVisit>, walkFn: WalkVisit -> Option<Error>): (r: WalkScan)
    ensures r.visits <= visits
    ensures forall i :: 0 <= i < |r.visits| - 1 ==> walkFn(r.visits[i]).None?
    ensures r.stoppedBy.None? ==>
      (r.visits == visits && forall i :: 0 <= i < |r.visits| ==> walkFn(r.visits[i]).None?)
    ensures r.stoppedBy.Some? ==> (|r.visits| > 0 && walkFn(r.visits[|r.visits| - 1]) == r.stoppedBy)
  {
    if |visits| == 0 then WalkScan([], None)
    else
      match walkFn(visits[0])
      case Some(e) => WalkScan([visits[0]], Some(e))
      case None =>
        var rest := RunUntilError(visits[1..], walkFn);
        ScanCons(visits, walkFn, rest);
        WalkScan([visits[0]] + rest.visits, rest.stoppedBy)
  }

  /** A visit the callback accepts, in front of the scan of the remaining visits. */
  lemma ScanCons(visits: seq<WalkVisit>, walkFn: WalkVisit -> Option<Error>, rest: WalkScan)
    requires |visits| > 0 && walkFn(visits[0]).None?
    requires rest.visits <= visits[1..]
    requires forall i :: 0 <= i < |rest.visits| - 1 ==> walkFn(rest.visits[i]).None?
    requires rest.stoppedBy.None? ==>
      (rest.visits == visits[1..] && forall i :: 0 <= i < |rest.visits| ==> walkFn(rest.visits[i]).None?)
    requires rest.stoppedBy.Some? ==> (|rest.visits| > 0 && walkFn(rest.visits[|rest.visits| - 1]) == rest.stoppedBy)
    ensures var seen := [visits[0]] + rest.visits;
      && seen <= visits
      && (forall i :: 0 <= i < |seen| - 1 ==> walkFn(seen[i]).None?)
      && (rest.stoppedBy.None? ==> (seen == visits && forall i :: 0 <= i < |seen| ==> walkFn(seen[i]).None?))
      && (rest.stoppedBy.Some? ==> walkFn(seen[|seen| - 1]) == rest.stoppedBy)
  {
    var seen := [visits[0]] + rest.visits;
    assert forall i :: 1 <= i < |seen| ==> seen[i] == rest.visits[i - 1];
    assert visits == [visits[0]] + visits[1..];
  }

  /** The callback calls for the objects of a listing: one per non-deleted
      record, in listing order. */
  function ObjectVisits(objects: seq<ObjectAttrs>): seq<WalkVisit> {
    if |objects| == 0 then []
    else
      var last := objects[|objects| - 1];
      ObjectVisits(objects[..|objects| - 1]) + (if last.deleted then [] else [EntryVisit(last)])
  }

  /** Walk as the source writes it: the `err` assigned from the callback
      inside the loop is a new variable scoped to the loop, so after a callback
      error the final call and the result carry the outer `err`, which is nil.
      A broken listing gets a final call with no FileInfo and is returned. */
  function WalkVisitsAsWritten(visits: seq<WalkVisit>, failure: Option<Error>, root: string, walkFn: WalkVisit -> Option<Error>): (r: (seq<WalkVisit>, Option<Error>))
    ensures |r.0| >= 1 && r.0[|r.0| - 1].path == root && r.0[|r.0| - 1].err == r.1
    ensures r.0[..|r.0| - 1] == RunUntilError(visits, walkFn).visits
    ensures RunUntilError(visits, walkFn).stoppedBy.Some? ==>
      r.1.None? && r.0[|r.0| - 1].info == Some(DirInfo(root))
    ensures r.1.Some? <==>
      (failure.Some? && r.0[..|r.0| - 1] == visits && forall i :: 0 <= i < |visits| ==> walkFn(visits[i]).None?)
    ensures r.1.Some? ==> r.1 == failure && r.0[|r.0| - 1].info.None?
    ensures r.1.None? ==> r.0[|r.0| - 1].info == Some(DirInfo(root))
    ensures failure.None? ==> r.1.None?
  {
    var scan := RunUntilError(visits, walkFn);
    var all := if scan.stoppedBy.None? && failure.Some? then scan.visits + [WalkVisit(root, None, failure)]
      else scan.visits + [WalkVisit(root, Some(DirInfo(root)), None)];
    assert all[..|all| - 1] == scan.visits;
    StoppedIsRejected(visits, walkFn);
    if scan.stoppedBy.None? && failure.Some? then (all, failure) else (all, None)
  }

  /** A scan that stopped has met a visit the callback rejects. */
  lemma StoppedIsRejected(visits: seq<WalkVisit>, walkFn: WalkVisit -> Option<Error>)
    ensures RunUntilError(visits, walkFn).stoppedBy.Some? ==>
      !(forall i :: 0 <= i < |visits| ==> walkFn(visits[i]).None?)
  {
    var scan := RunUntilError(visits, walkFn);
    if scan.stoppedBy.Some? {
      var k := |scan.visits| - 1;
      assert scan.visits == visits[..|scan.visits|];
      assert visits[k] == scan.visits[k];
    }
  }

  /** Walk with the error that ended it carried through, as the source evidently
      intends (see "Findings" in the README): the callback sees the visits in
      order until it returns an error; then it is called once more with `root`,
      and that call and the result carry the error that ended the walk. */
  function WalkVisits(visits: seq<WalkVisit>, failure: Option<Error>, root: string, walkFn: WalkVisit -> Option<Error>): (r: (seq<WalkVisit>, Option<Error>))
    ensures |r.0| >= 1 && r.0[|r.0| - 1].path == root && r.0[|r.0| - 1].err == r.1
    ensures r.0[..|r.0| - 1] <= visits
    ensures r.1.None? ==>
      (r.0[..|r.0| - 1] == visits && failure.None? && forall i :: 0 <= i < |visits| ==> walkFn(visits[i]).None?)
    ensures r.0[|r.0| - 1].info.None? ==>
      (r.1 == failure && failure.Some? && r.0[..|r.0| - 1] == visits
       && forall i :: 0 <= i < |visits| ==> walkFn(visits[i]).None?)
    ensures r.0[|r.0| - 1].info.Some? && r.1.Some? ==> (|r.0| >= 2 && walkFn(r.0[|r.0| - 2]) == r.1)
    ensures RunUntilError(visits, walkFn).stoppedBy.Some? ==> r.1 == RunUntilError(visits, walkFn).stoppedBy
    ensures r.0[|r.0| - 1].info.Some? ==> r.0[|r.0| - 1].info == Some(DirInfo(root))
    ensures failure.None? ==> r.0[|r.0| - 1].info == Some(DirInfo(root))
  {
    var scan := RunUntilError(visits, walkFn);
    var err := if scan.stoppedBy.Some? then scan.stoppedBy else failure;
    var info := if scan.stoppedBy.None? && failure.Some? then None else Some(DirInfo(root));
    var all := scan.visits + [WalkVisit(root, info, err)];
    assert all[..|all| - 1] == scan.visits;
    (all, err)
  }

  /** Walk: an undelimited listing below `root`, each non-deleted object
      offered to the callback in listing order. As written, an error the
      callback returns stops the walk but is lost: the final call with `root`
      and the result carry no error. Only a broken listing is reported. */
  function Walk(fs: Fs, root: string, walkFn: WalkVisit -> Option<Error>): (r: WalkOutcome)
    ensures r.calls == [List(DirPrefix(root), false)]
    ensures var l := ListFlat(fs.store, DirPrefix(root));
      var scan := RunUntilError(ObjectVisits(l.objects), walkFn);
      && |r.visits| >= 1
      && r.visits[..|r.visits| - 1] == scan.visits
      && r.visits[|r.visits| - 1].path == root
      && r.visits[|r.visits| - 1].err == r.err
      && (scan.stoppedBy.Some? ==> r.err.None? && r.visits[|r.visits| - 1].info == Some(DirInfo(root)))
      && (r.err.Some? <==> l.failure.Some? && scan.stoppedBy.None?)
      && (r.err.Some? ==> r.err == l.failure && r.visits[|r.visits| - 1].info.None?)
      && (r.err.None? ==> r.visits[|r.visits| - 1].info == Some(DirInfo(root)))
  {
    var prefix := DirPrefix(root);
    var l := ListFlat(fs.store, prefix);
    var w := WalkVisitsAsWritten(ObjectVisits(l.objects), l.failure, root, walkFn);
    StoppedIsRejected(ObjectVisits(l.objects), walkFn);
    WalkOutcome(w.0, w.1, [List(prefix, false)])
  }

  /** Walk as evidently intended: as Walk, but the error that ended the walk,
      the callback's or the listing's, reaches the final call and the result. */
  function WalkCorrected(fs: Fs, root: string, walkFn: WalkVisit -> Option<Error>): (r: WalkOutcome)
    ensures r.calls == [List(DirPrefix(root), false)]
    ensures var l := ListFlat(fs.store, DirPrefix(root));
      var scan := RunUntilError(ObjectVisits(l.objects), walkFn);
      && |r.visits| >= 1
      && r.visits[..|r.visits| - 1] <= ObjectVisits(l.objects)
      && r.visits[|r.visits| - 1].path == root
      && r.visits[|r.visits| - 1].err == r.err
      && (r.err.None? <==> l.failure.None? && scan.stoppedBy.None?)
      && (scan.stoppedBy.Some? ==> r.err == scan.stoppedBy && r.visits[|r.visits| - 1].info == Some(DirInfo(root)))
      && (scan.stoppedBy.None? ==> r.err == l.failure)
      && (r.visits[|r.visits| - 1].info.None? <==> l.failure.Some? && scan.stoppedBy.None?)
      && (r.visits[|r.visits| - 1].info.Some? ==> r.visits[|r.visits| - 1].info == Some(DirInfo(root)))
  {
    var prefix := DirPrefix(root);
    var l := ListFlat(fs.store, prefix);
    var visits := ObjectVisits(l.objects);
    var w := WalkVisits(visits, l.failure, root, walkFn);
    StoppedIsRejected(visits, walkFn);
    WalkOutcome(w.0, w.1, [List(prefix, false)])
  }

  // ---------------------------------------------------------------------------
  // Scanning the whole key prefix

  /** Number of non-deleted records. */
  function LiveCount(objects: seq<ObjectAttrs>): nat {
    if |objects| == 0 then 0
    else LiveCount(objects[..|objects| - 1]) + (if objects[|objects| - 1].deleted then 0 else 1)
  }

  /** Total size of the non-deleted records. */
  function LiveSize(objects: seq<ObjectAttrs>): nat {
    if |objects| == 0 then 0
    else LiveSize(objects[..|objects| - 1]) + (if objects[|objects| - 1].deleted then 0 else objects[|objects| - 1].size)
  }

  /** Counting one more record of a listing. */
  lemma LiveStep(objects: seq<ObjectAttrs>, i: int)
    requires 0 <= i < |objects|
    ensures LiveCount(objects[..i + 1]) == LiveCount(objects[..i]) + (if objects[i].deleted then 0 else 1)
    ensures LiveSize(objects[..i + 1]) == LiveSize(objects[..i]) + (if objects[i].deleted then 0 else objects[i].size)
  {
    assert objects[..i + 1][..i] == objects[..i];
  }

  /** ScanRootDirContents: how many non-deleted objects the key prefix holds and
      their total size, as far as the listing got, and how it ended. */
  method ScanRootDirContents(fs: Fs) returns (numFiles: nat, size: int, err: Option<Error>)
    ensures var l := ListFlat(fs.store, fs.config.keyPrefix);
      numFiles == LiveCount(l.objects) && size == LiveSize(l.objects) && err == l.failure
  {
    var l := ListFlat(fs.store, fs.config.keyPrefix);
    var objects := l.objects;
    numFiles, size := 0, 0;
    var i := 0;
    while i < |objects|
      invariant 0 <= i <= |objects|
      invariant numFiles == LiveCount(objects[..i])
      invariant size == LiveSize(objects[..i])
    {
      LiveStep(objects, i);
      if !objects[i].deleted {
        numFiles := numFiles + 1;
        size := size + objects[i].size;
      }
      i := i + 1;
    }
    assert objects[..i] == objects;
    err := l.failure;
  }

  /** GetDirSize: not supported on this backend. */
  function GetDirSize(fs: Fs, dirname: string): (r: (int, int, Option<Error>))
    ensures r.2.Some? && r.2.value.tag == Unsupported && r.0 == 0 && r.1 == 0
  {
    (0, 0, Some(ErrUnsupported))
  }

  // ---------------------------------------------------------------------------
  // Fixed behaviour of this backend

  /** Symlink: refused with an error the permission check recognises. */
  function Symlink(fs: Fs, source: string, target: string): (r: Option<Error>)
    ensures IsPermission(r) && !IsNotExist(r)
  {
    ForbiddenMessage("symlinks are not supported");
    Some(ErrSymlinksUnsupported)
  }

  /** Chtimes: refused with an error the permission check recognises. */
  function Chtimes(fs: Fs, name: string, atime: ModTime, mtime: ModTime): (r: Option<Error>)
    ensures IsPermission(r) && !IsNotExist(r)
  {
    ForbiddenMessage("chtimes is not supported");
    Some(ErrChtimesUnsupported)
  }

  /** A "403" message with no "4" in its text reads as a permission error only. */
  lemma ForbiddenMessage(text: string)
    requires '4' !in text
    ensures Contains(StatusMessage("403", text), "403")
    ensures !Contains(StatusMessage("403", text), "404")
  {
    var s := StatusMessage("403", text);
    assert OccursAt(s, "403", 0);
    assert s[1..] == "03 " + text;
    assert forall j :: 1 <= j < |s| ==> s[j] == s[1..][j - 1] && s[j] != '4';
    assert s[2] == '3';
    NotContains(s, "404");
  }

  /** Chown: silently accepted. */
  function Chown(fs: Fs, name: string, uid: int, gid: int): (r: Option<Error>)
    ensures !IsNotExist(r) && !IsPermission(r)
  {
    None
  }

  /** Chmod: silently accepted. */
  function Chmod(fs: Fs, name: string, mode: int): (r: Option<Error>)
    ensures !IsNotExist(r) && !IsPermission(r)
  {
    None
  }

  /** GetAtomicUploadPath: never used by this backend, since uploads are
      written in place. */
  function GetAtomicUploadPath(name: string): (r: string)
    ensures !IsUploadResumeSupported() && !IsAtomicUploadSupported() ==> r == ""
  {
    ""
  }

  /** IsUploadResumeSupported: an object cannot be appended to. */
  function IsUploadResumeSupported(): (r: bool)
    ensures !r
  {
    false
  }

  /** IsAtomicUploadSupported: uploads are not staged under a temporary name. */
  function IsAtomicUploadSupported(): (r: bool)
    ensures !r
  {
    false
  }

  /** HasVirtualFolders: directories are emulated from key prefixes. */
  function HasVirtualFolders(): (r: bool)
    ensures r
  {
    true
  }
}
