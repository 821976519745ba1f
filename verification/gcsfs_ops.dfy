/** What the mutating operations of the GCS backend do to the bucket, seen
    through later lookups: Rename moves a file, Mkdir makes Stat find a
    directory, Remove refuses a directory with entries. Also the Walk
    discrepancy and the counting behind the quota scan. */
module GcsFsOps {
  import opened Results
  import opened Strings
  import opened Paths
  import opened Bucket
  import opened GcsFs
  import opened GcsFsPaths
  import opened GcsFsStat
  import opened GcsFsReadDir

  // ---------------------------------------------------------------------------
  // Rename

  lemma FindLiveCons(x: ObjectAttrs, rest: seq<ObjectAttrs>, n: string)
    ensures FindLive([x] + rest, n) == if IsLive(x, n) then Some(x) else FindLive(rest, n)
  {
    assert ([x] + rest)[1..] == rest;
  }

  /** Dropping the live records of one name leaves every other name alone. */
  lemma {:induction false} RemoveKeepsOthers(objects: seq<ObjectAttrs>, name: string, n: string)
    requires n != name
    ensures FindLive(RemoveLive(objects, name), n) == FindLive(objects, n)
    decreases |objects|
  {
    if |objects| > 0 {
      var x := objects[0];
      var rest := RemoveLive(objects[1..], name);
      RemoveKeepsOthers(objects[1..], name, n);
      if IsLive(x, name) {
        assert RemoveLive(objects, name) == [] + rest;
        assert [] + rest == rest;
      } else {
        assert RemoveLive(objects, name) == [x] + rest;
        FindLiveCons(x, rest, n);
      }
    }
  }

  /** Renaming an existing file: the target now holds the source's record
      under the new name, the source is gone, and no other name changes. */
  lemma RenameMovesFile(fs: Fs, source: string, target: string)
    requires IsCleanRel(source) && fs.config.keyPrefix != source + "/" && fs.store.listFault.None?
    requires source != target && HasFile(fs.store.objects, source)
    ensures var r := Rename(fs, source, target);
      var o := FindLive(fs.store.objects, source).value;
      && r.err.None?
      && FindLive(r.store.objects, target) == Some(o.(name := target))
      && FindLive(r.store.objects, source).None?
      && (forall n :: n != source && n != target ==> FindLive(r.store.objects, n) == FindLive(fs.store.objects, n))
  {
    StatOfName(fs, source);
    var objects := fs.store.objects;
    var st := Stat(fs, source);
    assert st.value.Ok? && !st.value.value.isDir;
    var o := FindLive(objects, source).value;
    var moved := o.(name := target);
    var s1 := fs.store.(objects := Put(objects, moved));
    assert CopyObject(fs.store, source, target) == Ok(s1);
    PutKeepsOthers(objects, moved, source);
    PutFinds(objects, moved);
    var after := RemoveLive(s1.objects, source);
    assert DeleteObject(s1, source) == Ok(s1.(objects := after));
    var rm := Remove(fs.(store := s1), source, false);
    assert rm == Mutation(s1.(objects := after), [Delete(source)], None);
    var r := Rename(fs, source, target);
    assert r == CopyThenRemove(fs, source, target, false, st.calls);
    assert r.store.objects == after && r.err.None?;
    RemoveKeepsOthers(s1.objects, source, target);
    forall n | n != source && n != target
      ensures FindLive(after, n) == FindLive(objects, n)
    {
      RemoveKeepsOthers(s1.objects, source, n);
      PutKeepsOthers(objects, moved, n);
    }
  }

  // ---------------------------------------------------------------------------
  // Mkdir

  /** After Mkdir the name exists, and it is a directory unless a file already
      carried that name. */
  lemma MkdirThenStat(fs: Fs, name: string)
    requires IsCleanRel(name) && fs.config.keyPrefix != name + "/" && fs.store.listFault.None?
    ensures var r := Mkdir(fs, name);
      var st := Stat(fs.(store := r.store), name).value;
      && r.err.None?
      && st.Ok?
      && (st.value.isDir <==> !HasFile(fs.store.objects, name))
  {
    StatOfName(fs, name);
    var r := Mkdir(fs, name);
    if Stat(fs, name).value.Err? {
      CleanRelNoTrailingSlash(name);
      var key := name + "/";
      assert WithSlash(name) == key;
      var c := Create(fs, key, 0, "");
      assert r.store == c.store;
      assert c.store.listFault == fs.store.listFault;
      var objects := c.store.objects;
      var marker := FindLive(objects, key).value;
      assert HasPrefix(marker.name, name + "/");
      assert HasChildren(objects, name);
      assert FindLive(objects, name) == FindLive(fs.store.objects, name);
      assert !HasFile(objects, name);
      StatOfName(fs.(store := c.store), name);
    }
  }

  // ---------------------------------------------------------------------------
  // Remove

  /** The directory behind listing prefix `prefix` lists at least one entry:
      a file directly inside it, or a key further down. */
  predicate HasEntries(objects: seq<ObjectAttrs>, prefix: string) {
    (exists o :: o in objects && IsChildFile(o, prefix))
    || (exists o :: o in objects && Nested(o.name, prefix))
  }

  /** A key below `prefix + n + "/"` is nested below `prefix`. */
  lemma DirNameNested(x: string, prefix: string, n: string)
    requires HasPrefix(x, prefix + n + "/")
    ensures Nested(x, prefix)
  {
    assert x[..|prefix|] == prefix;
    assert x[|prefix|..][|n|] == '/';
  }

  /** A listing with some entry comes from a child file or a nested key. */
  lemma NonEmptyListingHasEntries(objects: seq<ObjectAttrs>, prefix: string)
    ensures (|Entries(ObjectItems(DirectObjects(objects, prefix)), prefix)
               + Entries(PrefixItems(Dedup(NestedKeys(objects, prefix))), prefix)| > 0)
            ==> HasEntries(objects, prefix)
  {
    ListedChildKeys(objects, prefix);
    var d := DirectObjects(objects, prefix);
    var pitems := PrefixItems(Dedup(NestedKeys(objects, prefix)));
    var files := Entries(ObjectItems(d), prefix);
    var dirs := Entries(pitems, prefix);
    if |files + dirs| == 0 {
    } else if |files| > 0 {
      ObjectEntries(d, prefix);
      assert files[0] in files;
      var o :| o in d && IsChildFile(o, prefix) && files[0] == FileEntry(o, prefix);
    } else {
      PrefixEntriesAreDirs(pitems, prefix);
      DirEntriesIndex(pitems, prefix);
      var o := DirNameSource(objects, prefix, 0);
      DirNameNested(o.name, prefix, DirEntry(pitems[0], prefix).name);
    }
  }

  /** A child file or a nested key gives the listing some entry. */
  lemma EntriesMakeListing(objects: seq<ObjectAttrs>, prefix: string)
    requires HasEntries(objects, prefix)
    ensures |Entries(ObjectItems(DirectObjects(objects, prefix)), prefix)
      + Entries(PrefixItems(Dedup(NestedKeys(objects, prefix))), prefix)| > 0
  {
    ListedChildKeys(objects, prefix);
    var d := DirectObjects(objects, prefix);
    var pitems := PrefixItems(Dedup(NestedKeys(objects, prefix)));
    if exists o :: o in objects && IsChildFile(o, prefix) {
      var o :| o in objects && IsChildFile(o, prefix);
      assert !Nested(o.name, prefix);
      assert o in d;
      ObjectEntries(d, prefix);
      assert FileEntry(o, prefix) in Entries(ObjectItems(d), prefix);
    } else {
      var o :| o in objects && Nested(o.name, prefix);
      var j := NestedKeyListed(objects, prefix, o);
      PrefixEntriesAreDirs(pitems, prefix);
      DirEntriesIndex(pitems, prefix);
    }
  }

  /** ReadDir lists something exactly when the directory has entries. */
  lemma ListedIffEntries(fs: Fs, dirname: string)
    requires fs.store.listFault.None?
    ensures ReadDir(fs, dirname).value.Ok?
    ensures |ReadDir(fs, dirname).value.value| > 0 <==> HasEntries(fs.store.objects, DirPrefix(dirname))
  {
    ReadDirParts(fs, dirname);
    var objects := fs.store.objects;
    var prefix := DirPrefix(dirname);
    if |ReadDir(fs, dirname).value.value| > 0 {
      NonEmptyListingHasEntries(objects, prefix);
    }
    if HasEntries(objects, prefix) {
      EntriesMakeListing(objects, prefix);
    }
  }

  /** Removing a directory is refused exactly when it has entries; otherwise
      its marker object is deleted. */
  lemma RemoveDirChecksEmptiness(fs: Fs, name: string)
    requires fs.store.listFault.None?
    ensures var r := Remove(fs, name, true);
      var prefix := DirPrefix(name);
      && (r.err == Some(NonEmptyDirError("remove", name)) <==> HasEntries(fs.store.objects, prefix))
      && (HasEntries(fs.store.objects, prefix) ==> r.store == fs.store)
      && (!HasEntries(fs.store.objects, prefix) ==> r == DeleteKey(fs, WithSlash(name), ReadDir(fs, name).calls))
  {
    ListedIffEntries(fs, name);
    var r := Remove(fs, name, true);
    if !HasEntries(fs.store.objects, DirPrefix(name)) {
      assert ReadDir(fs, name).value == Ok([]);
      assert r.err.Some? ==> r.err.value.tag == ObjectNotExist;
    }
  }

  // ---------------------------------------------------------------------------
  // Walk

  lemma OneObjectVisit(o: ObjectAttrs)
    requires !o.deleted
    ensures ObjectVisits([o]) == [EntryVisit(o)]
  {
    assert [o][..0] == [];
  }

  lemma RefusedFirst(v: WalkVisit, walkFn: WalkVisit -> Option<Error>, e: Error)
    requires walkFn(v) == Some(e)
    ensures RunUntilError([v], walkFn).stoppedBy == Some(e)
  {
  }

  /** A bucket holding one live object "a", walked from the root "" with a
      callback that refuses every call: the walk as written reports success,
      the corrected walk reports the callback's error. */
  lemma WalkCallbackErrorLost(e: Error)
    ensures var fs := Fs(Config(""), Store([ObjectAttrs("a", 1, false, "", "", Now)], None, None));
      var refuse := (v: WalkVisit) => Some(e);
      && Walk(fs, "", refuse).err == None
      && |Walk(fs, "", refuse).visits| == 2
      && WalkCorrected(fs, "", refuse).err == Some(e)
  {
    var o := ObjectAttrs("a", 1, false, "", "", Now);
    var fs := Fs(Config(""), Store([o], None, None));
    var refuse := (v: WalkVisit) => Some(e);
    assert DirPrefix("") == "";
    assert HasPrefix(o.name, "");
    assert Under([o], "") == [o];
    assert ListFlat(fs.store, "") == FlatListing([o], None);
    OneObjectVisit(o);
    RefusedFirst(EntryVisit(o), refuse, e);
    assert RunUntilError([EntryVisit(o)], refuse).visits == [EntryVisit(o)];
  }

  // ---------------------------------------------------------------------------
  // Counting for the quota scan

  /** The scan's file count is the number of objects Walk would visit. */
  lemma {:induction false} LiveCountIsVisits(objects: seq<ObjectAttrs>)
    ensures LiveCount(objects) == |ObjectVisits(objects)|
    decreases |objects|
  {
    if |objects| > 0 {
      LiveCountIsVisits(objects[..|objects| - 1]);
    }
  }

  lemma EntryVisitSize(o: ObjectAttrs)
    ensures EntryVisit(o).info.Some? && EntryVisit(o).info.value.size == o.size
  {
  }

  /** The scan's total size is the sum of the sizes Walk's visits report. */
  lemma {:induction false} LiveSizeIsVisitSizes(objects: seq<ObjectAttrs>)
    ensures LiveSize(objects) == VisitSizes(ObjectVisits(objects))
    decreases |objects|
  {
    if |objects| > 0 {
      var init := objects[..|objects| - 1];
      var x := objects[|objects| - 1];
      LiveSizeIsVisitSizes(init);
      if !x.deleted {
        assert ObjectVisits(objects) == ObjectVisits(init) + [EntryVisit(x)];
        assert LiveSize(objects) == LiveSize(init) + x.size;
        EntryVisitSize(x);
        VisitSizesSnoc(ObjectVisits(init), EntryVisit(x));
      } else {
        assert ObjectVisits(objects) == ObjectVisits(init) + [];
        assert ObjectVisits(init) + [] == ObjectVisits(init);
      }
    }
  }

  /** Total of the sizes the visits report. */
  function VisitSizes(visits: seq<WalkVisit>): int {
    if |visits| == 0 then 0
    else (if visits[0].info.Some? then visits[0].info.value.size else 0) + VisitSizes(visits[1..])
  }

  lemma {:induction false} VisitSizesSnoc(visits: seq<WalkVisit>, v: WalkVisit)
    ensures VisitSizes(visits + [v]) == VisitSizes(visits) + (if v.info.Some? then v.info.value.size else 0)
    decreases |visits|
  {
    if |visits| == 0 {
      assert visits + [v] == [v];
    } else {
      assert (visits + [v])[0] == visits[0];
      assert (visits + [v])[1..] == visits[1..] + [v];
      VisitSizesSnoc(visits[1..], v);
    }
  }

  // ---------------------------------------------------------------------------
  // Error classification

  /** IsNotExist looks for "404" anywhere in the message, so refusing a ranged
      read of gzip content at offset 404 reads as "not found". */
  lemma GzipOffsetReadsAsNotFound()
    ensures IsNotExist(Some(GzipRangeError(404)))
  {
    var m := GzipRangeError(404).message;
    assert FormatInt(404) == "404";
    assert OccursAt(m, "404", |m| - 3);
  }
}
