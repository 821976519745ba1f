/** What Stat reports for a clean relative object name: directories exist only
    as key prefixes, so a name is found when an object carries it or when some
    key lies below it. */
module GcsFsStat {
  import opened Results
  import opened Strings
  import opened Paths
  import opened Bucket
  import opened GcsFs
  import opened GcsFsPaths

  /** Some live object is stored under exactly this name. */
  predicate HasFile(objects: seq<ObjectAttrs>, name: string) {
    exists o :: o in objects && IsLive(o, name)
  }

  /** Some object, live or not, has a key below `name + "/"`. */
  predicate HasChildren(objects: seq<ObjectAttrs>, name: string) {
    exists o :: o in objects && HasPrefix(o.name, name + "/")
  }

  /** A name one level below the listing prefix is left as an object by the delimiter. */
  lemma DirectChild(x: string, prefix: string, last: string)
    requires x == prefix + last && '/' !in last
    ensures HasPrefix(x, prefix) && !Nested(x, prefix)
  {
    assert x[..|prefix|] == prefix;
    assert x[|prefix|..] == last;
  }

  /** Every key below `prefix + last + "/"` folds into the common prefix
      `prefix + last + "/"`. */
  lemma GroupOfDescendant(x: string, prefix: string, last: string)
    requires '/' !in last && HasPrefix(x, prefix + last + "/")
    ensures Nested(x, prefix) && GroupKey(x, prefix) == prefix + last + "/"
  {
    var name := prefix + last;
    var tail := x[|name| + 1..];
    assert x == name + "/" + tail;
    var rest := x[|prefix|..];
    assert rest == last + ['/'] + tail;
    assert rest[|last|] == '/';
    IndexOfAfter(last, '/', tail);
    assert rest[..|last| + 1] == last + "/";
  }

  /** Which listing entries Stat accepts for `name`, when `name` is `prefix + last`. */
  lemma ObjectItemMatch(a: ObjectAttrs, name: string, prefix: string, last: string)
    requires IsCleanRel(name) && name == prefix + last && '/' !in last
    requires HasPrefix(a.name, prefix) && !Nested(a.name, prefix)
    ensures Matches(Object(a), name) <==> IsLive(a, name)
  {
    CleanRelNoTrailingSlash(name);
    var slashed := name + "/";
    assert slashed[|prefix|..] == last + "/";
    assert '/' in slashed[|prefix|..];
    assert a.name != slashed;
    if |a.name| > 0 {
      assert (a.name + "/")[|a.name|] == '/';
    }
    assert a.name + "/" != name;
  }

  lemma PrefixItemMatch(p: string, name: string)
    requires IsCleanRel(name) && HasSuffix(p, "/")
    ensures Matches(Prefix(p), name) <==> p == name + "/"
  {
    CleanRelNoTrailingSlash(name);
    assert p[|p| - 1] == '/';
    assert p != name;
    assert p + "/" != name by {
      assert (p + "/")[|p + "/"| - 1] == '/';
    }
  }

  /** One common-prefix entry: only `name + "/"` is accepted. */
  lemma PrefixEntryMatch(objects: seq<ObjectAttrs>, name: string, prefix: string, i: int)
    requires IsCleanRel(name)
    requires |DirectObjects(objects, prefix)| <= i < |DelimitedItems(objects, prefix)|
    ensures Matches(DelimitedItems(objects, prefix)[i], name) ==> DelimitedItems(objects, prefix)[i] == Prefix(name + "/")
  {
    var o := DelimitedPrefixAt(objects, prefix, i);
    PrefixItemMatch(GroupKey(o.name, prefix), name);
  }

  /** A file of that name shows up among the object entries. */
  lemma FileListed(objects: seq<ObjectAttrs>, name: string, prefix: string, last: string) returns (j: int)
    requires IsCleanRel(name) && name == prefix + last && '/' !in last
    requires HasFile(objects, name)
    ensures 0 <= j < |DirectObjects(objects, prefix)| && Matches(DelimitedItems(objects, prefix)[j], name)
  {
    var d := DirectObjects(objects, prefix);
    var o :| o in objects && IsLive(o, name);
    DirectChild(o.name, prefix, last);
    assert o in d;
    j :| 0 <= j < |d| && d[j] == o;
    DelimitedObjectAt(objects, prefix, j);
    ObjectItemMatch(o, name, prefix, last);
  }

  /** A key below the name shows up as the common prefix `name + "/"`. */
  lemma ChildrenListed(objects: seq<ObjectAttrs>, name: string, prefix: string, last: string)
    requires IsCleanRel(name) && name == prefix + last && '/' !in last
    requires HasChildren(objects, name)
    ensures var items := DelimitedItems(objects, prefix);
      exists i :: 0 <= i < |items| && items[i] == Prefix(name + "/") && Matches(items[i], name)
  {
    var o :| o in objects && HasPrefix(o.name, name + "/");
    GroupOfDescendant(o.name, prefix, last);
    var i := DelimitedPrefixListed(objects, prefix, o);
    PrefixItemMatch(name + "/", name);
    assert DelimitedItems(objects, prefix)[i] == Prefix(name + "/");
  }

  /** An accepted entry comes from a file of that name or from a key below it. */
  lemma MatchExplained(objects: seq<ObjectAttrs>, name: string, prefix: string, last: string, i: int)
    requires IsCleanRel(name) && name == prefix + last && '/' !in last
    requires 0 <= i < |DelimitedItems(objects, prefix)| && Matches(DelimitedItems(objects, prefix)[i], name)
    ensures HasFile(objects, name) || HasChildren(objects, name)
  {
    var d := DirectObjects(objects, prefix);
    if i < |d| {
      DelimitedObjectAt(objects, prefix, i);
      ObjectItemMatch(d[i], name, prefix, last);
    } else {
      PrefixEntryMatch(objects, name, prefix, i);
      var o := DelimitedPrefixAt(objects, prefix, i);
      assert HasPrefix(o.name, name + "/");
    }
  }

  /** The "404" error Stat reports is recognised as not-found. */
  lemma NotFoundIsNotExist()
    ensures IsNotExist(Some(NotFoundError))
  {
    assert OccursAt(NotFoundError.message, "404", 0);
  }

  /** The scan accepts an entry exactly when a file of that name exists or
      some key lies below it. */
  lemma ScanFinds(objects: seq<ObjectAttrs>, name: string, prefix: string, last: string)
    requires IsCleanRel(name) && name == prefix + last && '/' !in last
    ensures StatScan(DelimitedItems(objects, prefix), None, name).Ok?
      <==> HasFile(objects, name) || HasChildren(objects, name)
  {
    var items := DelimitedItems(objects, prefix);
    if HasFile(objects, name) {
      var j := FileListed(objects, name, prefix, last);
    } else if HasChildren(objects, name) {
      ChildrenListed(objects, name, prefix, last);
    }
    if StatScan(items, None, name).Ok? {
      var i :| 0 <= i < |items| && Matches(items[i], name);
      MatchExplained(objects, name, prefix, last, i);
    }
  }

  /** An accepted object entry is a file of that name. */
  lemma ObjectMatchIsFile(objects: seq<ObjectAttrs>, name: string, prefix: string, last: string, k: int)
    requires IsCleanRel(name) && name == prefix + last && '/' !in last
    requires 0 <= k < |DirectObjects(objects, prefix)| && Matches(DelimitedItems(objects, prefix)[k], name)
    ensures HasFile(objects, name)
  {
    var d := DirectObjects(objects, prefix);
    DelimitedObjectAt(objects, prefix, k);
    ObjectItemMatch(d[k], name, prefix, last);
  }

  /** With a file of that name, the scan stops at the file. */
  lemma ScanKindFile(objects: seq<ObjectAttrs>, name: string, prefix: string, last: string)
    requires IsCleanRel(name) && name == prefix + last && '/' !in last
    requires HasFile(objects, name)
    ensures var r := StatScan(DelimitedItems(objects, prefix), None, name);
      r.Ok? && !r.value.isDir
  {
    var items := DelimitedItems(objects, prefix);
    var j := FileListed(objects, name, prefix, last);
    var k := ScanAnswer(items, name, j);
    ObjectMatchIsLive(objects, name, prefix, last, k);
    FileInfoOfName(items[k].attrs, name);
  }

  /** The entry the scan answers from: the first accepted one, no later than
      any accepted entry `j`. */
  lemma ScanAnswer(items: seq<ListItem>, name: string, j: int) returns (k: int)
    requires 0 <= j < |items| && Matches(items[j], name)
    ensures 0 <= k <= j && Matches(items[k], name)
    ensures StatScan(items, None, name) == Ok(ItemInfo(items[k], name))
  {
    var r := StatScan(items, None, name);
    k :| 0 <= k < |items| && Matches(items[k], name) && r.value == ItemInfo(items[k], name)
      && forall i :: 0 <= i < k ==> !Matches(items[i], name);
  }

  /** An accepted object entry is a live record of that very name. */
  lemma ObjectMatchIsLive(objects: seq<ObjectAttrs>, name: string, prefix: string, last: string, k: int)
    requires IsCleanRel(name) && name == prefix + last && '/' !in last
    requires 0 <= k < |DirectObjects(objects, prefix)| && Matches(DelimitedItems(objects, prefix)[k], name)
    ensures DelimitedItems(objects, prefix)[k].Object? && IsLive(DelimitedItems(objects, prefix)[k].attrs, name)
  {
    var d := DirectObjects(objects, prefix);
    DelimitedObjectAt(objects, prefix, k);
    ObjectItemMatch(d[k], name, prefix, last);
  }

  /** A record stored under a clean name is reported as a file. */
  lemma FileInfoOfName(a: ObjectAttrs, name: string)
    requires IsCleanRel(name) && a.name == name
    ensures !ItemInfo(Object(a), name).isDir
  {
    CleanRelNoTrailingSlash(name);
  }

  /** Without such a file, whatever the scan accepts is the common prefix. */
  lemma ScanKindDir(objects: seq<ObjectAttrs>, name: string, prefix: string, last: string)
    requires IsCleanRel(name) && name == prefix + last && '/' !in last
    requires !HasFile(objects, name)
    ensures var r := StatScan(DelimitedItems(objects, prefix), None, name);
      r.Ok? ==> r.value.isDir
  {
    var items := DelimitedItems(objects, prefix);
    var r := StatScan(items, None, name);
    if r.Ok? {
      var k :| 0 <= k < |items| && Matches(items[k], name) && r.value == ItemInfo(items[k], name)
        && forall i :: 0 <= i < k ==> !Matches(items[i], name);
      if k < |DirectObjects(objects, prefix)| {
        ObjectMatchIsFile(objects, name, prefix, last, k);
      }
      PrefixEntryMatch(objects, name, prefix, k);
    }
  }

  /** Stat on a clean relative name, away from the key prefix's own directory,
      with a listing that completes: it succeeds exactly when a file of that
      name exists or some key lies below it; it reports a directory exactly when
      there is no such file; otherwise it fails with a not-found error. */
  lemma StatOfName(fs: Fs, name: string)
    requires IsCleanRel(name) && fs.config.keyPrefix != name + "/" && fs.store.listFault.None?
    ensures var r := Stat(fs, name).value;
      && (r.Ok? <==> HasFile(fs.store.objects, name) || HasChildren(fs.store.objects, name))
      && (r.Ok? ==> (r.value.isDir <==> !HasFile(fs.store.objects, name)))
      && (r.Err? ==> r.error == NotFoundError && IsNotExist(Some(r.error)))
  {
    CleanRelStartsWithName(name);
    CleanRelNotDot(name);
    var prefix := PrefixForStat(name);
    var last := StatPrefixOfName(name);
    var objects := fs.store.objects;
    assert Stat(fs, name).value == StatScan(DelimitedItems(objects, prefix), None, name);
    ScanFinds(objects, name, prefix, last);
    if HasFile(objects, name) {
      ScanKindFile(objects, name, prefix, last);
    } else {
      ScanKindDir(objects, name, prefix, last);
    }
    NotFoundIsNotExist();
  }
}
