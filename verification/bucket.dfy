/** The Cloud Storage bucket as the GCS backend sees it through its client
    library: a flat sequence of object records, prefix/delimiter listings over
    them, and the single-object copy, delete and write calls. */
module Bucket {
  import opened Results
  import opened Strings

  /** How an error can be recognised: the client library's sentinel values, an
      API error carrying an HTTP status, the backend's "unsupported" value, or
      just a message. */
  datatype ErrorTag = ObjectNotExist | BucketNotExist | Api(code: int) | Unsupported | Plain

  datatype Error = Error(tag: ErrorTag, message: string)

  /** storage.ErrObjectNotExist */
  const ErrObjectNotExist: Error := Error(ObjectNotExist, "storage: object doesn't exist")

  /** Modification times are opaque: a stored timestamp, or the moment of the call. */
  datatype ModTime = Now | Stamp(t: int)

  /** One object record (the fields of storage.ObjectAttrs the backend reads). */
  datatype ObjectAttrs = ObjectAttrs(
    name: string,
    size: nat,
    deleted: bool,
    contentType: string,
    contentEncoding: string,
    updated: ModTime)

  /** A listing entry: an object, or a common prefix standing for everything
      below it. */
  datatype ListItem = Object(attrs: ObjectAttrs) | Prefix(prefix: string)

  /** A listing that breaks down: every listing hands out `after` entries, then
      reports `error` instead of completing. */
  datatype ListFault = ListFault(after: nat, error: Error)

  /** The bucket. `bucketCheck` is the answer the bucket-attributes request gives. */
  datatype Store = Store(
    objects: seq<ObjectAttrs>,
    bucketCheck: Option<Error>,
    listFault: Option<ListFault>)

  /** What a delimited listing hands out, and how it ended. */
  datatype Listing = Listing(items: seq<ListItem>, failure: Option<Error>)

  /** What an undelimited listing hands out, and how it ended. */
  datatype FlatListing = FlatListing(objects: seq<ObjectAttrs>, failure: Option<Error>)

  // ---------------------------------------------------------------------------
  // Listing

  /** The records whose name starts with `prefix`, in bucket order. */
  function Under(objects: seq<ObjectAttrs>, prefix: string): (r: seq<ObjectAttrs>)
    ensures forall o :: o in r <==> o in objects && HasPrefix(o.name, prefix)
  {
    if |objects| == 0 then []
    else (if HasPrefix(objects[0].name, prefix) then [objects[0]] else []) + Under(objects[1..], prefix)
  }

  /** A name below `prefix` that a "/" delimiter folds into a common prefix. */
  predicate Nested(name: string, prefix: string) {
    HasPrefix(name, prefix) && '/' in name[|prefix|..]
  }

  /** The common prefix a nested name folds into: up to and including the first
      "/" after `prefix`. */
  function GroupKey(name: string, prefix: string): (k: string)
    requires Nested(name, prefix)
    ensures HasPrefix(k, prefix) && HasPrefix(name, k)
    ensures |k| > |prefix| && k[|k| - 1] == '/' && '/' !in k[|prefix|..|k| - 1]
  {
    var rest := name[|prefix|..];
    var i := IndexOf(rest, '/');
    assert name[..|prefix| + i + 1] == prefix + rest[..i + 1];
    assert (prefix + rest[..i + 1])[|prefix|..|prefix| + i] == rest[..i];
    prefix + rest[..i + 1]
  }

  /** Records below `prefix` that the delimiter leaves as objects, in bucket order. */
  function DirectObjects(objects: seq<ObjectAttrs>, prefix: string): (r: seq<ObjectAttrs>)
    ensures forall o :: o in r <==> o in objects && HasPrefix(o.name, prefix) && !Nested(o.name, prefix)
  {
    if |objects| == 0 then []
    else
      var o := objects[0];
      (if HasPrefix(o.name, prefix) && !Nested(o.name, prefix) then [o] else []) + DirectObjects(objects[1..], prefix)
  }

  /** The common prefix of every nested record, in bucket order, with repeats. */
  function NestedKeys(objects: seq<ObjectAttrs>, prefix: string): (r: seq<string>)
    ensures forall k :: k in r <==>
      exists o :: o in objects && Nested(o.name, prefix) && k == GroupKey(o.name, prefix)
  {
    if |objects| == 0 then []
    else
      var o := objects[0];
      var rest := NestedKeys(objects[1..], prefix);
      assert forall o' :: o' in objects <==> o' == o || o' in objects[1..];
      (if Nested(o.name, prefix) then [GroupKey(o.name, prefix)] else []) + rest
  }

  /** Keeps the first occurrence of every value. */
  function Dedup(s: seq<string>): (r: seq<string>)
    ensures forall x :: x in r <==> x in s
    ensures forall i, j :: 0 <= i < j < |r| ==> r[i] != r[j]
  {
    if |s| == 0 then []
    else
      var d := Dedup(s[..|s| - 1]);
      var last := s[|s| - 1];
      assert forall x :: x in s <==> x in s[..|s| - 1] || x == last;
      if last in d then d else d + [last]
  }

  function ObjectItems(objects: seq<ObjectAttrs>): (r: seq<ListItem>)
    ensures |r| == |objects| && forall i :: 0 <= i < |r| ==> r[i] == Object(objects[i])
  {
    seq(|objects|, i requires 0 <= i < |objects| => Object(objects[i]))
  }

  function PrefixItems(keys: seq<string>): (r: seq<ListItem>)
    ensures |r| == |keys| && forall i :: 0 <= i < |r| ==> r[i] == Prefix(keys[i])
  {
    seq(|keys|, i requires 0 <= i < |keys| => Prefix(keys[i]))
  }

  /** A complete listing with prefix `prefix` and delimiter "/": the objects the
      delimiter leaves alone, then one entry per distinct common prefix. */
  function DelimitedItems(objects: seq<ObjectAttrs>, prefix: string): seq<ListItem> {
    ObjectItems(DirectObjects(objects, prefix)) + PrefixItems(Dedup(NestedKeys(objects, prefix)))
  }

  /** The `i`-th entry of a delimited listing, when it falls among the objects. */
  lemma DelimitedObjectAt(objects: seq<ObjectAttrs>, prefix: string, i: int)
    requires 0 <= i < |DirectObjects(objects, prefix)|
    ensures var d := DirectObjects(objects, prefix);
      && i < |DelimitedItems(objects, prefix)|
      && DelimitedItems(objects, prefix)[i] == Object(d[i])
      && d[i] in objects && HasPrefix(d[i].name, prefix) && !Nested(d[i].name, prefix)
  {
    var d := DirectObjects(objects, prefix);
    assert d[i] in d;
  }

  lemma DelimitedKeyAt(objects: seq<ObjectAttrs>, prefix: string, i: int)
    requires |DirectObjects(objects, prefix)| <= i < |DelimitedItems(objects, prefix)|
    ensures var keys := Dedup(NestedKeys(objects, prefix));
      var j := i - |DirectObjects(objects, prefix)|;
      0 <= j < |keys| && DelimitedItems(objects, prefix)[i] == Prefix(keys[j])
  {
  }

  lemma NestedKeySource(objects: seq<ObjectAttrs>, prefix: string, k: string) returns (o: ObjectAttrs)
    requires k in Dedup(NestedKeys(objects, prefix))
    ensures o in objects && Nested(o.name, prefix) && k == GroupKey(o.name, prefix)
  {
    assert k in NestedKeys(objects, prefix);
    o :| o in objects && Nested(o.name, prefix) && k == GroupKey(o.name, prefix);
  }

  /** The `i`-th entry of a delimited listing, when it falls among the common
      prefixes: it is the group key of some nested record. */
  lemma DelimitedPrefixAt(objects: seq<ObjectAttrs>, prefix: string, i: int) returns (o: ObjectAttrs)
    requires |DirectObjects(objects, prefix)| <= i < |DelimitedItems(objects, prefix)|
    ensures o in objects && Nested(o.name, prefix)
    ensures DelimitedItems(objects, prefix)[i] == Prefix(GroupKey(o.name, prefix))
  {
    DelimitedKeyAt(objects, prefix, i);
    var keys := Dedup(NestedKeys(objects, prefix));
    var j := i - |DirectObjects(objects, prefix)|;
    o := NestedKeySource(objects, prefix, keys[j]);
  }

  lemma DelimitedKeyIndex(objects: seq<ObjectAttrs>, prefix: string, j: int, k: string) returns (i: int)
    requires 0 <= j < |Dedup(NestedKeys(objects, prefix))| && Dedup(NestedKeys(objects, prefix))[j] == k
    ensures 0 <= i < |DelimitedItems(objects, prefix)| && DelimitedItems(objects, prefix)[i] == Prefix(k)
  {
    i := |DirectObjects(objects, prefix)| + j;
  }

  lemma NestedKeyListed(objects: seq<ObjectAttrs>, prefix: string, o: ObjectAttrs) returns (j: int)
    requires o in objects && Nested(o.name, prefix)
    ensures 0 <= j < |Dedup(NestedKeys(objects, prefix))|
    ensures Dedup(NestedKeys(objects, prefix))[j] == GroupKey(o.name, prefix)
  {
    var nested := NestedKeys(objects, prefix);
    var keys := Dedup(nested);
    var k := GroupKey(o.name, prefix);
    assert k in nested;
    assert k in keys;
    j :| 0 <= j < |keys| && keys[j] == k;
  }

  /** A common prefix that some nested record folds into is listed. */
  lemma DelimitedPrefixListed(objects: seq<ObjectAttrs>, prefix: string, o: ObjectAttrs) returns (i: int)
    requires o in objects && Nested(o.name, prefix)
    ensures 0 <= i < |DelimitedItems(objects, prefix)|
    ensures DelimitedItems(objects, prefix)[i] == Prefix(GroupKey(o.name, prefix))
  {
    var j := NestedKeyListed(objects, prefix, o);
    i := DelimitedKeyIndex(objects, prefix, j, GroupKey(o.name, prefix));
  }

  /** The entries handed out before the fault, if any, cuts the listing short. */
  function Delivered<T>(full: seq<T>, fault: Option<ListFault>): (r: seq<T>)
    ensures r <= full
    ensures fault.None? ==> r == full
  {
    match fault
    case Some(f) => if f.after <= |full| then full[..f.after] else full
    case None => full
  }

  /** How a listing of `n` entries ends: with the fault's error if it strikes. */
  function Ending(n: nat, fault: Option<ListFault>): Option<Error> {
    match fault
    case Some(f) => if f.after <= n then Some(f.error) else None
    case None => None
  }

  /** storage.Query{Prefix: prefix, Delimiter: "/"} */
  function ListDelimited(s: Store, prefix: string): Listing {
    var full := DelimitedItems(s.objects, prefix);
    Listing(Delivered(full, s.listFault), Ending(|full|, s.listFault))
  }

  /** storage.Query{Prefix: prefix} (no delimiter): every record below the prefix. */
  function ListFlat(s: Store, prefix: string): FlatListing {
    var full := Under(s.objects, prefix);
    FlatListing(Delivered(full, s.listFault), Ending(|full|, s.listFault))
  }

  // ---------------------------------------------------------------------------
  // Single-object calls

  predicate IsLive(o: ObjectAttrs, name: string) {
    !o.deleted && o.name == name
  }

  /** The first non-deleted record called `name`. */
  function FindLive(objects: seq<ObjectAttrs>, name: string): (r: Option<ObjectAttrs>)
    ensures r.Some? <==> exists o :: o in objects && IsLive(o, name)
    ensures r.Some? ==> r.value in objects && IsLive(r.value, name)
  {
    if |objects| == 0 then None
    else if IsLive(objects[0], name) then Some(objects[0])
    else
      assert forall o :: o in objects <==> o == objects[0] || o in objects[1..];
      FindLive(objects[1..], name)
  }

  /** Drops the non-deleted records called `name`. */
  function RemoveLive(objects: seq<ObjectAttrs>, name: string): (r: seq<ObjectAttrs>)
    ensures forall o :: o in r <==> o in objects && !IsLive(o, name)
  {
    if |objects| == 0 then []
    else (if IsLive(objects[0], name) then [] else [objects[0]]) + RemoveLive(objects[1..], name)
  }

  /** Stores `o`, replacing the live record of the same name. */
  function Put(objects: seq<ObjectAttrs>, o: ObjectAttrs): seq<ObjectAttrs> {
    RemoveLive(objects, o.name) + [o]
  }

  /** Copier.Run: the live source record stored again under the target name. */
  function CopyObject(s: Store, src: string, dst: string): Result<Store, Error> {
    match FindLive(s.objects, src)
    case None => Err(ErrObjectNotExist)
    case Some(o) => Ok(s.(objects := Put(s.objects, o.(name := dst))))
  }

  /** ObjectHandle.Delete: removes the live record, or reports that there is none. */
  function DeleteObject(s: Store, name: string): Result<Store, Error> {
    match FindLive(s.objects, name)
    case None => Err(ErrObjectNotExist)
    case Some(_) => Ok(s.(objects := RemoveLive(s.objects, name)))
  }
}
