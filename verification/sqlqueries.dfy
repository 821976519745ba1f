/** The parts of the SQL data provider's query builders that carry logic: the
    placeholder list, the `IN (...)` id lists, and the quota update rule. The
    surrounding SQL text is constant and is not modelled. */
module SqlQueries {
  import opened Strings

  // ---------------------------------------------------------------------------
  // Placeholders

  /** The configured data provider driver; only the two PostgreSQL-style
      drivers number their placeholders. */
  datatype Driver = PostgreSQL | CockroachDB | MySQL | SQLite

  predicate Numbered(d: Driver) {
    d == PostgreSQL || d == CockroachDB
  }

  const PlaceholderCount: nat := 30

  /** getSQLPlaceholders: thirty placeholders, "$1" … "$30" for numbering
      drivers and "?" for the others. */
  method Placeholders(d: Driver) returns (ps: seq<string>)
    ensures |ps| == PlaceholderCount
    ensures !Numbered(d) ==> forall i :: 0 <= i < |ps| ==> ps[i] == "?"
    ensures Numbered(d) ==> forall i :: 0 <= i < |ps| ==>
      |ps[i]| >= 2 && ps[i][0] == '$' && ps[i][1] != '0' && AllDigits(ps[i][1..]) && ParseInt(ps[i][1..]) == i + 1
    ensures forall i, j :: 0 <= i < j < |ps| ==> (ps[i] == ps[j] <==> !Numbered(d))
  {
    ps := [];
    var i := 1;
    while i <= PlaceholderCount
      invariant 1 <= i <= PlaceholderCount + 1
      invariant |ps| == i - 1
      invariant !Numbered(d) ==> forall k :: 0 <= k < |ps| ==> ps[k] == "?"
      invariant Numbered(d) ==> forall k :: 0 <= k < |ps| ==>
        |ps[k]| >= 2 && ps[k][0] == '$' && ps[k][1] != '0' && AllDigits(ps[k][1..]) && ParseInt(ps[k][1..]) == k + 1
    {
      if Numbered(d) {
        var numeral := FormatInt(i);
        FormatIntRoundTrip(i);
        assert ("$" + numeral)[1..] == numeral;
        ps := ps + ["$" + numeral];
      } else {
        ps := ps + ["?"];
      }
      i := i + 1;
    }
    if Numbered(d) {
      forall i, j | 0 <= i < j < |ps|
        ensures ps[i] != ps[j]
      {
        assert ParseInt(ps[i][1..]) != ParseInt(ps[j][1..]);
      }
    }
  }

  // ---------------------------------------------------------------------------
  // Id lists

  /** The records whose ids the relation queries collect. */
  datatype APIKey = APIKey(keyID: string, userID: int, adminID: int)
  datatype UserRef = UserRef(id: int, username: string)
  datatype FolderRef = FolderRef(id: int, name: string)

  /** The decimal numerals of `ids`. */
  function Numerals(ids: seq<int>): (r: seq<string>)
    ensures |r| == |ids| && forall i :: 0 <= i < |ids| ==> r[i] == FormatInt(ids[i])
  {
    seq(|ids|, i requires 0 <= i < |ids| => FormatInt(ids[i]))
  }

  /** The parenthesised, comma-separated list of `ids`, the text an SQL `IN`
      expects. */
  function IdList(ids: seq<int>): string {
    "(" + JoinWith(Numerals(ids), ',') + ")"
  }

  /** The ids other than 0, in order. */
  function NonZero(ids: seq<int>): seq<int> {
    if |ids| == 0 then []
    else NonZero(ids[..|ids| - 1]) + (if ids[|ids| - 1] == 0 then [] else [ids[|ids| - 1]])
  }

  /** NonZero keeps exactly the ids other than 0. */
  lemma {:induction false} NonZeroMembers(ids: seq<int>)
    ensures forall x :: x in NonZero(ids) <==> x in ids && x != 0
    decreases |ids|
  {
    if |ids| > 0 {
      var init := ids[..|ids| - 1];
      assert ids == init + [ids[|ids| - 1]];
      NonZeroMembers(init);
    }
  }

  /** The ids a builder writes: all of them, or those other than 0. */
  function Written(ids: seq<int>, skipZero: bool): seq<int> {
    if skipZero then NonZero(ids) else ids
  }

  /** The builder's text after writing `written`: nothing, or "(" and the
      comma-separated numerals. */
  function Partial(written: seq<int>): string {
    if |written| == 0 then "" else "(" + JoinWith(Numerals(written), ',')
  }

  lemma WrittenSnoc(ids: seq<int>, x: int, skipZero: bool)
    ensures Written(ids + [x], skipZero) == Written(ids, skipZero) + (if skipZero && x == 0 then [] else [x])
  {
    var s := ids + [x];
    assert s[..|s| - 1] == ids;
  }

  lemma PartialFirst(x: int)
    ensures Partial([x]) == "(" + FormatInt(x)
  {
    assert Numerals([x]) == [FormatInt(x)];
  }

  lemma PartialAppend(w: seq<int>, x: int)
    requires |w| > 0
    ensures Partial(w + [x]) == Partial(w) + "," + FormatInt(x)
  {
    var ns, f := Numerals(w), FormatInt(x);
    assert Numerals(w + [x]) == ns + [f];
    JoinConcat(ns, [f], ',');
    assert JoinWith([f], ',') == f;
  }

  lemma PartialSnoc(w: seq<int>, x: int)
    ensures |Partial(w)| == 0 <==> |w| == 0
    ensures Partial(w + [x]) == (if |w| == 0 then "(" else Partial(w) + ",") + FormatInt(x)
  {
    if |w| == 0 {
      assert w + [x] == [x];
      PartialFirst(x);
    } else {
      PartialAppend(w, x);
    }
  }

  /** One turn of the builder's loop: skip a zero if asked, otherwise write
      "(" or "," and then the numeral. */
  function Step(sb: string, x: int, skipZero: bool): string {
    if skipZero && x == 0 then sb else (if |sb| == 0 then "(" else sb + ",") + FormatInt(x)
  }

  /** The builder's text after the loop has seen `done`. */
  function Built(done: seq<int>, skipZero: bool): string {
    if |done| == 0 then "" else Step(Built(done[..|done| - 1], skipZero), done[|done| - 1], skipZero)
  }

  /** The text the loop builds is "(" and the comma-separated numerals of the
      ids it wrote. */
  lemma {:induction false} BuiltIsPartial(done: seq<int>, skipZero: bool)
    ensures Built(done, skipZero) == Partial(Written(done, skipZero))
    decreases |done|
  {
    if |done| > 0 {
      var init := done[..|done| - 1];
      var x := done[|done| - 1];
      assert done == init + [x];
      BuiltIsPartial(init, skipZero);
      var w := Written(init, skipZero);
      WrittenSnoc(init, x, skipZero);
      PartialSnoc(w, x);
      if skipZero && x == 0 {
        assert Written(done, skipZero) == w;
      } else {
        assert Written(done, skipZero) == w + [x];
      }
    }
  }

  /** The loop the id-list builders share: "(" before the first numeral, ","
      before every later one; ids equal to 0 are skipped when `skipZero`.
      The closing parenthesis is the caller's. */
  method WriteIds(ids: seq<int>, skipZero: bool) returns (sb: string)
    ensures var written := Written(ids, skipZero);
      && (|written| == 0 ==> sb == "")
      && (|written| > 0 ==> sb == "(" + JoinWith(Numerals(written), ','))
  {
    sb := "";
    var i := 0;
    while i < |ids|
      invariant 0 <= i <= |ids|
      invariant sb == Built(ids[..i], skipZero)
    {
      assert ids[..i + 1][..i] == ids[..i];
      if !(skipZero && ids[i] == 0) {
        if |sb| == 0 {
          sb := "(";
        } else {
          sb := sb + ",";
        }
        sb := sb + FormatInt(ids[i]);
      }
      i := i + 1;
    }
    assert ids[..i] == ids;
    BuiltIsPartial(ids, skipZero);
  }

  /** The userID of every API key, in order. */
  function UserIDs(keys: seq<APIKey>): (r: seq<int>)
    ensures |r| == |keys| && forall i :: 0 <= i < |keys| ==> r[i] == keys[i].userID
  {
    seq(|keys|, i requires 0 <= i < |keys| => keys[i].userID)
  }

  /** The adminID of every API key, in order. */
  function AdminIDs(keys: seq<APIKey>): (r: seq<int>)
    ensures |r| == |keys| && forall i :: 0 <= i < |keys| ==> r[i] == keys[i].adminID
  {
    seq(|keys|, i requires 0 <= i < |keys| => keys[i].adminID)
  }

  function UserRefIDs(users: seq<UserRef>): (r: seq<int>)
    ensures |r| == |users| && forall i :: 0 <= i < |users| ==> r[i] == users[i].id
  {
    seq(|users|, i requires 0 <= i < |users| => users[i].id)
  }

  function FolderRefIDs(folders: seq<FolderRef>): (r: seq<int>)
    ensures |r| == |folders| && forall i :: 0 <= i < |folders| ==> r[i] == folders[i].id
  {
    seq(|folders|, i requires 0 <= i < |folders| => folders[i].id)
  }

  /** The id list of an API-key relation query: the non-zero ids, or "(0)"
      when there are none, so the `IN` never stays empty. */
  method KeyIdList(ids: seq<int>) returns (list: string)
    ensures |NonZero(ids)| > 0 ==> list == IdList(NonZero(ids))
    ensures |NonZero(ids)| == 0 ==> list == "(0)"
    ensures ParseIdList(list) == (if |NonZero(ids)| > 0 then NonZero(ids) else [0])
  {
    var sb := WriteIds(ids, true);
    if |sb| > 0 {
      list := sb + ")";
      ParseIdListRoundTrip(NonZero(ids));
    } else {
      list := "(0)";
      ParseIdListRoundTrip([0]);
      assert IdList([0]) == "(0)";
    }
  }

  /** getRelatedUsersForAPIKeysQuery: the users the keys belong to. */
  method RelatedUsersForAPIKeys(keys: seq<APIKey>) returns (list: string)
    ensures var ids := NonZero(UserIDs(keys));
      list == (if |ids| > 0 then IdList(ids) else "(0)")
    ensures var ids := NonZero(UserIDs(keys));
      ParseIdList(list) == (if |ids| > 0 then ids else [0])
    ensures forall k :: k in keys && k.userID != 0 ==> k.userID in ParseIdList(list)
  {
    list := KeyIdList(UserIDs(keys));
    NonZeroMembers(UserIDs(keys));
    forall k | k in keys && k.userID != 0
      ensures k.userID in NonZero(UserIDs(keys))
    {
      var i :| 0 <= i < |keys| && keys[i] == k;
      assert UserIDs(keys)[i] == k.userID;
    }
  }

  /** getRelatedAdminsForAPIKeysQuery: the admins the keys belong to. */
  method RelatedAdminsForAPIKeys(keys: seq<APIKey>) returns (list: string)
    ensures var ids := NonZero(AdminIDs(keys));
      list == (if |ids| > 0 then IdList(ids) else "(0)")
    ensures var ids := NonZero(AdminIDs(keys));
      ParseIdList(list) == (if |ids| > 0 then ids else [0])
    ensures forall k :: k in keys && k.adminID != 0 ==> k.adminID in ParseIdList(list)
  {
    list := KeyIdList(AdminIDs(keys));
    NonZeroMembers(AdminIDs(keys));
    forall k | k in keys && k.adminID != 0
      ensures k.adminID in NonZero(AdminIDs(keys))
    {
      var i :| 0 <= i < |keys| && keys[i] == k;
      assert AdminIDs(keys)[i] == k.adminID;
    }
  }

  /** The id list of a folder/user relation query: every id, zero included;
      no ids give empty text, without parentheses. */
  method PlainIdList(ids: seq<int>) returns (list: string)
    ensures |ids| > 0 ==> list == IdList(ids)
    ensures |ids| == 0 ==> list == ""
    ensures ParseIdList(list) == ids
  {
    var sb := WriteIds(ids, false);
    if |sb| > 0 {
      list := sb + ")";
      ParseIdListRoundTrip(ids);
    } else {
      list := sb;
    }
  }

  /** getRelatedFoldersForUsersQuery: the folders mapped to the users. */
  method RelatedFoldersForUsers(users: seq<UserRef>) returns (list: string)
    ensures |users| > 0 ==> list == IdList(UserRefIDs(users))
    ensures ParseIdList(list) == UserRefIDs(users)
    ensures |users| == 0 <==> list == ""
  {
    list := PlainIdList(UserRefIDs(users));
  }

  /** getRelatedUsersForFoldersQuery: the users mapped to the folders. */
  method RelatedUsersForFolders(folders: seq<FolderRef>) returns (list: string)
    ensures |folders| > 0 ==> list == IdList(FolderRefIDs(folders))
    ensures ParseIdList(list) == FolderRefIDs(folders)
    ensures |folders| == 0 <==> list == ""
  {
    list := PlainIdList(FolderRefIDs(folders));
  }

  /** Reads an id list back: the numbers between the parentheses; text that is
      not parenthesised holds none. */
  function ParseIdList(s: string): seq<int> {
    if |s| >= 2 && s[0] == '(' && s[|s| - 1] == ')' then
      var parts := Split(s[1..|s| - 1], ',');
      seq(|parts|, i requires 0 <= i < |parts| => ParseInt(parts[i]))
    else []
  }

  lemma ParseIdListRoundTrip(ids: seq<int>)
    requires |ids| > 0
    ensures ParseIdList(IdList(ids)) == ids
  {
    var ns := Numerals(ids);
    var inner := JoinWith(ns, ',');
    var s := IdList(ids);
    assert s[1..|s| - 1] == inner;
    forall i | 0 <= i < |ns|
      ensures ',' !in ns[i]
    {
      assert forall k :: 0 <= k < |ns[i]| ==> IsDigit(ns[i][k]) || ns[i][k] == '-';
    }
    SplitJoin(ns, ',');
    forall i | 0 <= i < |ids|
      ensures ParseInt(ns[i]) == ids[i]
    {
      FormatIntRoundTrip(ids[i]);
    }
  }

  // ---------------------------------------------------------------------------
  // Quota updates

  /** The quota columns of a user or folder row. */
  datatype Quota = Quota(usedSize: int, usedFiles: int, lastUpdate: int)

  /** getUpdateQuotaQuery / getUpdateFolderQuotaQuery, as executed on the row
      keyed by `key` (username or folder name): a reset overwrites the
      counters, otherwise the values are added to them; either way the update
      time is set. Rows with other keys are untouched, and an unknown key
      changes nothing. */
  function UpdateQuota(rows: map<string, Quota>, key: string, size: int, files: int, reset: bool, now: int): (r: map<string, Quota>)
    ensures r.Keys == rows.Keys
    ensures forall k :: k in rows && k != key ==> r[k] == rows[k]
    ensures key in rows && reset ==> r[key] == Quota(size, files, now)
    ensures key in rows && !reset ==>
      r[key].usedSize - rows[key].usedSize == size && r[key].usedFiles - rows[key].usedFiles == files
      && r[key].lastUpdate == now
  {
    if key !in rows then rows
    else
      var q := rows[key];
      rows[key := if reset then Quota(size, files, now) else Quota(q.usedSize + size, q.usedFiles + files, now)]
  }

  /** A quota change sent to the data provider: added sizes and file counts. */
  datatype Delta = Delta(size: int, files: int)

  /** Applies increments in order. */
  function ApplyDeltas(rows: map<string, Quota>, key: string, ds: seq<Delta>, now: int): map<string, Quota> {
    if |ds| == 0 then rows
    else ApplyDeltas(UpdateQuota(rows, key, ds[0].size, ds[0].files, false, now), key, ds[1..], now)
  }

  function SumSize(ds: seq<Delta>): int {
    if |ds| == 0 then 0 else ds[0].size + SumSize(ds[1..])
  }

  function SumFiles(ds: seq<Delta>): int {
    if |ds| == 0 then 0 else ds[0].files + SumFiles(ds[1..])
  }

  /** Increments accumulate: the counters move by the sums of the deltas. */
  lemma {:induction false} ApplyDeltasSums(rows: map<string, Quota>, key: string, ds: seq<Delta>, now: int)
    requires key in rows && |ds| > 0
    ensures var r := ApplyDeltas(rows, key, ds, now);
      && r.Keys == rows.Keys
      && (forall k :: k in rows && k != key ==> r[k] == rows[k])
      && r[key] == Quota(rows[key].usedSize + SumSize(ds), rows[key].usedFiles + SumFiles(ds), now)
    decreases |ds|
  {
    var next := UpdateQuota(rows, key, ds[0].size, ds[0].files, false, now);
    if |ds| > 1 {
      ApplyDeltasSums(next, key, ds[1..], now);
    }
  }

  /** A reset forgets everything before it. */
  lemma ResetForgets(a: map<string, Quota>, b: map<string, Quota>, key: string, size: int, files: int, now: int)
    requires key in a && key in b
    ensures UpdateQuota(a, key, size, files, true, now)[key] == UpdateQuota(b, key, size, files, true, now)[key]
  {
  }

  /** Adding a change and then its opposite restores the counters. */
  lemma IncrementUndo(rows: map<string, Quota>, key: string, d: Delta, now: int)
    requires key in rows
    ensures ApplyDeltas(rows, key, [d, Delta(-d.size, -d.files)], now).Keys == rows.Keys
    ensures var back := ApplyDeltas(rows, key, [d, Delta(-d.size, -d.files)], now);
      back[key].usedSize == rows[key].usedSize && back[key].usedFiles == rows[key].usedFiles
  {
    var ds := [d, Delta(-d.size, -d.files)];
    ApplyDeltasSums(rows, key, ds, now);
    assert ds[1..] == [Delta(-d.size, -d.files)];
    assert ds[1..][1..] == [];
    assert SumSize(ds[1..]) == -d.size + SumSize(ds[1..][1..]);
    assert SumFiles(ds[1..]) == -d.files + SumFiles(ds[1..][1..]);
  }

  lemma {:induction false} SumsSplit(a: seq<Delta>, b: seq<Delta>)
    ensures SumSize(a + b) == SumSize(a) + SumSize(b) && SumFiles(a + b) == SumFiles(a) + SumFiles(b)
    decreases |a|
  {
    if |a| == 0 {
      assert a + b == b;
    } else {
      assert (a + b)[1..] == a[1..] + b;
      SumsSplit(a[1..], b);
    }
  }

  lemma SplitAround<T>(b: seq<T>, i: int)
    requires 0 <= i < |b|
    ensures b == b[..i] + [b[i]] + b[i + 1..]
  {
  }

  /** Taking one delta out of a sequence. */
  lemma RemoveAtMultiset(b: seq<Delta>, i: int)
    requires 0 <= i < |b|
    ensures multiset(b[..i] + b[i + 1..]) == multiset(b) - multiset{b[i]}
  {
    assert b == b[..i] + [b[i]] + b[i + 1..];
  }

  lemma RemoveAtSums(b: seq<Delta>, i: int)
    requires 0 <= i < |b|
    ensures SumSize(b) == SumSize(b[..i] + b[i + 1..]) + b[i].size
    ensures SumFiles(b) == SumFiles(b[..i] + b[i + 1..]) + b[i].files
  {
    var x, l, r := b[i], b[..i], b[i + 1..];
    SplitAround(b, i);
    SumsSplit(l + [x], r);
    SumsSplit(l, [x]);
    SumsSplit(l, r);
    assert [x][1..] == [];
    assert SumSize([x]) == x.size && SumFiles([x]) == x.files;
  }

  lemma TailMultiset(a: seq<Delta>)
    requires |a| > 0
    ensures multiset(a[1..]) == multiset(a) - multiset{a[0]}
  {
    assert a == [a[0]] + a[1..];
  }

  /** The sums do not depend on the order of the deltas. */
  lemma {:induction false} SumsPermutation(a: seq<Delta>, b: seq<Delta>)
    requires multiset(a) == multiset(b)
    ensures SumSize(a) == SumSize(b) && SumFiles(a) == SumFiles(b)
    decreases |a|
  {
    if |a| > 0 {
      var x := a[0];
      assert x in multiset(b);
      var i :| 0 <= i < |b| && b[i] == x;
      RemoveAtMultiset(b, i);
      RemoveAtSums(b, i);
      TailMultiset(a);
      SumsPermutation(a[1..], b[..i] + b[i + 1..]);
    } else {
      assert |b| == |multiset(b)| == 0;
    }
  }

  /** Increments in any order leave the same counters. */
  lemma IncrementsCommute(rows: map<string, Quota>, key: string, a: seq<Delta>, b: seq<Delta>, now: int)
    requires key in rows && multiset(a) == multiset(b)
    ensures ApplyDeltas(rows, key, a, now) == ApplyDeltas(rows, key, b, now)
  {
    assert |b| == |multiset(b)| == |multiset(a)| == |a|;
    if |a| == 0 {
      assert a == [] == b;
      return;
    }
    ApplyDeltasSums(rows, key, a, now);
    ApplyDeltasSums(rows, key, b, now);
    SumsPermutation(a, b);
  }
}
