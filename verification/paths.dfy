/** Go's `path` package (slash-separated, purely lexical): IsAbs, Clean, Dir and
    Join, written out over path elements so that their results can be reasoned about. */
module Paths {
  import opened Strings

  /** path.IsAbs */
  predicate IsAbs(p: string) {
    |p| > 0 && p[0] == '/'
  }

  /** What a cleaned path may hold between its slashes. */
  predicate IsElement(e: string) {
    e != "" && '/' !in e
  }

  /** An element that names an entry: neither "." nor "..". */
  predicate IsName(e: string) {
    IsElement(e) && e != "." && e != ".."
  }

  predicate AllElements(es: seq<string>) {
    forall i :: 0 <= i < |es| ==> IsElement(es[i])
  }

  predicate AllNames(es: seq<string>) {
    forall i :: 0 <= i < |es| ==> IsName(es[i])
  }

  predicate NoSlash(es: seq<string>) {
    forall i :: 0 <= i < |es| ==> '/' !in es[i]
  }

  /** A relative path made only of names: "a/b/c", never "", ".", "a/", "a//b" or "a/../b". */
  predicate IsCleanRel(q: string) {
    AllNames(Split(q, '/'))
  }

  /** An absolute path made only of names: "/" or "/a/b/c". */
  predicate IsCleanAbs(p: string) {
    p == "/" || (IsAbs(p) && IsCleanRel(p[1..]))
  }

  /** One step of Clean's scan: drop empty and "." elements, let ".." cancel the
      element before it; a ".." with nothing to cancel is dropped in a rooted path
      and kept otherwise. */
  function Step(stack: seq<string>, e: string, rooted: bool): (r: seq<string>)
    requires AllElements(stack) && '/' !in e
    ensures AllElements(r)
  {
    if e == "" || e == "." then stack
    else if e == ".." then
      if |stack| > 0 && stack[|stack| - 1] != ".." then stack[..|stack| - 1]
      else if rooted then stack
      else stack + [".."]
    else stack + [e]
  }

  function Reduce(stack: seq<string>, es: seq<string>, rooted: bool): (r: seq<string>)
    requires AllElements(stack) && NoSlash(es)
    ensures AllElements(r)
    ensures rooted && AllNames(stack) ==> AllNames(r)
    decreases |es|
  {
    if |es| == 0 then stack else Reduce(Step(stack, es[0], rooted), es[1..], rooted)
  }

  lemma JoinFirst(es: seq<string>)
    requires |es| >= 1 && AllElements(es)
    ensures |JoinWith(es, '/')| > 0 && JoinWith(es, '/')[0] == es[0][0]
  {
    assert IsElement(es[0]);
  }

  lemma AbsJoinClean(names: seq<string>)
    ensures AllNames(names) ==> IsCleanAbs("/" + JoinWith(names, '/'))
  {
    if AllNames(names) && |names| > 0 {
      SplitJoin(names, '/');
      assert ("/" + JoinWith(names, '/'))[1..] == JoinWith(names, '/');
    }
  }

  /** Writes a reduced element list back as a path. */
  function Render(names: seq<string>, rooted: bool): (r: string)
    requires AllElements(names)
    ensures r != ""
    ensures IsAbs(r) <==> rooted
    ensures rooted && AllNames(names) ==> IsCleanAbs(r)
  {
    if rooted then
      AbsJoinClean(names);
      "/" + JoinWith(names, '/')
    else if names == [] then "."
    else
      JoinFirst(names);
      JoinWith(names, '/')
  }

  /** path.Clean: the shortest lexically equivalent path. */
  function Clean(p: string): (r: string)
    ensures r != ""
    ensures IsAbs(r) <==> IsAbs(p)
    ensures IsAbs(p) ==> IsCleanAbs(r)
  {
    Render(Reduce([], Split(p, '/'), IsAbs(p)), IsAbs(p))
  }

  /** path.Dir: everything up to and including the last '/', cleaned. */
  function Dir(p: string): (r: string)
    ensures r != ""
    ensures IsAbs(r) <==> IsAbs(p)
    ensures IsAbs(r) ==> IsCleanAbs(r)
  {
    if '/' in p then Clean(p[..LastIndexOf(p, '/') + 1]) else Clean("")
  }

  /** path.Join: leading empty elements are skipped, the rest are joined with '/'
      and cleaned; only empty elements give "". */
  function Join(elems: seq<string>): (r: string)
    ensures r == "" <==> forall i :: 0 <= i < |elems| ==> elems[i] == ""
    ensures IsAbs(r) ==> IsCleanAbs(r)
    decreases |elems|
  {
    if |elems| == 0 then ""
    else if elems[0] == "" then
      var r := Join(elems[1..]);
      assert forall i :: 1 <= i < |elems| ==> elems[i] == elems[1..][i - 1];
      r
    else Clean(JoinWith(elems, '/'))
  }

  // ---------------------------------------------------------------------------
  // Facts about Clean on paths that are already made of names

  lemma {:induction false} ReduceNames(stack: seq<string>, es: seq<string>, rooted: bool)
    requires AllElements(stack) && AllNames(es)
    ensures Reduce(stack, es, rooted) == stack + es
    decreases |es|
  {
    if |es| > 0 {
      assert IsName(es[0]);
      ReduceNames(stack + [es[0]], es[1..], rooted);
      assert stack + [es[0]] + es[1..] == stack + es;
    }
  }

  lemma {:induction false} ReduceConcat(stack: seq<string>, a: seq<string>, b: seq<string>, rooted: bool)
    requires AllElements(stack) && NoSlash(a) && NoSlash(b)
    ensures NoSlash(a + b)
    ensures Reduce(stack, a + b, rooted) == Reduce(Reduce(stack, a, rooted), b, rooted)
    decreases |a|
  {
    if |a| == 0 {
      assert a + b == b;
    } else {
      assert (a + b)[0] == a[0];
      assert (a + b)[1..] == a[1..] + b;
      ReduceConcat(Step(stack, a[0], rooted), a[1..], b, rooted);
    }
  }

  lemma SplitLeadingSlash(q: string)
    ensures Split("/" + q, '/') == [""] + Split(q, '/')
  {
    SplitConcat("", '/', q);
    assert "" + ['/'] + q == "/" + q;
  }

  lemma SplitTrailingSlash(q: string)
    ensures Split(q + "/", '/') == Split(q, '/') + [""]
  {
    SplitConcat(q, '/', "");
    assert q + ['/'] + "" == q + "/";
  }

  lemma CleanRelStartsWithName(q: string)
    requires IsCleanRel(q)
    ensures !IsAbs(q) && q != ""
  {
    var segs := Split(q, '/');
    JoinSplit(q, '/');
    JoinFirst(segs);
  }

  /** A relative path made of names is already clean. */
  lemma CleanOfCleanRel(q: string)
    requires IsCleanRel(q)
    ensures Clean(q) == q
  {
    var segs := Split(q, '/');
    CleanRelStartsWithName(q);
    ReduceNames([], segs, false);
    assert [] + segs == segs;
    assert Clean(q) == Render(segs, false);
    JoinSplit(q, '/');
  }

  /** An extra leading slash makes no difference to Clean. */
  lemma CleanExtraSlash(p: string)
    requires IsAbs(p)
    ensures Clean("/" + p) == Clean(p)
  {
    SplitLeadingSlash(p);
    var segs := Split(p, '/');
    assert ([""] + segs)[0] == "" && ([""] + segs)[1..] == segs;
  }

  /** An absolute path made of names is already clean. */
  lemma CleanOfCleanAbs(p: string)
    requires IsCleanAbs(p)
    ensures Clean(p) == p
  {
    if p == "/" {
      SplitLeadingSlash("");
      assert "/" + "" == "/";
      assert Split("", '/') == [""];
      assert Reduce([], ["", ""], true) == [];
      assert Clean(p) == Render([], true);
    } else {
      var q := p[1..];
      assert p == "/" + q;
      SplitLeadingSlash(q);
      var segs := Split(q, '/');
      ReduceNames([], segs, true);
      assert ([""] + segs)[0] == "" && ([""] + segs)[1..] == segs;
      assert Reduce([], [""] + segs, true) == Reduce([], segs, true);
      assert [] + segs == segs;
      assert Clean(p) == Render(segs, true);
      JoinSplit(q, '/');
    }
  }

  /** Clean("//") is the root: the value a key outside the prefix collapses to. */
  lemma CleanDoubleSlash()
    ensures Clean("//") == "/"
  {
    CleanExtraSlash("/");
    CleanOfCleanAbs("/");
    assert "/" + "/" == "//";
  }

  /** A trailing empty element (from a trailing slash) is dropped. */
  lemma ReduceNamesThenEmpty(ks: seq<string>, rooted: bool)
    requires AllNames(ks)
    ensures NoSlash(ks + [""])
    ensures Reduce([], ks + [""], rooted) == ks
  {
    ReduceConcat([], ks, [""], rooted);
    ReduceNames([], ks, rooted);
    assert [] + ks == ks;
    assert [""][1..] == [];
    assert Reduce(ks, [""], rooted) == ks;
  }

  /** Cleaning "k/" gives back k when k is made of names. */
  lemma CleanTrailingSlash(k: string)
    requires IsCleanRel(k)
    ensures Clean(k + "/") == k
  {
    var ks := Split(k, '/');
    CleanRelStartsWithName(k);
    SplitTrailingSlash(k);
    assert (k + "/")[0] == k[0];
    ReduceNamesThenEmpty(ks, false);
    assert Clean(k + "/") == Render(ks, false);
    JoinSplit(k, '/');
  }

  /** Cleaning "k//" gives back k when k is made of names. */
  lemma CleanTrailingSlashes(k: string)
    requires IsCleanRel(k)
    ensures Clean(k + "/" + "/") == k
  {
    var ks := Split(k, '/');
    CleanRelStartsWithName(k);
    SplitTrailingSlash(k);
    SplitTrailingSlash(k + "/");
    assert (k + "/" + "/")[0] == k[0];
    ReduceConcat([], ks + [""], [""], false);
    ReduceNamesThenEmpty(ks, false);
    assert [""][1..] == [];
    assert Reduce(ks, [""], false) == ks;
    assert Clean(k + "/" + "/") == Render(ks, false);
    JoinSplit(k, '/');
  }

  /** The parent of a clean relative path that holds no slash is ".". */
  lemma DirOfName(q: string)
    requires IsCleanRel(q) && |Split(q, '/')| == 1
    ensures '/' !in q && Dir(q) == "."
  {
    JoinSplit(q, '/');
    assert q == Split(q, '/')[0];
    assert Split("", '/') == [""];
    assert Reduce([], [""], false) == [];
    assert Clean("") == Render([], false);
  }

  /** The parent of a clean relative path followed by "/" and a name without
      slashes is that path. */
  lemma DirOfJoined(d: string, last: string)
    requires IsCleanRel(d) && '/' !in last
    ensures Dir(d + ['/'] + last) == d
  {
    var q := d + ['/'] + last;
    LastIndexOfBefore(d, '/', last);
    assert q[..|d| + 1] == d + "/";
    CleanTrailingSlash(d);
  }

  /** A clean relative path with a slash is a clean relative path, "/" and a
      last name. */
  lemma SplitLastName(q: string)
    requires IsCleanRel(q) && |Split(q, '/')| > 1
    ensures var segs := Split(q, '/');
            var d := JoinWith(segs[..|segs| - 1], '/');
            IsCleanRel(d) && '/' !in segs[|segs| - 1] && q == d + ['/'] + segs[|segs| - 1]
  {
    var segs := Split(q, '/');
    var init, last := segs[..|segs| - 1], segs[|segs| - 1];
    assert segs == init + [last];
    assert AllNames(init) by {
      forall i | 0 <= i < |init|
        ensures IsName(init[i])
      {
        assert init[i] == segs[i];
      }
    }
    var d := JoinWith(init, '/');
    JoinSplit(q, '/');
    JoinConcat(init, [last], '/');
    assert JoinWith([last], '/') == last;
    SplitJoin(init, '/');
  }

  /** The parent of a clean relative path with a slash, and its last name. */
  lemma DirOfNested(q: string)
    requires IsCleanRel(q) && |Split(q, '/')| > 1
    ensures var segs := Split(q, '/');
            IsCleanRel(Dir(q)) && q == Dir(q) + "/" + segs[|segs| - 1]
  {
    var segs := Split(q, '/');
    var d := JoinWith(segs[..|segs| - 1], '/');
    SplitLastName(q);
    DirOfJoined(d, segs[|segs| - 1]);
  }

  /** Two clean relative paths joined by a slash form a clean relative path. */
  lemma CleanRelJoin(k: string, q: string)
    requires IsCleanRel(k) && IsCleanRel(q)
    ensures IsCleanRel(k + "/" + q)
    ensures Split(k + "/" + q, '/') == Split(k, '/') + Split(q, '/')
  {
    SplitConcat(k, '/', q);
    assert k + ['/'] + q == k + "/" + q;
    AllNamesConcat(Split(k, '/'), Split(q, '/'));
  }

  lemma AllNamesConcat(a: seq<string>, b: seq<string>)
    requires AllNames(a) && AllNames(b)
    ensures AllNames(a + b)
  {
    assert forall i :: 0 <= i < |a + b| ==> (a + b)[i] == (if i < |a| then a[i] else b[i - |a|]);
  }

  /** Joining a prefix of names with a relative path of names, the way path.Join
      sees "k/" and "q": the doubled slash disappears. */
  lemma CleanJoinedNames(k: string, q: string)
    requires IsCleanRel(k) && IsCleanRel(q)
    ensures IsCleanRel(k + "/" + q)
    ensures Clean(k + "/" + "/" + q) == k + "/" + q
  {
    var ks, qs := Split(k, '/'), Split(q, '/');
    CleanRelJoin(k, q);
    SplitConcat(k + "/", '/', q);
    SplitTrailingSlash(k);
    var s := k + "/" + "/" + q;
    assert k + "/" + ['/'] + q == s;
    assert Split(s, '/') == ks + [""] + qs;
    CleanRelStartsWithName(k);
    assert s[0] == k[0];
    ReduceNamesThenEmpty(ks, false);
    ReduceConcat([], ks + [""], qs, false);
    ReduceNames(ks, qs, false);
    assert Clean(s) == Render(ks + qs, false);
    JoinConcat(ks, qs, '/');
    JoinSplit(k, '/');
    JoinSplit(q, '/');
  }
}
