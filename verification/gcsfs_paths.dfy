/** Properties of the GCS backend's mapping between user paths and object keys. */
module GcsFsPaths {
  import opened Strings
  import opened Paths
  import opened GcsFs

  /** A key prefix as the backend is configured with: empty, or names ending in "/". */
  predicate ValidKeyPrefix(kp: string) {
    kp == "" || (HasSuffix(kp, "/") && IsCleanRel(kp[..|kp| - 1]))
  }

  /** The user path ResolvePath actually stands for: relative input is taken
      from the root and cleaned; absolute input as it is. */
  function UserPath(p: string): (r: string)
    requires !IsAbs(p) || IsCleanAbs(p)
    ensures IsCleanAbs(r)
  {
    if IsAbs(p) then p else Clean("/" + p)
  }

  /** A clean relative path never ends in a slash. */
  lemma CleanRelNoTrailingSlash(q: string)
    requires IsCleanRel(q)
    ensures q != "" && q[|q| - 1] != '/'
  {
    CleanRelStartsWithName(q);
    var segs := Split(q, '/');
    assert IsName(segs[|segs| - 1]);
    if q[|q| - 1] == '/' {
      var q' := q[..|q| - 1];
      assert q == q' + "/";
      SplitTrailingSlash(q');
      assert false;
    }
  }

  /** "." is not made of names. */
  lemma CleanRelNotDot(q: string)
    requires IsCleanRel(q)
    ensures q != "."
  {
    assert !IsCleanRel(".") by {
      assert Split(".", '/') == ["."];
      assert !IsName(Split(".", '/')[0]);
    }
  }

  /** ResolvePath of a clean absolute path joins the key prefix with the path
      less its leading slash. */
  lemma ResolvedJoin(cfg: Config, a: string)
    requires IsCleanAbs(a)
    ensures ResolvePath(cfg, a) == GcsFs.Join([cfg.keyPrefix, a[1..]])
  {
    assert TrimPrefix(a, "/") == a[1..];
  }

  lemma KeyOfRootBare(cfg: Config)
    requires cfg.keyPrefix == ""
    ensures ResolvePath(cfg, "/") == ""
  {
    ResolvedJoin(cfg, "/");
    var elems := [cfg.keyPrefix, "/"[1..]];
    assert forall i :: 0 <= i < |elems| ==> elems[i] == "";
  }

  lemma KeyOfRootPrefixed(cfg: Config, k: string)
    requires cfg.keyPrefix == k + "/" && IsCleanRel(k)
    ensures ResolvePath(cfg, "/") == k
  {
    ResolvedJoin(cfg, "/");
    var kp := cfg.keyPrefix;
    CleanRelStartsWithName(k);
    assert JoinWith([kp, ""], '/') == k + "/" + "/";
    CleanTrailingSlashes(k);
    CleanRelStartsWithName(k);
  }

  lemma KeyOfBare(cfg: Config, q: string)
    requires cfg.keyPrefix == "" && IsCleanRel(q)
    ensures ResolvePath(cfg, "/" + q) == q
  {
    ResolvedJoin(cfg, "/" + q);
    assert ("/" + q)[1..] == q;
    CleanOfCleanRel(q);
    CleanRelStartsWithName(q);
    assert [cfg.keyPrefix, q][1..] == [q];
    assert Paths.Join([cfg.keyPrefix, q]) == Paths.Join([q]);
    assert Paths.Join([q]) == Clean(q);
  }

  lemma KeyOfPrefixed(cfg: Config, k: string, q: string)
    requires cfg.keyPrefix == k + "/" && IsCleanRel(k) && IsCleanRel(q)
    ensures ResolvePath(cfg, "/" + q) == cfg.keyPrefix + q
  {
    ResolvedJoin(cfg, "/" + q);
    assert ("/" + q)[1..] == q;
    var kp := cfg.keyPrefix;
    CleanRelStartsWithName(k);
    assert JoinWith([kp, q], '/') == k + "/" + "/" + q;
    CleanJoinedNames(k, q);
    CleanRelStartsWithName(k + "/" + q);
    assert k + "/" + q == kp + q;
  }

  /** The key ResolvePath computes for a clean absolute user path. */
  lemma ResolvedKey(cfg: Config, a: string)
    requires ValidKeyPrefix(cfg.keyPrefix) && IsCleanAbs(a)
    ensures var kp := cfg.keyPrefix;
      && (a == "/" && kp == "" ==> ResolvePath(cfg, a) == "")
      && (a == "/" && kp != "" ==> ResolvePath(cfg, a) == kp[..|kp| - 1])
      && (a != "/" && kp == "" ==> ResolvePath(cfg, a) == a[1..])
      && (a != "/" && kp != "" ==> ResolvePath(cfg, a) == kp + a[1..])
  {
    var kp := cfg.keyPrefix;
    if a != "/" {
      assert a == "/" + a[1..];
    }
    if kp == "" {
      if a == "/" {
        KeyOfRootBare(cfg);
      } else {
        KeyOfBare(cfg, a[1..]);
      }
    } else {
      var k := kp[..|kp| - 1];
      assert kp == k + "/";
      if a == "/" {
        KeyOfRootPrefixed(cfg, k);
      } else {
        KeyOfPrefixed(cfg, k, a[1..]);
      }
    }
  }

  /** A clean relative key is rooted by prefixing a slash. */
  lemma RootedOfCleanRel(q: string)
    requires IsCleanRel(q)
    ensures Rooted(q) == "/" + q
  {
    CleanOfCleanRel(q);
    CleanRelStartsWithName(q);
    assert Split(".", '/') == ["."];
  }

  /** GetRelativePath of "" and of a clean relative key, without a key prefix. */
  lemma RelativeOfBareKey(cfg: Config, q: string)
    requires cfg.keyPrefix == "" && (q == "" || IsCleanRel(q))
    ensures GetRelativePath(cfg, q) == "/" + q
  {
    assert Split(".", '/') == ["."];
    if q == "" {
      assert Split("", '/') == [""];
      assert Reduce([], [""], false) == [];
      assert Clean("") == Render([], false);
    } else {
      RootedOfCleanRel(q);
    }
  }

  /** GetRelativePath of the key prefix's own directory is the root. */
  lemma RelativeOfPrefixDir(cfg: Config, k: string)
    requires cfg.keyPrefix == k + "/" && IsCleanRel(k)
    ensures GetRelativePath(cfg, k) == "/"
  {
    RootedOfCleanRel(k);
    assert !HasPrefix("/" + k, "/" + cfg.keyPrefix);
  }

  /** A key made of a clean prefix directory and a clean relative path is
      rooted by prefixing a slash. */
  lemma RootedPrefixedKey(k: string, q: string)
    requires IsCleanRel(k) && IsCleanRel(q)
    ensures Rooted(k + "/" + q) == "/" + k + "/" + q
  {
    var key := k + "/" + q;
    CleanRelJoin(k, q);
    RootedOfCleanRel(key);
    assert "/" + key == "/" + k + "/" + q;
  }

  lemma TrimRootedPrefix(kp: string, q: string)
    ensures HasPrefix("/" + kp + q, "/" + kp) && TrimPrefix("/" + kp + q, "/" + kp) == q
  {
    assert ("/" + kp + q)[..|kp| + 1] == "/" + kp;
  }

  /** A clean relative path with a slash in front is already clean. */
  lemma CleanRootedName(q: string)
    requires IsCleanRel(q)
    ensures Clean("/" + q) == "/" + q
  {
    assert ("/" + q)[1..] == q;
    CleanOfCleanAbs("/" + q);
  }

  /** GetRelativePath of a key whose rooted form starts with the key prefix. */
  lemma RelativeOfRooted(cfg: Config, name: string, rest: string)
    requires |cfg.keyPrefix| > 0 && HasPrefix(Rooted(name), "/" + cfg.keyPrefix)
    requires TrimPrefix(Rooted(name), "/" + cfg.keyPrefix) == rest
    ensures GetRelativePath(cfg, name) == Clean("/" + rest)
  {
  }

  /** GetRelativePath of a key below the key prefix drops the prefix. */
  lemma RelativeOfPrefixedKey(cfg: Config, k: string, q: string)
    requires cfg.keyPrefix == k + "/" && IsCleanRel(k) && IsCleanRel(q)
    ensures GetRelativePath(cfg, cfg.keyPrefix + q) == "/" + q
  {
    var kp := cfg.keyPrefix;
    assert kp + q == k + "/" + q;
    assert "/" + kp + q == "/" + k + "/" + q;
    RootedPrefixedKey(k, q);
    TrimRootedPrefix(kp, q);
    CleanRootedName(q);
    RelativeOfRooted(cfg, kp + q, q);
  }

  /** GetRelativePath undoes ResolvePath on clean absolute user paths. */
  lemma RelativeOfResolvedAbs(cfg: Config, a: string)
    requires ValidKeyPrefix(cfg.keyPrefix) && IsCleanAbs(a)
    ensures GetRelativePath(cfg, ResolvePath(cfg, a)) == a
  {
    var kp := cfg.keyPrefix;
    if a != "/" {
      assert a == "/" + a[1..];
    }
    if kp == "" {
      if a == "/" {
        KeyOfRootBare(cfg);
        RelativeOfBareKey(cfg, "");
      } else {
        KeyOfBare(cfg, a[1..]);
        RelativeOfBareKey(cfg, a[1..]);
      }
    } else {
      var k := kp[..|kp| - 1];
      assert kp == k + "/";
      if a == "/" {
        KeyOfRootPrefixed(cfg, k);
        RelativeOfPrefixDir(cfg, k);
      } else {
        KeyOfPrefixed(cfg, k, a[1..]);
        RelativeOfPrefixedKey(cfg, k, a[1..]);
      }
    }
  }

  /** GetRelativePath undoes ResolvePath: a user path comes back cleaned and
      rooted, for every key prefix the backend accepts. Absolute input must
      already be clean, since ResolvePath does not clean it. */
  lemma RelativePathOfResolved(cfg: Config, p: string)
    requires ValidKeyPrefix(cfg.keyPrefix)
    requires !IsAbs(p) || IsCleanAbs(p)
    ensures GetRelativePath(cfg, ResolvePath(cfg, p)) == UserPath(p)
    ensures UserPath(p) == Clean("/" + p)
  {
    var a := UserPath(p);
    if IsAbs(p) {
      CleanExtraSlash(p);
      CleanOfCleanAbs(p);
    } else {
      assert ResolvePath(cfg, p) == ResolvePath(cfg, a);
    }
    RelativeOfResolvedAbs(cfg, a);
  }

  /** ResolvePath does not clean absolute input before joining it to the key
      prefix, so a ".." in it can climb out of the prefix: "/../x" under the
      key prefix "k/" is the key "x". */
  lemma ResolveEscapesKeyPrefix(kp: string, p: string)
    requires kp == "k/" && p == "/../x"
    ensures ResolvePath(Config(kp), p) == "x"
  {
    var rest := TrimPrefix(p, "/");
    assert rest == "../x";
    var j := JoinWith([kp, rest], '/');
    assert [kp, rest][1..] == [rest];
    assert JoinWith([rest], '/') == rest;
    assert j == kp + ['/'] + rest;
    assert j == "k" + ['/'] + ("" + ['/'] + (".." + ['/'] + "x"));
    CleanEscape(j);
    assert Paths.Join([kp, rest]) == "x";
  }

  lemma CleanEscape(j: string)
    requires j == "k" + ['/'] + ("" + ['/'] + (".." + ['/'] + "x"))
    ensures Clean(j) == "x"
  {
    SplitFour("k", "", "..", "x");
    EscapeReduce();
    assert Render(["x"], false) == "x";
  }

  lemma SplitCons(a: string, rest: string, parts: seq<string>)
    requires '/' !in a && Split(rest, '/') == parts
    ensures Split(a + ['/'] + rest, '/') == [a] + parts
  {
    SplitFirst(a, '/', rest);
  }

  lemma SplitFour(a: string, b: string, c: string, d: string)
    requires '/' !in a && '/' !in b && '/' !in c && '/' !in d
    ensures Split(a + ['/'] + (b + ['/'] + (c + ['/'] + d)), '/') == [a, b, c, d]
  {
    var cd := c + ['/'] + d;
    var bcd := b + ['/'] + cd;
    assert Split(cd, '/') == [c] + [d] by {
      SplitCons(c, d, [d]);
    }
    assert Split(bcd, '/') == [b] + ([c] + [d]) by {
      SplitCons(b, cd, [c] + [d]);
    }
    SplitCons(a, bcd, [b] + ([c] + [d]));
    ConsFour(a, b, c, d);
  }

  lemma ConsFour<T>(a: T, b: T, c: T, d: T)
    ensures [a] + ([b] + ([c] + [d])) == [a, b, c, d]
  {
  }

  lemma EscapeReduce()
    ensures Reduce([], ["k", "", "..", "x"], false) == ["x"]
  {
    var es := ["k", "", "..", "x"];
    assert Step([], "k", false) == ["k"];
    assert es[1..] == ["", "..", "x"];
    assert Step(["k"], "", false) == ["k"];
    assert es[1..][1..] == ["..", "x"];
    assert Step(["k"], "..", false) == [];
    assert es[1..][1..][1..] == ["x"];
    assert Step([], "x", false) == ["x"];
    assert Reduce(["x"], [], false) == ["x"];
  }

  /** Stat's listing prefix below a clean parent directory is that directory
      and a slash. */
  lemma PrefixOfCleanDir(name: string)
    requires IsCleanRel(Dir(name))
    ensures PrefixForStat(name) == Dir(name) + "/"
  {
    var d := Dir(name);
    CleanRelStartsWithName(d);
    CleanRelNoTrailingSlash(d);
    CleanRelNotDot(d);
    assert TrimPrefix(d, "/") == d;
    assert !HasSuffix(d, "/");
  }

  /** A name without a slash is listed from the top. */
  lemma StatPrefixOfTopName(name: string) returns (last: string)
    requires IsCleanRel(name) && |Split(name, '/')| == 1
    ensures name == PrefixForStat(name) + last && IsName(last)
    ensures PrefixForStat(name) == ""
  {
    last := Split(name, '/')[0];
    DirOfName(name);
    JoinSplit(name, '/');
  }

  /** A name with a slash is listed from its parent directory. */
  lemma StatPrefixOfNestedName(name: string) returns (last: string)
    requires IsCleanRel(name) && |Split(name, '/')| > 1
    ensures name == PrefixForStat(name) + last && IsName(last)
    ensures HasSuffix(PrefixForStat(name), "/")
  {
    var segs := Split(name, '/');
    last := segs[|segs| - 1];
    var d := Dir(name);
    DirOfNested(name);
    PrefixOfCleanDir(name);
    assert HasSuffix(d + "/", "/");
    assert name == d + "/" + last;
  }

  /** Stat's listing prefix for a clean relative name: the name is that prefix
      followed by one last name. */
  lemma StatPrefixOfName(name: string) returns (last: string)
    requires IsCleanRel(name)
    ensures name == PrefixForStat(name) + last && IsName(last)
    ensures PrefixForStat(name) == "" || HasSuffix(PrefixForStat(name), "/")
  {
    if |Split(name, '/')| == 1 {
      last := StatPrefixOfTopName(name);
    } else {
      last := StatPrefixOfNestedName(name);
    }
  }
}
