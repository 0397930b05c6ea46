/**
 The union of directories shown by inf24-1.cpp and fuse_c_example/main.c.  The first looks
 names up in an index sorted once, the second scans the directories for the newest entry.
 A layer is a snapshot of one directory; the modification times are those of the snapshot.
 */
module UnionFs {
  import opened Runs
  import opened PathStrings

  /** A relative path, by its components; [] is the directory itself. */
  type Path = seq<string>

  datatype Entry = Entry(time: int, isDir: bool)

  type Layer = map<Path, Entry>

  /** The components of a path are names, and it lies in a directory of the layer. */
  ghost predicate InPlace(l: Layer, p: Path) {
    (forall n | n in p :: Piece(n, '/')) && (p != [] ==> p[..|p|-1] in l && l[p[..|p|-1]].isDir)
  }

  /** The entries of a directory, itself included. */
  ghost predicate WellFormed(l: Layer) {
    [] in l && l[[]].isDir && forall p {:trigger InPlace(l, p)} | p in l :: InPlace(l, p)
  }

  // ----- file_checker -----

  predicate LessString(a: string, b: string) {
    b != "" && (a == "" || a[0] < b[0] || (a[0] == b[0] && LessString(a[1..], b[1..])))
  }

  predicate LessPath(a: Path, b: Path) {
    b != [] && (a == [] || LessString(a[0], b[0]) || (a[0] == b[0] && LessPath(a[1..], b[1..])))
  }

  /** The directories as given, and what is below each. */
  datatype Union = Union(dirs: seq<string>, layers: seq<Layer>)

  /** Absolute directories, as get_real_path makes them, with their snapshots. */
  ghost predicate Proper(u: Union) {
    && |u.dirs| == |u.layers|
    && (forall k | 0 <= k < |u.dirs| :: u.dirs[k] != "")
    && forall l | l in u.layers :: WellFormed(l)
  }

  predicate Has(u: Union, k: nat, p: Path) {
    k < |u.layers| && k < |u.dirs| && u.dirs[k] != "" && p in u.layers[k]
  }

  /** pathes: `orig` is the relative path as it was cut out of the full one, which names an entry of a layer. */
  datatype File = File(orig: Path, layer: nat, path: Path)

  function FileOf(u: Union, k: nat, p: Path): File
    requires Has(u, k, p)
  {
    File(Key(u.dirs[k], p), k, p)
  }

  predicate Exists(u: Union, f: File) {
    Has(u, f.layer, f.path) && f == FileOf(u, f.layer, f.path)
  }

  function TimeAt(u: Union, k: nat, p: Path): int
    requires Has(u, k, p)
  {
    u.layers[k][p].time
  }

  function Time(u: Union, f: File): int
    requires Exists(u, f)
  {
    TimeAt(u, f.layer, f.path)
  }

  /** By path, and among equal paths the newest first. */
  predicate Before(u: Union, x: File, y: File)
    requires Exists(u, x) && Exists(u, y)
  {
    LessPath(x.orig, y.orig) || (x.orig == y.orig && Time(u, x) > Time(u, y))
  }

  /** At the first difference, which is at n, a has ended or has the smaller character. */
  predicate DiffersAt(a: string, b: string, n: nat) {
    n <= |a| && n < |b| && a[..n] == b[..n] && (n == |a| || a[n] < b[n])
  }

  /** The order of std::string: by the first difference, and a proper prefix comes first. */
  lemma {:induction false} StringOrder(a: string, b: string)
    ensures LessString(a, b) <==> exists n: nat :: DiffersAt(a, b, n)
  {
    if a == "" || b == "" || a[0] != b[0] {
      assert DiffersAt(a, b, 0) <==> LessString(a, b);
    } else {
      StringOrder(a[1..], b[1..]);
      if n: nat :| DiffersAt(a[1..], b[1..], n) {
        assert a[..n+1] == [a[0]] + a[1..][..n];
        assert b[..n+1] == [b[0]] + b[1..][..n];
        assert DiffersAt(a, b, n + 1);
      }
      if n: nat :| DiffersAt(a, b, n) {
        assert a[1..][..n-1] == a[..n][1..];
        assert b[1..][..n-1] == b[..n][1..];
        assert DiffersAt(a[1..], b[1..], n - 1);
      }
    }
  }

  predicate PathsDifferAt(a: Path, b: Path, n: nat) {
    n <= |a| && n < |b| && a[..n] == b[..n] && (n == |a| || LessString(a[n], b[n]))
  }

  /** Paths are ordered likewise by their components. */
  lemma {:induction false} PathOrder(a: Path, b: Path)
    ensures LessPath(a, b) <==> exists n: nat :: PathsDifferAt(a, b, n)
  {
    if a == [] || b == [] || a[0] != b[0] {
      assert PathsDifferAt(a, b, 0) <==> LessPath(a, b);
    } else {
      StringsAreOrdered(a[0], a[0]);
      PathOrder(a[1..], b[1..]);
      if n: nat :| PathsDifferAt(a[1..], b[1..], n) {
        assert a[..n+1] == [a[0]] + a[1..][..n];
        assert b[..n+1] == [b[0]] + b[1..][..n];
        assert PathsDifferAt(a, b, n + 1);
      }
      if n: nat :| PathsDifferAt(a, b, n) {
        assert a[1..][..n-1] == a[..n][1..];
        assert b[1..][..n-1] == b[..n][1..];
        assert PathsDifferAt(a[1..], b[1..], n - 1);
      }
    }
  }

  lemma {:induction false} StringsAreOrdered(a: string, b: string)
    ensures !(LessString(a, b) && LessString(b, a)) && !LessString(a, a)
    ensures LessString(a, b) || LessString(b, a) || a == b
  {
    if a != "" {
      StringsAreOrdered(a[1..], if b == "" then "" else b[1..]);
      assert a == [a[0]] + a[1..];
      assert b != "" ==> b == [b[0]] + b[1..];
    }
  }

  lemma {:induction false} StringsTransitive(a: string, b: string, c: string)
    requires LessString(a, b) && LessString(b, c)
    ensures LessString(a, c)
  {
    if a != "" && a[0] == b[0] == c[0] {
      StringsTransitive(a[1..], b[1..], c[1..]);
    }
  }

  lemma {:induction false} PathsAreOrdered(a: Path, b: Path)
    ensures !(LessPath(a, b) && LessPath(b, a)) && !LessPath(a, a)
    ensures LessPath(a, b) || LessPath(b, a) || a == b
  {
    if a != [] {
      StringsAreOrdered(a[0], if b == [] then "" else b[0]);
      PathsAreOrdered(a[1..], if b == [] then [] else b[1..]);
      assert a == [a[0]] + a[1..];
      assert b != [] ==> b == [b[0]] + b[1..];
    }
  }

  lemma {:induction false} PathsTransitive(a: Path, b: Path, c: Path)
    requires LessPath(a, b) && LessPath(b, c)
    ensures LessPath(a, c)
  {
    if a != [] {
      StringsAreOrdered(a[0], a[0]);
      if a[0] == b[0] && b[0] == c[0] {
        PathsTransitive(a[1..], b[1..], c[1..]);
      } else if a[0] != b[0] && b[0] != c[0] {
        StringsTransitive(a[0], b[0], c[0]);
      }
    }
  }

  /** std::sort needs a strict weak ordering; entries are equivalent when path and time agree. */
  lemma StrictWeakOrdering(u: Union, x: File, y: File, z: File)
    requires Exists(u, x) && Exists(u, y) && Exists(u, z)
    ensures !Before(u, x, x)
    ensures Before(u, x, y) && Before(u, y, z) ==> Before(u, x, z)
    ensures !Before(u, x, y) && !Before(u, y, x)
       <==> x.orig == y.orig && Time(u, x) == Time(u, y)
  {
    PathsAreOrdered(x.orig, y.orig);
    PathsAreOrdered(x.orig, x.orig);
    if LessPath(x.orig, y.orig) && LessPath(y.orig, z.orig) {
      PathsTransitive(x.orig, y.orig, z.orig);
    }
  }

  // ----- the index -----

  ghost predicate AllExist(u: Union, files: seq<File>) {
    forall f | f in files :: Exists(u, f)
  }

  ghost predicate Sorted(u: Union, files: seq<File>)
    requires AllExist(u, files)
  {
    forall i, j | 0 <= i < j < |files| :: !Before(u, files[j], files[i])
  }

  /** Every entry of the first n layers and of `keys` in layer n is listed once. */
  ghost predicate Lists(u: Union, files: seq<File>, n: nat, keys: set<Path>) {
    forall f: File :: multiset(files)[f]
      == if Exists(u, f) && (f.layer < n || (f.layer == n && f.path in keys)) then 1 else 0
  }

  /** What std::sort may leave in file_tree. */
  ghost predicate IsIndex(u: Union, tree: seq<File>) {
    Lists(u, tree, |u.layers|, {}) && AllExist(u, tree) && Sorted(u, tree)
  }

  lemma ListedExist(u: Union, files: seq<File>, n: nat, keys: set<Path>)
    requires Lists(u, files, n, keys)
    ensures AllExist(u, files)
  {
    forall f | f in files ensures Exists(u, f) {
      assert multiset(files)[f] > 0;
    }
  }

  lemma IndexHas(u: Union, tree: seq<File>, f: File)
    requires IsIndex(u, tree)
    ensures f in tree <==> Exists(u, f)
  {
    assert f in tree <==> f in multiset(tree);
  }

  // ----- sorting -----

  function Insert(u: Union, files: seq<File>, x: File): (r: seq<File>)
    requires Exists(u, x) && forall f | f in files :: Exists(u, f)
    ensures multiset(r) == multiset(files) + multiset{x}
  {
    if files == [] || Before(u, x, files[0]) then [x] + files
    else
      assert files == [files[0]] + files[1..];
      [files[0]] + Insert(u, files[1..], x)
  }

  lemma InsertExists(u: Union, files: seq<File>, x: File)
    requires Exists(u, x) && AllExist(u, files)
    ensures AllExist(u, Insert(u, files, x))
  {
    forall f | f in Insert(u, files, x) ensures Exists(u, f) {
      assert f in multiset(Insert(u, files, x));
    }
  }

  /** Nothing in a sorted list comes before an entry that may stand in front of its first. */
  lemma SortedInFront(u: Union, x: File, files: seq<File>)
    requires Exists(u, x) && AllExist(u, files) && Sorted(u, files)
    requires files == [] || Before(u, x, files[0])
    ensures AllExist(u, [x] + files) && Sorted(u, [x] + files)
  {
    forall j | 0 <= j < |files| ensures !Before(u, files[j], x) {
      StrictWeakOrdering(u, files[j], x, files[0]);
      StrictWeakOrdering(u, x, files[0], x);
    }
  }

  lemma SortedBehind(u: Union, first: File, rest: seq<File>)
    requires Exists(u, first) && AllExist(u, rest) && Sorted(u, rest)
    requires forall f | f in rest :: !Before(u, f, first)
    ensures AllExist(u, [first] + rest) && Sorted(u, [first] + rest)
  {
  }

  lemma NoneBefore(u: Union, files: seq<File>, x: File)
    requires Exists(u, x) && AllExist(u, files) && Sorted(u, files) && files != [] && !Before(u, x, files[0])
    ensures AllExist(u, Insert(u, files[1..], x))
    ensures forall f | f in Insert(u, files[1..], x) :: !Before(u, f, files[0])
  {
    var rest := Insert(u, files[1..], x);
    InsertExists(u, files[1..], x);
    forall f | f in rest ensures !Before(u, f, files[0]) {
      assert f in multiset(rest);
    }
  }

  lemma {:induction false} InsertSorts(u: Union, files: seq<File>, x: File)
    requires Exists(u, x) && AllExist(u, files) && Sorted(u, files)
    ensures AllExist(u, Insert(u, files, x)) && Sorted(u, Insert(u, files, x))
  {
    InsertExists(u, files, x);
    if files == [] || Before(u, x, files[0]) {
      SortedInFront(u, x, files);
    } else {
      var rest := Insert(u, files[1..], x);
      InsertSorts(u, files[1..], x);
      NoneBefore(u, files, x);
      SortedBehind(u, files[0], rest);
    }
  }

  lemma TakeOneMore(files: seq<File>, i: nat)
    requires i < |files|
    ensures multiset(files[..i+1]) == multiset(files[..i]) + multiset{files[i]}
  {
    assert files[..i+1] == files[..i] + [files[i]];
  }

  /** One way to sort, by insertion. */
  method Sort(u: Union, files: seq<File>) returns (sorted: seq<File>)
    requires forall f | f in files :: Exists(u, f)
    ensures multiset(sorted) == multiset(files)
    ensures AllExist(u, sorted) && Sorted(u, sorted)
  {
    sorted := [];
    for i := 0 to |files|
      invariant multiset(sorted) == multiset(files[..i])
      invariant AllExist(u, sorted) && Sorted(u, sorted)
    {
      TakeOneMore(files, i);
      InsertSorts(u, sorted, files[i]);
      sorted := Insert(u, sorted, files[i]);
    }
    assert files[..|files|] == files;
  }

  lemma OneMoreListed(u: Union, files: seq<File>, n: nat, keys: set<Path>, p: Path)
    requires Lists(u, files, n, keys) && p !in keys && Has(u, n, p)
    ensures Lists(u, files + [FileOf(u, n, p)], n, keys + {p})
  {
    var f := FileOf(u, n, p);
    assert multiset(files + [f]) == multiset(files) + multiset{f};
  }

  lemma LayerListed(u: Union, files: seq<File>, n: nat, keys: set<Path>)
    requires n < |u.layers| && Lists(u, files, n, keys) && keys == u.layers[n].Keys
    ensures Lists(u, files, n + 1, {})
  {
  }

  lemma RootListed(u: Union, files: seq<File>, n: nat, done: set<Path>)
    requires Has(u, n, []) && done == u.layers[n].Keys - {[]} && Lists(u, files, n, done)
    ensures Lists(u, files + [File([], n, [])], n + 1, {})
  {
    OneMoreListed(u, files, n, done, []);
    LayerListed(u, files + [File([], n, [])], n, done + {[]});
  }

  /** One entry of a directory: its relative path is delete_pref of the full one. */
  method ListFile(u: Union, n: nat, p: Path, before: seq<File>, ghost done: set<Path>) returns (files: seq<File>)
    requires Has(u, n, p) && InPlace(u.layers[n], p) && p != []
    requires Lists(u, before, n, done) && p !in done
    ensures Lists(u, files, n, done + {p})
  {
    JoinStarts(p);
    var full := Append(u.dirs[n], Join(p, '/'));
    var orig := Components(DeletePrefix(full, u.dirs[n]));
    OneMoreListed(u, before, n, done, p);
    files := before + [File(orig, n, p)];
  }

  /** One directory of preprocess: all entries below it in any order, then itself. */
  method ListLayer(u: Union, n: nat, before: seq<File>) returns (files: seq<File>)
    requires Has(u, n, []) && WellFormed(u.layers[n]) && Lists(u, before, n, {})
    ensures Lists(u, files, n + 1, {})
  {
    files := before;
    var keys := u.layers[n].Keys - {[]};
    ghost var done: set<Path> := {};
    while keys != {}
      invariant keys !! done && keys + done == u.layers[n].Keys - {[]}
      invariant Lists(u, files, n, done)
      decreases |keys|
    {
      var p :| p in keys;
      assert InPlace(u.layers[n], p);
      files := ListFile(u, n, p, files, done);
      keys, done := keys - {p}, done + {p};
    }
    RootListed(u, files, n, done);
    files := files + [File([], n, [])];
  }

  /** preprocess */
  method Preprocess(u: Union) returns (tree: seq<File>)
    requires Proper(u)
    ensures IsIndex(u, tree)
  {
    var files := [];
    for n := 0 to |u.layers|
      invariant Lists(u, files, n, {})
    {
      assert WellFormed(u.layers[n]) && Has(u, n, []);
      files := ListLayer(u, n, files);
    }
    ListedExist(u, files, |u.layers|, {});
    tree := Sort(u, files);
    assert Lists(u, tree, |u.layers|, {});
  }

  // ----- the two lookups -----

  /** The first position of a path in the index, or -1. */
  function Find(tree: seq<File>, p: Path): (i: int)
    ensures -1 <= i < |tree|
    ensures i >= 0 ==> tree[i].orig == p
    ensures forall j | 0 <= j < (if i < 0 then |tree| else i) :: tree[j].orig != p
  {
    if tree == [] then -1
    else if tree[0].orig == p then 0
    else var i := Find(tree[1..], p); if i < 0 then -1 else i + 1
  }

  method GetLastChangedName(tree: seq<File>, p: Path) returns (i: int)
    ensures i == Find(tree, p)
  {
    for k := 0 to |tree|
      invariant forall j | 0 <= j < k :: tree[j].orig != p
    {
      if tree[k].orig == p {
        return k;
      }
    }
    return -1;
  }

  /** The lookup succeeds exactly for the stored paths. */
  lemma FindsExactly(u: Union, tree: seq<File>, p: Path)
    requires IsIndex(u, tree)
    ensures Find(tree, p) >= 0 <==> exists k: nat, q :: Has(u, k, q) && Key(u.dirs[k], q) == p
  {
    var i := Find(tree, p);
    if i >= 0 {
      IndexHas(u, tree, tree[i]);
    }
    if k: nat, q :| Has(u, k, q) && Key(u.dirs[k], q) == p {
      IndexHas(u, tree, FileOf(u, k, q));
      var m :| 0 <= m < |tree| && tree[m] == FileOf(u, k, q);
    }
  }

  /** And what it finds is as new as any entry stored under that path. */
  lemma FindsNewestStored(u: Union, tree: seq<File>, p: Path)
    requires IsIndex(u, tree) && Find(tree, p) >= 0
    ensures Exists(u, tree[Find(tree, p)]) && tree[Find(tree, p)].orig == p
    ensures forall k: nat, q | Has(u, k, q) && Key(u.dirs[k], q) == p ::
      TimeAt(u, k, q) <= Time(u, tree[Find(tree, p)])
  {
    var i := Find(tree, p);
    IndexHas(u, tree, tree[i]);
    forall k: nat, q | Has(u, k, q) && Key(u.dirs[k], q) == p ensures TimeAt(u, k, q) <= Time(u, tree[i]) {
      NotAfter(u, tree, i, FileOf(u, k, q));
    }
  }

  /**
   An entry below a directory with a trailing separator is found under its path without the first
   character, and what is found there is as new.
   */
  lemma FoundWithoutFirst(u: Union, tree: seq<File>, k: nat, p: Path)
    requires Proper(u) && IsIndex(u, tree) && Has(u, k, p) && p != [] && u.dirs[k][|u.dirs[k]|-1] == '/'
    ensures Join(p, '/') != ""
    ensures var i := Find(tree, Components(Join(p, '/')[1..]));
      i >= 0 && Exists(u, tree[i]) && TimeAt(u, k, p) <= Time(u, tree[i])
  {
    assert WellFormed(u.layers[k]) && InPlace(u.layers[k], p);
    KeyIsCut(u.dirs[k], p);
    FindsExactly(u, tree, Key(u.dirs[k], p));
    FindsNewestStored(u, tree, Key(u.dirs[k], p));
  }

  /** No directory was given with a trailing separator. */
  predicate Plain(u: Union) {
    forall k | 0 <= k < |u.dirs| :: u.dirs[k] != "" && u.dirs[k][|u.dirs[k]|-1] != '/'
  }

  lemma StoredPath(u: Union, k: nat, p: Path)
    requires Proper(u) && Plain(u) && Has(u, k, p)
    ensures FileOf(u, k, p).orig == p
  {
    assert WellFormed(u.layers[k]) && InPlace(u.layers[k], p);
    if p != [] {
      KeyExactly(u.dirs[k], p);
    }
  }

  /** Every entry is stored under its own path exactly when no non-empty directory has a trailing separator. */
  lemma StoredExactly(u: Union)
    requires Proper(u)
    ensures (forall k: nat, p | Has(u, k, p) :: FileOf(u, k, p).orig == p)
       <==> forall k: nat, p | Has(u, k, p) && p != [] :: u.dirs[k][|u.dirs[k]|-1] != '/'
  {
    forall k: nat, p | Has(u, k, p) && p != []
      ensures FileOf(u, k, p).orig == p <==> u.dirs[k][|u.dirs[k]|-1] != '/'
    {
      assert WellFormed(u.layers[k]) && InPlace(u.layers[k], p);
      KeyExactly(u.dirs[k], p);
    }
    forall k: nat | Has(u, k, []) ensures FileOf(u, k, []).orig == [] {
    }
  }

  ghost predicate Found(u: Union, p: Path) {
    exists k: nat :: Has(u, k, p)
  }

  /** The entry for p in layer k is as new as any other. */
  ghost predicate Newest(u: Union, p: Path, k: nat) {
    && Has(u, k, p)
    && forall j: nat :: Has(u, j, p) ==> TimeAt(u, j, p) <= TimeAt(u, k, p)
  }

  /** What the scan returns: the first of the newest. */
  ghost predicate Scanned(u: Union, p: Path, r: Option<nat>) {
    match r
    case None => !Found(u, p)
    case Some(k) => Newest(u, p, k) && forall j: nat | j < k :: !Newest(u, p, j)
  }

  /** GetRealPathAndLastTime: None when no layer has the path. */
  method Scan(u: Union, p: Path) returns (r: Option<nat>)
    requires |u.dirs| == |u.layers| && forall k | 0 <= k < |u.dirs| :: u.dirs[k] != ""
    ensures Scanned(u, p, r)
  {
    var lastTime := 0;
    var isExist := false;
    var maxPath := 0;
    for k := 0 to |u.layers|
      invariant !isExist ==> forall j: nat | j < k :: !Has(u, j, p)
      invariant isExist ==> maxPath < k && Has(u, maxPath, p) && lastTime == TimeAt(u, maxPath, p)
      invariant isExist ==> forall j: nat | j < k && Has(u, j, p) ::
        if j < maxPath then TimeAt(u, j, p) < lastTime else TimeAt(u, j, p) <= lastTime
    {
      if p in u.layers[k] {
        assert Has(u, k, p);
        if u.layers[k][p].time > lastTime || !isExist {
          isExist := true;
          lastTime := u.layers[k][p].time;
          maxPath := k;
        }
      }
    }
    r := if isExist then Some(maxPath) else None;
  }

  ghost predicate OnlyNewest(u: Union, p: Path, k: nat) {
    Newest(u, p, k) && forall j: nat :: Newest(u, p, j) ==> j == k
  }

  lemma FoundIsNewest(u: Union, tree: seq<File>, p: Path)
    requires Proper(u) && Plain(u) && IsIndex(u, tree) && Find(tree, p) >= 0
    ensures tree[Find(tree, p)].path == p && Newest(u, p, tree[Find(tree, p)].layer)
  {
    var i := Find(tree, p);
    IndexHas(u, tree, tree[i]);
    StoredPath(u, tree[i].layer, tree[i].path);
    forall j: nat | Has(u, j, p) ensures TimeAt(u, j, p) <= Time(u, tree[i]) {
      StoredPath(u, j, p);
      NotAfter(u, tree, i, FileOf(u, j, p));
    }
  }

  /** Among entries of the same path, the first one in the index is as new as any. */
  lemma NotAfter(u: Union, tree: seq<File>, i: nat, f: File)
    requires IsIndex(u, tree) && i < |tree| && Exists(u, f) && f.orig == tree[i].orig
    requires forall m | 0 <= m < i :: tree[m].orig != f.orig
    ensures Time(u, f) <= Time(u, tree[i])
  {
    IndexHas(u, tree, f);
    var m :| 0 <= m < |tree| && tree[m] == f;
    assert m > i ==> !Before(u, tree[m], tree[i]);
  }

  /**
   The index finds a path exactly when the scan does, and an entry as new as the scan's;
   when only one layer has the newest entry it is the same file.
   */
  lemma IndexAgreesWithScan(u: Union, tree: seq<File>, p: Path, r: Option<nat>)
    requires Proper(u) && Plain(u) && IsIndex(u, tree) && Scanned(u, p, r)
    ensures Find(tree, p) >= 0 <==> r.Some?
    ensures r.Some? ==>
      && tree[Find(tree, p)].path == p && Newest(u, p, tree[Find(tree, p)].layer)
      && Time(u, tree[Find(tree, p)]) == TimeAt(u, r.value, p)
      && (OnlyNewest(u, p, r.value) ==> tree[Find(tree, p)] == FileOf(u, r.value, p))
  {
    FindsExactly(u, tree, p);
    if Find(tree, p) >= 0 {
      FoundIsNewest(u, tree, p);
    }
    if r.Some? {
      StoredPath(u, r.value, p);
    }
  }

  // ----- whether the file is determined -----

  lemma {:induction false} KeysAreListed(u: Union, n: nat, keys: set<Path>) returns (files: seq<File>)
    requires Proper(u) && n <= |u.layers| && (forall p | p in keys :: Has(u, n, p))
    ensures Lists(u, files, n, keys)
    decreases n, |keys|
  {
    if keys != {} {
      var p :| p in keys;
      files := KeysAreListed(u, n, keys - {p});
      OneMoreListed(u, files, n, keys - {p}, p);
      files := files + [FileOf(u, n, p)];
      assert keys - {p} + {p} == keys;
    } else if n > 0 {
      files := KeysAreListed(u, n - 1, u.layers[n-1].Keys);
      LayerListed(u, files, n - 1, u.layers[n-1].Keys);
    } else {
      files := [];
    }
  }

  lemma {:induction false} CanBeSorted(u: Union, files: seq<File>) returns (sorted: seq<File>)
    requires AllExist(u, files)
    ensures multiset(sorted) == multiset(files)
    ensures AllExist(u, sorted) && Sorted(u, sorted)
  {
    if files == [] {
      sorted := [];
    } else {
      var rest := CanBeSorted(u, files[1..]);
      InsertSorts(u, rest, files[0]);
      sorted := Insert(u, rest, files[0]);
      assert files == [files[0]] + files[1..];
    }
  }

  lemma SomeIndex(u: Union) returns (tree: seq<File>)
    requires Proper(u)
    ensures IsIndex(u, tree)
  {
    var files := KeysAreListed(u, |u.layers|, {});
    ListedExist(u, files, |u.layers|, {});
    tree := CanBeSorted(u, files);
  }

  /** Entries with the same path and time may be exchanged. */
  lemma ExchangeKeepsIndex(u: Union, tree: seq<File>, i: nat, j: nat)
    requires IsIndex(u, tree) && i < j < |tree|
    requires tree[i].orig == tree[j].orig && Time(u, tree[i]) == Time(u, tree[j])
    ensures IsIndex(u, tree[i := tree[j]][j := tree[i]])
  {
    var other := tree[i := tree[j]][j := tree[i]];
    assert multiset(other) == multiset(tree);
    SameEntriesListed(u, tree, other);
    forall m | 0 <= m < |tree|
      ensures Exists(u, other[m]) && other[m].orig == tree[m].orig && Time(u, other[m]) == Time(u, tree[m])
    {
      assert other[m] == if m == i then tree[j] else if m == j then tree[i] else tree[m];
    }
    SameKeysSorted(u, tree, other);
  }

  lemma SameEntriesListed(u: Union, files: seq<File>, other: seq<File>)
    requires multiset(other) == multiset(files) && Lists(u, files, |u.layers|, {})
    ensures Lists(u, other, |u.layers|, {})
  {
  }

  lemma SameKeysSorted(u: Union, files: seq<File>, other: seq<File>)
    requires |other| == |files| && AllExist(u, files) && Sorted(u, files)
    requires forall m | 0 <= m < |files| ::
      Exists(u, other[m]) && other[m].orig == files[m].orig && Time(u, other[m]) == Time(u, files[m])
    ensures AllExist(u, other) && Sorted(u, other)
  {
  }

  /** When another layer has an entry as new, some index shows another file. */
  lemma OtherIndex(u: Union, p: Path, k: nat, b: nat) returns (tree: seq<File>)
    requires Proper(u) && Plain(u) && Newest(u, p, k) && Newest(u, p, b) && b != k
    ensures IsIndex(u, tree)
    ensures Find(tree, p) >= 0 && tree[Find(tree, p)].layer != k
  {
    tree := SomeIndex(u);
    StoredPath(u, b, p);
    var j := Position(u, tree, FileOf(u, b, p));
    FoundBy(tree, p, j);
    FoundIsNewest(u, tree, p);
    var i := Find(tree, p);
    if tree[i].layer == k {
      EquallyNew(u, p, k, b);
      assert Time(u, tree[i]) == Time(u, tree[j]);
      tree := ExchangeFirst(u, tree, p, i, j);
    }
  }

  lemma FoundBy(tree: seq<File>, p: Path, j: nat)
    requires j < |tree| && tree[j].orig == p
    ensures 0 <= Find(tree, p) <= j
  {
  }

  lemma EquallyNew(u: Union, p: Path, k: nat, b: nat)
    requires Newest(u, p, k) && Newest(u, p, b)
    ensures TimeAt(u, k, p) == TimeAt(u, b, p)
  {
  }

  lemma Position(u: Union, tree: seq<File>, f: File) returns (j: nat)
    requires IsIndex(u, tree) && Exists(u, f)
    ensures j < |tree| && tree[j] == f
  {
    IndexHas(u, tree, f);
    j :| j < |tree| && tree[j] == f;
  }

  lemma ExchangeFirst(u: Union, tree: seq<File>, p: Path, i: nat, j: nat) returns (other: seq<File>)
    requires IsIndex(u, tree) && i < j < |tree| && Find(tree, p) == i && tree[j].orig == p
    requires Time(u, tree[i]) == Time(u, tree[j])
    ensures IsIndex(u, other) && Find(other, p) == i && other[i] == tree[j]
  {
    ExchangeKeepsIndex(u, tree, i, j);
    other := tree[i := tree[j]][j := tree[i]];
    FoundAt(other, p, i);
  }

  lemma FoundAt(tree: seq<File>, p: Path, i: nat)
    requires i < |tree| && tree[i].orig == p && forall m | 0 <= m < i :: tree[m].orig != p
    ensures Find(tree, p) == i
  {
  }

  /** Every index shows the file the scan shows exactly when only one layer has the newest entry. */
  lemma SameFileExactly(u: Union, p: Path, k: nat)
    requires Proper(u) && Plain(u) && Scanned(u, p, Some(k))
    ensures OnlyNewest(u, p, k)
       <==> forall tree: seq<File> | IsIndex(u, tree) :: Find(tree, p) >= 0 && tree[Find(tree, p)].layer == k
  {
    if OnlyNewest(u, p, k) {
      forall tree: seq<File> | IsIndex(u, tree) ensures Find(tree, p) >= 0 && tree[Find(tree, p)].layer == k {
        IndexAgreesWithScan(u, tree, p, Some(k));
      }
    } else {
      var b: nat :| Newest(u, p, b) && b != k;
      var tree := OtherIndex(u, p, k, b);
    }
  }

  // ----- listing a directory -----

  predicate IsDir(l: Layer, p: Path) {
    p in l && l[p].isDir
  }

  /** The names directory_iterator yields. */
  function Names(l: Layer, p: Path): set<string> {
    set q | q in l && |q| == |p| + 1 && q[..|p|] == p :: q[|p|]
  }

  ghost predicate Listed(layers: seq<Layer>, p: Path, n: nat, name: string)
    requires n <= |layers|
  {
    exists k: nat :: k < n && IsDir(layers[k], p) && name in Names(layers[k], p)
  }

  ghost predicate Distinct(names: seq<string>) {
    forall i, j | 0 <= i < j < |names| :: names[i] != names[j]
  }

  /** What the filler gets: the two dots, then every name of the directory in any layer once. */
  ghost predicate IsListing(layers: seq<Layer>, p: Path, r: seq<string>) {
    && |r| >= 2 && r[..2] == [".", ".."] && Distinct(r[2..])
    && forall n :: n in r[2..] <==> Listed(layers, p, |layers|, n)
  }

  /** One catalogue: names not seen before go to the listing. */
  method ListCatalogue(l: Layer, p: Path, seen: set<string>, names: seq<string>)
    returns (seen': set<string>, names': seq<string>)
    requires Distinct(names) && forall n :: n in names <==> n in seen
    ensures Distinct(names') && names <= names' && forall n :: n in names' <==> n in seen'
    ensures seen' == seen + Names(l, p)
  {
    seen', names' := seen, names;
    var items := Names(l, p);
    while items != {}
      invariant seen' <= seen + Names(l, p) == seen' + items
      invariant Distinct(names') && names <= names' && forall n :: n in names' <==> n in seen'
      decreases |items|
    {
      var name :| name in items;
      if name !in seen' {
        seen' := seen' + {name};
        names' := names' + [name];
      }
      items := items - {name};
    }
  }

  /** readdir_callback of inf24-1.cpp; None is -ENOENT. */
  method ReadDir(layers: seq<Layer>, p: Path) returns (r: Option<seq<string>>)
    ensures r.None? <==> forall k | 0 <= k < |layers| :: !IsDir(layers[k], p)
    ensures r.Some? ==> IsListing(layers, p, r.value)
  {
    var subdirs: seq<nat> := [];
    for k := 0 to |layers|
      invariant forall i | 0 <= i < |subdirs| :: subdirs[i] < k && IsDir(layers[subdirs[i]], p)
      invariant forall l: nat | l < k && IsDir(layers[l], p) :: l in subdirs
    {
      if IsDir(layers[k], p) {
        subdirs := subdirs + [k];
      }
    }
    if subdirs == [] {
      return None;
    }
    var seen, names := {}, [];
    assert IsDir(layers[subdirs[0]], p);
    for i := 0 to |subdirs|
      invariant Distinct(names) && forall n :: n in names <==> n in seen
      invariant forall n | n in seen :: Listed(layers, p, |layers|, n)
      invariant forall j | 0 <= j < i :: Names(layers[subdirs[j]], p) <= seen
    {
      seen, names := ListCatalogue(layers[subdirs[i]], p, seen, names);
    }
    forall n | Listed(layers, p, |layers|, n) ensures n in names {
      var k: nat :| k < |layers| && IsDir(layers[k], p) && n in Names(layers[k], p);
      assert k in subdirs;
    }
    r := Some([".", ".."] + names);
    assert r.value[2..] == names;
  }

  /** ReadDirCallback of fuse_c_example/main.c: one pass, and no error. */
  method ReadDirCallback(layers: seq<Layer>, p: Path) returns (r: seq<string>)
    ensures IsListing(layers, p, r)
  {
    var seen, names := {}, [];
    for k := 0 to |layers|
      invariant Distinct(names) && forall n :: n in names <==> n in seen
      invariant forall n :: n in seen <==> Listed(layers, p, k, n)
    {
      if IsDir(layers[k], p) {
        seen, names := ListCatalogue(layers[k], p, seen, names);
      }
    }
    r := [".", ".."] + names;
    assert r[2..] == names;
  }

  /** In one layer a directory yields exactly the names of its entries. */
  lemma NamesAre(l: Layer, p: Path, name: string)
    requires WellFormed(l)
    ensures name in Names(l, p) <==> p + [name] in l
    ensures p + [name] in l ==> IsDir(l, p)
  {
    var q := p + [name];
    assert q[..|p|] == p && q[..|q|-1] == p && q[|p|] == name;
    if name in Names(l, p) {
      var o :| o in l && |o| == |p| + 1 && o[..|p|] == p && o[|p|] == name;
      assert o == q;
    }
    if q in l {
      assert InPlace(l, q);
    }
  }

  lemma ListedIsFound(u: Union, p: Path, name: string)
    requires Proper(u)
    ensures Listed(u.layers, p, |u.layers|, name) <==> Found(u, p + [name])
  {
    forall k: nat | k < |u.layers|
      ensures IsDir(u.layers[k], p) && name in Names(u.layers[k], p) <==> Has(u, k, p + [name])
    {
      NamesAre(u.layers[k], p, name);
    }
  }

  lemma FindsPath(u: Union, tree: seq<File>, p: Path)
    requires Proper(u) && Plain(u) && IsIndex(u, tree)
    ensures Find(tree, p) >= 0 <==> Found(u, p)
  {
    FindsExactly(u, tree, p);
    if Find(tree, p) >= 0 {
      FoundIsNewest(u, tree, p);
    }
    if k: nat :| Has(u, k, p) {
      StoredPath(u, k, p);
    }
  }

  /** A name is listed in a directory exactly when looking up directory/name succeeds. */
  lemma ListedExactlyWhenFound(u: Union, tree: seq<File>, p: Path, name: string)
    requires Proper(u) && Plain(u) && IsIndex(u, tree)
    ensures Listed(u.layers, p, |u.layers|, name) <==> Find(tree, p + [name]) >= 0
  {
    ListedIsFound(u, p, name);
    FindsPath(u, tree, p + [name]);
  }
}
