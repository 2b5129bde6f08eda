/**
  Walking the configured folders: an explicit-stack traversal, proved to visit exactly what can be reached through
  readable, visible directories, and what skipping nested roots really costs.
  (crates/owe-core/src/library.rs, `walk` and the root loop of `scan`)
 */
module LibraryWalk {
  import opened Prelude

  /** An absolute path, component by component. */
  type Path = seq<string>

  datatype Stamp = Stamp(mtimeSecs: int, mtimeNanos: nat, sizeBytes: nat)

  /** What `symlink_metadata` and `read_dir` say about an entry; `supported` is the verdict on its extension. */
  datatype Node = Dir(readable: bool) | File(stamp: Stamp, supported: bool) | Symlink | Other

  type FileSystem = map<Path, Node>

  predicate Readable(fs: FileSystem, d: Path) {
    d in fs && fs[d].Dir? && fs[d].readable
  }

  predicate IsDir(fs: FileSystem, d: Path) {
    d in fs && fs[d].Dir?
  }

  predicate Hidden(name: string) {
    name != "" && name[0] == '.'
  }

  function Parent(p: Path): Path
    requires p != []
  {
    p[..|p| - 1]
  }

  function Leaf(p: Path): string
    requires p != []
  {
    p[|p| - 1]
  }

  predicate Wanted(fs: FileSystem, p: Path) {
    p in fs && fs[p].File? && fs[p].supported
  }

  // ------------------------------------------------------------------ what can be reached

  /** Every directory from `from` down to `p`'s parent is readable, and no component below `from` is hidden. */
  ghost predicate Visible(fs: FileSystem, from: Path, p: Path) {
    from <= p && forall i :: |from| <= i < |p| ==> Readable(fs, p[..i]) && !Hidden(p[i])
  }

  /** A wallpaper that can be reached from `root` through readable, visible, real directories. */
  ghost predicate Reached(fs: FileSystem, root: Path, p: Path)
    ensures Reached(fs, root, p) ==> Wanted(fs, p)
  {
    Visible(fs, root, p) && |p| > |root| && Wanted(fs, p)
  }

  /** A directory the walk of `root` comes to, whether or not it can read it. */
  ghost predicate Visited(fs: FileSystem, root: Path, d: Path) {
    Visible(fs, root, d) && (d == root || IsDir(fs, d))
  }

  lemma {:induction false} VisibleStep(fs: FileSystem, from: Path, p: Path)
    ensures Visible(fs, from, p) <==>
              p == from || (from < p && Readable(fs, from) && !Hidden(p[|from|]) && Visible(fs, p[..|from| + 1], p))
  {
    if from < p {
      var c := p[..|from| + 1];
      assert p[..|from|] == from;
      if Visible(fs, from, p) {
        assert Readable(fs, p[..|from|]) && !Hidden(p[|from|]);
      }
      assert c <= p;
    }
  }

  /** Whether a way continues from `b` to `c` does not depend on where it started. */
  lemma VisibleJoin(fs: FileSystem, a: Path, b: Path, c: Path)
    requires a <= b <= c
    ensures Visible(fs, a, c) <==> Visible(fs, a, b) && Visible(fs, b, c)
  {
    if Visible(fs, a, c) {
      forall i | |a| <= i < |b| ensures Readable(fs, b[..i]) && !Hidden(b[i]) {
        assert b[..i] == c[..i] && b[i] == c[i];
      }
    }
    if Visible(fs, a, b) && Visible(fs, b, c) {
      forall i | |a| <= i < |c| ensures Readable(fs, c[..i]) && !Hidden(c[i]) {
        if i < |b| { assert b[..i] == c[..i] && b[i] == c[i]; }
      }
    }
  }

  /** A reached file is a visible entry of a readable directory the walk visits, and the other way round. */
  lemma {:induction false} ReachedThroughParent(fs: FileSystem, root: Path, p: Path)
    ensures Reached(fs, root, p) <==>
              p != [] && Wanted(fs, p) && !Hidden(Leaf(p)) && Readable(fs, Parent(p)) && Visited(fs, root, Parent(p))
  {
    if p != [] {
      var d := Parent(p);
      if root <= p && |root| < |p| {
        assert root <= d;
        assert p[..|d|] == d;
        VisibleJoin(fs, root, d, p);
        assert Visible(fs, d, p) <==> Readable(fs, d) && !Hidden(Leaf(p));
      }
    }
  }

  // ------------------------------------------------------------------ the walk

  /** The wallpapers listed by the directories in `done`. */
  ghost predicate Listed(fs: FileSystem, done: set<Path>, p: Path)
    ensures Listed(fs, done, p) ==> Wanted(fs, p)
  {
    p != [] && Parent(p) in done && Readable(fs, Parent(p)) && !Hidden(Leaf(p)) && Wanted(fs, p)
  }

  /** The unsupported files listed by the directories in `done`. */
  ghost function UnsupportedIn(fs: FileSystem, done: set<Path>): set<Path> {
    set p | p in fs && p != [] && Parent(p) in done && Readable(fs, Parent(p)) && !Hidden(Leaf(p)) && fs[p].File?
        && !fs[p].supported
  }

  /** What the walk does with one directory entry. */
  datatype Entry = Skip | Descend | Take(stamp: Stamp) | Unsupported

  function Classify(name: string, node: Node): Entry {
    if node.Symlink? || Hidden(name) then Skip
    else if node.Dir? then Descend
    else if !node.File? then Skip
    else if node.supported then Take(node.stamp) else Unsupported
  }

  /** What `read_dir` lists. */
  function Entries(fs: FileSystem, d: Path): (entries: set<Path>)
    ensures forall p :: p in entries <==> p in fs && p != [] && Parent(p) == d
  {
    set p | p in fs && p != [] && Parent(p) == d
  }

  /** What has been made of the entries in `done`. */
  ghost predicate Sorted(fs: FileSystem, done: set<Path>, dirs: seq<Path>, files: map<Path, Stamp>, other: set<Path>) {
    && (forall p :: p in done ==> p in fs && p != [])
    && NoDuplicates(dirs)
    && (forall p :: p in dirs <==> p in done && Classify(Leaf(p), fs[p]).Descend?)
    && (forall p :: p in files <==> p in done && Classify(Leaf(p), fs[p]).Take?)
    && (forall p :: p in files ==> Classify(Leaf(p), fs[p]) == Take(files[p]))
    && (forall p :: p in other <==> p in done && Classify(Leaf(p), fs[p]).Unsupported?)
  }

  lemma SortOneMore(fs: FileSystem, done: set<Path>, dirs: seq<Path>, files: map<Path, Stamp>, other: set<Path>,
                    p: Path)
    requires Sorted(fs, done, dirs, files, other) && p !in done && p in fs && p != []
    ensures match Classify(Leaf(p), fs[p])
            case Skip => Sorted(fs, done + {p}, dirs, files, other)
            case Descend => Sorted(fs, done + {p}, dirs + [p], files, other)
            case Take(stamp) => Sorted(fs, done + {p}, dirs, files[p := stamp], other)
            case Unsupported => Sorted(fs, done + {p}, dirs, files, other + {p}) && p !in other
  {
    hide Classify;
  }

  lemma SortedAll(fs: FileSystem, d: Path, dirs: seq<Path>, files: map<Path, Stamp>, other: set<Path>)
    requires Readable(fs, d) && Sorted(fs, Entries(fs, d), dirs, files, other)
    ensures NoDuplicates(dirs) && forall c :: c in dirs <==> c in Entries(fs, d) && IsDir(fs, c) && !Hidden(Leaf(c))
    ensures forall c :: c in files <==> Listed(fs, {d}, c)
    ensures forall c :: c in files ==> Wanted(fs, c) && files[c] == fs[c].stamp
    ensures other == UnsupportedIn(fs, {d})
  {
  }

  /** Read one directory: its visible subdirectories, its wallpapers, and how many other files it holds. */
  method ReadDirectory(fs: FileSystem, d: Path) returns (dirs: seq<Path>, files: map<Path, Stamp>, skipped: nat)
    requires Readable(fs, d)
    ensures NoDuplicates(dirs) && forall c :: c in dirs <==> c in Entries(fs, d) && IsDir(fs, c) && !Hidden(Leaf(c))
    ensures forall c :: c in files <==> Listed(fs, {d}, c)
    ensures forall c :: c in files ==> Wanted(fs, c) && files[c] == fs[c].stamp
    ensures skipped == |UnsupportedIn(fs, {d})|
  {
    hide Sorted, Listed, UnsupportedIn, Hidden;
    ghost var other;
    dirs, files, skipped, other := SortEntries(fs, Entries(fs, d));
    SortedAll(fs, d, dirs, files, other);
  }

  /** Look at the entries one by one, in whatever order the system lists them. */
  method SortEntries(fs: FileSystem, entries: set<Path>)
    returns (dirs: seq<Path>, files: map<Path, Stamp>, skipped: nat, ghost other: set<Path>)
    requires forall p :: p in entries ==> p in fs && p != []
    ensures Sorted(fs, entries, dirs, files, other) && skipped == |other|
  {
    hide Classify, Sorted, Leaf;
    dirs, files, skipped, other := [], map[], 0, {};
    var todo := entries;
    ghost var done: set<Path> := {};
    SortedNone(fs);
    while todo != {}
      invariant todo <= entries && done == entries - todo && skipped == |other|
      invariant Sorted(fs, done, dirs, files, other)
    {
      var p :| p in todo;
      SortOneMore(fs, done, dirs, files, other, p);
      todo, done := todo - {p}, done + {p};
      var entry := Classify(Leaf(p), fs[p]);
      if entry.Descend? {
        dirs := dirs + [p];
      } else if entry.Take? {
        files := files[p := entry.stamp];
      } else if entry.Unsupported? {
        skipped := skipped + 1;
        other := other + {p};
      }
    }
    assert done == entries;
  }

  lemma SortedNone(fs: FileSystem)
    ensures Sorted(fs, {}, [], map[], {})
  {
  }

  // ------------------------------------------------------------------ the stack

  predicate Comparable(a: Path, b: Path) {
    a <= b || b <= a
  }

  /** What is still to be walked lies under separate places, none of which holds anything already walked. */
  ghost predicate Apart(done: set<Path>, stack: seq<Path>) {
    && (forall i, j :: 0 <= i < j < |stack| ==> !Comparable(stack[i], stack[j]))
    && (forall s, d :: s in stack && d in done ==> !(s <= d))
  }

  /** Every directory the walk comes to has been read or lies under a place on the stack. */
  ghost predicate Covered(fs: FileSystem, root: Path, done: set<Path>, stack: seq<Path>) {
    forall d :: Visited(fs, root, d) <==> d in done || exists s :: s in stack && Visited(fs, s, d)
  }

  /** The subdirectories to push for `d`. */
  ghost predicate IsPushed(fs: FileSystem, d: Path, dirs: seq<Path>) {
    && NoDuplicates(dirs)
    && forall c :: c in dirs <==> Readable(fs, d) && c in Entries(fs, d) && IsDir(fs, c) && !Hidden(Leaf(c))
  }

  /** What lies under `d` is `d` itself and what lies under its subdirectories. */
  lemma {:induction false} VisitedSplits(fs: FileSystem, d: Path, dirs: seq<Path>, e: Path)
    requires IsPushed(fs, d, dirs)
    ensures Visited(fs, d, e) <==> e == d || exists c :: c in dirs && Visited(fs, c, e)
  {
    VisibleStep(fs, d, e);
    if d < e {
      var c := e[..|d| + 1];
      assert Parent(c) == d && Leaf(c) == e[|d|];
      VisibleStep(fs, c, e);
      if Visited(fs, d, e) {
        assert c in dirs && Visited(fs, c, e);
      }
    }
    forall c | c in dirs && Visited(fs, c, e) ensures Visited(fs, d, e) {
      assert c[..|d|] == d && e[..|c|] == c;
    }
  }

  lemma StillApart(fs: FileSystem, done: set<Path>, stack: seq<Path>, d: Path, dirs: seq<Path>)
    requires Apart(done, stack + [d]) && IsPushed(fs, d, dirs)
    ensures Apart(done + {d}, stack + dirs)
  {
    hide Visible, IsDir, Hidden, Readable;
    var before, after := stack + [d], stack + dirs;
    forall c | c in dirs ensures d < c && c[..|d|] == d && |c| == |d| + 1 {
      assert Parent(c) == d;
    }
    forall s | s in stack ensures !Comparable(s, d) && s in before {
      var k :| 0 <= k < |stack| && stack[k] == s;
      assert before[k] == s && before[|stack|] == d;
    }
    assert d in before;
    forall i, j | 0 <= i < j < |after| ensures !Comparable(after[i], after[j]) {
      var a, b := after[i], after[j];
      if j < |stack| {
        assert before[i] == a && before[j] == b;
      } else {
        assert b == dirs[j - |stack|];
        if i < |stack| {
          assert a == stack[i];
          StrangersStayApart(a, d, b);
        } else {
          assert a == dirs[i - |stack|] && a != b;
          SameLengthPrefix(a, b);
        }
      }
    }
  }

  lemma SameLengthPrefix(a: Path, b: Path)
    requires |a| == |b|
    ensures Comparable(a, b) ==> a == b
  {
    assert a[..|a|] == a && b[..|b|] == b;
  }

  lemma StrangersStayApart(a: Path, d: Path, c: Path)
    requires d < c && |c| == |d| + 1
    ensures Comparable(a, c) ==> Comparable(a, d)
  {
    if a <= c && |a| <= |d| {
      assert a == c[..|a|] == d[..|a|];
    }
  }

  lemma StillCovered(fs: FileSystem, root: Path, done: set<Path>, stack: seq<Path>, d: Path, dirs: seq<Path>)
    requires Covered(fs, root, done, stack + [d]) && IsPushed(fs, d, dirs)
    ensures Covered(fs, root, done + {d}, stack + dirs)
  {
    hide Visited, Visible, IsPushed;
    forall e ensures Visited(fs, root, e) <==> e in done + {d} || exists s :: s in stack + dirs && Visited(fs, s, e) {
      VisitedSplits(fs, d, dirs, e);
      assert forall s :: s in stack + [d] <==> s in stack || s == d;
      assert forall s :: s in stack + dirs <==> s in stack || s in dirs;
    }
  }

  /** What the walk has collected once it has read the directories in `done`. */
  ghost predicate Collected(fs: FileSystem, done: set<Path>, files: map<Path, Stamp>, unreadable: seq<Path>,
                            skipped: nat) {
    && (forall p :: p in files <==> Listed(fs, done, p))
    && (forall p :: p in files ==> files[p] == fs[p].stamp)
    && NoDuplicates(unreadable)
    && (forall d :: d in unreadable <==> d in done && !Readable(fs, d))
    && skipped == |UnsupportedIn(fs, done)|
  }

  lemma OneMoreDirectory(fs: FileSystem, done: set<Path>, d: Path)
    requires d !in done
    ensures forall p :: Listed(fs, done + {d}, p) <==> Listed(fs, done, p) || Listed(fs, {d}, p)
    ensures |UnsupportedIn(fs, done + {d})| == |UnsupportedIn(fs, done)| + |UnsupportedIn(fs, {d})|
  {
    hide Hidden, Readable;
    assert UnsupportedIn(fs, done + {d}) == UnsupportedIn(fs, done) + UnsupportedIn(fs, {d});
    assert UnsupportedIn(fs, done) !! UnsupportedIn(fs, {d});
  }

  lemma NothingInUnreadable(fs: FileSystem, d: Path)
    requires !Readable(fs, d)
    ensures UnsupportedIn(fs, {d}) == {} && forall p :: !Listed(fs, {d}, p)
  {
    hide Hidden, Readable;
  }

  lemma CollectUnreadable(fs: FileSystem, done: set<Path>, files: map<Path, Stamp>, unreadable: seq<Path>,
                          skipped: nat, d: Path)
    requires Collected(fs, done, files, unreadable, skipped) && d !in done && !Readable(fs, d)
    ensures Collected(fs, done + {d}, files, unreadable + [d], skipped)
  {
    hide Hidden, Readable, Listed, UnsupportedIn;
    OneMoreDirectory(fs, done, d);
    NothingInUnreadable(fs, d);
  }

  lemma CollectReadable(fs: FileSystem, done: set<Path>, files: map<Path, Stamp>, unreadable: seq<Path>, skipped: nat,
                        d: Path,
                        more: map<Path, Stamp>, others: nat)
    requires Collected(fs, done, files, unreadable, skipped) && d !in done && Readable(fs, d)
    requires forall c :: c in more <==> Listed(fs, {d}, c)
    requires forall c :: c in more ==> Wanted(fs, c) && more[c] == fs[c].stamp
    requires others == |UnsupportedIn(fs, {d})|
    ensures Collected(fs, done + {d}, files + more, unreadable, skipped + others)
  {
    hide Hidden, Readable, Listed, UnsupportedIn, NoDuplicates;
    OneMoreDirectory(fs, done, d);
  }

  /** The directories the walk of `root` comes to. */
  ghost function VisitedDirs(fs: FileSystem, root: Path): set<Path> {
    set d | d in fs.Keys + {root} && Visited(fs, root, d)
  }

  lemma WalkIsOver(fs: FileSystem, root: Path, done: set<Path>, files: map<Path, Stamp>, unreadable: seq<Path>,
                   skipped: nat)
    requires Covered(fs, root, done, []) && Collected(fs, done, files, unreadable, skipped)
    ensures forall p :: p in files <==> Reached(fs, root, p)
    ensures forall p :: p in files ==> Wanted(fs, p) && files[p] == fs[p].stamp
    ensures forall d :: d in unreadable <==> Visited(fs, root, d) && !Readable(fs, d)
    ensures NoDuplicates(unreadable) && skipped == |UnsupportedIn(fs, VisitedDirs(fs, root))|
  {
    hide Hidden, Readable, NoDuplicates, Reached, Visible;
    assert done == VisitedDirs(fs, root);
    forall p ensures p in files <==> Reached(fs, root, p) {
      ReachedThroughParent(fs, root, p);
      assert p in files <==> Listed(fs, done, p);
    }
  }

  /**
    Walk one root: pop a directory, read it, push its subdirectories. The answer is everything reachable, each
    directory that could not be read once, and the number of files of no known kind.
   */
  method Walk(fs: FileSystem, root: Path) returns (files: map<Path, Stamp>, unreadable: seq<Path>, skipped: nat)
    ensures forall p :: p in files <==> Reached(fs, root, p)
    ensures forall p :: p in files ==> Wanted(fs, p) && files[p] == fs[p].stamp
    ensures forall d :: d in unreadable <==> Visited(fs, root, d) && !Readable(fs, d)
    ensures NoDuplicates(unreadable) && skipped == |UnsupportedIn(fs, VisitedDirs(fs, root))|
  {
    hide Readable, Listed, UnsupportedIn, Wanted, IsDir, Hidden, NoDuplicates, Visited, Reached, VisitedDirs, Covered,
      Apart, Collected, IsPushed, Entries;
    files, unreadable, skipped := map[], [], 0;
    var stack := [root];
    ghost var done: set<Path> := {};
    WalkBegins(fs, root);
    while stack != []
      invariant Covered(fs, root, done, stack) && Apart(done, stack)
      invariant Collected(fs, done, files, unreadable, skipped)
      invariant done <= fs.Keys + {root}
      decreases fs.Keys + {root} - done
    {
      var rest, d := stack[..|stack| - 1], stack[|stack| - 1];
      assert stack == rest + [d];
      NotYetWalked(fs, root, done, rest, d);
      var dirs: seq<Path> := [];
      if Readable(fs, d) {
        var more, others;
        dirs, more, others := ReadDirectory(fs, d);
        Pushed(fs, d, dirs);
        CollectReadable(fs, done, files, unreadable, skipped, d, more, others);
        files, skipped := files + more, skipped + others;
      } else {
        Pushed(fs, d, dirs);
        CollectUnreadable(fs, done, files, unreadable, skipped, d);
        unreadable := unreadable + [d];
      }
      StillApart(fs, done, rest, d, dirs);
      StillCovered(fs, root, done, rest, d, dirs);
      stack, done := rest + dirs, done + {d};
    }
    WalkIsOver(fs, root, done, files, unreadable, skipped);
  }

  lemma WalkBegins(fs: FileSystem, root: Path)
    ensures Covered(fs, root, {}, [root]) && Apart({}, [root]) && Collected(fs, {}, map[], [], 0)
  {
  }

  lemma NotYetWalked(fs: FileSystem, root: Path, done: set<Path>, stack: seq<Path>, d: Path)
    requires Covered(fs, root, done, stack + [d]) && Apart(done, stack + [d])
    ensures d !in done && (d == root || d in fs)
  {
    assert d in stack + [d];
    assert Visited(fs, d, d);
  }

  lemma Pushed(fs: FileSystem, d: Path, dirs: seq<Path>)
    requires !Readable(fs, d) ==> dirs == []
    requires Readable(fs, d) ==>
               NoDuplicates(dirs) && forall c :: c in dirs <==> c in Entries(fs, d) && IsDir(fs, c) && !Hidden(Leaf(c))
    ensures IsPushed(fs, d, dirs)
  {
  }

  // ------------------------------------------------------------------ several roots

  /** A root lying inside another one is not walked: the outer walk is trusted to cover it. */
  predicate Nested(roots: seq<Path>, root: Path) {
    exists o :: o in roots && o != root && o <= root
  }

  /** Some root that is walked sees `r`. */
  ghost predicate Seen(fs: FileSystem, roots: seq<Path>, r: Path) {
    exists o :: o in roots && !Nested(roots, o) && Visible(fs, o, r)
  }

  ghost predicate ReachedFromAny(fs: FileSystem, roots: seq<Path>, p: Path) {
    exists r :: r in roots && Reached(fs, r, p)
  }

  ghost predicate ReachedFromOuter(fs: FileSystem, roots: seq<Path>, p: Path)
    ensures ReachedFromOuter(fs, roots, p) ==> Wanted(fs, p)
  {
    exists o :: o in roots && !Nested(roots, o) && Reached(fs, o, p)
  }

  lemma PrefixesOfOne(a: Path, b: Path, p: Path)
    requires a <= p && b <= p
    ensures Comparable(a, b)
  {
    if |a| <= |b| { assert a == p[..|a|] == b[..|a|]; } else { assert b == p[..|b|] == a[..|b|]; }
  }

  /** For one root and one of its wallpapers: the walk misses the wallpaper exactly when no walked root sees the
      root. */
  lemma MissedThroughNesting(fs: FileSystem, roots: seq<Path>, r: Path, p: Path)
    requires r in roots && Reached(fs, r, p)
    ensures ReachedFromOuter(fs, roots, p) <==> Seen(fs, roots, r)
  {
    if ReachedFromOuter(fs, roots, p) {
      var o :| o in roots && !Nested(roots, o) && Reached(fs, o, p);
      PrefixesOfOne(o, r, p);
      assert o <= r;
      VisibleJoin(fs, o, r, p);
      assert Visible(fs, o, r);
    }
    if Seen(fs, roots, r) {
      var o :| o in roots && !Nested(roots, o) && Visible(fs, o, r);
      VisibleJoin(fs, o, r, p);
      assert Reached(fs, o, p);
    }
  }

  /**
    Walking only the outermost roots finds everything the roots hold exactly when every root that holds a wallpaper
    can be seen from a root that is walked.
   */
  lemma OutermostRootsSuffice(fs: FileSystem, roots: seq<Path>)
    ensures (forall p :: ReachedFromAny(fs, roots, p) ==> ReachedFromOuter(fs, roots, p))
            <==> (forall r, p :: r in roots && Reached(fs, r, p) ==> Seen(fs, roots, r))
  {
    hide Reached, Seen, Nested, ReachedFromOuter;
    forall r, p | r in roots && Reached(fs, r, p) ensures ReachedFromOuter(fs, roots, p) <==> Seen(fs, roots, r) {
      MissedThroughNesting(fs, roots, r, p);
    }
    forall r, p | r in roots && Reached(fs, r, p) ensures ReachedFromAny(fs, roots, p) {
    }
  }

  /** And it can fail: a configured folder inside a hidden directory of another configured folder is never walked. */
  lemma HiddenNestedRootIsMissed() returns (fs: FileSystem, roots: seq<Path>, p: Path)
    ensures forall r :: r in roots ==> Readable(fs, r)
    ensures ReachedFromAny(fs, roots, p) && !ReachedFromOuter(fs, roots, p)
  {
    var outer, inner := ["w"], ["w", ".h"];
    p := ["w", ".h", "a"];
    roots := [outer, inner];
    fs := map[outer := Dir(true), inner := Dir(true), p := File(Stamp(0, 0, 0), true)];
    assert outer <= inner <= p && p[..2] == inner;
    assert Reached(fs, inner, p);
    assert !Visible(fs, outer, inner) by { assert Hidden(inner[1]); }
    assert outer in roots && outer != inner;
    MissedThroughNesting(fs, roots, inner, p);
  }
}
