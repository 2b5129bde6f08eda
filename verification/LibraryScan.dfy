/**
  Bringing the index up to date with the folders: which rows a scan adds, updates, keeps and removes.
  (crates/owe-core/src/library.rs, `Library::scan` and `under_any`)
 */
module LibraryScan {
  import opened Prelude
  import opened LibraryWalk

  /**
    One indexed wallpaper: `text` is how its path was spelled when the row was made. Rows are looked up by path, which
    is the same for every spelling, but updated by text. Directory, name and kind of a row are functions of its text.
   */
  datatype Row = Row(id: nat, text: string, stamp: Stamp)

  /** How a scan spells the paths it comes to, which depends on how the walked roots are spelled. */
  type Spelling = Path -> string

  type Rows = map<Path, Row>

  datatype Counts = Counts(added: nat, updated: nat, same: nat, removed: nat)

  datatype ScanReport = ScanReport(missingRoots: seq<Path>, unreadableDirs: seq<Path>, skipped: nat, counts: Counts)

  ghost predicate DistinctIds(rows: Rows) {
    forall p, q :: p in rows && q in rows && rows[p].id == rows[q].id ==> p == q
  }

  // ------------------------------------------------------------------ what a scan should do

  /** The configured roots that are directories right now, and the ones that are not. */
  function Present(fs: FileSystem, roots: seq<Path>): seq<Path> {
    if roots == [] then [] else
    Present(fs, roots[..|roots| - 1]) + if IsDir(fs, roots[|roots| - 1]) then [roots[|roots| - 1]] else []
  }

  function Missing(fs: FileSystem, roots: seq<Path>): seq<Path> {
    if roots == [] then [] else
    Missing(fs, roots[..|roots| - 1]) + if IsDir(fs, roots[|roots| - 1]) then [] else [roots[|roots| - 1]]
  }

  lemma {:induction false} RootsAreSplit(fs: FileSystem, roots: seq<Path>)
    ensures forall r :: r in Present(fs, roots) <==> r in roots && IsDir(fs, r)
    ensures forall r :: r in Missing(fs, roots) <==> r in roots && !IsDir(fs, r)
  {
    hide IsDir;
    if roots != [] {
      var rest, last := roots[..|roots| - 1], roots[|roots| - 1];
      RootsAreSplit(fs, rest);
      assert Present(fs, roots) == Present(fs, rest) + if IsDir(fs, last) then [last] else [];
      assert Missing(fs, roots) == Missing(fs, rest) + if IsDir(fs, last) then [] else [last];
      hide Present, Missing;
      assert roots == rest + [last];
      assert forall r :: r in roots <==> r in rest || r == last;
    }
  }

  /** The wallpapers the walks come back with. */
  ghost function SeenBy(fs: FileSystem, roots: seq<Path>): map<Path, Stamp> {
    map p | p in fs && ReachedFromOuter(fs, Present(fs, roots), p) :: fs[p].stamp
  }

  predicate UnderAny(p: Path, roots: seq<Path>) {
    exists r :: r in roots && r <= p
  }

  /** The deletion rule: some root above was there, and no root above was missing. */
  predicate Droppable(p: Path, present: seq<Path>, missing: seq<Path>) {
    UnderAny(p, present) && !UnderAny(p, missing)
  }

  /** The row of `p` was made under another spelling of its path. */
  predicate Respelled(rows: Rows, spell: Spelling, p: Path) {
    p in rows && rows[p].text != spell(p)
  }

  /** The index after a scan that saw `seen`. */
  ghost predicate IsMerge(before: Rows, seen: map<Path, Stamp>, spell: Spelling, present: seq<Path>, missing: seq<Path>,
                          after: Rows) {
    && (forall p :: p in after <==> p in seen || (p in before && !Droppable(p, present, missing)))
    && (forall p :: p in after && p in seen ==>
          after[p].stamp == if Respelled(before, spell, p) then before[p].stamp else seen[p])
    && (forall p :: p in after && p in before ==> after[p].id == before[p].id && after[p].text == before[p].text)
    && (forall p :: p in after && p !in before ==> after[p].text == spell(p))
    && (forall p :: p in after && p !in seen ==> p in before && after[p] == before[p])
    && (forall p, q :: p in after && p !in before && q in before ==> before[q].id < after[p].id)
  }

  ghost function Changed(before: Rows, seen: map<Path, Stamp>): set<Path> {
    set p | p in seen && p in before && before[p].stamp != seen[p]
  }

  ghost function Fresh(before: Rows, seen: map<Path, Stamp>): set<Path> {
    set p | p in seen && p !in before
  }

  ghost function Same(before: Rows, seen: map<Path, Stamp>): set<Path> {
    set p | p in seen && p in before && before[p].stamp == seen[p]
  }

  ghost function Gone(before: Rows, seen: map<Path, Stamp>, present: seq<Path>, missing: seq<Path>): set<Path> {
    set p | p in before && p !in seen && Droppable(p, present, missing)
  }

  ghost predicate IsCount(before: Rows, seen: map<Path, Stamp>, present: seq<Path>, missing: seq<Path>, c: Counts) {
    && c.added == |Fresh(before, seen)|
    && c.updated == |Changed(before, seen)|
    && c.same == |Same(before, seen)|
    && c.removed == |Gone(before, seen, present, missing)|
  }

  // ------------------------------------------------------------------ what follows for the index

  lemma MergeAddsUp(before: Rows, seen: map<Path, Stamp>, spell: Spelling, present: seq<Path>, missing: seq<Path>,
                    after: Rows, c: Counts)
    requires IsMerge(before, seen, spell, present, missing, after) && IsCount(before, seen, present, missing, c)
    ensures |after| == |before| + c.added - c.removed
    ensures |seen| == c.added + c.updated + c.same
  {
    MergedKeys(before, seen, spell, present, missing, after);
    hide Droppable, Gone, Changed, Fresh, Same, IsMerge;
    SizeAfterMerge(before.Keys, Fresh(before, seen), Gone(before, seen, present, missing), after.Keys);
    SizeOfParts(seen.Keys, Fresh(before, seen), Changed(before, seen), Same(before, seen));
  }

  lemma MergedKeys(before: Rows, seen: map<Path, Stamp>, spell: Spelling, present: seq<Path>, missing: seq<Path>,
                   after: Rows)
    requires IsMerge(before, seen, spell, present, missing, after)
    ensures after.Keys == (before.Keys - Gone(before, seen, present, missing)) + Fresh(before, seen)
    ensures Gone(before, seen, present, missing) <= before.Keys && Fresh(before, seen) !! before.Keys
    ensures seen.Keys == Fresh(before, seen) + Changed(before, seen) + Same(before, seen)
    ensures Fresh(before, seen) !! Changed(before, seen)
              && (Fresh(before, seen) + Changed(before, seen)) !! Same(before, seen)
  {
    hide Droppable;
  }

  lemma SizeAfterMerge(before: set<Path>, more: set<Path>, gone: set<Path>, after: set<Path>)
    requires gone <= before && more !! before && after == (before - gone) + more
    ensures |after| == |before| + |more| - |gone|
  {
    assert before == (before - gone) + gone;
  }

  lemma SizeOfParts(all: set<Path>, a: set<Path>, b: set<Path>, c: set<Path>)
    requires all == a + b + c && a !! b && (a + b) !! c
    ensures |all| == |a| + |b| + |c|
  {
    assert |a + b| == |a| + |b|;
  }

  /** The seen rows whose stamp is out of date and whose spelling is another one: no update statement meets them. */
  ghost function Stuck(before: Rows, seen: map<Path, Stamp>, spell: Spelling): set<Path> {
    set p | p in seen && Respelled(before, spell, p) && before[p].stamp != seen[p]
  }

  /**
    A second scan of an unchanged tree changes no row. It reports as updated, again and again, exactly the rows that
    the first one could not bring up to date; there are none exactly when every row of a changed file has the scan's
    spelling.
   */
  lemma SecondScanTouchesNothing(before: Rows, seen: map<Path, Stamp>, spell: Spelling, present: seq<Path>,
                                 missing: seq<Path>,
                                 after: Rows, again: Rows, c: Counts)
    requires IsMerge(before, seen, spell, present, missing, after)
    requires IsMerge(after, seen, spell, present, missing, again) && IsCount(after, seen, present, missing, c)
    ensures again == after
    ensures c.added == 0 && c.removed == 0 && c.updated + c.same == |seen|
    ensures c.updated == |Stuck(before, seen, spell)|
    ensures (forall p :: p in seen ==> after[p].stamp == seen[p]) <==> c.updated == 0
  {
    LittleToDo(before, seen, spell, present, missing, after);
    SameAgain(before, seen, spell, present, missing, after, again);
    MergeAddsUp(after, seen, spell, present, missing, again, c);
    hide IsMerge, Changed, Gone, Fresh, Same, Stuck;
  }

  /** One configured folder with one wallpaper in it. */
  function OneFile(root: Path, name: string, stamp: Stamp): FileSystem {
    map[root := Dir(true), root + [name] := File(stamp, true)]
  }

  lemma OneFileIsSeen(root: Path, name: string, stamp: Stamp)
    requires !Hidden(name)
    ensures var fs := OneFile(root, name, stamp);
            && Present(fs, [root]) == [root] && Missing(fs, [root]) == []
            && SeenBy(fs, [root]) == map[root + [name] := stamp]
  {
    var fs := OneFile(root, name, stamp);
    OneFileIsReached(root, name, stamp);
    OnePresent(fs, root);
    assert !Nested([root], root) && root in [root];
    hide Present, Missing, Reached, Nested;
  }

  lemma OneFileIsReached(root: Path, name: string, stamp: Stamp)
    requires !Hidden(name)
    ensures var fs := OneFile(root, name, stamp);
            IsDir(fs, root) && Reached(fs, root, root + [name])
  {
    var p := root + [name];
    assert root != p && p[..|root|] == root;
  }

  lemma OnePresent(fs: FileSystem, root: Path)
    requires IsDir(fs, root)
    ensures Present(fs, [root]) == [root] && Missing(fs, [root]) == []
  {
    hide IsDir;
    var one := [root];
    assert one[..0] == [];
    assert Present(fs, one[..0]) == Missing(fs, one[..0]) == [];
  }

  /** Such a row, in the smallest index: its file has changed, its path is spelled otherwise, and however often the
      folder is scanned, an update is reported and the row is as it was. */
  lemma RespelledRowStaysOld(root: Path, name: string, spell: Spelling, text: string, was: Stamp, now: Stamp,
                             after: Rows, c: Counts)
    requires !Hidden(name) && text != spell(root + [name]) && was != now
    requires var fs, roots, before := OneFile(root, name, now), [root], map[root + [name] := Row(1, text, was)];
             && IsMerge(before, SeenBy(fs, roots), spell, Present(fs, roots), Missing(fs, roots), after)
             && IsCount(before, SeenBy(fs, roots), Present(fs, roots), Missing(fs, roots), c)
    ensures after == map[root + [name] := Row(1, text, was)] && c == Counts(0, 1, 0, 0)
  {
    OneFileIsSeen(root, name, now);
    hide SeenBy, Present, Missing, OneFile;
    var p := root + [name];
    var before, seen := map[p := Row(1, text, was)], map[p := now];
    assert Respelled(before, spell, p);
    assert Changed(before, seen) == {p} && Fresh(before, seen) == {} && Same(before, seen) == {};
    assert Gone(before, seen, [root], []) == {};
    assert p in after && after[p] == before[p];
    assert after.Keys == {p};
  }

  lemma SameAgain(before: Rows, seen: map<Path, Stamp>, spell: Spelling, present: seq<Path>, missing: seq<Path>,
                  after: Rows,
                  again: Rows)
    requires IsMerge(before, seen, spell, present, missing, after)
    requires IsMerge(after, seen, spell, present, missing, again)
    ensures again == after
  {
    hide Droppable;
    forall p | p in after && p in seen ensures again[p] == after[p] {
      assert again[p].id == after[p].id && again[p].text == after[p].text;
      if !Respelled(after, spell, p) {
        assert !Respelled(before, spell, p);
        assert again[p].stamp == seen[p] == after[p].stamp;
      }
    }
    assert again.Keys == after.Keys;
  }

  lemma LittleToDo(before: Rows, seen: map<Path, Stamp>, spell: Spelling, present: seq<Path>, missing: seq<Path>,
                   after: Rows)
    requires IsMerge(before, seen, spell, present, missing, after)
    ensures forall p :: p in seen ==> p in after
    ensures Fresh(after, seen) == {} && Gone(after, seen, present, missing) == {}
    ensures Changed(after, seen) == Stuck(before, seen, spell)
    ensures (forall p :: p in seen ==> after[p].stamp == seen[p]) <==> |Stuck(before, seen, spell)| == 0
  {
    hide Droppable;
    forall p | p in seen ensures after[p].stamp != seen[p] <==> p in Stuck(before, seen, spell) {
    }
    if |Stuck(before, seen, spell)| == 0 {
      assert Stuck(before, seen, spell) == {};
    }
  }

  /** A configured folder that is there and that no other one lies above. */
  ghost predicate Outermost(fs: FileSystem, roots: seq<Path>, r: Path) {
    r in roots && IsDir(fs, r) && forall o :: o in roots && IsDir(fs, o) && o <= r ==> o == r
  }

  /** A row may go: some configured folder is above it, and all that are are there. */
  ghost predicate MayGo(fs: FileSystem, roots: seq<Path>, p: Path) {
    (exists r :: r in roots && r <= p) && forall r :: r in roots && r <= p ==> IsDir(fs, r)
  }

  lemma DroppableMayGo(fs: FileSystem, roots: seq<Path>, p: Path)
    ensures Droppable(p, Present(fs, roots), Missing(fs, roots)) <==> MayGo(fs, roots, p)
  {
    RootsAreSplit(fs, roots);
    hide IsDir, Present, Missing;
  }

  lemma SeenFromOutermost(fs: FileSystem, roots: seq<Path>, p: Path)
    ensures p in SeenBy(fs, roots) <==> exists r :: Outermost(fs, roots, r) && Reached(fs, r, p)
    ensures p in SeenBy(fs, roots) ==> Wanted(fs, p) && SeenBy(fs, roots)[p] == fs[p].stamp
  {
    OutermostIsWalked(fs, roots);
    hide Present, Reached, Outermost, Nested;
  }

  lemma OutermostIsWalked(fs: FileSystem, roots: seq<Path>)
    ensures forall r :: r in Present(fs, roots) && !Nested(Present(fs, roots), r) <==> Outermost(fs, roots, r)
  {
    RootsAreSplit(fs, roots);
    hide IsDir, Present, Missing;
  }

  /**
    The rows after a scan, said of folders and files alone. A row is there exactly if its wallpaper is reached from an
    outermost folder, or it was there before and no configured folder is above it, or one that is above it is not there.
   */
  lemma RowsAfterAScan(fs: FileSystem, roots: seq<Path>, spell: Spelling, before: Rows, after: Rows, p: Path)
    requires IsMerge(before, SeenBy(fs, roots), spell, Present(fs, roots), Missing(fs, roots), after)
    ensures p in after <==>
              || (exists r :: Outermost(fs, roots, r) && Reached(fs, r, p))
              || (p in before && !MayGo(fs, roots, p))
  {
    DroppableMayGo(fs, roots, p);
    SeenFromOutermost(fs, roots, p);
    hide Droppable, MayGo, Outermost, Reached, SeenBy, Present, Missing;
  }

  /** Whatever was seen, a row under a root that was not there stays, with its id. */
  lemma MissingRootKeepsRows(before: Rows, seen: map<Path, Stamp>, spell: Spelling, present: seq<Path>,
                             missing: seq<Path>,
                             after: Rows, p: Path, root: Path)
    requires IsMerge(before, seen, spell, present, missing, after)
    requires p in before && root in missing && root <= p
    ensures p in after && after[p].id == before[p].id && (p !in seen ==> after[p] == before[p])
  {
    assert UnderAny(p, missing);
  }

  /** The scan of these roots has read the directory `d`. */
  ghost predicate WasRead(fs: FileSystem, present: seq<Path>, d: Path) {
    exists o :: o in present && !Nested(present, o) && Visited(fs, o, d) && Readable(fs, d)
  }

  ghost predicate InReadDirectory(fs: FileSystem, present: seq<Path>, p: Path) {
    p != [] && WasRead(fs, present, Parent(p))
  }

  /**
    When a scan removes a row from a directory it has not read. Rows are meant to go only when their directory was
    read; the scan keeps to that exactly when every row it may drop lies in a directory that some walked root leads to
    and that can be read.
   */
  lemma OnlyReadDirectoriesLoseRows(fs: FileSystem, roots: seq<Path>, spell: Spelling, before: Rows, after: Rows)
    requires IsMerge(before, SeenBy(fs, roots), spell, Present(fs, roots), Missing(fs, roots), after)
    ensures (forall p :: p in before && p !in after ==> InReadDirectory(fs, Present(fs, roots), p))
            <==> (forall p :: p in before && Droppable(p, Present(fs, roots), Missing(fs, roots)) ==>
                    InReadDirectory(fs, Present(fs, roots), p))
  {
    hide Droppable, InReadDirectory;
    var present, missing := Present(fs, roots), Missing(fs, roots);
    forall p | p in before && !InReadDirectory(fs, present, p) ensures p !in after <==> Droppable(p, present, missing) {
      UnreadIsUnseen(fs, present, p);
    }
  }

  lemma UnreadIsUnseen(fs: FileSystem, present: seq<Path>, p: Path)
    ensures ReachedFromOuter(fs, present, p) ==> InReadDirectory(fs, present, p)
  {
    hide Reached, Visited, Readable, Nested;
    if ReachedFromOuter(fs, present, p) {
      var o :| o in present && !Nested(present, o) && Reached(fs, o, p);
      ReachedThroughParent(fs, o, p);
    }
  }

  /**
    A wallpaper that still lies in plain sight under a configured folder, with no configured folder above it missing,
    keeps its row exactly when a walked root sees that folder.
   */
  lemma RowInPlainSight(fs: FileSystem, roots: seq<Path>, spell: Spelling, before: Rows, after: Rows, root: Path,
                        p: Path)
    requires IsMerge(before, SeenBy(fs, roots), spell, Present(fs, roots), Missing(fs, roots), after)
    requires p in before && root in roots && IsDir(fs, root) && Reached(fs, root, p) && !UnderAny(p, Missing(fs, roots))
    ensures p in after <==> Seen(fs, Present(fs, roots), root)
  {
    hide Reached, Seen, ReachedFromOuter;
    RootsAreSplit(fs, roots);
    MissedThroughNesting(fs, Present(fs, roots), root, p);
    assert root <= p by { UnderItsRoot(fs, root, p); }
    assert UnderAny(p, Present(fs, roots));
  }

  lemma UnderItsRoot(fs: FileSystem, root: Path, p: Path)
    requires Reached(fs, root, p)
    ensures root <= p && p in fs
  {
  }

  /** A wallpaper that is there, in a directory that the scan does not read although its row may be dropped. */
  ghost predicate Overlooked(fs: FileSystem, roots: seq<Path>, p: Path) {
    && Wanted(fs, p)
    && Droppable(p, Present(fs, roots), Missing(fs, roots))
    && !InReadDirectory(fs, Present(fs, roots), p)
  }

  /**
    Three ways of losing a row whose wallpaper is still there, in one small tree with no root missing: the directory
    cannot be read, or a directory above it cannot, or it is configured inside a hidden directory. In the last two the
    directory itself could have been read.
   */
  lemma RowsLostByMistake() returns (fs: FileSystem, roots: seq<Path>, locked: Path, below: Path, nested: Path)
    ensures Missing(fs, roots) == [] && locked != [] && below != [] && nested != []
    ensures !Readable(fs, Parent(locked)) && Readable(fs, Parent(below)) && Readable(fs, Parent(nested))
    ensures Overlooked(fs, roots, locked) && Overlooked(fs, roots, below) && Overlooked(fs, roots, nested)
    ensures forall before, spell, after |
              IsMerge(before, SeenBy(fs, roots), spell, Present(fs, roots), Missing(fs, roots), after) ::
              locked !in after && below !in after && nested !in after
  {
    locked, below, nested := ["w", "d", "a"], ["w", "d", "e", "a"], ["w", ".h", "a"];
    roots := [["w"], ["w", ".h"]];
    fs := SmallTree(locked, below, nested);
    hide Overlooked, IsMerge, SeenBy, Present, Missing;
    forall before, spell, after |
      IsMerge(before, SeenBy(fs, roots), spell, Present(fs, roots), Missing(fs, roots), after)
      ensures locked !in after && below !in after && nested !in after
    {
      OverlookedIsLost(fs, roots, spell, before, after, locked);
      OverlookedIsLost(fs, roots, spell, before, after, below);
      OverlookedIsLost(fs, roots, spell, before, after, nested);
    }
  }

  lemma OverlookedIsLost(fs: FileSystem, roots: seq<Path>, spell: Spelling, before: Rows, after: Rows, p: Path)
    requires IsMerge(before, SeenBy(fs, roots), spell, Present(fs, roots), Missing(fs, roots), after)
    requires Overlooked(fs, roots, p)
    ensures p !in after
  {
    hide Droppable, InReadDirectory;
    UnreadIsUnseen(fs, Present(fs, roots), p);
  }

  lemma SmallTree(locked: Path, below: Path, nested: Path) returns (fs: FileSystem)
    requires locked == ["w", "d", "a"] && below == ["w", "d", "e", "a"] && nested == ["w", ".h", "a"]
    ensures var roots := [["w"], ["w", ".h"]];
            && Missing(fs, roots) == []
            && !Readable(fs, Parent(locked)) && Readable(fs, Parent(below)) && Readable(fs, Parent(nested))
            && Overlooked(fs, roots, locked) && Overlooked(fs, roots, below) && Overlooked(fs, roots, nested)
  {
    var outer, shut, deep, inner := ["w"], ["w", "d"], ["w", "d", "e"], ["w", ".h"];
    var picture := File(Stamp(0, 0, 0), true);
    fs := map[outer := Dir(true), shut := Dir(false), deep := Dir(true), inner := Dir(true),
              locked := picture, below := picture, nested := picture];
    BothPresent(fs, outer, inner);
    hide Present, Missing;
    assert Parent(locked) == shut && Parent(below) == deep && Parent(nested) == inner;
    OnlyTheOuterReads(fs, outer, inner, shut);
    OnlyTheOuterReads(fs, outer, inner, deep);
    OnlyTheOuterReads(fs, outer, inner, inner);
    OuterDoesNotSee(fs, outer, shut, deep, inner);
    Below(outer, inner, locked);
    Below(outer, inner, below);
    Below(outer, inner, nested);
    hide WasRead, Visible, Droppable;
  }

  lemma OuterDoesNotSee(fs: FileSystem, outer: Path, shut: Path, deep: Path, inner: Path)
    requires outer == ["w"] && shut == ["w", "d"] && deep == ["w", "d", "e"] && inner == ["w", ".h"]
    requires !Readable(fs, shut)
    ensures !Visible(fs, outer, deep) && !Visible(fs, outer, inner)
  {
    hide Readable;
    assert deep[..2] == shut;
    assert Hidden(inner[1]);
  }

  lemma Below(outer: Path, inner: Path, p: Path)
    requires outer <= p
    ensures Droppable(p, [outer, inner], [])
  {
    assert outer in [outer, inner];
  }

  lemma OnlyTheOuterReads(fs: FileSystem, outer: Path, inner: Path, d: Path)
    requires outer < inner
    ensures WasRead(fs, [outer, inner], d) ==> Visible(fs, outer, d) && Readable(fs, d)
  {
    assert outer in [outer, inner] && Nested([outer, inner], inner);
  }

  lemma BothPresent(fs: FileSystem, a: Path, b: Path)
    requires IsDir(fs, a) && IsDir(fs, b)
    ensures Present(fs, [a, b]) == [a, b] && Missing(fs, [a, b]) == []
  {
    var one, two := [a], [a, b];
    assert one[..0] == [] && two[..1] == one;
    assert Present(fs, one[..0]) == Missing(fs, one[..0]) == [];
    assert Present(fs, one) == [a] && Missing(fs, one) == [];
    assert Present(fs, two) == [a, b] && Missing(fs, two) == [];
  }

  // ------------------------------------------------------------------ the scan itself

  method SplitRoots(fs: FileSystem, roots: seq<Path>) returns (present: seq<Path>, missing: seq<Path>)
    ensures present == Present(fs, roots) && missing == Missing(fs, roots)
  {
    hide IsDir;
    present, missing := [], [];
    for i := 0 to |roots|
      invariant present == Present(fs, roots[..i]) && missing == Missing(fs, roots[..i])
    {
      assert roots[..i + 1][..i] == roots[..i];
      if IsDir(fs, roots[i]) {
        present := present + [roots[i]];
      } else {
        missing := missing + [roots[i]];
      }
    }
    assert roots[..|roots|] == roots;
  }

  /** The files of no known kind under the first `n` roots, counted again for a root listed twice. */
  ghost function SkippedIn(fs: FileSystem, present: seq<Path>, n: nat): nat
    requires n <= |present|
  {
    if n == 0 then 0 else
    SkippedIn(fs, present, n - 1)
    + if Nested(present, present[n - 1]) then 0 else |UnsupportedIn(fs, VisitedDirs(fs, present[n - 1]))|
  }

  /** One of the first `n` roots is walked and reaches `p`. */
  ghost predicate ReachedFromFirst(fs: FileSystem, present: seq<Path>, n: nat, p: Path)
    requires n <= |present|
    ensures ReachedFromFirst(fs, present, n, p) ==> Wanted(fs, p)
  {
    exists k :: 0 <= k < n && !Nested(present, present[k]) && Reached(fs, present[k], p)
  }

  /** One of the first `n` roots is walked and stumbles over the unreadable directory `d`. */
  ghost predicate BlockedInFirst(fs: FileSystem, present: seq<Path>, n: nat, d: Path)
    requires n <= |present|
  {
    exists k :: 0 <= k < n && !Nested(present, present[k]) && Visited(fs, present[k], d) && !Readable(fs, d)
  }

  /** The directories that the walks of the first `n` roots come to. */
  ghost function DirsFromFirst(fs: FileSystem, present: seq<Path>, n: nat): set<Path>
    requires n <= |present|
  {
    set d | d in fs && exists k :: 0 <= k < n && !Nested(present, present[k]) && Visited(fs, present[k], d)
  }

  /** If no folder is configured twice, each file of no known kind that lies in a directory of some walk is counted
      exactly once, however many folders are configured and whatever their walks come to. */
  lemma {:induction false} SkippedOnce(fs: FileSystem, present: seq<Path>, n: nat)
    requires n <= |present| && NoDuplicates(present) && forall r :: r in present ==> IsDir(fs, r)
    ensures SkippedIn(fs, present, n) == |UnsupportedIn(fs, DirsFromFirst(fs, present, n))|
  {
    hide Visited, IsDir, UnsupportedIn, Nested;
    if n == 0 {
      assert DirsFromFirst(fs, present, n) == {};
      NothingUnsupported(fs);
    } else {
      SkippedOnce(fs, present, n - 1);
      var r, before := present[n - 1], DirsFromFirst(fs, present, n - 1);
      assert r in fs by { assert r in present && IsDir(fs, r); InTheTree(fs, r); }
      if Nested(present, r) {
        assert DirsFromFirst(fs, present, n) == before;
      } else {
        assert DirsFromFirst(fs, present, n) == before + VisitedDirs(fs, r);
        forall d | d in before ensures d !in VisitedDirs(fs, r) {
          var k :| 0 <= k < n - 1 && !Nested(present, present[k]) && Visited(fs, present[k], d);
          OutermostAreApart(fs, present, k, n - 1, d);
        }
        UnsupportedAddsUp(fs, before, VisitedDirs(fs, r));
      }
    }
  }

  lemma NothingUnsupported(fs: FileSystem)
    ensures UnsupportedIn(fs, {}) == {}
  {
  }

  lemma InTheTree(fs: FileSystem, r: Path)
    requires IsDir(fs, r)
    ensures r in fs
  {
  }

  lemma OutermostAreApart(fs: FileSystem, present: seq<Path>, i: nat, j: nat, d: Path)
    requires i < j < |present| && NoDuplicates(present) && !Nested(present, present[i]) && !Nested(present, present[j])
    requires Visited(fs, present[i], d)
    ensures !Visited(fs, present[j], d)
  {
    hide Readable, IsDir, Hidden;
    assert present[i] in present && present[j] in present && present[i] != present[j];
    if Visited(fs, present[j], d) {
      PrefixesOfOne(present[i], present[j], d);
    }
  }

  lemma UnsupportedAddsUp(fs: FileSystem, a: set<Path>, b: set<Path>)
    requires a !! b
    ensures |UnsupportedIn(fs, a + b)| == |UnsupportedIn(fs, a)| + |UnsupportedIn(fs, b)|
  {
    hide Readable, Hidden;
    assert UnsupportedIn(fs, a + b) == UnsupportedIn(fs, a) + UnsupportedIn(fs, b);
    assert UnsupportedIn(fs, a) !! UnsupportedIn(fs, b);
  }

  /** The directories that a scan of these folders comes to. */
  ghost function WalkedDirs(fs: FileSystem, roots: seq<Path>): set<Path> {
    set d | d in fs && exists r :: Outermost(fs, roots, r) && Visited(fs, r, d)
  }

  lemma {:induction false} PresentOnce(fs: FileSystem, roots: seq<Path>)
    requires NoDuplicates(roots)
    ensures NoDuplicates(Present(fs, roots))
  {
    if roots != [] {
      PresentOnce(fs, roots[..|roots| - 1]);
      RootsAreSplit(fs, roots[..|roots| - 1]);
    }
  }

  /** What a scan of folders that are configured once each reports as skipped. */
  lemma SkippedByAScan(fs: FileSystem, roots: seq<Path>)
    requires NoDuplicates(roots)
    ensures SkippedIn(fs, Present(fs, roots), |Present(fs, roots)|) == |UnsupportedIn(fs, WalkedDirs(fs, roots))|
  {
    var present := Present(fs, roots);
    PresentOnce(fs, roots);
    RootsAreSplit(fs, roots);
    OutermostIsWalked(fs, roots);
    SkippedOnce(fs, present, |present|);
    hide Present, Outermost, Nested, Visited, IsDir, UnsupportedIn, SkippedIn;
    assert DirsFromFirst(fs, present, |present|) == WalkedDirs(fs, roots);
  }

  /** The directories a scan stumbles over: those some outermost folder leads to that cannot be read. */
  lemma BlockedFromOutermost(fs: FileSystem, roots: seq<Path>, d: Path)
    ensures BlockedInFirst(fs, Present(fs, roots), |Present(fs, roots)|, d)
            <==> exists r :: Outermost(fs, roots, r) && Visited(fs, r, d) && !Readable(fs, d)
  {
    var present := Present(fs, roots);
    OutermostIsWalked(fs, roots);
    hide Present, Outermost, Nested, Visited, Readable;
    if r :| Outermost(fs, roots, r) && Visited(fs, r, d) && !Readable(fs, d) {
      assert r in present;
    }
  }

  method WalkRoots(fs: FileSystem, present: seq<Path>) returns (seen: map<Path, Stamp>, unreadable: seq<Path>,
                   skipped: nat)
    ensures forall p :: p in seen <==> ReachedFromOuter(fs, present, p)
    ensures forall p :: p in seen ==> Wanted(fs, p) && seen[p] == fs[p].stamp
    ensures forall d :: d in unreadable <==> BlockedInFirst(fs, present, |present|, d)
    ensures skipped == SkippedIn(fs, present, |present|)
  {
    hide Nested, Reached, Visited, Readable, UnsupportedIn, VisitedDirs;
    seen, unreadable, skipped := map[], [], 0;
    for i := 0 to |present|
      invariant forall p :: p in seen <==> ReachedFromFirst(fs, present, i, p)
      invariant forall p :: p in seen ==> Wanted(fs, p) && seen[p] == fs[p].stamp
      invariant forall d :: d in unreadable <==> BlockedInFirst(fs, present, i, d)
      invariant skipped == SkippedIn(fs, present, i)
    {
      if !Nested(present, present[i]) {
        var files, blocked, others := Walk(fs, present[i]);
        seen, unreadable, skipped := seen + files, unreadable + blocked, skipped + others;
      }
    }
  }

  /** The index while the walk's results are written to it: the paths in `done` have been. */
  ghost predicate IsUpsert(before: Rows, seen: map<Path, Stamp>, spell: Spelling, done: set<Path>, after: Rows) {
    && done <= seen.Keys
    && (forall p :: p in after <==> p in done || p in before)
    && (forall p :: p in after && p in done ==>
          after[p].stamp == if Respelled(before, spell, p) then before[p].stamp else seen[p])
    && (forall p :: p in after && p in before ==> after[p].id == before[p].id && after[p].text == before[p].text)
    && (forall p :: p in after && p !in before ==> after[p].text == spell(p))
    && (forall p :: p in after && p !in done ==> p in before && after[p] == before[p])
    && (forall p, q :: p in after && p !in before && q in before ==> before[q].id < after[p].id)
    && DistinctIds(after)
  }

  /** How many of the paths in `done` were new, changed and the same. */
  ghost predicate IsUpsertCount(before: Rows, seen: map<Path, Stamp>, done: set<Path>, added: nat, updated: nat,
                                same: nat) {
    && added == |done * Fresh(before, seen)|
    && updated == |done * Changed(before, seen)|
    && same == |done * Same(before, seen)|
  }

  lemma InsertOne(before: Rows, seen: map<Path, Stamp>, spell: Spelling, done: set<Path>, rows: Rows, p: Path, id: nat)
    requires IsUpsert(before, seen, spell, done, rows) && p in seen && p !in done && p !in before
    requires forall q :: q in rows ==> rows[q].id < id
    ensures IsUpsert(before, seen, spell, done + {p}, rows[p := Row(id, spell(p), seen[p])])
  {
    NewIdIsDistinct(rows, p, Row(id, spell(p), seen[p]));
    hide DistinctIds;
    forall q | q in before ensures before[q].id < id {
      assert q in rows && rows[q].id == before[q].id;
    }
  }

  lemma NewIdIsDistinct(rows: Rows, p: Path, row: Row)
    requires forall q :: q in rows ==> rows[q].id < row.id
    ensures DistinctIds(rows) ==> DistinctIds(rows[p := row])
  {
  }

  lemma SameIdStaysDistinct(rows: Rows, p: Path, stamp: Stamp)
    requires p in rows
    ensures DistinctIds(rows) ==> DistinctIds(rows[p := rows[p].(stamp := stamp)])
  {
  }

  lemma UpdateOne(before: Rows, seen: map<Path, Stamp>, spell: Spelling, done: set<Path>, rows: Rows, p: Path)
    requires IsUpsert(before, seen, spell, done, rows) && p in seen && p !in done && p in before
               && before[p].text == spell(p)
    ensures p in rows && rows[p] == before[p]
    ensures IsUpsert(before, seen, spell, done + {p}, rows[p := rows[p].(stamp := seen[p])])
  {
    SameIdStaysDistinct(rows, p, seen[p]);
    hide DistinctIds;
  }

  lemma LeaveOne(before: Rows, seen: map<Path, Stamp>, spell: Spelling, done: set<Path>, rows: Rows, p: Path)
    requires IsUpsert(before, seen, spell, done, rows) && p in seen && p !in done && p in before
    requires before[p].text != spell(p) || before[p].stamp == seen[p]
    ensures p in rows && rows[p] == before[p]
    ensures IsUpsert(before, seen, spell, done + {p}, rows)
  {
    hide DistinctIds;
  }

  lemma RowIsThere(before: Rows, seen: map<Path, Stamp>, spell: Spelling, done: set<Path>, rows: Rows, p: Path)
    requires IsUpsert(before, seen, spell, done, rows) && p !in done && p in before
    ensures p in rows && rows[p] == before[p]
  {
    hide DistinctIds;
  }

  lemma CountOne(before: Rows, seen: map<Path, Stamp>, done: set<Path>, added: nat, updated: nat, same: nat, p: Path)
    requires IsUpsertCount(before, seen, done, added, updated, same) && done <= seen.Keys && p in seen && p !in done
    ensures if p !in before then IsUpsertCount(before, seen, done + {p}, added + 1, updated, same)
            else if before[p].stamp != seen[p] then IsUpsertCount(before, seen, done + {p}, added, updated + 1, same)
            else IsUpsertCount(before, seen, done + {p}, added, updated, same + 1)
  {
    assert p in Fresh(before, seen) <==> p !in before;
    assert p in Changed(before, seen) <==> p in before && before[p].stamp != seen[p];
    assert p in Same(before, seen) <==> p in before && before[p].stamp == seen[p];
    hide Fresh, Changed, Same;
    CountOneMore(done, p, Fresh(before, seen));
    CountOneMore(done, p, Changed(before, seen));
    CountOneMore(done, p, Same(before, seen));
  }

  lemma CountOneMore(done: set<Path>, p: Path, part: set<Path>)
    requires p !in done
    ensures |(done + {p}) * part| == |done * part| + if p in part then 1 else 0
  {
    if p in part {
      assert (done + {p}) * part == done * part + {p};
    } else {
      assert (done + {p}) * part == done * part;
    }
  }

  lemma UpsertThenDelete(before: Rows, seen: map<Path, Stamp>, spell: Spelling, present: seq<Path>, missing: seq<Path>,
                         rows: Rows)
    requires IsUpsert(before, seen, spell, seen.Keys, rows)
    ensures IsMerge(before, seen, spell, present, missing, rows - Gone(before, seen, present, missing))
    ensures DistinctIds(rows - Gone(before, seen, present, missing))
  {
    hide Droppable;
  }

  lemma UpsertCounted(before: Rows, seen: map<Path, Stamp>, present: seq<Path>, missing: seq<Path>, c: Counts)
    requires IsUpsertCount(before, seen, seen.Keys, c.added, c.updated, c.same)
               && c.removed == |Gone(before, seen, present, missing)|
    ensures IsCount(before, seen, present, missing, c)
  {
    assert Fresh(before, seen) <= seen.Keys && Changed(before, seen) <= seen.Keys && Same(before, seen) <= seen.Keys;
    hide Gone, Fresh, Changed, Same;
    PartOfAll(seen.Keys, Fresh(before, seen));
    PartOfAll(seen.Keys, Changed(before, seen));
    PartOfAll(seen.Keys, Same(before, seen));
  }

  lemma PartOfAll(all: set<Path>, part: set<Path>)
    requires part <= all
    ensures all * part == part
  {
  }

  /** The id the database gives the next row: one more than the largest in use. */
  method NextId(rows: Rows) returns (id: nat)
    ensures forall p :: p in rows ==> rows[p].id < id
    ensures id == 1 || exists p :: p in rows && id == rows[p].id + 1
  {
    id := 1;
    var todo := rows.Keys;
    while todo != {}
      invariant todo <= rows.Keys
      invariant forall p :: p in rows && p !in todo ==> rows[p].id < id
      invariant id == 1 || exists p :: p in rows && id == rows[p].id + 1
    {
      var p :| p in todo;
      todo := todo - {p};
      if id <= rows[p].id {
        id := rows[p].id + 1;
      }
    }
  }

  lemma UpsertBegins(rows: Rows, seen: map<Path, Stamp>, spell: Spelling, none: set<Path>)
    requires DistinctIds(rows) && none == {}
    ensures IsUpsert(rows, seen, spell, none, rows) && IsUpsertCount(rows, seen, none, 0, 0, 0)
  {
    hide DistinctIds, Changed, Fresh, Same;
    assert none * Fresh(rows, seen) == none * Changed(rows, seen) == none * Same(rows, seen) == {};
  }

  /**
    Write what the walk saw: new paths are inserted, changed stamps updated, the rest left alone. The update statement
    names the row by the text of its path, and is counted whether or not there is such a row.
   */
  method Upsert(existing: Rows, seen: map<Path, Stamp>, spell: Spelling) returns (rows: Rows, added: nat, updated: nat,
                same: nat)
    requires DistinctIds(existing)
    ensures IsUpsert(existing, seen, spell, seen.Keys, rows)
    ensures IsUpsertCount(existing, seen, seen.Keys, added, updated, same)
  {
    hide IsUpsert, IsUpsertCount, DistinctIds;
    rows, added, updated, same := existing, 0, 0, 0;
    var todo := seen.Keys;
    assert seen.Keys - todo == {};
    UpsertBegins(rows, seen, spell, seen.Keys - todo);
    while todo != {}
      invariant todo <= seen.Keys
      invariant IsUpsert(existing, seen, spell, seen.Keys - todo, rows)
      invariant IsUpsertCount(existing, seen, seen.Keys - todo, added, updated, same)
    {
      var p :| p in todo;
      ghost var done := seen.Keys - todo;
      CountOne(existing, seen, done, added, updated, same, p);
      todo := todo - {p};
      assert done + {p} == seen.Keys - todo;
      if p !in existing {
        var id := NextId(rows);
        InsertOne(existing, seen, spell, done, rows, p, id);
        rows, added := rows[p := Row(id, spell(p), seen[p])], added + 1;
      } else {
        RowIsThere(existing, seen, spell, done, rows, p);
        if existing[p].stamp != seen[p] {
          if rows[p].text == spell(p) {
            UpdateOne(existing, seen, spell, done, rows, p);
            rows := rows[p := rows[p].(stamp := seen[p])];
          } else {
            LeaveOne(existing, seen, spell, done, rows, p);
          }
          updated := updated + 1;
        } else {
          LeaveOne(existing, seen, spell, done, rows, p);
          same := same + 1;
        }
      }
    }
    assert seen.Keys - todo == seen.Keys;
  }

  /** The row was not seen, some folder that is there lies above it, and none that is missing does. */
  ghost predicate IsGone(existing: Rows, seen: map<Path, Stamp>, present: seq<Path>, missing: seq<Path>, p: Path) {
    && p in existing && p !in seen
    && (exists r :: r in present && r <= p) && (forall r :: r in missing ==> !(r <= p))
  }

  lemma GoneIsGone(existing: Rows, seen: map<Path, Stamp>, present: seq<Path>, missing: seq<Path>)
    ensures forall p :: p in Gone(existing, seen, present, missing) <==> IsGone(existing, seen, present, missing, p)
  {
  }

  /** Drop the rows that were not seen and may be dropped. */
  method DeleteGone(current: Rows, existing: Rows, seen: map<Path, Stamp>, present: seq<Path>, missing: seq<Path>)
    returns (rows: Rows, removed: nat)
    ensures rows == current - Gone(existing, seen, present, missing)
    ensures forall p :: p in rows <==> p in current && !IsGone(existing, seen, present, missing, p)
    ensures removed == |Gone(existing, seen, present, missing)|
  {
    var gone := set p | p in existing && p !in seen && Droppable(p, present, missing);
    assert gone == Gone(existing, seen, present, missing);
    hide Gone, Droppable, IsGone;
    GoneIsGone(existing, seen, present, missing);
    rows, removed := current, 0;
    var todo := gone;
    while todo != {}
      invariant todo <= gone && removed == |gone| - |todo|
      invariant rows == current - (gone - todo)
    {
      var p :| p in todo;
      rows, removed := rows - {p}, removed + 1;
      todo := todo - {p};
    }
    assert gone - todo == gone;
  }

  lemma WalkedIsSeen(fs: FileSystem, roots: seq<Path>, seen: map<Path, Stamp>)
    requires forall p :: p in seen <==> ReachedFromOuter(fs, Present(fs, roots), p)
    requires forall p :: p in seen ==> Wanted(fs, p) && seen[p] == fs[p].stamp
    ensures seen == SeenBy(fs, roots)
  {
  }

  /** The index. A scan works in one transaction, so `rows` changes once, at the end. */
  class Library {
    var rows: Rows

    ghost predicate Valid()
      reads this
    {
      DistinctIds(rows)
    }

    constructor ()
      ensures Valid() && rows == map[]
    {
      rows := map[];
    }

    /** One scan of the configured roots. */
    method Scan(fs: FileSystem, roots: seq<Path>, spell: Spelling) returns (report: ScanReport)
      requires Valid()
      modifies this
      ensures Valid()
      ensures IsMerge(old(rows), SeenBy(fs, roots), spell, Present(fs, roots), Missing(fs, roots), rows)
      ensures forall p :: p in rows <==>
                || (exists r :: Outermost(fs, roots, r) && Reached(fs, r, p))
                || (p in old(rows) && !MayGo(fs, roots, p))
      ensures IsCount(old(rows), SeenBy(fs, roots), Present(fs, roots), Missing(fs, roots), report.counts)
      ensures report.missingRoots == Missing(fs, roots)
      ensures forall d :: d in report.unreadableDirs
                <==> exists r :: Outermost(fs, roots, r) && Visited(fs, r, d) && !Readable(fs, d)
      ensures report.skipped == SkippedIn(fs, Present(fs, roots), |Present(fs, roots)|)
      ensures NoDuplicates(roots) ==> report.skipped == |UnsupportedIn(fs, WalkedDirs(fs, roots))|
    {
      hide IsUpsert, IsUpsertCount, IsMerge, IsCount, DistinctIds, Gone, Present, Missing, ReachedFromOuter,
          BlockedInFirst, SkippedIn, SeenBy, Outermost, MayGo, Reached, Visited, Readable,
          UnsupportedIn, WalkedDirs, NoDuplicates;
      var present, missing := SplitRoots(fs, roots);
      var seen, unreadable, skipped := WalkRoots(fs, present);
      WalkedIsSeen(fs, roots, seen);
      var current, added, updated, same := Upsert(rows, seen, spell);
      UpsertThenDelete(rows, seen, spell, present, missing, current);
      var after, removed := DeleteGone(current, rows, seen, present, missing);
      forall d ensures d in unreadable
                       <==> exists r :: Outermost(fs, roots, r) && Visited(fs, r, d) && !Readable(fs, d)
      {
        BlockedFromOutermost(fs, roots, d);
      }
      if NoDuplicates(roots) { SkippedByAScan(fs, roots); }
      report := ScanReport(missing, unreadable, skipped, Counts(added, updated, same, removed));
      UpsertCounted(rows, seen, present, missing, report.counts);
      forall p
        ensures p in after <==>
                  || (exists r :: Outermost(fs, roots, r) && Reached(fs, r, p))
                  || (p in rows && !MayGo(fs, roots, p))
      {
        RowsAfterAScan(fs, roots, spell, rows, after, p);
      }
      rows := after;
    }
  }
}
