/**
  The query behind the library's list: clauses and numbered parameters are put together one by one, and together they
  are proved to select exactly the wallpapers asked for. (crates/owe-core/src/library.rs, `build_query`, `push_param`)
 */
module LibraryQuery {
  import opened Prelude
  import opened LikePattern
  import LibraryWalk

  datatype Query = Query(filter: Option<string>, kind: Option<string>, under: Option<string>)

  datatype Item = Item(name: string, path: string, dir: string, kind: string)

  /** A condition of the WHERE clause; the numbers are parameter numbers, counted from one. */
  datatype Clause = NameOrPathLike(pattern: nat) | KindIs(kind: nat) | DirIn(exact: nat, below: nat)

  predicate Bound(parameters: seq<string>, index: nat) {
    1 <= index <= |parameters|
  }

  /** How the database reads one clause. A number with no parameter behind it is NULL, and no row satisfies that. */
  predicate Holds(c: Clause, parameters: seq<string>, item: Item) {
    match c
    case NameOrPathLike(i) =>
      Bound(parameters, i) && (Like(parameters[i - 1], item.name) || Like(parameters[i - 1], item.path))
    case KindIs(i) => Bound(parameters, i) && item.kind == parameters[i - 1]
    case DirIn(e, b) =>
      Bound(parameters, e) && Bound(parameters, b)
          && (item.dir == parameters[e - 1] || Like(parameters[b - 1], item.dir))
  }

  predicate Selects(clauses: seq<Clause>, parameters: seq<string>, item: Item) {
    forall k :: 0 <= k < |clauses| ==> Holds(clauses[k], parameters, item)
  }

  // ------------------------------------------------------------------ what is asked for

  /** Unicode white space, as `str::trim` has it. */
  predicate IsSpace(c: char) {
    var n := c as int;
    9 <= n <= 13 || n == 0x20 || n == 0x85 || n == 0xA0 || n == 0x1680 || 0x2000 <= n <= 0x200A || n == 0x2028
        || n == 0x2029
    || n == 0x202F || n == 0x205F || n == 0x3000
  }

  /** The characters that the Unicode standard calls white space. */
  const WHITE_SPACE := "\t\n\U{b}\U{c}\r \U{85}\U{a0}\U{1680}\U{2000}\U{2001}\U{2002}\U{2003}\U{2004}\U{2005}"
    + "\U{2006}\U{2007}\U{2008}\U{2009}\U{200a}\U{2028}\U{2029}\U{202f}\U{205f}\U{3000}"

  lemma SpaceIsWhiteSpace(c: char)
    ensures IsSpace(c) <==> c in WHITE_SPACE
  {
  }

  function Trim(s: string): string
    decreases |s|
  {
    if s == "" then ""
    else if IsSpace(s[0]) then Trim(s[1..])
    else if IsSpace(s[|s| - 1]) then Trim(s[..|s| - 1])
    else s
  }

  /** What is trimmed away is white space, and nothing more could have been. */
  lemma {:induction false} TrimTakesOnlySpace(s: string) returns (before: string, after: string)
    ensures s == before + Trim(s) + after
    ensures (forall i :: 0 <= i < |before| ==> IsSpace(before[i]))
              && (forall i :: 0 <= i < |after| ==> IsSpace(after[i]))
    ensures Trim(s) != "" ==> !IsSpace(Trim(s)[0]) && !IsSpace(Trim(s)[|Trim(s)| - 1])
    decreases |s|
  {
    before, after := "", "";
    if s == "" {
    } else if IsSpace(s[0]) {
      before, after := TrimTakesOnlySpace(s[1..]);
      before := [s[0]] + before;
    } else if IsSpace(s[|s| - 1]) {
      before, after := TrimTakesOnlySpace(s[..|s| - 1]);
      after := after + [s[|s| - 1]];
    }
  }

  predicate WantsText(q: Query, item: Item) {
    q.filter.Some? && Trim(q.filter.value) != "" ==>
      Occurs(Trim(q.filter.value), item.name) || Occurs(Trim(q.filter.value), item.path)
  }

  predicate WantsKind(q: Query, item: Item) {
    q.kind.Some? ==> item.kind == q.kind.value
  }

  predicate WantsDir(q: Query, item: Item) {
    q.under.Some? ==> InOrBelow(q.under.value, item.dir)
  }

  predicate InOrBelow(u: string, d: string) {
    d == u || IsBelow(u, d)
  }

  /** Further parameters do not disturb the clauses already written. */
  lemma ParametersOnlyGrow(clauses: seq<Clause>, parameters: seq<string>, more: seq<string>, item: Item)
    requires forall k :: 0 <= k < |clauses| ==> Closed(clauses[k], parameters)
    ensures Selects(clauses, parameters + more, item) <==> Selects(clauses, parameters, item)
    ensures forall k :: 0 <= k < |clauses| ==> Closed(clauses[k], parameters + more)
  {
    hide Like;
  }

  /** Every number in the clause has a parameter. */
  predicate Closed(c: Clause, parameters: seq<string>) {
    match c
    case NameOrPathLike(i) => Bound(parameters, i)
    case KindIs(i) => Bound(parameters, i)
    case DirIn(e, b) => Bound(parameters, e) && Bound(parameters, b)
  }

  lemma OneClauseMore(clauses: seq<Clause>, parameters: seq<string>, c: Clause, item: Item)
    ensures Selects(clauses + [c], parameters, item)
            <==> Selects(clauses, parameters, item) && Holds(c, parameters, item)
  {
    hide Holds;
    assert (clauses + [c])[|clauses|] == c;
    assert forall k :: 0 <= k < |clauses| ==> (clauses + [c])[k] == clauses[k];
  }

  /** The clauses written so far select what the parts of the query dealt with so far ask for. */
  ghost predicate Means(clauses: seq<Clause>, parameters: seq<string>, q: Query) {
    && (forall k :: 0 <= k < |clauses| ==> Closed(clauses[k], parameters))
    && forall item :: Selects(clauses, parameters, item)
        <==> WantsText(q, item) && WantsKind(q, item) && WantsDir(q, item)
  }

  lemma WithText(clauses: seq<Clause>, parameters: seq<string>, q: Query, filter: string)
    requires Means(clauses, parameters, q) && q.filter.None? && Trim(filter) != ""
    ensures Means(clauses + [NameOrPathLike(|parameters| + 1)], parameters + [[WILD] + Escape(Trim(filter)) + [WILD]],
                  q.(filter := Some(filter)))
  {
    hide Like, Occurs, Selects, Trim, WantsKind, WantsDir;
    var pattern, c := [WILD] + Escape(Trim(filter)) + [WILD], NameOrPathLike(|parameters| + 1);
    forall item
      ensures Selects(clauses + [c], parameters + [pattern], item)
              <==> Selects(clauses, parameters, item) && WantsText(q.(filter := Some(filter)), item)
    {
      ParametersOnlyGrow(clauses, parameters, [pattern], item);
      OneClauseMore(clauses, parameters + [pattern], c, item);
      FilterFindsOccurrences(Trim(filter), item.name);
      FilterFindsOccurrences(Trim(filter), item.path);
    }
    SameKindAndDir(q, q.(filter := Some(filter)));
  }

  lemma SameKindAndDir(q: Query, r: Query)
    requires q.kind == r.kind && q.under == r.under
    ensures forall item :: WantsKind(q, item) == WantsKind(r, item) && WantsDir(q, item) == WantsDir(r, item)
  {
  }

  lemma SameTextAndDir(q: Query, r: Query)
    requires q.filter == r.filter && q.under == r.under
    ensures forall item :: WantsText(q, item) == WantsText(r, item) && WantsDir(q, item) == WantsDir(r, item)
  {
  }

  lemma SameTextAndKind(q: Query, r: Query)
    requires q.filter == r.filter && q.kind == r.kind
    ensures forall item :: WantsText(q, item) == WantsText(r, item) && WantsKind(q, item) == WantsKind(r, item)
  {
  }

  lemma WithKind(clauses: seq<Clause>, parameters: seq<string>, q: Query, kind: string)
    requires Means(clauses, parameters, q) && q.kind.None?
    ensures Means(clauses + [KindIs(|parameters| + 1)], parameters + [kind], q.(kind := Some(kind)))
  {
    hide Selects, WantsText, WantsDir;
    var c := KindIs(|parameters| + 1);
    forall item
      ensures Selects(clauses + [c], parameters + [kind], item)
              <==> Selects(clauses, parameters, item) && item.kind == kind
    {
      ParametersOnlyGrow(clauses, parameters, [kind], item);
      OneClauseMore(clauses, parameters + [kind], c, item);
    }
    SameTextAndDir(q, q.(kind := Some(kind)));
  }

  lemma WithDir(clauses: seq<Clause>, parameters: seq<string>, q: Query, under: string)
    requires Means(clauses, parameters, q) && q.under.None?
    ensures Means(clauses + [DirIn(|parameters| + 1, |parameters| + 2)],
                  parameters + [under] + [Escape(under) + [SEPARATOR] + [WILD]], q.(under := Some(under)))
  {
    hide Like, IsBelow, Selects, WantsText, WantsKind;
    var below, c := Escape(under) + [SEPARATOR] + [WILD], DirIn(|parameters| + 1, |parameters| + 2);
    assert parameters + [under] + [below] == parameters + [under, below];
    forall item
      ensures Selects(clauses + [c], parameters + [under, below], item)
              <==> Selects(clauses, parameters, item) && InOrBelow(under, item.dir)
    {
      ParametersOnlyGrow(clauses, parameters, [under, below], item);
      OneClauseMore(clauses, parameters + [under, below], c, item);
      BelowIsAPrefix(under, item.dir);
    }
    SameTextAndKind(q, q.(under := Some(under)));
  }

  lemma AskingForNothing()
    ensures Means([], [], Query(None, None, None))
  {
  }

  lemma BlankFilterAsksNothing(clauses: seq<Clause>, parameters: seq<string>, q: Query, filter: string)
    requires Means(clauses, parameters, q) && q.filter.None? && Trim(filter) == ""
    ensures Means(clauses, parameters, q.(filter := Some(filter)))
  {
    hide Trim, Selects, WantsKind, WantsDir;
    SameKindAndDir(q, q.(filter := Some(filter)));
  }

  /** Put the query together. Whatever the three fields say, every row is judged by the part of the query it belongs
      to. */
  method BuildQuery(query: Query) returns (clauses: seq<Clause>, parameters: seq<string>)
    ensures forall item :: Selects(clauses, parameters, item)
                           <==> WantsText(query, item) && WantsKind(query, item) && WantsDir(query, item)
  {
    hide Selects, WantsText, WantsKind, WantsDir, Trim, Escape;
    clauses, parameters := [], [];
    ghost var asked := Query(None, None, None);
    AskingForNothing();
    if query.filter.Some? {
      var filter := Trim(query.filter.value);
      if filter != "" {
        WithText(clauses, parameters, asked, query.filter.value);
        var escaped := EscapeLike(filter);
        parameters := parameters + [[WILD] + escaped + [WILD]];
        clauses := clauses + [NameOrPathLike(|parameters|)];
      } else {
        BlankFilterAsksNothing(clauses, parameters, asked, query.filter.value);
      }
      asked := asked.(filter := query.filter);
    }
    if query.kind.Some? {
      WithKind(clauses, parameters, asked, query.kind.value);
      parameters := parameters + [query.kind.value];
      clauses := clauses + [KindIs(|parameters|)];
      asked := asked.(kind := query.kind);
    }
    if query.under.Some? {
      WithDir(clauses, parameters, asked, query.under.value);
      parameters := parameters + [query.under.value];
      var exact := |parameters|;
      var escaped := EscapeLike(query.under.value);
      parameters := parameters + [escaped + [SEPARATOR] + [WILD]];
      clauses := clauses + [DirIn(exact, |parameters|)];
      asked := asked.(under := query.under);
    }
    assert asked == query;
  }

  // ------------------------------------------------------------------ directories, component by component

  /** A component of a directory on disk. */
  predicate IsName(n: string) {
    n != "" && n != "." && SEPARATOR !in n
  }

  ghost predicate IsPath(p: LibraryWalk.Path) {
    forall n :: n in p ==> IsName(n)
  }

  /** What may stand between two separators of a written path; it can be empty. */
  ghost predicate ArePieces(w: seq<string>) {
    forall n :: n in w ==> SEPARATOR !in n
  }

  function Components(w: seq<string>): string {
    if w == [] then "" else [SEPARATOR] + w[0] + Components(w[1..])
  }

  /** How a path is written. */
  function Text(p: LibraryWalk.Path): string {
    if p == [] then [SEPARATOR] else Components(p)
  }

  /** The text after a name either ends or goes on with a separator. */
  predicate IsTail(x: string) {
    x == "" || x[0] == SEPARATOR
  }

  lemma FirstPiece(w: seq<string>)
    requires ArePieces(w) && w != []
    ensures SEPARATOR !in w[0] && ArePieces(w[1..]) && IsTail(Components(w[1..]))
    ensures |Components(w)| >= 1 && Components(w)[0] == SEPARATOR
  {
    assert w[0] in w;
    assert forall n :: n in w[1..] ==> n in w;
  }

  /** Where one text begins another, their first components agree and so do the texts behind them. */
  lemma {:induction false} FirstComponents(a: string, b: string, x: string, y: string)
    requires SEPARATOR !in a && SEPARATOR !in b && IsTail(x) && IsTail(y) && x != ""
    ensures Begins(a + x, b + y) <==> SameText(a, b) && Begins(x, y)
  {
    if a == "" || b == "" {
      assert a + x != "" && "" + x == x && "" + y == y;
      if b + y != "" {
        OneLetterMore(a + x, b + y);
        OnlyTheSeparator((a + x)[0], (b + y)[0]);
        assert b != "" ==> (b + y)[0] == b[0];
        assert a != "" ==> (a + x)[0] == a[0];
      }
    } else {
      OneLetterMore(a + x, b + y);
      assert (a + x)[1..] == a[1..] + x && (b + y)[1..] == b[1..] + y;
      FirstComponents(a[1..], b[1..], x, y);
      OneLetterOfTwo(a, b);
    }
  }

  lemma OnlyTheSeparator(c: char, d: char)
    ensures SameLetter(c, d) && (c == SEPARATOR || d == SEPARATOR) ==> c == d
  {
  }

  lemma OneLetterOfTwo(a: string, b: string)
    requires a != "" && b != ""
    ensures SameText(a, b) <==> SameLetter(a[0], b[0]) && SameText(a[1..], b[1..])
  {
    hide SameLetter;
    assert |a| == |b| ==> forall i :: 0 < i < |a| ==> a[i] == a[1..][i - 1] && b[i] == b[1..][i - 1];
    assert |a| == |b| ==> forall i :: 0 <= i < |a| - 1 ==> a[1..][i] == a[i + 1] && b[1..][i] == b[i + 1];
  }

  /** `q` leads to `p` up to the case of ASCII letters. */
  predicate LeadsTo(q: seq<string>, p: seq<string>) {
    |q| <= |p| && forall i :: 0 <= i < |q| ==> SameText(q[i], p[i])
  }

  lemma BelowIsBegins(u: string, d: string)
    ensures IsBelow(u, d) <==> Begins(u + [SEPARATOR], d)
  {
    var v := u + [SEPARATOR];
    assert forall i :: 0 <= i < |u| ==> v[i] == u[i];
    if |u| < |d| {
      OnlyTheSeparator(v[|u|], d[|u|]);
      hide SameLetter;
      assert forall i :: 0 <= i < |u| ==> d[..|v|][i] == d[..|u|][i];
      assert d[..|v|][|u|] == d[|u|];
    }
  }

  lemma PeelComponent(a: string, b: string, x: string, y: string)
    requires SEPARATOR !in a && SEPARATOR !in b && IsTail(x) && IsTail(y)
    ensures Begins([SEPARATOR] + a + x + [SEPARATOR], [SEPARATOR] + b + y)
            <==> SameText(a, b) && Begins(x + [SEPARATOR], y)
  {
    hide Begins, SameText;
    var u, d := a + (x + [SEPARATOR]), b + y;
    assert [SEPARATOR] + a + x + [SEPARATOR] == [SEPARATOR] + u && [SEPARATOR] + b + y == [SEPARATOR] + d;
    assert ([SEPARATOR] + u)[1..] == u && ([SEPARATOR] + d)[1..] == d;
    OneLetterMore([SEPARATOR] + u, [SEPARATOR] + d);
    FirstComponents(a, b, x + [SEPARATOR], y);
  }

  lemma {:induction false} ComponentsLead(q: seq<string>, p: seq<string>)
    requires ArePieces(q) && ArePieces(p)
    ensures Begins(Components(q) + [SEPARATOR], Components(p)) <==> |q| < |p| && LeadsTo(q, p)
  {
    if p == [] {
      assert !Begins(Components(q) + [SEPARATOR], "");
    } else if q == [] {
      assert Components(q) + [SEPARATOR] == [SEPARATOR];
      FirstPiece(p);
      OneLetterMore([SEPARATOR], Components(p));
    } else {
      hide Begins, SameText, LeadsTo, ArePieces;
      FirstPiece(q);
      FirstPiece(p);
      PeelComponent(q[0], p[0], Components(q[1..]), Components(p[1..]));
      ComponentsLead(q[1..], p[1..]);
      OneComponentMore(q, p);
    }
  }

  lemma OneComponentMore(q: seq<string>, p: seq<string>)
    requires q != [] && p != []
    ensures LeadsTo(q, p) <==> SameText(q[0], p[0]) && LeadsTo(q[1..], p[1..])
  {
    hide SameText;
    assert forall i :: 0 < i < |q| && i < |p| ==> q[i] == q[1..][i - 1] && p[i] == p[1..][i - 1];
    assert forall i :: 0 <= i < |q| - 1 && i < |p| - 1 ==> q[1..][i] == q[i + 1] && p[1..][i] == p[i + 1];
  }

  /** Two sequences of pieces are written alike only if they are the same. */
  lemma {:induction false} TextTellsPiecesApart(q: seq<string>, p: seq<string>)
    requires ArePieces(q) && ArePieces(p) && Components(q) == Components(p)
    ensures q == p
  {
    if q != [] && p != [] {
      FirstPiece(q);
      FirstPiece(p);
      var x, y := Components(q[1..]), Components(p[1..]);
      assert q[0] + x == Components(q)[1..] == p[0] + y;
      SameFirstComponent(q[0], p[0], x, y);
      TextTellsPiecesApart(q[1..], p[1..]);
    }
  }

  lemma {:induction false} SameFirstComponent(a: string, b: string, x: string, y: string)
    requires SEPARATOR !in a && SEPARATOR !in b && IsTail(x) && IsTail(y)
    ensures a + x == b + y ==> a == b && x == y
  {
    if a == "" || b == "" {
      assert "" + x == x && "" + y == y;
      assert a != "" ==> (a + x)[0] == a[0];
      assert b != "" ==> (b + y)[0] == b[0];
    } else if a + x == b + y {
      assert a[0] == (a + x)[0] == b[0];
      assert a[1..] + x == (a + x)[1..] == b[1..] + y;
      SameFirstComponent(a[1..], b[1..], x, y);
      assert a == [a[0]] + a[1..] && b == [b[0]] + b[1..];
    }
  }

  lemma NamesArePieces(p: LibraryWalk.Path)
    requires IsPath(p)
    ensures ArePieces(p)
  {
  }

  /** What a text beginning with a separator finds, piece by piece. */
  lemma WhatPiecesFind(w: seq<string>, p: LibraryWalk.Path)
    requires ArePieces(w) && w != [] && IsPath(p)
    ensures InOrBelow(Components(w), Text(p)) <==>
              if p == [] then w == [""] else w == p || (|w| < |p| && LeadsTo(w, p))
  {
    NamesArePieces(p);
    BelowIsBegins(Components(w), Text(p));
    if p == [] {
      FirstPiece(w);
      assert Components([""]) == [SEPARATOR];
      if Components(w) == [SEPARATOR] { TextTellsPiecesApart(w, [""]); }
    } else {
      ComponentsLead(w, p);
      if Components(w) == Components(p) { TextTellsPiecesApart(w, p); }
    }
  }

  /**
    Asking for what lies under a directory, in its plain spelling, finds that directory and everything below it — and
    also what lies below a directory that differs from it only in the case of ASCII letters, which is a different one.
   */
  lemma UnderFindsTheSubtree(q: LibraryWalk.Path, p: LibraryWalk.Path)
    requires IsPath(q) && IsPath(p) && q != []
    ensures InOrBelow(Text(q), Text(p)) <==> p == q || (|q| < |p| && LeadsTo(q, p))
    ensures q <= p ==> InOrBelow(Text(q), Text(p))
  {
    NamesArePieces(q);
    WhatPiecesFind(q, p);
    assert IsName(q[0]) by { assert q[0] in q; }
  }

  // ------------------------------------------------------------------ the spellings of a directory

  predicate IsAbsolute(u: string) {
    u != "" && u[0] == SEPARATOR
  }

  /** Where the first piece of `s` ends. */
  function PieceEnd(s: string): (at: nat)
    ensures at <= |s| && SEPARATOR !in s[..at] && (at < |s| ==> s[at] == SEPARATOR)
  {
    if s == "" || s[0] == SEPARATOR then 0 else 1 + PieceEnd(s[1..])
  }

  /** What stands between the separators of an absolute text. */
  function Pieces(u: string): seq<string>
    requires IsAbsolute(u)
    decreases |u|
  {
    var at := 1 + PieceEnd(u[1..]);
    [u[1..at]] + if at == |u| then [] else Pieces(u[at..])
  }

  /** The directory a text names: empty pieces and `.` mean nothing. */
  function Meaning(w: seq<string>): LibraryWalk.Path {
    if w == [] then [] else (if w[0] == "" || w[0] == "." then [] else [w[0]]) + Meaning(w[1..])
  }

  lemma OnePieceMore(first: string, w: seq<string>)
    requires SEPARATOR !in first && ArePieces(w)
    ensures ArePieces([first] + w) && Components([first] + w) == [SEPARATOR] + first + Components(w)
  {
    assert ([first] + w)[1..] == w;
  }

  lemma {:induction false} PiecesSpell(u: string)
    requires IsAbsolute(u)
    ensures ArePieces(Pieces(u)) && Components(Pieces(u)) == u && Pieces(u) != []
    decreases |u|
  {
    hide ArePieces, Components, PieceEnd;
    var at := 1 + PieceEnd(u[1..]);
    var first := u[1..at];
    assert first == u[1..][..at - 1] && u[..at] == [SEPARATOR] + first;
    if at == |u| {
      NoPieces();
      OnePieceMore(first, []);
    } else {
      PiecesSpell(u[at..]);
      OnePieceMore(first, Pieces(u[at..]));
      assert u == u[..at] + u[at..];
    }
  }

  lemma NoPieces()
    ensures ArePieces([]) && Components([]) == ""
  {
  }

  lemma {:induction false} MeaningIsAPath(w: seq<string>)
    requires ArePieces(w)
    ensures IsPath(Meaning(w)) && (IsPath(w) <==> Meaning(w) == w) && |Meaning(w)| <= |w|
  {
    if w != [] {
      var rest := w[1..];
      FirstPiece(w);
      MeaningIsAPath(rest);
      assert w == [w[0]] + rest;
      assert IsPath(w) <==> IsName(w[0]) && IsPath(rest) by {
        assert forall n :: n in w <==> n == w[0] || n in rest;
      }
      if !IsName(w[0]) {
        assert |Meaning(w)| < |w|;
      }
    }
  }

  /** A text with an empty piece or a `.` in it finds no directory but possibly the root. */
  lemma OddSpellingFindsNothing(w: seq<string>, p: LibraryWalk.Path)
    requires ArePieces(w) && w != [] && !IsPath(w) && IsPath(p)
    ensures InOrBelow(Components(w), Text(p)) <==> p == [] && w == [""]
  {
    WhatPiecesFind(w, p);
    var i :| 0 <= i < |w| && !IsName(w[i]);
    if i < |p| {
      assert IsName(p[i]);
      DotIsItself(w[i], p[i]);
    }
  }

  lemma DotIsItself(a: string, b: string)
    ensures SameText(a, b) && (a == "" || a == ".") ==> a == b
  {
    if a == "." && SameText(a, b) {
      assert SameLetter(a[0], b[0]) && b == [b[0]];
    }
  }

  lemma PlainSpelling(w: seq<string>)
    requires ArePieces(w) && w != []
    ensures Meaning(w) != [] ==> (Components(w) == Text(Meaning(w)) <==> IsPath(w))
    ensures Meaning(w) == [] ==> !IsPath(w)
  {
    MeaningIsAPath(w);
    NamesArePieces(Meaning(w));
    if Meaning(w) != [] && Components(w) == Text(Meaning(w)) {
      TextTellsPiecesApart(w, Meaning(w));
    }
  }

  /**
    Which spellings of a directory work: the subtree is found exactly when the directory is not the root and the text is
    its plain spelling. Any other spelling of a directory — a trailing or doubled separator, a `.` — finds nothing.
   */
  lemma SpellingDecides(u: string)
    requires IsAbsolute(u)
    ensures var q := Meaning(Pieces(u));
            && ((forall p :: IsPath(p) && q <= p ==> InOrBelow(u, Text(p))) <==> q != [] && u == Text(q))
            && (q != [] && u != Text(q) ==> forall p :: IsPath(p) ==> !InOrBelow(u, Text(p)))
  {
    var w := Pieces(u);
    var q := Meaning(w);
    PiecesSpell(u);
    MeaningIsAPath(w);
    PlainSpelling(w);
    if IsPath(w) {
      forall p | IsPath(p) && q <= p ensures InOrBelow(u, Text(p)) {
        UnderFindsTheSubtree(q, p);
      }
    } else {
      hide InOrBelow, Text, Components, Pieces;
      forall p | IsPath(p) ensures InOrBelow(u, Text(p)) <==> p == [] && w == [""] {
        OddSpellingFindsNothing(w, p);
      }
      RootHasNoName();
      var below := q + ["a"];
      assert IsPath(below) && q <= below && below != [];
    }
  }

  lemma RootHasNoName()
    ensures Meaning([""]) == [] && IsName("a")
  {
    assert [""][1..] == [];
  }

  /** The plainest of the failing spellings: a directory with a separator behind it. */
  lemma TrailingSeparatorFindsNothing(q: LibraryWalk.Path, p: LibraryWalk.Path)
    requires IsPath(q) && IsPath(p) && q != []
    ensures !InOrBelow(Text(q) + [SEPARATOR], Text(p))
  {
    var w := q + [""];
    NamesArePieces(q);
    assert w[|q|] == "" && !IsPath(w) by { assert "" in w; }
    SeparatorBehind(q);
    OddSpellingFindsNothing(w, p);
  }

  lemma {:induction false} SeparatorBehind(q: seq<string>)
    ensures Components(q + [""]) == Components(q) + [SEPARATOR]
  {
    if q == [] {
      assert q + [""] == [""] && [""][1..] == [];
    } else {
      assert (q + [""])[1..] == q[1..] + [""];
      SeparatorBehind(q[1..]);
    }
  }

  /** The root is found by no text but `/`, which finds nothing below it. */
  lemma UnderTheRootFindsTheRootOnly(p: LibraryWalk.Path)
    requires IsPath(p)
    ensures InOrBelow(Text([]), Text(p)) <==> p == []
  {
    assert Components([""]) == Text([]);
    assert !IsPath([""]) by { assert "" in [""]; }
    OddSpellingFindsNothing([""], p);
  }

  /** A text that is not absolute finds nothing, and the empty one everything. */
  lemma RelativeTextFindsNothing(u: string, p: LibraryWalk.Path)
    requires IsPath(p) && !IsAbsolute(u)
    ensures InOrBelow(u, Text(p)) <==> u == ""
  {
    BelowIsBegins(u, Text(p));
    if p != [] {
      NamesArePieces(p);
      FirstPiece(p);
    }
    OneLetterMore(u + [SEPARATOR], Text(p));
    OnlyTheSeparator((u + [SEPARATOR])[0], Text(p)[0]);
    if u == "" {
      assert (u + [SEPARATOR])[1..] == "";
    }
  }
}
