/** Which files the search meets, and in which order, told by the library tree alone. */
module LibraryScanOrder {
  import opened SortedText
  import opened LibraryScan
  import T = LibraryScanTheorems

  /** From `path`, the names lead down readable directories without a hidden name. */
  ghost predicate Visible(lib: Library, path: Path, names: seq<string>)
    decreases |names|
  {
    names == []
    || (IsListed(lib, path, names[0]) && (names[0] == "" || names[0][0] != '.')
        && Visible(lib, path + [names[0]], names[1..]))
  }

  ghost predicate IsListed(lib: Library, path: Path, name: string) {
    IsDirectory(lib, path) && lib.entries[path].listing.Names? && name in lib.entries[path].listing.names
  }

  predicate IsDirectory(lib: Library, path: Path) {
    path in lib.entries && lib.entries[path].Directory?
  }

  /** No directory has two paths, and no listing repeats a name. */
  ghost predicate RealTree(lib: Library) {
    && (forall p, q :: IsDirectory(lib, p) && IsDirectory(lib, q) && DirectoryId(lib, p) == DirectoryId(lib, q)
                       ==> p == q)
    && forall p :: IsDirectory(lib, p) && lib.entries[p].listing.Names?
                   ==> NoRepeats(lib.entries[p].listing.names)
  }

  lemma Extend(path: Path, name: string, rest: seq<string>)
    ensures path + ([name] + rest) == (path + [name]) + rest
    ensures ([name] + rest)[1..] == rest
  {
  }

  lemma Descend(path: Path, names: seq<string>)
    requires names != []
    ensures (path + [names[0]]) + names[1..] == path + names
  {
  }

  // ---------------------------------------------------------------------------
  // Everything met is visible
  // ---------------------------------------------------------------------------

  lemma {:induction false} WalkIsSound(lib: Library, path: Path, visited: set<Path>, song: Path)
    returns (names: seq<string>)
    requires Song(song) in Walk(lib, path, visited).events
    ensures song == path + names && Visible(lib, path, names) && IsSong(lib, song)
    decreases DirectoryIds(lib) - visited, 0
  {
    if lib.entries[path].File? {
      names := [];
    } else {
      var id := DirectoryId(lib, path);
      assert id in DirectoryIds(lib);
      var n, rest := NamesAreSound(lib, path, Sort(lib.entries[path].listing.names), visited + {id}, song);
      assert n in multiset(lib.entries[path].listing.names);
      names := [n] + rest;
      Extend(path, n, rest);
    }
  }

  lemma {:induction false} NamesAreSound(lib: Library, dir: Path, list: seq<string>, visited: set<Path>, song: Path)
    returns (n: string, rest: seq<string>)
    requires Song(song) in WalkNames(lib, dir, list, visited).events
    ensures n in list && !Hidden(n)
    ensures song == dir + [n] + rest && Visible(lib, dir + [n], rest) && IsSong(lib, song)
    decreases DirectoryIds(lib) - visited, |list|
  {
    if Hidden(list[0]) {
      n, rest := NamesAreSound(lib, dir, list[1..], visited, song);
    } else {
      var first := Walk(lib, dir + [list[0]], visited);
      if Song(song) in first.events {
        n := list[0];
        rest := WalkIsSound(lib, dir + [n], visited, song);
      } else {
        n, rest := NamesAreSound(lib, dir, list[1..], first.visited, song);
      }
    }
  }

  /** A directory newly visited is itself visible from where the walk began. */
  lemma {:induction false} NewlyVisited(lib: Library, path: Path, visited: set<Path>, id: Path)
    returns (names: seq<string>)
    requires id in Walk(lib, path, visited).visited - visited
    ensures Visible(lib, path, names) && IsDirectory(lib, path + names) && DirectoryId(lib, path + names) == id
    decreases DirectoryIds(lib) - visited, 0
  {
    var own := DirectoryId(lib, path);
    assert own in DirectoryIds(lib);
    assert path + [] == path;
    if id == own {
      names := [];
    } else {
      var n, rest := NewlyVisitedByNames(lib, path, Sort(lib.entries[path].listing.names), visited + {own}, id);
      assert n in multiset(lib.entries[path].listing.names);
      names := [n] + rest;
      Extend(path, n, rest);
    }
  }

  lemma {:induction false} NewlyVisitedByNames(lib: Library, dir: Path, list: seq<string>, visited: set<Path>, id: Path)
    returns (n: string, rest: seq<string>)
    requires id in WalkNames(lib, dir, list, visited).visited - visited
    ensures n in list && !Hidden(n) && Visible(lib, dir + [n], rest)
    ensures IsDirectory(lib, dir + [n] + rest) && DirectoryId(lib, dir + [n] + rest) == id
    decreases DirectoryIds(lib) - visited, |list|
  {
    if Hidden(list[0]) {
      n, rest := NewlyVisitedByNames(lib, dir, list[1..], visited, id);
    } else {
      var first := Walk(lib, dir + [list[0]], visited);
      if id in first.visited {
        n := list[0];
        rest := NewlyVisited(lib, dir + [n], visited, id);
      } else {
        n, rest := NewlyVisitedByNames(lib, dir, list[1..], first.visited, id);
      }
    }
  }

  // ---------------------------------------------------------------------------
  // Everything visible is met
  // ---------------------------------------------------------------------------

  /** Some directory on the way from `path` down `names` has already been visited. */
  ghost predicate Blocked(lib: Library, path: Path, names: seq<string>, visited: set<Path>)
    decreases |names|
  {
    || (IsDirectory(lib, path) && DirectoryId(lib, path) in visited)
    || (names != [] && Blocked(lib, path + [names[0]], names[1..], visited))
  }

  lemma {:induction false} BlockedBy(lib: Library, path: Path, names: seq<string>, visited: set<Path>, more: set<Path>)
    returns (q: Path)
    requires Blocked(lib, path, names, more) && !Blocked(lib, path, names, visited)
    ensures path <= q && IsDirectory(lib, q) && DirectoryId(lib, q) in more - visited
    decreases |names|
  {
    if IsDirectory(lib, path) && DirectoryId(lib, path) in more {
      q := path;
    } else {
      q := BlockedBy(lib, path + [names[0]], names[1..], visited, more);
    }
  }

  lemma SiblingsDiffer(dir: Path, a: string, b: string, q: Path, below: seq<string>)
    requires a != b && dir + [a] <= q
    ensures q != dir + [b] + below
  {
    assert q[|dir|] == a;
    assert (dir + [b] + below)[|dir|] == b;
  }

  lemma {:induction false} WalkIsComplete(lib: Library, path: Path, visited: set<Path>, names: seq<string>)
    requires RealTree(lib) && Visible(lib, path, names) && IsSong(lib, path + names)
    ensures Song(path + names) in Walk(lib, path, visited).events || Blocked(lib, path, names, visited)
    decreases DirectoryIds(lib) - visited, 0
  {
    if names == [] {
      assert path + names == path;
    } else {
      var id := DirectoryId(lib, path);
      assert id in DirectoryIds(lib);
      if id !in visited {
        Descend(path, names);
        assert names[0] in multiset(lib.entries[path].listing.names);
        NamesAreComplete(lib, path, Sort(lib.entries[path].listing.names), visited + {id}, names[0], names[1..]);
        if Blocked(lib, path + [names[0]], names[1..], visited + {id})
           && !Blocked(lib, path + [names[0]], names[1..], visited) {
          var q := BlockedBy(lib, path + [names[0]], names[1..], visited, visited + {id});
        }
      }
    }
  }

  lemma {:induction false} NamesAreComplete(lib: Library, dir: Path, list: seq<string>, visited: set<Path>,
                                            n: string, rest: seq<string>)
    requires RealTree(lib) && n in list && !Hidden(n)
    requires Visible(lib, dir + [n], rest) && IsSong(lib, dir + [n] + rest)
    ensures Song(dir + [n] + rest) in WalkNames(lib, dir, list, visited).events
            || Blocked(lib, dir + [n], rest, visited)
    decreases DirectoryIds(lib) - visited, |list|
  {
    if list[0] == n {
      WalkIsComplete(lib, dir + [n], visited, rest);
    } else if Hidden(list[0]) {
      NamesAreComplete(lib, dir, list[1..], visited, n, rest);
    } else {
      var first := Walk(lib, dir + [list[0]], visited);
      NamesAreComplete(lib, dir, list[1..], first.visited, n, rest);
      if Blocked(lib, dir + [n], rest, first.visited) && !Blocked(lib, dir + [n], rest, visited) {
        var q := BlockedBy(lib, dir + [n], rest, visited, first.visited);
        var below := NewlyVisited(lib, dir + [list[0]], visited, DirectoryId(lib, q));
        SiblingsDiffer(dir, n, list[0], q, below);
      }
    }
  }

  // ---------------------------------------------------------------------------
  // Several roots
  // ---------------------------------------------------------------------------

  lemma {:induction false} VisibleThrough(lib: Library, path: Path, a: seq<string>, b: seq<string>)
    requires Visible(lib, path, a) && Visible(lib, path + a, b)
    ensures Visible(lib, path, a + b)
    decreases |a|
  {
    if a == [] {
      assert path + a == path && a + b == b;
    } else {
      Descend(path, a);
      DescendOn(a, b);
      VisibleThrough(lib, path + [a[0]], a[1..], b);
    }
  }

  lemma DescendOn(a: seq<string>, b: seq<string>)
    requires a != []
    ensures (a + b)[0] == a[0] && (a + b)[1..] == a[1..] + b
  {
  }

  lemma PathAssociates(path: Path, a: seq<string>, b: seq<string>)
    ensures path + (a + b) == path + a + b
  {
  }

  lemma {:induction false} BlockedAt(lib: Library, path: Path, names: seq<string>, visited: set<Path>)
    returns (d: Path, below: seq<string>)
    requires Blocked(lib, path, names, visited) && Visible(lib, path, names)
    ensures IsDirectory(lib, d) && DirectoryId(lib, d) in visited && Visible(lib, d, below)
    ensures d + below == path + names
    decreases |names|
  {
    if IsDirectory(lib, path) && DirectoryId(lib, path) in visited {
      d, below := path, names;
    } else {
      Descend(path, names);
      d, below := BlockedAt(lib, path + [names[0]], names[1..], visited);
    }
  }

  /** Every song visible from a visited directory is already in the list. */
  ghost predicate Settled(lib: Library, visited: set<Path>, events: seq<Event>) {
    forall d, names ::
      IsDirectory(lib, d) && DirectoryId(lib, d) in visited && Visible(lib, d, names) && IsSong(lib, d + names)
      ==> Song(d + names) in events
  }

  lemma RootIsMet(lib: Library, root: Path, visited: set<Path>, before: seq<Event>, names: seq<string>)
    requires RealTree(lib) && Settled(lib, visited, before)
    requires Visible(lib, root, names) && IsSong(lib, root + names)
    ensures Song(root + names) in before + Walk(lib, root, visited).events
  {
    WalkIsComplete(lib, root, visited, names);
    if Blocked(lib, root, names, visited) {
      var d, below := BlockedAt(lib, root, names, visited);
    }
  }

  lemma WalkSettles(lib: Library, root: Path, visited: set<Path>, before: seq<Event>)
    requires RealTree(lib) && Settled(lib, visited, before)
    ensures var w := Walk(lib, root, visited); Settled(lib, w.visited, before + w.events)
  {
    var w := Walk(lib, root, visited);
    forall d, names | IsDirectory(lib, d) && DirectoryId(lib, d) in w.visited && Visible(lib, d, names)
                      && IsSong(lib, d + names)
      ensures Song(d + names) in before + w.events
    {
      if DirectoryId(lib, d) !in visited {
        var up := NewlyVisited(lib, root, visited, DirectoryId(lib, d));
        VisibleThrough(lib, root, up, names);
        PathAssociates(root, up, names);
        RootIsMet(lib, root, visited, before, up + names);
      }
    }
  }

  lemma {:induction false} RootsAreMet(lib: Library, roots: seq<Path>, visited: set<Path>, before: seq<Event>,
                                       root: Path, names: seq<string>)
    requires RealTree(lib) && Settled(lib, visited, before)
    requires root in roots && Visible(lib, root, names) && IsSong(lib, root + names)
    ensures Song(root + names) in before + WalkRoots(lib, roots, visited).events
  {
    var first := Walk(lib, roots[0], visited);
    if root == roots[0] {
      RootIsMet(lib, root, visited, before, names);
    } else {
      WalkSettles(lib, roots[0], visited, before);
      RootsAreMet(lib, roots[1..], first.visited, before + first.events, root, names);
    }
  }

  /** A song file reached from a root through real, readable directories and names that are not hidden. */
  ghost predicate InLibrary(lib: Library, roots: seq<Path>, song: Path) {
    IsSong(lib, song) && exists root, names :: root in roots && root + names == song && Visible(lib, root, names)
  }

  lemma {:induction false} RootsAreSound(lib: Library, roots: seq<Path>, visited: set<Path>, song: Path)
    requires Song(song) in WalkRoots(lib, roots, visited).events
    ensures InLibrary(lib, roots, song)
  {
    var first := Walk(lib, roots[0], visited);
    if Song(song) in first.events {
      var names := WalkIsSound(lib, roots[0], visited, song);
      assert roots[0] in roots && roots[0] + names == song;
    } else {
      RootsAreSound(lib, roots[1..], first.visited, song);
    }
  }

  /** The search meets exactly the songs of the library, even where roots overlap. */
  lemma MeetsExactlyTheLibrary(lib: Library, roots: seq<Path>, song: Path)
    requires RealTree(lib)
    ensures Song(song) in WalkRoots(lib, roots, {}).events <==> InLibrary(lib, roots, song)
  {
    if Song(song) in WalkRoots(lib, roots, {}).events {
      RootsAreSound(lib, roots, {}, song);
    }
    if InLibrary(lib, roots, song) {
      var root, names :| root in roots && root + names == song && Visible(lib, root, names);
      RootsAreMet(lib, roots, {}, [], root, names);
      assert [] + WalkRoots(lib, roots, {}).events == WalkRoots(lib, roots, {}).events;
    }
  }

  /** A search that finds nothing means that no song of the library matches. */
  lemma NothingFoundMeansNothingMatches(lib: Library, roots: seq<Path>, song: Path)
    requires RealTree(lib) && Search(lib, WalkRoots(lib, roots, {}).events, 0).0 == NoMatch
    requires InLibrary(lib, roots, song)
    ensures song !in lib.matching
  {
    MeetsExactlyTheLibrary(lib, roots, song);
    T.NoMatchIff(lib, WalkRoots(lib, roots, {}).events);
  }

  // ---------------------------------------------------------------------------
  // Depth-first, sorted order
  // ---------------------------------------------------------------------------

  /** Component by component, the order of a sorted depth-first walk. */
  ghost predicate PathLeq(a: Path, b: Path) {
    || a == []
    || (b != [] && (if a[0] == b[0] then PathLeq(a[1..], b[1..]) else Leq(a[0], b[0])))
  }

  /** One path begins the other, or the first component where they differ decides, by first difference. */
  ghost predicate PathPrecedes(a: Path, b: Path) {
    a <= b || exists c: nat :: c < |a| && c < |b| && a[..c] == b[..c] && a[c] != b[c] && Precedes(a[c], b[c])
  }

  lemma PathPrecedesRest(a: Path, b: Path)
    requires a != [] && b != [] && a[0] == b[0] && PathPrecedes(a[1..], b[1..])
    ensures PathPrecedes(a, b)
  {
    assert a == [a[0]] + a[1..] && b == [b[0]] + b[1..];
    if c: nat :| c < |a[1..]| && c < |b[1..]| && a[1..][..c] == b[1..][..c] && a[1..][c] != b[1..][c]
                 && Precedes(a[1..][c], b[1..][c]) {
      assert a[..c + 1] == [a[0]] + a[1..][..c] && b[..c + 1] == [b[0]] + b[1..][..c];
    }
  }

  lemma {:induction false} PathLeqPrecedes(a: Path, b: Path)
    requires PathLeq(a, b)
    ensures PathPrecedes(a, b)
  {
    if a != [] {
      if a[0] == b[0] {
        PathLeqPrecedes(a[1..], b[1..]);
        PathPrecedesRest(a, b);
      } else {
        LeqIff(a[0], b[0]);
        assert a[..0] == b[..0];
      }
    }
  }

  lemma {:induction false} PathLeqSplit(dir: Path, m: string, n: string, a: Path, b: Path)
    requires dir + [m] <= a && dir + [n] <= b && m != n && Leq(m, n)
    ensures PathLeq(a, b)
  {
    if dir != [] {
      assert (dir + [m])[1..] == dir[1..] + [m] && (dir + [n])[1..] == dir[1..] + [n];
      PathLeqSplit(dir[1..], m, n, a[1..], b[1..]);
    } else {
      assert a[0] == m && b[0] == n;
    }
  }

  /** Songs come in path order. */
  ghost predicate InOrder(events: seq<Event>) {
    events == []
    || (InOrder(events[1..])
        && (events[0].Song? ==> forall e :: e in events[1..] && e.Song? ==> PathLeq(events[0].path, e.path)))
  }

  lemma {:induction false} InOrderAppend(a: seq<Event>, b: seq<Event>)
    requires InOrder(a) && InOrder(b)
    requires forall x, y :: x in a && y in b && x.Song? && y.Song? ==> PathLeq(x.path, y.path)
    ensures InOrder(a + b)
  {
    if a == [] {
      assert a + b == b;
    } else {
      assert (a + b)[1..] == a[1..] + b;
      assert a[0] in a;
      InOrderAppend(a[1..], b);
    }
  }

  lemma {:induction false} WalkKeepsOrder(lib: Library, path: Path, visited: set<Path>)
    requires RealTree(lib)
    ensures InOrder(Walk(lib, path, visited).events)
    decreases DirectoryIds(lib) - visited, 0
  {
    if IsDirectory(lib, path) && lib.entries[path].listing.Names? {
      var id := DirectoryId(lib, path);
      assert id in DirectoryIds(lib);
      if id !in visited {
        var names := Sort(lib.entries[path].listing.names);
        SortIsStrict(lib.entries[path].listing.names);
        NamesAreInOrder(lib, path, names, visited + {id});
        var below := WalkNames(lib, path, names, visited + {id});
        assert ([Entered(id)] + below.events)[1..] == below.events;
      }
    }
  }

  lemma {:induction false} NamesAreInOrder(lib: Library, dir: Path, list: seq<string>, visited: set<Path>)
    requires RealTree(lib) && StrictlySorted(list)
    ensures InOrder(WalkNames(lib, dir, list, visited).events)
    decreases DirectoryIds(lib) - visited, |list|
  {
    if list != [] {
      if Hidden(list[0]) {
        NamesAreInOrder(lib, dir, list[1..], visited);
      } else {
        var first := Walk(lib, dir + [list[0]], visited);
        var rest := WalkNames(lib, dir, list[1..], first.visited);
        WalkKeepsOrder(lib, dir + [list[0]], visited);
        NamesAreInOrder(lib, dir, list[1..], first.visited);
        forall x, y | x in first.events && y in rest.events && x.Song? && y.Song? ensures PathLeq(x.path, y.path) {
          SiblingSongsInOrder(lib, dir, list, visited, x.path, y.path);
        }
        InOrderAppend(first.events, rest.events);
      }
    }
  }

  lemma SiblingSongsInOrder(lib: Library, dir: Path, list: seq<string>, visited: set<Path>, x: Path, y: Path)
    requires StrictlySorted(list) && list != []
    requires Song(x) in Walk(lib, dir + [list[0]], visited).events
    requires Song(y) in WalkNames(lib, dir, list[1..], Walk(lib, dir + [list[0]], visited).visited).events
    ensures PathLeq(x, y)
  {
    var below := WalkIsSound(lib, dir + [list[0]], visited, x);
    var n, rest := NamesAreSound(lib, dir, list[1..], Walk(lib, dir + [list[0]], visited).visited, y);
    StrictIsSorted(list);
    HeadIsLeast(list, n);
    PathLeqSplit(dir, list[0], n, x, y);
  }

  lemma {:induction false} LaterIsGreater(events: seq<Event>, i: nat, j: nat)
    requires InOrder(events) && i < j < |events| && events[i].Song? && events[j].Song?
    ensures PathLeq(events[i].path, events[j].path)
  {
    if i == 0 {
      assert events[j] == events[1..][j - 1];
    } else {
      LaterIsGreater(events[1..], i - 1, j - 1);
    }
  }

  /** Songs are met component by component in the order of the first difference. */
  lemma WalkIsInOrder(lib: Library, path: Path, visited: set<Path>, i: nat, j: nat)
    requires RealTree(lib) && i < j < |Walk(lib, path, visited).events|
    requires Walk(lib, path, visited).events[i].Song? && Walk(lib, path, visited).events[j].Song?
    ensures PathPrecedes(Walk(lib, path, visited).events[i].path, Walk(lib, path, visited).events[j].path)
  {
    var events := Walk(lib, path, visited).events;
    WalkKeepsOrder(lib, path, visited);
    LaterIsGreater(events, i, j);
    PathLeqPrecedes(events[i].path, events[j].path);
  }

  /** Where a search from any count finds something. */
  lemma FoundWhere(lib: Library, events: seq<Event>, examined: nat, found: Path) returns (i: nat)
    requires examined <= MAX_MPD_ALBUM_SCAN_CANDIDATES && Search(lib, events, examined).0 == Found(found)
    ensures i < |events| && events[i] == Song(found) && found in lib.matching && T.Undecided(lib, events[..i])
  {
    i := T.SearchStops(lib, events, examined);
    T.SearchAnswersItsStop(lib, events, examined, i);
  }

  /** In one ordered list, what is found stands before every other match. */
  lemma FoundComesFirst(lib: Library, events: seq<Event>, examined: nat, found: Path, other: Path)
    requires examined <= MAX_MPD_ALBUM_SCAN_CANDIDATES && Search(lib, events, examined).0 == Found(found)
    requires InOrder(events) && Song(other) in events && other in lib.matching
    ensures Song(found) in events && found in lib.matching && PathPrecedes(found, other)
  {
    var i := FoundWhere(lib, events, examined, found);
    var j :| 0 <= j < |events| && events[j] == Song(other);
    InPrefix(events, i, j);
    if i < j {
      LaterIsGreater(events, i, j);
      PathLeqPrecedes(found, other);
    }
  }

  /** With one root, the path found is the least matching song of the whole library, in path order. */
  lemma FoundIsLeast(lib: Library, root: Path, found: Path, other: Path)
    requires RealTree(lib) && Search(lib, WalkRoots(lib, [root], {}).events, 0).0 == Found(found)
    requires InLibrary(lib, [root], other) && other in lib.matching
    ensures InLibrary(lib, [root], found) && found in lib.matching
    ensures PathPrecedes(found, other)
  {
    OneRoot(lib, root);
    MeetsExactlyTheLibrary(lib, [root], other);
    FoundComesFirst(lib, WalkRoots(lib, [root], {}).events, 0, found, other);
    MeetsExactlyTheLibrary(lib, [root], found);
  }

  lemma InPrefix(events: seq<Event>, i: nat, j: nat)
    requires i <= |events| && j < |events|
    ensures j < i ==> events[j] in events[..i]
  {
    if j < i { assert events[..i][j] == events[j]; }
  }

  lemma OneRoot(lib: Library, root: Path)
    requires RealTree(lib)
    ensures InOrder(WalkRoots(lib, [root], {}).events)
  {
    WalkKeepsOrder(lib, root, {});
    var first := Walk(lib, root, {});
    assert first.events + [] == first.events;
  }
}
