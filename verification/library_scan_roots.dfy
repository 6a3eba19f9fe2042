/** How often a song is met, and which match is found, when the search has several roots. */
module LibraryScanRoots {
  import opened SortedText
  import opened LibraryScan
  import opened LibraryScanOrder
  import T = LibraryScanTheorems

  // ---------------------------------------------------------------------------
  // How often a song is met
  // ---------------------------------------------------------------------------

  ghost function Meetings(events: seq<Event>, song: Path): nat {
    if events == [] then 0 else (if events[0] == Song(song) then 1 else 0) + Meetings(events[1..], song)
  }

  lemma {:induction false} MeetingsAppend(a: seq<Event>, b: seq<Event>, song: Path)
    ensures Meetings(a + b, song) == Meetings(a, song) + Meetings(b, song)
  {
    if a == [] {
      assert a + b == b;
    } else {
      assert (a + b)[1..] == a[1..] + b;
      MeetingsAppend(a[1..], b, song);
    }
  }

  lemma MeetingsOfOne(e: Event, song: Path)
    ensures Meetings([e], song) == if e == Song(song) then 1 else 0
  {
    assert [e][1..] == [];
  }

  lemma {:induction false} MetIff(events: seq<Event>, song: Path)
    ensures Meetings(events, song) > 0 <==> Song(song) in events
  {
    if events != [] { MetIff(events[1..], song); }
  }

  /** The directory a song is in has just been entered. */
  ghost predicate ParentEntered(lib: Library, song: Path, before: set<Path>, after: set<Path>) {
    && song != [] && IsDirectory(lib, song[..|song| - 1])
    && DirectoryId(lib, song[..|song| - 1]) in after - before
  }

  lemma {:induction false} MeetingEntersParent(lib: Library, path: Path, visited: set<Path>, song: Path)
    requires Song(song) in Walk(lib, path, visited).events && song != path
    ensures ParentEntered(lib, song, visited, Walk(lib, path, visited).visited)
    decreases DirectoryIds(lib) - visited, 0
  {
    var id := DirectoryId(lib, path);
    assert id in DirectoryIds(lib);
    NamesEnterParent(lib, path, Sort(lib.entries[path].listing.names), visited + {id}, song);
  }

  lemma {:induction false} NamesEnterParent(lib: Library, dir: Path, list: seq<string>, visited: set<Path>, song: Path)
    requires IsDirectory(lib, dir) && Song(song) in WalkNames(lib, dir, list, visited).events
    ensures (song != [] && song[..|song| - 1] == dir)
            || ParentEntered(lib, song, visited, WalkNames(lib, dir, list, visited).visited)
    decreases DirectoryIds(lib) - visited, |list|
  {
    if Hidden(list[0]) {
      NamesEnterParent(lib, dir, list[1..], visited, song);
    } else {
      var first := Walk(lib, dir + [list[0]], visited);
      if Song(song) in first.events {
        if song != dir + [list[0]] { MeetingEntersParent(lib, dir + [list[0]], visited, song); }
      } else {
        NamesEnterParent(lib, dir, list[1..], first.visited, song);
      }
    }
  }

  lemma {:induction false} MetOnceBelow(lib: Library, path: Path, visited: set<Path>, song: Path)
    requires RealTree(lib)
    ensures Meetings(Walk(lib, path, visited).events, song) <= 1
    decreases DirectoryIds(lib) - visited, 0
  {
    var id := DirectoryId(lib, path);
    MeetingsOfOne(Song(path), song);
    MeetingsOfOne(Entered(id), song);
    MeetingsOfOne(ReadFailed(path), song);
    MeetingsAppend([Entered(id)], [ReadFailed(path)], song);
    if IsDirectory(lib, path) && lib.entries[path].listing.Names? {
      assert id in DirectoryIds(lib);
      if id !in visited {
        var names := Sort(lib.entries[path].listing.names);
        SortIsStrict(lib.entries[path].listing.names);
        MetOnceByNames(lib, path, names, visited + {id}, song);
        MeetingsAppend([Entered(id)], WalkNames(lib, path, names, visited + {id}).events, song);
      }
    }
  }

  lemma {:induction false} MetOnceByNames(lib: Library, dir: Path, list: seq<string>, visited: set<Path>, song: Path)
    requires RealTree(lib) && StrictlySorted(list)
    ensures Meetings(WalkNames(lib, dir, list, visited).events, song) <= 1
    decreases DirectoryIds(lib) - visited, |list|
  {
    if list != [] {
      if Hidden(list[0]) {
        MetOnceByNames(lib, dir, list[1..], visited, song);
      } else {
        var first := Walk(lib, dir + [list[0]], visited);
        var rest := WalkNames(lib, dir, list[1..], first.visited);
        MetOnceBelow(lib, dir + [list[0]], visited, song);
        MetOnceByNames(lib, dir, list[1..], first.visited, song);
        MeetingsAppend(first.events, rest.events, song);
        MetIff(first.events, song);
        MetIff(rest.events, song);
        if Song(song) in first.events { NotMetAgain(lib, dir, list, visited, song); }
      }
    }
  }

  lemma NotMetAgain(lib: Library, dir: Path, list: seq<string>, visited: set<Path>, song: Path)
    requires StrictlySorted(list) && list != []
    requires Song(song) in Walk(lib, dir + [list[0]], visited).events
    ensures Song(song) !in WalkNames(lib, dir, list[1..], Walk(lib, dir + [list[0]], visited).visited).events
  {
    var seen := Walk(lib, dir + [list[0]], visited).visited;
    var below := WalkIsSound(lib, dir + [list[0]], visited, song);
    if Song(song) in WalkNames(lib, dir, list[1..], seen).events {
      var n, rest := NamesAreSound(lib, dir, list[1..], seen, song);
      StrictIsSorted(list);
      SiblingsDiffer(dir, n, list[0], song, below);
    }
  }

  /** How many of the roots are the song itself. */
  function Times(roots: seq<Path>, song: Path): nat {
    if roots == [] then 0 else (if roots[0] == song then 1 else 0) + Times(roots[1..], song)
  }

  /** The roots that are not the song itself. */
  function Others(roots: seq<Path>, song: Path): (r: seq<Path>)
    ensures song !in r
  {
    if roots == [] then []
    else if roots[0] == song then Others(roots[1..], song)
    else [roots[0]] + Others(roots[1..], song)
  }

  /** A root that is the song meets it and enters nothing. */
  lemma {:induction false} FileRootsAside(lib: Library, roots: seq<Path>, visited: set<Path>, song: Path)
    requires IsSong(lib, song)
    ensures Meetings(WalkRoots(lib, roots, visited).events, song) ==
            Times(roots, song) + Meetings(WalkRoots(lib, Others(roots, song), visited).events, song)
  {
    if roots != [] {
      var first := Walk(lib, roots[0], visited);
      FileRootsAside(lib, roots[1..], first.visited, song);
      MeetingsAppend(first.events, WalkRoots(lib, roots[1..], first.visited).events, song);
      if roots[0] != song {
        var others := Others(roots[1..], song);
        assert Others(roots, song)[1..] == others;
        MeetingsAppend(first.events, WalkRoots(lib, others, first.visited).events, song);
      }
    }
  }

  /** Other roots meet the song at most once, and not at all once its directory has been entered. */
  lemma {:induction false} OtherRootsMeetOnce(lib: Library, roots: seq<Path>, visited: set<Path>, song: Path)
    requires RealTree(lib) && song !in roots
    ensures Meetings(WalkRoots(lib, roots, visited).events, song) <= 1
    ensures song != [] && DirectoryId(lib, song[..|song| - 1]) in visited ==>
            Meetings(WalkRoots(lib, roots, visited).events, song) == 0
  {
    if roots != [] {
      var first := Walk(lib, roots[0], visited);
      var rest := WalkRoots(lib, roots[1..], first.visited);
      OtherRootsMeetOnce(lib, roots[1..], first.visited, song);
      MetOnceBelow(lib, roots[0], visited, song);
      MeetingsAppend(first.events, rest.events, song);
      MetIff(first.events, song);
      if Song(song) in first.events { MeetingEntersParent(lib, roots[0], visited, song); }
    }
  }

  /**
   A song is met once for every root that is the song itself, and once more if it is reached from
   some other root, however those overlap. Every meeting is charged to the cap.
   */
  lemma SongIsMetTimes(lib: Library, roots: seq<Path>, song: Path)
    requires RealTree(lib) && IsSong(lib, song)
    ensures Meetings(WalkRoots(lib, roots, {}).events, song) ==
            Times(roots, song) + if InLibrary(lib, Others(roots, song), song) then 1 else 0
  {
    var others := Others(roots, song);
    FileRootsAside(lib, roots, {}, song);
    OtherRootsMeetOnce(lib, others, {}, song);
    MeetsExactlyTheLibrary(lib, others, song);
    MetIff(WalkRoots(lib, others, {}).events, song);
  }

  // ---------------------------------------------------------------------------
  // What is found with several roots
  // ---------------------------------------------------------------------------

  lemma EventsAssociate(a: seq<Event>, b: seq<Event>, c: seq<Event>)
    ensures (a + b) + c == a + (b + c)
  {
  }

  lemma {:induction false} WalkRootsAppend(lib: Library, a: seq<Path>, b: seq<Path>, visited: set<Path>)
    ensures var first := WalkRoots(lib, a, visited); var rest := WalkRoots(lib, b, first.visited);
            WalkRoots(lib, a + b, visited) == Walked(first.events + rest.events, rest.visited)
  {
    if a == [] {
      assert a + b == b;
    } else {
      assert (a + b)[1..] == a[1..] + b;
      var head := Walk(lib, a[0], visited);
      WalkRootsAppend(lib, a[1..], b, head.visited);
      var tail := WalkRoots(lib, a[1..], head.visited);
      EventsAssociate(head.events, tail.events, WalkRoots(lib, b, tail.visited).events);
    }
  }

  lemma {:induction false} RootsSettle(lib: Library, roots: seq<Path>, visited: set<Path>, before: seq<Event>)
    requires RealTree(lib) && Settled(lib, visited, before)
    ensures var w := WalkRoots(lib, roots, visited); Settled(lib, w.visited, before + w.events)
  {
    if roots == [] {
      assert before + [] == before;
    } else {
      var first := Walk(lib, roots[0], visited);
      WalkSettles(lib, roots[0], visited, before);
      RootsSettle(lib, roots[1..], first.visited, before + first.events);
      var rest := WalkRoots(lib, roots[1..], first.visited);
      assert (before + first.events) + rest.events == before + (first.events + rest.events);
    }
  }

  lemma NothingFoundUndecided(lib: Library, events: seq<Event>, examined: nat)
    requires examined <= MAX_MPD_ALBUM_SCAN_CANDIDATES && Search(lib, events, examined).0 == NoMatch
    ensures T.Undecided(lib, events)
  {
    var i := T.SearchStops(lib, events, examined);
    T.SearchAnswersItsStop(lib, events, examined, i);
    assert events[..|events|] == events;
  }

  /** No song reached from these roots matches. */
  ghost predicate NoneMatches(lib: Library, roots: seq<Path>) {
    forall song :: InLibrary(lib, roots, song) ==> song !in lib.matching
  }

  /** The search of the walk of one root behind others that hold no match. */
  lemma FoundInRoot(lib: Library, before: seq<Path>, root: Path, later: seq<Path>, found: Path, other: Path)
    returns (count: nat)
    requires RealTree(lib) && NoneMatches(lib, before)
    requires Search(lib, WalkRoots(lib, before + ([root] + later), {}).events, 0).0 == Found(found)
    requires Song(other) in Walk(lib, root, WalkRoots(lib, before, {}).visited).events && other in lib.matching
    ensures count <= MAX_MPD_ALBUM_SCAN_CANDIDATES
    ensures Search(lib, Walk(lib, root, WalkRoots(lib, before, {}).visited).events, count).0 == Found(found)
  {
    var earlier := WalkRoots(lib, before, {});
    var own := Walk(lib, root, earlier.visited);
    var rest := WalkRoots(lib, later, own.visited);
    WalkRootsAppend(lib, before, [root] + later, {});
    assert ([root] + later)[1..] == later;
    SearchAppend(lib, earlier.events, own.events + rest.events, 0);
    var (outcome, examined) := Search(lib, earlier.events, 0);
    T.CounterIsBounded(lib, earlier.events, 0);
    count := examined;
    if outcome.Found? {
      var i := FoundWhere(lib, earlier.events, 0, outcome.path);
      RootsAreSound(lib, before, {}, outcome.path);
    }
    SearchAppend(lib, own.events, rest.events, count);
    if Search(lib, own.events, count).0.NoMatch? { NothingFoundUndecided(lib, own.events, count); }
  }

  /** A match behind roots that hold none is met by its own root's walk. */
  lemma MatchIsMetByItsRoot(lib: Library, before: seq<Path>, root: Path, other: Path)
    requires RealTree(lib) && NoneMatches(lib, before)
    requires InLibrary(lib, [root], other) && other in lib.matching
    ensures Song(other) in Walk(lib, root, WalkRoots(lib, before, {}).visited).events
  {
    var earlier := WalkRoots(lib, before, {});
    RootsSettle(lib, before, {}, []);
    assert [] + earlier.events == earlier.events;
    var names :| root + names == other && Visible(lib, root, names);
    RootIsMet(lib, root, earlier.visited, earlier.events, names);
    if Song(other) in earlier.events { RootsAreSound(lib, before, {}, other); }
  }

  /**
   With several roots, what is found is the least match, in path order, of the first root from which
   a match can be reached.
   */
  lemma FoundIsLeastOfFirstRoot(lib: Library, before: seq<Path>, root: Path, later: seq<Path>, found: Path, other: Path)
    requires RealTree(lib) && NoneMatches(lib, before)
    requires Search(lib, WalkRoots(lib, before + ([root] + later), {}).events, 0).0 == Found(found)
    requires InLibrary(lib, [root], other) && other in lib.matching
    ensures InLibrary(lib, [root], found) && found in lib.matching
    ensures PathPrecedes(found, other)
  {
    var visited := WalkRoots(lib, before, {}).visited;
    MatchIsMetByItsRoot(lib, before, root, other);
    var count := FoundInRoot(lib, before, root, later, found, other);
    WalkKeepsOrder(lib, root, visited);
    FoundComesFirst(lib, Walk(lib, root, visited).events, count, found, other);
    var names := WalkIsSound(lib, root, visited, found);
    assert root in [root] && root + names == found;
  }
}
