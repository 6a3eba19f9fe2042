/** What the bounded search answers, in terms of the library alone. */
module LibraryScanTheorems {
  import opened SortedText
  import opened LibraryScan

  // ---------------------------------------------------------------------------
  // Where a search stops
  // ---------------------------------------------------------------------------

  ghost function Songs(events: seq<Event>): nat {
    if events == [] then 0 else (if events[0].Song? then 1 else 0) + Songs(events[1..])
  }

  /** Nothing here decides the search: no match, no unreadable directory. */
  ghost predicate Undecided(lib: Library, events: seq<Event>) {
    forall e :: e in events ==> !e.ReadFailed? && (e.Song? ==> e.path !in lib.matching)
  }

  lemma {:induction false} SearchPastUndecided(lib: Library, events: seq<Event>, examined: nat)
    requires Undecided(lib, events) && examined + Songs(events) <= MAX_MPD_ALBUM_SCAN_CANDIDATES
    ensures Search(lib, events, examined) == (NoMatch, examined + Songs(events))
  {
    if events != [] {
      assert events[0] in events;
      SearchPastUndecided(lib, events[1..], examined + if events[0].Song? then 1 else 0);
    }
  }

  /** `i` is where the search of the list stops: its end, or the first event that decides it. */
  ghost predicate StopsAt(lib: Library, events: seq<Event>, examined: nat, i: nat) {
    && i <= |events|
    && Undecided(lib, events[..i]) && examined + Songs(events[..i]) <= MAX_MPD_ALBUM_SCAN_CANDIDATES
    && (i < |events| ==> match events[i]
                         case Entered(_) => false
                         case ReadFailed(_) => true
                         case Song(path) => path in lib.matching
                                            || examined + Songs(events[..i]) == MAX_MPD_ALBUM_SCAN_CANDIDATES)
  }

  /** What a stop means. The cap is spent before the match is looked at. */
  ghost function Verdict(lib: Library, events: seq<Event>, examined: nat, i: nat): Outcome
    requires StopsAt(lib, events, examined, i)
  {
    if i == |events| then NoMatch
    else if events[i].ReadFailed? then Io(events[i].dir)
    else if examined + Songs(events[..i]) == MAX_MPD_ALBUM_SCAN_CANDIDATES then LimitExceeded
    else Found(events[i].path)
  }

  lemma {:induction false} SearchStops(lib: Library, events: seq<Event>, examined: nat) returns (i: nat)
    requires examined <= MAX_MPD_ALBUM_SCAN_CANDIDATES
    ensures StopsAt(lib, events, examined, i)
  {
    i := 0;
    if events != [] {
      var e := events[0];
      var charged := examined + if e.Song? then 1 else 0;
      if e.Entered? || (e.Song? && e.path !in lib.matching && charged <= MAX_MPD_ALBUM_SCAN_CANDIDATES) {
        var j := SearchStops(lib, events[1..], charged);
        i := j + 1;
        assert events[..i] == [e] + events[1..][..j];
        assert events[..i][1..] == events[1..][..j];
        assert Songs(events[..i]) == (if e.Song? then 1 else 0) + Songs(events[1..][..j]);
      }
    }
  }

  /**
   * The search answers what its stop means, so it finds exactly the first match within the cap,
   * reports the limit exactly when the cap is spent and more files follow, and otherwise nothing.
   */
  lemma SearchAnswersItsStop(lib: Library, events: seq<Event>, examined: nat, i: nat)
    requires StopsAt(lib, events, examined, i)
    ensures Search(lib, events, examined).0 == Verdict(lib, events, examined, i)
  {
    SearchPastUndecided(lib, events[..i], examined);
    SearchAppend(lib, events[..i], events[i..], examined);
    assert events == events[..i] + events[i..];
  }

  /** The counter never passes the cap. */
  lemma {:induction false} CounterIsBounded(lib: Library, events: seq<Event>, examined: nat)
    requires examined <= MAX_MPD_ALBUM_SCAN_CANDIDATES
    ensures examined <= Search(lib, events, examined).1 <= MAX_MPD_ALBUM_SCAN_CANDIDATES
  {
    if events != [] {
      match events[0]
      case Entered(_) => CounterIsBounded(lib, events[1..], examined);
      case ReadFailed(_) =>
      case Song(path) =>
        if examined < MAX_MPD_ALBUM_SCAN_CANDIDATES { CounterIsBounded(lib, events[1..], examined + 1); }
    }
  }

  /** The limit is reported exactly when the first hundred thousand files settle nothing and one more follows. */
  lemma LimitIff(lib: Library, events: seq<Event>)
    ensures Search(lib, events, 0).0 == LimitExceeded
            <==> exists i: nat :: i < |events| && events[i].Song? && Undecided(lib, events[..i])
                                  && Songs(events[..i]) == 100_000
  {
    var i := SearchStops(lib, events, 0);
    SearchAnswersItsStop(lib, events, 0, i);
    if j: nat :| j < |events| && events[j].Song? && Undecided(lib, events[..j])
                 && Songs(events[..j]) == 100_000 {
      assert StopsAt(lib, events, 0, j);
      SearchAnswersItsStop(lib, events, 0, j);
    }
  }

  /** A path is answered exactly when it matches, within the cap, and nothing before it settles the search. */
  lemma FoundIff(lib: Library, events: seq<Event>, path: Path)
    ensures Search(lib, events, 0).0 == Found(path)
            <==> path in lib.matching
                 && exists i: nat :: i < |events| && events[i] == Song(path) && Undecided(lib, events[..i])
                                     && Songs(events[..i]) < 100_000
  {
    var i := SearchStops(lib, events, 0);
    SearchAnswersItsStop(lib, events, 0, i);
    if j: nat :| path in lib.matching && j < |events| && events[j] == Song(path) && Undecided(lib, events[..j])
                 && Songs(events[..j]) < 100_000 {
      assert StopsAt(lib, events, 0, j);
      SearchAnswersItsStop(lib, events, 0, j);
    }
  }

  /** Nothing is answered exactly when no file matches, every directory is readable, and all fit the cap. */
  lemma NoMatchIff(lib: Library, events: seq<Event>)
    ensures Search(lib, events, 0).0 == NoMatch
            <==> Undecided(lib, events) && Songs(events) <= 100_000
  {
    var i := SearchStops(lib, events, 0);
    SearchAnswersItsStop(lib, events, 0, i);
    assert events[..|events|] == events;
    if Undecided(lib, events) && Songs(events) <= 100_000 {
      assert StopsAt(lib, events, 0, |events|);
      SearchAnswersItsStop(lib, events, 0, |events|);
    }
  }

  // ---------------------------------------------------------------------------
  // The visited set
  // ---------------------------------------------------------------------------

  /** No directory is entered twice, none of `visited` is entered, and `after` adds just the ones entered. */
  ghost predicate EnteredOnce(events: seq<Event>, visited: set<Path>, after: set<Path>) {
    if events == [] then after == visited
    else if events[0].Entered? then
      events[0].id !in visited && EnteredOnce(events[1..], visited + {events[0].id}, after)
    else EnteredOnce(events[1..], visited, after)
  }

  lemma {:induction false} EnteredOnceAppend(a: seq<Event>, b: seq<Event>, v0: set<Path>, v1: set<Path>, v2: set<Path>)
    requires EnteredOnce(a, v0, v1) && EnteredOnce(b, v1, v2)
    ensures EnteredOnce(a + b, v0, v2)
  {
    if a == [] {
      assert a + b == b;
    } else {
      assert (a + b)[1..] == a[1..] + b;
      EnteredOnceAppend(a[1..], b, if a[0].Entered? then v0 + {a[0].id} else v0, v1, v2);
    }
  }

  lemma {:induction false} WalkEntersOnce(lib: Library, path: Path, visited: set<Path>)
    ensures var w := Walk(lib, path, visited); EnteredOnce(w.events, visited, w.visited)
    decreases DirectoryIds(lib) - visited, 0
  {
    if path in lib.entries && lib.entries[path].Directory? {
      var id := DirectoryId(lib, path);
      assert id in DirectoryIds(lib);
      if id !in visited && lib.entries[path].listing.Names? {
        var names := Sort(lib.entries[path].listing.names);
        NamesEnterOnce(lib, path, names, visited + {id});
        var below := WalkNames(lib, path, names, visited + {id});
        assert ([Entered(id)] + below.events)[1..] == below.events;
      }
    }
  }

  lemma {:induction false} NamesEnterOnce(lib: Library, dir: Path, names: seq<string>, visited: set<Path>)
    ensures var w := WalkNames(lib, dir, names, visited); EnteredOnce(w.events, visited, w.visited)
    decreases DirectoryIds(lib) - visited, |names|
  {
    if names != [] {
      if Hidden(names[0]) {
        NamesEnterOnce(lib, dir, names[1..], visited);
      } else {
        var first := Walk(lib, dir + [names[0]], visited);
        WalkEntersOnce(lib, dir + [names[0]], visited);
        NamesEnterOnce(lib, dir, names[1..], first.visited);
        var rest := WalkNames(lib, dir, names[1..], first.visited);
        EnteredOnceAppend(first.events, rest.events, visited, first.visited, rest.visited);
      }
    }
  }

  /** In one search no directory is entered twice, however the library roots overlap. */
  lemma {:induction false} NoDirectoryIsEnteredTwice(lib: Library, roots: seq<Path>, visited: set<Path>)
    ensures var w := WalkRoots(lib, roots, visited); EnteredOnce(w.events, visited, w.visited)
  {
    if roots != [] {
      var first := Walk(lib, roots[0], visited);
      WalkEntersOnce(lib, roots[0], visited);
      NoDirectoryIsEnteredTwice(lib, roots[1..], first.visited);
      var rest := WalkRoots(lib, roots[1..], first.visited);
      EnteredOnceAppend(first.events, rest.events, visited, first.visited, rest.visited);
    }
  }

  /** Two paths of one canonical directory are entered once: behind the one, nothing is met at the other. */
  lemma OneDirectoryTwoPaths(lib: Library, p: Path, q: Path, visited: set<Path>)
    requires p in lib.entries && lib.entries[p].Directory? && q in lib.entries && lib.entries[q].Directory?
    requires p in lib.canonical && q in lib.canonical && lib.canonical[p] == lib.canonical[q]
    ensures Walk(lib, q, Walk(lib, p, visited).visited).events == []
  {
  }

  // ---------------------------------------------------------------------------
  // Listing order
  // ---------------------------------------------------------------------------

  ghost predicate SameEntry(a: Entry, b: Entry) {
    a == b || (a.Directory? && b.Directory? && a.listing.Names? && b.listing.Names?
               && multiset(a.listing.names) == multiset(b.listing.names))
  }

  /** The same library read with its directories listed in other orders. */
  ghost predicate SameButOrder(a: Library, b: Library) {
    && a.canonical == b.canonical && a.audio == b.audio && a.matching == b.matching
    && a.entries.Keys == b.entries.Keys
    && forall p :: p in a.entries ==> SameEntry(a.entries[p], b.entries[p])
  }

  lemma SameIds(a: Library, b: Library)
    requires SameButOrder(a, b)
    ensures DirectoryIds(a) == DirectoryIds(b)
    ensures forall p :: DirectoryId(a, p) == DirectoryId(b, p)
  {
  }

  lemma SameListing(a: Library, b: Library, path: Path)
    requires SameButOrder(a, b) && path in a.entries
    ensures path in b.entries
    ensures var x, y := a.entries[path], b.entries[path];
            x == y || (x.Directory? && y.Directory? && x.listing.Names? && y.listing.Names?
                       && Sort(x.listing.names) == Sort(y.listing.names))
  {
    assert SameEntry(a.entries[path], b.entries[path]);
    if a.entries[path] != b.entries[path] {
      SortForgetsOrder(a.entries[path].listing.names, b.entries[path].listing.names);
    }
  }

  /** The order in which directories list their names never changes what is met. */
  lemma {:induction false} ListingOrderIsIrrelevant(a: Library, b: Library, path: Path, visited: set<Path>)
    requires SameButOrder(a, b)
    ensures Walk(a, path, visited) == Walk(b, path, visited)
    decreases DirectoryIds(a) - visited, 0
  {
    SameIds(a, b);
    if path in a.entries {
      SameListing(a, b, path);
      if a.entries[path].Directory? && a.entries[path].listing.Names? {
        var id := DirectoryId(a, path);
        assert id in DirectoryIds(a);
        if id !in visited {
          NamesOrderIsIrrelevant(a, b, path, Sort(a.entries[path].listing.names), visited + {id});
        }
      }
    }
  }

  lemma {:induction false} NamesOrderIsIrrelevant(a: Library, b: Library, dir: Path, names: seq<string>,
                                                  visited: set<Path>)
    requires SameButOrder(a, b)
    ensures WalkNames(a, dir, names, visited) == WalkNames(b, dir, names, visited)
    decreases DirectoryIds(a) - visited, |names|
  {
    if names != [] {
      if Hidden(names[0]) {
        NamesOrderIsIrrelevant(a, b, dir, names[1..], visited);
      } else {
        ListingOrderIsIrrelevant(a, b, dir + [names[0]], visited);
        NamesOrderIsIrrelevant(a, b, dir, names[1..], Walk(a, dir + [names[0]], visited).visited);
      }
    }
  }
}
