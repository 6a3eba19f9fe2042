/**
 * The bounded search of the music library for the first matching file. The scan threads a shared
 * counter and a visited set through its recursion; the flat list of what it meets does not depend
 * on either the counter or the matches.
 */
module LibraryScan {
  import opened SortedText

  type Path = seq<string>

  datatype Listing = Names(names: seq<string>) | Unreadable

  datatype Entry = Symlink | File | Directory(listing: Listing) | Other

  /** A path with no entry cannot be examined; one with no canonical form stands for itself. */
  datatype Library = Library(entries: map<Path, Entry>, canonical: map<Path, Path>,
                             audio: set<Path>, matching: set<Path>)

  datatype Outcome = Found(path: Path) | NoMatch | LimitExceeded | Io(dir: Path)

  const MAX_MPD_ALBUM_SCAN_CANDIDATES: nat := 100_000

  function DirectoryId(lib: Library, path: Path): Path {
    if path in lib.canonical then lib.canonical[path] else path
  }

  ghost function DirectoryIds(lib: Library): set<Path> {
    set p | p in lib.entries :: DirectoryId(lib, p)
  }

  predicate Hidden(name: string) {
    name != "" && name[0] == '.'
  }

  predicate IsSong(lib: Library, path: Path) {
    path in lib.entries && lib.entries[path].File? && path in lib.audio
  }

  // ---------------------------------------------------------------------------
  // The flat list
  // ---------------------------------------------------------------------------

  datatype Event = Entered(id: Path) | ReadFailed(dir: Path) | Song(path: Path)

  datatype Walked = Walked(events: seq<Event>, visited: set<Path>)

  /** What is met at and below `path`, in order, whatever is looked for. */
  ghost function Walk(lib: Library, path: Path, visited: set<Path>): (w: Walked)
    ensures visited <= w.visited
    decreases DirectoryIds(lib) - visited, 0
  {
    if path !in lib.entries then Walked([], visited)
    else
      match lib.entries[path]
      case Symlink => Walked([], visited)
      case Other => Walked([], visited)
      case File => Walked(if path in lib.audio then [Song(path)] else [], visited)
      case Directory(listing) =>
        var id := DirectoryId(lib, path);
        if id in visited then Walked([], visited)
        else
          assert id in DirectoryIds(lib);
          match listing
          case Unreadable => Walked([Entered(id), ReadFailed(path)], visited + {id})
          case Names(names) =>
            var below := WalkNames(lib, path, Sort(names), visited + {id});
            Walked([Entered(id)] + below.events, below.visited)
  }

  ghost function WalkNames(lib: Library, dir: Path, names: seq<string>, visited: set<Path>): (w: Walked)
    ensures visited <= w.visited
    decreases DirectoryIds(lib) - visited, |names|
  {
    if names == [] then Walked([], visited)
    else if Hidden(names[0]) then WalkNames(lib, dir, names[1..], visited)
    else
      var first := Walk(lib, dir + [names[0]], visited);
      var rest := WalkNames(lib, dir, names[1..], first.visited);
      Walked(first.events + rest.events, rest.visited)
  }

  ghost function WalkRoots(lib: Library, roots: seq<Path>, visited: set<Path>): Walked {
    if roots == [] then Walked([], visited)
    else
      var first := Walk(lib, roots[0], visited);
      var rest := WalkRoots(lib, roots[1..], first.visited);
      Walked(first.events + rest.events, rest.visited)
  }

  /** Searching a flat list: what the search answers, and the files it has examined by then. */
  ghost function Search(lib: Library, events: seq<Event>, examined: nat): (Outcome, nat) {
    if events == [] then (NoMatch, examined)
    else
      match events[0]
      case Entered(_) => Search(lib, events[1..], examined)
      case ReadFailed(dir) => (Io(dir), examined)
      case Song(path) =>
        if examined >= MAX_MPD_ALBUM_SCAN_CANDIDATES then (LimitExceeded, examined)
        else if path in lib.matching then (Found(path), examined + 1)
        else Search(lib, events[1..], examined + 1)
  }

  lemma {:induction false} SearchAppend(lib: Library, a: seq<Event>, b: seq<Event>, examined: nat)
    ensures Search(lib, a + b, examined) ==
            var (outcome, count) := Search(lib, a, examined);
            if outcome.NoMatch? then Search(lib, b, count) else (outcome, count)
  {
    if a == [] {
      assert a + b == b;
    } else {
      assert (a + b)[1..] == a[1..] + b;
      SearchAppend(lib, a[1..], b, examined);
      SearchAppend(lib, a[1..], b, examined + 1);
    }
  }

  // ---------------------------------------------------------------------------
  // The scanner
  // ---------------------------------------------------------------------------

  class Scanner {
    const lib: Library
    var examined: nat
    var visited: set<Path>

    constructor (lib: Library)
      ensures this.lib == lib && examined == 0 && visited == {}
    {
      this.lib := lib;
      examined := 0;
      visited := {};
    }

    /** One file read, charged to the shared counter. */
    method Examine(path: Path) returns (r: Outcome)
      requires examined <= MAX_MPD_ALBUM_SCAN_CANDIDATES
      modifies this`examined
      ensures examined <= MAX_MPD_ALBUM_SCAN_CANDIDATES
      ensures (r, examined) == Search(lib, [Song(path)], old(examined))
    {
      if examined >= MAX_MPD_ALBUM_SCAN_CANDIDATES {
        return LimitExceeded;
      }
      examined := examined + 1;
      r := if path in lib.matching then Found(path) else NoMatch;
    }

    method Scan(path: Path) returns (r: Outcome)
      requires examined <= MAX_MPD_ALBUM_SCAN_CANDIDATES
      modifies this
      ensures examined <= MAX_MPD_ALBUM_SCAN_CANDIDATES && old(visited) <= visited
      ensures (r, examined) == Search(lib, Walk(lib, path, old(visited)).events, old(examined))
      ensures r.NoMatch? ==> visited == Walk(lib, path, old(visited)).visited
      decreases DirectoryIds(lib) - visited, 0
    {
      if path !in lib.entries || lib.entries[path].Symlink? {
        return NoMatch;
      }
      if lib.entries[path].File? {
        if path !in lib.audio {
          return NoMatch;
        }
        r := Examine(path);
        return;
      }
      if !lib.entries[path].Directory? {
        return NoMatch;
      }
      var id := DirectoryId(lib, path);
      if id in visited {
        return NoMatch;
      }
      assert id in DirectoryIds(lib);
      visited := visited + {id};
      match lib.entries[path].listing {
        case Unreadable =>
          r := Io(path);
        case Names(names) =>
          r := ScanNames(path, Sort(names));
          ghost var below := WalkNames(lib, path, Sort(names), old(visited) + {id});
          SearchAppend(lib, [Entered(id)], below.events, old(examined));
      }
    }

    method ScanNames(dir: Path, names: seq<string>) returns (r: Outcome)
      requires examined <= MAX_MPD_ALBUM_SCAN_CANDIDATES
      modifies this
      ensures examined <= MAX_MPD_ALBUM_SCAN_CANDIDATES && old(visited) <= visited
      ensures (r, examined) == Search(lib, WalkNames(lib, dir, names, old(visited)).events, old(examined))
      ensures r.NoMatch? ==> visited == WalkNames(lib, dir, names, old(visited)).visited
      decreases DirectoryIds(lib) - visited, |names| + 1
    {
      ghost var all := WalkNames(lib, dir, names, visited);
      ghost var goal := Search(lib, all.events, examined);
      for i := 0 to |names|
        invariant examined <= MAX_MPD_ALBUM_SCAN_CANDIDATES && old(visited) <= visited
        invariant WalkNames(lib, dir, names[i..], visited).visited == all.visited
        invariant Search(lib, WalkNames(lib, dir, names[i..], visited).events, examined) == goal
      {
        assert names[i..][1..] == names[i + 1..];
        if Hidden(names[i]) {
          continue;
        }
        var p := dir + [names[i]];
        ghost var first := Walk(lib, p, visited);
        SearchAppend(lib, first.events, WalkNames(lib, dir, names[i + 1..], first.visited).events, examined);
        if p !in lib.entries || lib.entries[p].Symlink? {
          continue;
        }
        if lib.entries[p].Directory? {
          r := Scan(p);
          if !r.NoMatch? { return; }
        } else if lib.entries[p].File? && p in lib.audio {
          r := Examine(p);
          if !r.NoMatch? { return; }
        }
      }
      r := NoMatch;
    }
  }

  /** The search over all library roots, one counter and one visited set for all of them. */
  method FirstMatchingAudioPath(lib: Library, roots: seq<Path>) returns (r: Outcome)
    ensures r == Search(lib, WalkRoots(lib, roots, {}).events, 0).0
  {
    var scanner := new Scanner(lib);
    for i := 0 to |roots|
      invariant scanner.lib == lib && scanner.examined <= MAX_MPD_ALBUM_SCAN_CANDIDATES
      invariant Search(lib, WalkRoots(lib, roots[i..], scanner.visited).events, scanner.examined)
                == Search(lib, WalkRoots(lib, roots, {}).events, 0)
    {
      assert roots[i..][1..] == roots[i + 1..];
      ghost var first := Walk(lib, roots[i], scanner.visited);
      SearchAppend(lib, first.events, WalkRoots(lib, roots[i + 1..], first.visited).events, scanner.examined);
      r := scanner.Scan(roots[i]);
      if !r.NoMatch? {
        return;
      }
    }
    r := NoMatch;
  }
}
