/** What tag editors leave on a name, and that keys and displays do not see it. */
module ArtistCleaning {
  import opened Common
  import opened Text
  import opened TextLemmas
  import opened ArtistName
  import opened ArtistCredit
  import opened ArtistDisplay
  import opened ArtistJoined
  import opened ArtistContributors

  /** A watermark behind a bar, a bracketed group, or the same artist once more behind a slash. */
  datatype Dirt =
    | Watermark(gap: string, junk: string)
    | Group(gap: string, round: bool, inner: string)
    | SelfSlash(gap: string, space: string, again: string)

  function Opens(round: bool): char {
    if round then '(' else '['
  }

  function Closes(round: bool): char {
    if round then ')' else ']'
  }

  function Dirty(name: string, d: Dirt): string {
    match d
    case Watermark(gap, junk) => name + gap + ("|" + junk)
    case Group(gap, round, inner) => name + gap + ([Opens(round)] + (inner + [Closes(round)]))
    case SelfSlash(gap, space, again) => name + gap + ("/" + (space + again))
  }

  predicate IsDirt(u: Tables, name: string, d: Dirt) {
    match d
    case Watermark(gap, _) => Blank(gap)
    case Group(gap, round, inner) =>
      Blank(gap) && Opens(round) !in inner && Closes(round) !in inner && '|' !in inner
    case SelfSlash(gap, space, again) =>
      Blank(gap) && Blank(space) && Plain(again) && Folded(u, again) == Folded(u, name)
  }

  // ---------------------------------------------------------------------------
  // Brackets
  // ---------------------------------------------------------------------------

  lemma GroupPeels(before: string, round: bool, inner: string, s: string)
    requires Opens(round) !in inner && Closes(round) !in inner && before != ""
    requires s == before + [Opens(round)] + (inner + [Closes(round)])
    ensures Peel(s) == Some(TrimEnd(before))
  {
    assert Opens(round) !in inner + [Closes(round)];
    LastOccurrence(before, Opens(round), inner + [Closes(round)]);
    assert s[|s| - 1] == Closes(round);
    assert s[..|before|] == before && s[|before| + 1..|s| - 1] == inner;
    assert |s| >= 3;
  }

  lemma ClosedIsTrimmed(before: string, round: bool, inner: string, s: string)
    requires s == before + [Opens(round)] + (inner + [Closes(round)])
    ensures TrimEnd(s) == s && (before != "" && !IsWhitespace(before[0]) ==> Trim(s) == s)
  {
    assert s[|s| - 1] == Closes(round);
    assert before != "" ==> s[0] == before[0];
  }

  /** A bracketed group at the end that nests none of its kind falls away, whatever stands before it. */
  lemma TrailingGroupFalls(before: string, round: bool, inner: string)
    requires before != "" && !IsWhitespace(before[0])
    requires Opens(round) !in inner && Closes(round) !in inner
    ensures Unbracketed(before + [Opens(round)] + (inner + [Closes(round)])) == Unbracketed(before)
  {
    var s := before + [Opens(round)] + (inner + [Closes(round)]);
    ClosedIsTrimmed(before, round, inner, s);
    GroupPeels(before, round, inner, s);
    TrimEndTwice(before);
    assert TrimStart(before) == before;
    assert PeelAll(s) == PeelAll(TrimEnd(before));
  }

  /** What is left ends in no such group, unless it is an empty pair of brackets alone. */
  lemma NoTrailingGroup(s: string, before: string, round: bool, inner: string)
    requires Unbracketed(s) == before + [Opens(round)] + (inner + [Closes(round)])
    requires Opens(round) !in inner && Closes(round) !in inner
    ensures before == "" && inner == ""
  {
    var t := Unbracketed(s);
    UnbracketedIsPeeled(s);
    assert Opens(round) !in inner + [Closes(round)];
    LastOccurrence(before, Opens(round), inner + [Closes(round)]);
    assert t[|t| - 1] == Closes(round);
    assert t[|before| + 1..|t| - 1] == inner;
  }

  lemma {:induction false} UnevenGroupIsNotPeeled(before: string, round: bool, inner: string, s: string)
    requires s == before + [Opens(round)] + (inner + [Closes(round)])
    requires Opens(round) !in inner && Closes(round) in inner
    ensures Peel(s) == None
  {
    LastOccurrence(before, Opens(round), inner + [Closes(round)]);
    assert s[|s| - 1] == Closes(round);
    assert s[|before| + 1..|s| - 1] == inner;
  }

  /** A group that closes more brackets than it opens stays, and so does everything before it. */
  lemma {:induction false} UnevenGroupStays(before: string, round: bool, inner: string)
    requires before == "" || !IsWhitespace(before[0])
    requires Opens(round) !in inner && Closes(round) in inner
    ensures Unbracketed(before + [Opens(round)] + (inner + [Closes(round)]))
            == before + [Opens(round)] + (inner + [Closes(round)])
  {
    var s := before + [Opens(round)] + (inner + [Closes(round)]);
    assert s[|s| - 1] == Closes(round) && s[0] == if before == "" then Opens(round) else before[0];
    TightIsTrimmed(s);
    UnevenGroupIsNotPeeled(before, round, inner, s);
  }

  // ---------------------------------------------------------------------------
  // The core of a dirty name
  // ---------------------------------------------------------------------------

  lemma GapFalls(name: string, gap: string)
    requires Tight(name) && Blank(gap)
    ensures Trim(name + gap) == name
  {
    TrimEndDropsGap(name, gap);
    assert (name + gap)[0] == name[0];
  }

  lemma SpaceFalls(space: string, name: string)
    requires Tight(name) && Blank(space)
    ensures Trim(space + name) == name
  {
    TrimStartOfConcat(space, name);
    TrimStartEmptyIff(space);
    TightIsTrimmed(name);
    assert "" + name == name;
  }

  /** A character not met before is found where it first stands. */
  lemma FirstOccurrence(before: string, c: char, behind: string)
    requires c !in before
    ensures SplitOnce(before + ([c] + behind), [c]) == Some((before, behind))
  {
    var s := before + ([c] + behind);
    assert s[|before|..|before| + 1] == [c];
    forall j: nat | j < |before| ensures !FoundAt(s, [c], j) { assert s[j..j + 1][0] == before[j]; }
    FindIs(s, [c], |before|);
    assert s[..|before|] == before && s[|before| + 1..] == behind;
  }

  lemma WatermarkFalls(u: Tables, name: string, gap: string, junk: string)
    requires Plain(name) && Blank(gap)
    ensures var raw := name + gap + ("|" + junk); Trim(raw) != "" && Core(u, Trim(raw)) == name
  {
    var bar := "|" + junk;
    assert bar[0] == '|';
    BarStays(junk);
    TrimEndOfConcat(name + gap, bar);
    assert (name + gap + bar)[0] == name[0];
    FirstOccurrence(name + gap, '|', TrimEnd(bar)[1..]);
    assert TrimEnd(bar) == "|" + TrimEnd(bar)[1..];
    GapFalls(name, gap);
    PlainIsItsCore(u, name);
    NotFoundWhole(name, '|');
  }

  lemma BarStays(junk: string)
    ensures !Blank("|" + junk) && TrimEnd("|" + junk) != "" && TrimEnd("|" + junk)[0] == '|'
  {
    var bar := "|" + junk;
    assert bar[0] == '|' && !IsWhitespace(bar[0]);
    TrimEndOfConcat("", bar);
    assert "" + bar == bar;
  }

  lemma GroupFalls(u: Tables, name: string, gap: string, round: bool, inner: string)
    requires Plain(name) && IsDirt(u, name, Group(gap, round, inner))
    ensures var raw := Dirty(name, Group(gap, round, inner)); Trim(raw) == raw != "" && Core(u, raw) == name
  {
    var before := name + gap;
    var raw := before + [Opens(round)] + (inner + [Closes(round)]);
    assert raw == Dirty(name, Group(gap, round, inner));
    assert before[0] == name[0];
    ClosedIsTrimmed(before, round, inner, raw);
    assert '|' !in raw;
    NotFoundWhole(raw, '|');
    TrailingGroupFalls(before, round, inner);
    GapFalls(name, gap);
    TightIsTrimmed(name);
    PlainUnbracketed(name);
    NotFoundWhole(name, '/');
  }

  lemma SelfSlashFalls(u: Tables, name: string, gap: string, space: string, again: string)
    requires Plain(name) && IsDirt(u, name, SelfSlash(gap, space, again))
    ensures var raw := name + gap + ("/" + (space + again)); Trim(raw) == raw != "" && Core(u, raw) == name
  {
    var raw := name + gap + ("/" + (space + again));
    assert raw[0] == name[0] && raw[|raw| - 1] == again[|again| - 1];
    TightIsTrimmed(raw);
    assert '|' !in raw;
    NotFoundWhole(raw, '|');
    PlainUnbracketed(raw);
    FirstOccurrence(name + gap, '/', space + again);
    GapFalls(name, gap);
    SpaceFalls(space, again);
    OneSlash(space + again);
  }

  lemma OneSlash(right: string)
    requires '/' !in right
    ensures Find(right, "/").None?
  {
    NoCharNoFind(right, '/');
  }

  lemma CoreOfDirty(u: Tables, name: string, d: Dirt)
    requires Plain(name) && IsDirt(u, name, d)
    ensures Trim(Dirty(name, d)) != "" && Core(u, Trim(Dirty(name, d))) == name
  {
    match d
    case Watermark(gap, junk) => WatermarkFalls(u, name, gap, junk);
    case Group(gap, round, inner) => GroupFalls(u, name, gap, round, inner);
    case SelfSlash(gap, space, again) => SelfSlashFalls(u, name, gap, space, again);
  }

  // ---------------------------------------------------------------------------
  // Keys, displays and contributors
  // ---------------------------------------------------------------------------

  lemma {:induction false} CleanPartsHaveContent(u: Tables, parts: seq<string>, p: string)
    requires p in CleanParts(u, parts)
    ensures p != ""
  {
    if p in CleanParts(u, parts[1..]) { CleanPartsHaveContent(u, parts[1..], p); }
  }

  /** Cleaning a plain credit leaves something. */
  lemma PreprocessHasContent(u: Tables, name: string)
    requires Plain(name)
    ensures PreprocessArtist(u, name) != ""
  {
    PlainIsItsCore(u, name);
    if CollapseCollab(u, name).Some? {
      var clean := CleanParts(u, SplitCollab(name).value);
      var unique := FreshBy(FoldedKey(u), clean, {});
      FreshAreMembers(FoldedKey(u), clean, {}, unique[0]);
      CleanPartsHaveContent(u, SplitCollab(name).value, unique[0]);
      JoinHasContent(unique, ", ");
    }
  }

  lemma JoinHasContent(parts: seq<string>, sep: string)
    requires parts != [] && parts[0] != ""
    ensures JoinWith(parts, sep) != ""
  {
  }

  lemma SameCoreSameKey(u: Tables, a: string, b: string)
    requires Trim(a) != "" && Trim(b) != "" && Core(u, Trim(a)) == Core(u, Trim(b))
    ensures ArtistFoldKey(u, a) == ArtistFoldKey(u, b)
  {
  }

  lemma SameCoreSameDisplay(u: Tables, a: string, b: string)
    requires Trim(a) != "" && Trim(b) != "" && Core(u, Trim(a)) == Core(u, Trim(b)) && PreprocessArtist(u, b) != ""
    ensures ArtistDisplayForm(u, a) == ArtistDisplayForm(u, b)
  {
    assert PreprocessArtist(u, a) == PreprocessArtist(u, b);
  }

  /** Dirt changes neither the key nor the display of a credit. */
  lemma DirtIsNotSeen(u: Tables, name: string, d: Dirt)
    requires Plain(name) && IsDirt(u, name, d)
    ensures ArtistFoldKey(u, Dirty(name, d)) == ArtistFoldKey(u, name)
    ensures ArtistDisplayForm(u, Dirty(name, d)) == ArtistDisplayForm(u, name)
  {
    CoreOfDirty(u, name, d);
    PlainIsItsCore(u, name);
    SameCoreSameKey(u, Dirty(name, d), name);
    PreprocessHasContent(u, name);
    SameCoreSameDisplay(u, Dirty(name, d), name);
  }

  lemma {:induction false} BoundIsIrrelevant(u: Tables, parts: seq<string>, a: nat, b: nat)
    requires forall p :: p in parts ==> |p| < a && |p| < b
    ensures CreditsOfAll(u, parts, a) == CreditsOfAll(u, parts, b)
  {
    if parts != [] { BoundIsIrrelevant(u, parts[1..], a, b); }
  }

  /**
   The contributors of a dirty credit are those of the clean one, unless its key is listed: then the
   single contributor keeps the dirt.
   */
  lemma DirtShowsOnListedActs(u: Tables, name: string, d: Dirt)
    requires Plain(name) && IsDirt(u, name, d)
    ensures Credits(u, Dirty(name, d)) ==
            if KeyIsListed(u, name) then [u.nfc(Trim(Dirty(name, d)))] else Credits(u, name)
  {
    var raw := Dirty(name, d);
    CoreOfDirty(u, name, d);
    PlainIsItsCore(u, name);
    KeyOfTrimmed(u, raw);
    DirtIsNotSeen(u, name, d);
    ListedIffKnown(u, name);
    ListedIffKnown(u, Trim(raw));
    if !KeyIsListed(u, name) {
      DisplayOfTrimmed(u, raw);
      if CreditParts(name).Some? {
        CreditsWhenSplit(u, raw);
        CreditsWhenSplit(u, name);
        BoundIsIrrelevant(u, CreditParts(name).value, |raw|, |name|);
      }
    }
  }

  lemma KeyOfTrimmed(u: Tables, raw: string)
    ensures ArtistFoldKey(u, Trim(raw)) == ArtistFoldKey(u, raw)
  {
    TrimTwice(raw);
    if Trim(raw) != "" { SameCoreSameKey(u, Trim(raw), raw); }
  }

  lemma DisplayOfTrimmed(u: Tables, raw: string)
    ensures ArtistDisplayForm(u, Trim(raw)) == ArtistDisplayForm(u, raw)
  {
    TrimTwice(raw);
  }

  // ---------------------------------------------------------------------------
  // Sort form and various artists
  // ---------------------------------------------------------------------------

  /** A pattern that opens with a blank and a letter takes at most the last of the blanks before a text. */
  lemma StandsBehindBlanks(gap: string, t: string, pat: string, i: nat)
    requires Blank(gap) && |pat| >= 2 && pat[0] == ' ' && !IsWhitespace(pat[1]) && Stands(gap + t, i, pat)
    ensures i + 1 >= |gap| && Stands(" " + t, i + 1 - |gap|, pat)
  {
    StandsAt(gap + t, i, pat, 0);
    StandsAt(gap + t, i, pat, 1);
    forall k | 0 <= k < |pat| ensures (" " + t)[i + 1 - |gap| + k] == pat[k] {
      assert (gap + t)[i + k] == pat[k];
    }
  }

  lemma BlanksBefore(gap: string, t: string, pat: string)
    requires Blank(gap) && |pat| >= 2 && pat[0] == ' ' && !IsWhitespace(pat[1]) && Absent(" " + t, pat)
    ensures Absent(gap + t, pat)
  {
    forall i: nat ensures !Stands(gap + t, i, pat) {
      if Stands(gap + t, i, pat) { StandsBehindBlanks(gap, t, pat, i); }
    }
  }

  lemma AbsentBefore(a: string, b: string, pat: string)
    requires Absent(a + b, pat)
    ensures Absent(a, pat)
  {
    forall i: nat ensures !Stands(a, i, pat) { if Stands(a, i, pat) { StandsBefore(a, b, i, pat); } }
  }

  /** The last name, a comma, blanks and the rest of the name. */
  function SortForm(last: string, gap: string, first: string): string {
    last + "," + (gap + first)
  }

  predicate IsSortForm(last: string, gap: string, first: string) {
    IsWord(last) && Blank(gap) && Tight(first)
  }

  lemma TwoWays(f: string, l: string)
    ensures " " + (f + " " + l) + " " == (" " + f) + (" " + l + " ")
    ensures " " + (f + " " + l) + " " == (" " + f + " ") + (l + " ")
  {
  }

  lemma PartsOfQuiet(first: string, last: string, pat: string)
    requires Apart(first + " " + last, pat)
    ensures Absent(" " + Lower(first), pat) && Absent(Lower(last), pat)
  {
    LowerAroundSpace(first, last);
    TwoWays(Lower(first), Lower(last));
    AbsentBefore(" " + Lower(first), " " + Lower(last) + " ", pat);
    AbsentWithin(" " + Lower(first) + " ", Lower(last), " ", pat);
  }

  lemma LowerOfSortForm(last: string, gap: string, first: string)
    requires Blank(gap)
    ensures Lower(SortForm(last, gap, first)) == Lower(last) + "," + (gap + Lower(first))
  {
    LowerOfThree(last, ",", gap + first);
    LowerOfConcat(gap, first);
    LowerIsStable(",");
    LowerIsStable(gap);
  }

  lemma SortFormHasNoWord(last: string, gap: string, first: string)
    requires IsSortForm(last, gap, first) && Apart(first + " " + last, " and ")
    ensures PartsCi(SortForm(last, gap, first), " and ") == None
  {
    PartsOfQuiet(first, last, " and ");
    BlanksBefore(gap, Lower(first), " and ");
    AbsentIsNotFound(Lower(last), " and ");
    AbsentIsNotFound(gap + Lower(first), " and ");
    LowerOfSortForm(last, gap, first);
    NotFoundJoined(Lower(last), gap + Lower(first), " and ");
  }

  lemma SortFormIsPlain(last: string, gap: string, first: string)
    requires IsSortForm(last, gap, first) && PlainName(first + " " + last)
    ensures var raw := SortForm(last, gap, first);
            Plain(raw) && ';' !in raw && '&' !in raw && ',' !in last && ',' !in first
  {
    var raw, name := SortForm(last, gap, first), first + " " + last;
    forall c | c in last || c in first ensures c !in ";,/|&()[]" { assert c in name; }
    assert raw[0] == last[0] && raw[|raw| - 1] == first[|first| - 1] && first[|first| - 1] in first;
  }

  lemma SortFormCuts(last: string, gap: string, first: string)
    requires IsSortForm(last, gap, first) && ',' !in last
    ensures SplitOnce(SortForm(last, gap, first), ",") == Some((last, gap + first))
    ensures Trim(last) == last && !HasWhitespace(last) && Trim(gap + first) == first
  {
    assert SortForm(last, gap, first) == last + ("," + (gap + first));
    FirstOccurrence(last, ',', gap + first);
    TightIsTrimmed(last);
    SpaceFalls(gap, first);
  }

  lemma SortFormIsOnePart(last: string, gap: string, first: string)
    requires IsSortForm(last, gap, first) && QuietName(first + " " + last)
    ensures SplitCollab(SortForm(last, gap, first)) == None
  {
    SortFormIsPlain(last, gap, first);
    SortFormCuts(last, gap, first);
    SortFormHasNoWord(last, gap, first);
    NoEarlierDelimiter(SortForm(last, gap, first));
  }

  lemma SortFormReorders(last: string, gap: string, first: string)
    requires IsSortForm(last, gap, first) && ',' !in last && ',' !in first
    ensures ReorderLastFirst(SortForm(last, gap, first)) == first + " " + last
  {
    SortFormCuts(last, gap, first);
  }

  /** A last name of one word, a comma and the rest have the key and the display of the name the other way round. */
  lemma SortFormIsTurned(u: Tables, last: string, gap: string, first: string)
    requires IsSortForm(last, gap, first) && QuietName(first + " " + last)
    ensures ArtistFoldKey(u, SortForm(last, gap, first)) == ArtistFoldKey(u, first + " " + last)
    ensures ArtistDisplayForm(u, SortForm(last, gap, first)) == ArtistDisplayForm(u, first + " " + last)
  {
    SortFormIsPlain(last, gap, first);
    SortFormIsOnePart(last, gap, first);
    SortFormReorders(last, gap, first);
    PlainIsItsCore(u, SortForm(last, gap, first));
    QuietNameStays(u, first + " " + last);
    TurnedAlike(u, SortForm(last, gap, first), first + " " + last);
  }

  lemma TurnedAlike(u: Tables, raw: string, name: string)
    requires Trim(raw) == raw != "" && Core(u, raw) == raw && SplitCollab(raw) == None && ReorderLastFirst(raw) == name
    requires Trim(name) == name != "" && Core(u, name) == name && ReorderLastFirst(name) == name
    requires SplitCollab(name) == None
    ensures ArtistFoldKey(u, raw) == ArtistFoldKey(u, name) && ArtistDisplayForm(u, raw) == ArtistDisplayForm(u, name)
  {
  }

  /** The ways various artists are written. */
  predicate IsVarious(folded: string) {
    folded == "va" || folded == "various" || folded == "variousartists" || folded == "various artists"
  }

  lemma VariousIff(folded: string)
    ensures folded in VARIOUS <==> IsVarious(folded)
  {
  }

  /** A quiet name has the key and display of various artists exactly when it folds to one of those ways. */
  lemma VariousArtistsAreOne(u: Tables, name: string)
    requires QuietName(name) && Folded(u, name) != ""
    ensures ArtistFoldKey(u, name) == if IsVarious(Folded(u, name)) then "various artists" else Folded(u, name)
    ensures ArtistDisplayForm(u, name) == u.nfc(if IsVarious(Folded(u, name)) then "Various Artists" else name)
  {
    QuietNameStays(u, name);
    VariousIff(Folded(u, name));
  }

  // ---------------------------------------------------------------------------
  // Character by character
  // ---------------------------------------------------------------------------

  lemma FoldOneMore(u: Tables, s: string, c: char)
    ensures FoldAll(u, s + [c]) == FoldStep(u, FoldAll(u, s), c)
  {
    assert (s + [c])[..|s|] == s;
  }

  /** Combining marks fold to nothing wherever they stand. */
  lemma {:induction false} MarksAreNotSeen(u: Tables, a: string, mark: char, b: string)
    requires 768 <= mark as int <= 879
    ensures FoldAll(u, a + [mark] + b) == FoldAll(u, a + b)
    decreases |b|
  {
    if b == "" {
      FoldOneMore(u, a, mark);
      assert a + [mark] + b == a + [mark] && a + b == a;
    } else {
      var front, last := b[..|b| - 1], b[|b| - 1];
      MarksAreNotSeen(u, a, mark, front);
      FoldOneMore(u, a + [mark] + front, last);
      FoldOneMore(u, a + front, last);
      assert a + [mark] + b == (a + [mark] + front) + [last] && a + b == (a + front) + [last];
    }
  }

  /** Any other character adds its lower case, or parts words. */
  lemma OthersAreSeen(u: Tables, a: string, c: char)
    requires c as int < 768 || c as int > 879
    ensures FoldAll(u, a + [c]).text ==
            FoldAll(u, a).text + if u.isAlnum(c) then u.lower(c) else if FoldAll(u, a).lastWasSpace then "" else " "
  {
    FoldOneMore(u, a, c);
    assert FoldAll(u, a).text + "" == FoldAll(u, a).text;
  }
}
