/** The contributors of a credit: listed acts stay whole, and a credit joined from single names gives each name once. */
module ArtistContributors {
  import opened Common
  import opened Text
  import opened TextLemmas
  import opened SortedText
  import opened ArtistName
  import opened ArtistCredit
  import opened ArtistDisplay
  import opened ArtistJoined

  /** The key of the credit is that of some listed act. */
  ghost predicate KeyIsListed(u: Tables, credit: string) {
    ArtistFoldKey(u, credit) != ""
    && exists act :: act in u.singleActs && ArtistFoldKey(u, act) == ArtistFoldKey(u, credit)
  }

  lemma {:induction false} ListedIffKnown(u: Tables, credit: string)
    ensures KeyIsListed(u, credit) <==> IsKnownSingleAct(u, credit)
  {
  }

  // ---------------------------------------------------------------------------
  // Featured artists
  // ---------------------------------------------------------------------------

  /** The ways to feature an artist. */
  predicate IsFeaturing(pat: string) {
    pat == " feat. " || pat == " ft. " || pat == " feat " || pat == " ft " || pat == " featuring "
  }

  lemma FirstSplitStep(s: string, delim: string, rest: seq<string>)
    requires delim != "" && forall i :: 0 <= i < |rest| ==> rest[i] != ""
    ensures FirstSplit(s, [delim] + rest) == if PartsCi(s, delim).Some? then PartsCi(s, delim) else FirstSplit(s, rest)
  {
    assert ([delim] + rest)[1..] == rest;
  }

  /** The five are tried in turn. */
  lemma {:induction false} FeaturingUnfolds(s: string)
    ensures FirstSplit(s, FEATURING) ==
            if PartsCi(s, " feat. ").Some? then PartsCi(s, " feat. ")
            else if PartsCi(s, " ft. ").Some? then PartsCi(s, " ft. ")
            else if PartsCi(s, " feat ").Some? then PartsCi(s, " feat ")
            else if PartsCi(s, " ft ").Some? then PartsCi(s, " ft ")
            else PartsCi(s, " featuring ")
  {
    var last: seq<string> := [" featuring "];
    FirstSplitStep(s, " featuring ", []);
    assert [" featuring "] + [] == last;
    FirstSplitStep(s, " ft ", last);
    FirstSplitStep(s, " feat ", [" ft "] + last);
    FirstSplitStep(s, " ft. ", [" feat "] + ([" ft "] + last));
    FirstSplitStep(s, " feat. ", [" ft. "] + ([" feat "] + ([" ft "] + last)));
    assert FEATURING == [" feat. "] + ([" ft. "] + ([" feat "] + ([" ft "] + last)));
  }

  lemma FeaturingIsBlankEnded(pat: string)
    requires IsFeaturing(pat)
    ensures BlankEnded(pat)
  {
  }

  /** Every way of featuring but this one cuts nothing. */
  predicate OnlyCut(s: string, pat: string) {
    && (pat == " feat. " || PartsCi(s, " feat. ").None?) && (pat == " ft. " || PartsCi(s, " ft. ").None?)
    && (pat == " feat " || PartsCi(s, " feat ").None?) && (pat == " ft " || PartsCi(s, " ft ").None?)
    && (pat == " featuring " || PartsCi(s, " featuring ").None?)
  }

  lemma SplitsWhereFound(s: string, pat: string)
    requires IsFeaturing(pat) && OnlyCut(s, pat)
    ensures FirstSplit(s, FEATURING) == PartsCi(s, pat)
  {
    FeaturingUnfolds(s);
  }

  predicate Uncut(s: string) {
    && PartsCi(s, " feat. ").None? && PartsCi(s, " ft. ").None? && PartsCi(s, " feat ").None?
    && PartsCi(s, " ft ").None? && PartsCi(s, " featuring ").None?
  }

  /** Nothing is featured exactly when none of the five gives two parts. */
  lemma NothingFeaturedIff(s: string)
    ensures FirstSplit(s, FEATURING).None? <==> Uncut(s)
  {
    FeaturingUnfolds(s);
  }

  // ---------------------------------------------------------------------------
  // Single names
  // ---------------------------------------------------------------------------

  /** The pattern stands neither in the text nor at its ends. */
  ghost predicate Apart(s: string, pat: string) {
    Absent(" " + Lower(s) + " ", pat)
  }

  ghost predicate QuietName(s: string) {
    && PlainName(s) && Apart(s, " and ") && Apart(s, " feat. ") && Apart(s, " ft. ") && Apart(s, " feat ")
    && Apart(s, " ft ") && Apart(s, " featuring ")
  }

  /** A composed name that folds to something other than various artists. */
  ghost predicate SoloName(u: Tables, s: string) {
    && QuietName(s) && u.nfc(s) == s && Folded(u, s) != ""
    && Folded(u, s) != "va" && Folded(u, s) != "various" && Folded(u, s) != "variousartists"
    && Folded(u, s) != "various artists"
  }

  lemma StandsBehind(a: string, t: string, i: nat, pat: string)
    requires Stands(t, i, pat)
    ensures Stands(a + t, |a| + i, pat)
  {
    forall k | 0 <= k < |pat| ensures (a + t)[|a| + i + k] == pat[k] { assert t[i + k] == pat[k]; }
  }

  lemma StandsBefore(t: string, c: string, i: nat, pat: string)
    requires Stands(t, i, pat)
    ensures Stands(t + c, i, pat)
  {
    forall k | 0 <= k < |pat| ensures (t + c)[i + k] == pat[k] { assert t[i + k] == pat[k]; }
  }

  lemma AbsentWithin(a: string, b: string, c: string, pat: string)
    requires Absent(a + (b + c), pat)
    ensures Absent(b, pat) && Absent(b + c, pat)
  {
    forall i: nat ensures !Stands(b, i, pat) && !Stands(b + c, i, pat) {
      if Stands(b, i, pat) { StandsBefore(b, c, i, pat); }
      if Stands(b + c, i, pat) { StandsBehind(a, b + c, i, pat); }
    }
  }

  lemma AbsentIsNotFound(text: string, pat: string)
    requires Absent(text, pat)
    ensures Find(text, pat).None?
  {
    if Find(text, pat).Some? { StandsIff(text, Find(text, pat).value, pat); }
  }

  lemma QuietIsUncut(s: string, pat: string)
    requires pat != "" && Apart(s, pat)
    ensures PartsCi(s, pat).None?
  {
    assert " " + Lower(s) + " " == " " + (Lower(s) + " ");
    AbsentWithin(" ", Lower(s), " ", pat);
    AbsentIsNotFound(Lower(s), pat);
  }

  lemma QuietNameIsOnePart(s: string)
    requires QuietName(s)
    ensures CreditParts(s) == None && SplitCollab(s) == None
  {
    PlainNameIsFree(s);
    NoEarlierDelimiter(s);
    QuietIsUncut(s, " and ");
    NotFoundWhole(s, ',');
    QuietIsUncut(s, " feat. ");
    QuietIsUncut(s, " ft. ");
    QuietIsUncut(s, " feat ");
    QuietIsUncut(s, " ft ");
    QuietIsUncut(s, " featuring ");
    NothingFeaturedIff(s);
  }

  /** What cleaning and splitting make of a quiet name. */
  lemma QuietNameStays(u: Tables, s: string)
    requires QuietName(s)
    ensures Trim(s) == s != "" && Core(u, s) == s && ReorderLastFirst(s) == s
    ensures SplitCollab(s) == None && CreditParts(s) == None
    ensures CollabFoldKey(u, s) == None && CollapseCollab(u, s) == None
  {
    PlainNameParts(u, s);
    PlainIsItsCore(u, s);
    QuietNameIsOnePart(s);
    NotFoundWhole(s, ',');
  }

  lemma NotVarious(folded: string)
    requires folded != "va" && folded != "various" && folded != "variousartists" && folded != "various artists"
    ensures folded !in VARIOUS
  {
  }

  lemma SoloKey(u: Tables, s: string)
    requires SoloName(u, s)
    ensures ArtistFoldKey(u, s) == Folded(u, s)
  {
    QuietNameStays(u, s);
    NotVarious(Folded(u, s));
  }

  lemma SoloDisplay(u: Tables, s: string)
    requires SoloName(u, s)
    ensures ArtistDisplayForm(u, s) == s
  {
    QuietNameStays(u, s);
    NotVarious(Folded(u, s));
  }

  /** A single name is its own contributor, listed or not. */
  lemma SoloCredits(u: Tables, s: string)
    requires SoloName(u, s)
    ensures Credits(u, s) == [s]
  {
    SoloDisplay(u, s);
    QuietNameStays(u, s);
  }

  // ---------------------------------------------------------------------------
  // Joined names
  // ---------------------------------------------------------------------------

  lemma Inside(t: string, from: nat, text: string, i: nat, pat: string)
    requires Stands(t, from, text) && Stands(t, i, pat) && from <= i && i + |pat| <= from + |text|
    ensures Stands(text, i - from, pat)
  {
    forall k | 0 <= k < |pat| ensures text[i - from + k] == pat[k] {
      assert t[i + k] == pat[k] && t[from + (i - from + k)] == text[i - from + k];
    }
  }

  lemma NotLonger(t: string, i: nat, a: string, b: string)
    requires BlankEnded(a) && BlankEnded(b) && Stands(t, i, a) && Stands(t, i, b)
    ensures |a| <= |b|
  {
    var k := |b| - 1;
    assert t[i + k] == b[k] == ' ';
    assert k < |a| ==> t[i + k] == a[k];
  }

  /** Two blank-ended patterns in one place are one pattern. */
  lemma SamePlace(t: string, i: nat, a: string, b: string)
    requires BlankEnded(a) && BlankEnded(b) && Stands(t, i, a) && Stands(t, i, b)
    ensures a == b
  {
    NotLonger(t, i, a, b);
    NotLonger(t, i, b, a);
    forall k | 0 <= k < |a| && k < |b| ensures a[k] == b[k] {
      StandsAt(t, i, a, k);
      StandsAt(t, i, b, k);
    }
  }

  /** Blank-ended patterns overlap in a blank at most. */
  lemma NoOverlap(t: string, i: nat, a: string, j: nat, b: string)
    requires BlankEnded(a) && BlankEnded(b) && Stands(t, i, a) && Stands(t, j, b) && i < j
    ensures i + |a| <= j + 1
  {
    StandsAt(t, j, b, 0);
    if j - i < |a| { StandsAt(t, i, a, j - i); }
  }

  /** Where a pattern could stand in a text with a link: before it, behind it, or nowhere else. */
  lemma AbsentAcross(t: string, head: string, link: string, rest: string, from: nat, pat: string)
    requires BlankEnded(link) && BlankEnded(pat) && pat != link && from == |head| - 1
    requires Stands(t, 0, head) && Stands(t, from, link) && Stands(t, from + |link| - 1, rest)
    requires |t| == from + |link| - 1 + |rest|
    requires Absent(head, pat) && Absent(rest, pat)
    ensures Absent(t, pat)
  {
    forall i: nat ensures !Stands(t, i, pat) {
      if Stands(t, i, pat) {
        if i < from {
          NoOverlap(t, i, pat, from, link);
          Inside(t, 0, head, i, pat);
        } else if i == from {
          SamePlace(t, i, pat, link);
        } else {
          NoOverlap(t, from, link, i, pat);
          Inside(t, from + |link| - 1, rest, i, pat);
        }
      }
    }
  }

  lemma LinkStands(head: string, link: string, rest: string)
    requires BlankEnded(link)
    ensures var t := " " + (head + link + rest) + " ";
            && Stands(t, 0, " " + head + " ") && Stands(t, |head| + 1, link)
            && Stands(t, |head| + |link|, " " + rest + " ") && |t| == |head| + |link| + |rest| + 2
  {
    var t := " " + (head + link + rest) + " ";
    forall k | 0 <= k < |head| + 2 ensures t[k] == (" " + head + " ")[k] {}
    forall k | 0 <= k < |link| ensures t[|head| + 1 + k] == link[k] {}
    forall k | 0 <= k < |rest| + 2 ensures t[|head| + |link| + k] == (" " + rest + " ")[k] {}
  }

  lemma LinkedApart(head: string, link: string, rest: string, pat: string)
    requires BlankEnded(link) && BlankEnded(pat) && pat != link
    requires Absent(" " + head + " ", pat) && Absent(" " + rest + " ", pat)
    ensures Absent(" " + (head + link + rest) + " ", pat)
  {
    LinkStands(head, link, rest);
    AbsentAcross(" " + (head + link + rest) + " ", " " + head + " ", link, " " + rest + " ", |head| + 1, pat);
  }

  lemma LowerOfThree(a: string, b: string, c: string)
    ensures Lower(a + b + c) == Lower(a) + Lower(b) + Lower(c)
  {
    LowerOfConcat(a, b);
    LowerOfConcat(a + b, c);
  }

  /** A pattern that stands in no name stands nowhere in names joined by another. */
  lemma {:induction false} JoinedApart(parts: seq<string>, word: string, pat: string)
    requires parts != [] && BlankEnded(Lower(word)) && BlankEnded(pat) && pat != Lower(word)
    requires forall p :: p in parts ==> Apart(p, pat)
    ensures Apart(JoinWith(parts, word), pat)
  {
    assert parts[0] in parts;
    if |parts| > 1 {
      JoinedApart(parts[1..], word, pat);
      LowerOfThree(parts[0], word, JoinWith(parts[1..], word));
      LinkedApart(Lower(parts[0]), Lower(word), Lower(JoinWith(parts[1..], word)), pat);
    }
  }

  datatype Link = Collaboration(joiner: Joiner) | Featuring(word: string)

  function LinkText(link: Link): string {
    match link case Collaboration(j) => JoinText(j) case Featuring(word) => word
  }

  function Linked(parts: seq<string>, link: Link): string {
    JoinWith(parts, LinkText(link))
  }

  /** Two or more single names joined in any of the ways a credit is written; a comma only after several words. */
  ghost predicate SoloCredit(u: Tables, parts: seq<string>, link: Link) {
    && |parts| >= 2 && (forall p :: p in parts ==> SoloName(u, p))
    && match link
       case Collaboration(ByComma) => SeveralWords(parts[0])
       case Collaboration(ByWord(word)) => Lower(word) == " and "
       case Collaboration(_) => true
       case Featuring(word) => IsFeaturing(Lower(word))
  }

  lemma SoloNamesAreFree(u: Tables, parts: seq<string>)
    requires parts != [] && forall p :: p in parts ==> SoloName(u, p)
    ensures PlainNames(parts) && AllTight(parts) && FreeOf(parts, '|') && FreeOf(parts, '/')
    ensures FreeOf(parts, ';') && FreeOf(parts, '&') && FreeOf(parts, ',')
    ensures var last := parts[|parts| - 1]; last != "" && last[|last| - 1] !in ")]"
  {
    PlainNamesAreFree(parts);
  }

  lemma ApartBehind(p: string, pat: string)
    requires Apart(p, pat)
    ensures Absent(Lower(p) + " ", pat)
  {
    assert " " + Lower(p) + " " == " " + (Lower(p) + " ");
    AbsentWithin(" ", Lower(p), " ", pat);
  }

  lemma QuietBehind(p: string)
    requires Apart(p, " and ")
    ensures NoWordBehind(p)
  {
    ApartBehind(p, " and ");
    LowerWithBlank(p);
    AbsentIsNotFound(Lower(p + " "), " and ");
  }

  predicate IsCreditMark(c: char) {
    c == '|' || c == '/' || c == ';' || c == '&' || c == ','
  }

  predicate IsWordChar(c: char) {
    c == ' ' || c == '.' || 'a' <= c <= 'z'
  }

  predicate OfWordChars(s: string) {
    forall i :: 0 <= i < |s| ==> IsWordChar(s[i])
  }

  lemma FeaturingIsOfWordChars(pat: string)
    requires IsFeaturing(pat)
    ensures OfWordChars(pat)
  {
  }

  lemma LoweredHasNoMark(word: string, c: char)
    requires OfWordChars(Lower(word)) && IsCreditMark(c)
    ensures c !in word
  {
    forall i | 0 <= i < |word| ensures word[i] != c { assert IsWordChar(Lower(word)[i]); }
  }

  lemma WordHasNoMark(word: string, c: char)
    requires (Lower(word) == " and " || IsFeaturing(Lower(word))) && IsCreditMark(c)
    ensures c !in word
  {
    if IsFeaturing(Lower(word)) { FeaturingIsOfWordChars(Lower(word)); }
    LoweredHasNoMark(word, c);
  }

  lemma SoloIsPlainlyJoined(u: Tables, parts: seq<string>, j: Joiner)
    requires SoloCredit(u, parts, Collaboration(j))
    ensures PlainlyJoined(parts, j)
  {
    SoloNamesAreFree(u, parts);
    if j.ByWord? {
      WordHasNoMark(j.word, '|');
      WordHasNoMark(j.word, '/');
      forall p | p in parts ensures NoWordBehind(p) { QuietBehind(p); }
    }
  }

  // Featured names.

  lemma FeaturedPlain(u: Tables, parts: seq<string>, word: string)
    requires SoloCredit(u, parts, Featuring(word))
    ensures Plain(JoinWith(parts, word)) && SplitCollab(JoinWith(parts, word)) == None
  {
    var s := JoinWith(parts, word);
    SoloNamesAreFree(u, parts);
    WordHasNoMark(word, '|');
    WordHasNoMark(word, '/');
    WordHasNoMark(word, ';');
    WordHasNoMark(word, '&');
    WordHasNoMark(word, ',');
    JoinedIsPlain(parts, word);
    NotInJoined(parts, word, ';');
    NotInJoined(parts, word, '&');
    NotInJoined(parts, word, ',');
    FeaturedCollab(u, parts, word);
  }

  lemma FeaturedCollab(u: Tables, parts: seq<string>, word: string)
    requires SoloCredit(u, parts, Featuring(word))
    requires var s := JoinWith(parts, word); ';' !in s && '&' !in s && ',' !in s
    ensures SplitCollab(JoinWith(parts, word)) == None
  {
    var s := JoinWith(parts, word);
    NoEarlierDelimiter(s);
    NotFoundWhole(s, ',');
    FeaturingIsBlankEnded(Lower(word));
    JoiningWordIsBlankEnded();
    JoinedApart(parts, word, " and ");
    QuietIsUncut(s, " and ");
  }

  lemma UncutByOther(u: Tables, parts: seq<string>, word: string, pat: string)
    requires SoloCredit(u, parts, Featuring(word)) && IsFeaturing(pat) && pat != Lower(word)
    requires forall p :: p in parts ==> Apart(p, pat)
    ensures PartsCi(JoinWith(parts, word), pat).None?
  {
    FeaturingIsBlankEnded(Lower(word));
    FeaturingIsBlankEnded(pat);
    JoinedApart(parts, word, pat);
    QuietIsUncut(JoinWith(parts, word), pat);
  }

  lemma OnlyOwnCut(u: Tables, parts: seq<string>, word: string)
    requires SoloCredit(u, parts, Featuring(word))
    ensures OnlyCut(JoinWith(parts, word), Lower(word))
  {
    if Lower(word) != " feat. " { UncutByOther(u, parts, word, " feat. "); }
    if Lower(word) != " ft. " { UncutByOther(u, parts, word, " ft. "); }
    if Lower(word) != " feat " { UncutByOther(u, parts, word, " feat "); }
    if Lower(word) != " ft " { UncutByOther(u, parts, word, " ft "); }
    if Lower(word) != " featuring " { UncutByOther(u, parts, word, " featuring "); }
  }

  lemma SoloIsApart(u: Tables, p: string, pat: string)
    requires SoloName(u, p) && IsFeaturing(pat)
    ensures Apart(p, pat)
  {
  }

  lemma OwnCuts(u: Tables, parts: seq<string>, word: string)
    requires SoloCredit(u, parts, Featuring(word))
    ensures PartsCi(JoinWith(parts, word), Lower(word)) == Some(parts)
  {
    var s, pat := JoinWith(parts, word), Lower(word);
    SoloNamesAreFree(u, parts);
    FeaturingIsBlankEnded(pat);
    forall p | p in parts ensures Absent(Lower(p) + " ", pat) {
      SoloIsApart(u, p, pat);
      ApartBehind(p, pat);
    }
    PatternCuts("", 0, parts, word, []);
    assert "" + s == s && [] + parts == parts;
    if Find(Lower(s), pat).None? { UncutHasOnePart(s, pat); }
  }

  /** A credit of single names is plain and splits into exactly those. */
  lemma LinkedSplits(u: Tables, parts: seq<string>, link: Link)
    requires SoloCredit(u, parts, link)
    ensures Plain(Linked(parts, link)) && CreditParts(Linked(parts, link)) == Some(parts)
  {
    match link
    case Collaboration(j) =>
      SoloIsPlainlyJoined(u, parts, j);
      PlainlyJoinedIsPlain(parts, j);
      JoinedBySplits(parts, j);
    case Featuring(word) =>
      FeaturedPlain(u, parts, word);
      OnlyOwnCut(u, parts, word);
      SplitsWhereFound(JoinWith(parts, word), Lower(word));
      OwnCuts(u, parts, word);
  }

  // ---------------------------------------------------------------------------
  // One contributor for each key
  // ---------------------------------------------------------------------------

  /** Every contributor is one of the names, no two share a key, and every name's key is some contributor's. */
  ghost predicate OneForEachKey(u: Tables, parts: seq<string>, r: seq<string>) {
    && (forall m :: m in r ==> m in parts)
    && (forall i, j :: 0 <= i < j < |r| ==> ArtistFoldKey(u, r[i]) != ArtistFoldKey(u, r[j]))
    && (forall p :: p in parts ==> exists m :: m in r && ArtistFoldKey(u, m) == ArtistFoldKey(u, p))
  }

  lemma CreditsCons(u: Tables, parts: seq<string>, bound: nat)
    requires parts != [] && forall p :: p in parts ==> |p| < bound
    ensures forall p :: p in parts[1..] ==> |p| < bound
    ensures CreditsOfAll(u, parts, bound) == Credits(u, parts[0]) + CreditsOfAll(u, parts[1..], bound)
  {
  }

  lemma {:induction false} CreditsOfSolos(u: Tables, parts: seq<string>, bound: nat)
    requires (forall p :: p in parts ==> |p| < bound) && forall p :: p in parts ==> Credits(u, p) == [p]
    ensures CreditsOfAll(u, parts, bound) == parts
  {
    if parts != [] {
      CreditsCons(u, parts, bound);
      CreditsOfSolos(u, parts[1..], bound);
      assert parts[0] in parts && parts == [parts[0]] + parts[1..];
    }
  }

  lemma FreshIsOneForEach(u: Tables, parts: seq<string>)
    requires forall p :: p in parts ==> SoloName(u, p)
    ensures OneForEachKey(u, parts, FreshBy(CreditKey(u), parts, {}))
  {
    var key, r := CreditKey(u), FreshBy(CreditKey(u), parts, {});
    forall m | m in r ensures m in parts { FreshAreMembers(key, parts, {}, m); }
    forall i, j | 0 <= i < j < |r| ensures ArtistFoldKey(u, r[i]) != ArtistFoldKey(u, r[j]) {
      FreshAreDistinct(key, parts, {}, i, j);
    }
    forall p | p in parts ensures exists m :: m in r && ArtistFoldKey(u, m) == ArtistFoldKey(u, p) {
      SoloKey(u, p);
      FreshKeepsEveryKey(key, parts, {}, p);
      var m :| m in r && key(m) == key(p);
    }
  }

  /** A credit of single names whose key is no listed act's gives one contributor for each key. */
  lemma SoloCreditSplits(u: Tables, parts: seq<string>, link: Link)
    requires SoloCredit(u, parts, link) && !KeyIsListed(u, Linked(parts, link))
    ensures OneForEachKey(u, parts, Credits(u, Linked(parts, link)))
  {
    var raw := Linked(parts, link);
    LinkedSplits(u, parts, link);
    PlainIsItsCore(u, raw);
    ListedIffKnown(u, raw);
    CreditsWhenSplit(u, raw);
    forall p | p in parts ensures Credits(u, p) == [p] { SoloCredits(u, p); }
    CreditsOfSolos(u, parts, |raw|);
    FreshIsOneForEach(u, parts);
    assert parts[0] in parts;
  }

  // ---------------------------------------------------------------------------
  // The splitter
  // ---------------------------------------------------------------------------

  lemma FreshHead(key: string -> string, member: string, rest: seq<string>, seen: set<string>)
    ensures FreshBy(key, [member] + rest, seen)
            == if key(member) == "" || key(member) in seen then FreshBy(key, rest, seen)
               else [member] + FreshBy(key, rest, seen + {key(member)})
  {
    assert ([member] + rest)[1..] == rest;
  }

  lemma PushedFirst(kept: seq<string>, member: string, rest: seq<string>)
    ensures kept + ([member] + rest) == (kept + [member]) + rest
  {
  }

  lemma HeadOfRest(members: seq<string>, b: nat, later: seq<string>)
    requires b < |members|
    ensures members[b..] + later == [members[b]] + (members[b + 1..] + later)
  {
  }

  /** The inner loop: members not yet seen are added, whatever members are still to come. */
  method KeepUnseen(u: Tables, members: seq<string>, before: seq<string>, already: set<string>,
                    ghost later: seq<string>)
    returns (kept: seq<string>, seen: set<string>)
    ensures kept + FreshBy(CreditKey(u), later, seen) == before + FreshBy(CreditKey(u), members + later, already)
  {
    kept, seen := before, already;
    ghost var goal := before + FreshBy(CreditKey(u), members + later, already);
    for b := 0 to |members|
      invariant kept + FreshBy(CreditKey(u), members[b..] + later, seen) == goal
    {
      HeadOfRest(members, b, later);
      FreshHead(CreditKey(u), members[b], members[b + 1..] + later, seen);
      var key := ArtistFoldKey(u, members[b]);
      assert key == CreditKey(u)(members[b]);
      PushedFirst(kept, members[b], FreshBy(CreditKey(u), members[b + 1..] + later, seen + {key}));
      if key != "" && key !in seen {
        kept, seen := kept + [members[b]], seen + {key};
      }
    }
    assert members[|members|..] + later == later;
  }

  method SplitArtistCredit(u: Tables, raw: string) returns (r: seq<string>)
    ensures r == Credits(u, raw)
    ensures KeyIsListed(u, Trim(raw)) ==> r == [u.nfc(Trim(raw))]
    ensures forall parts, link :: raw == Linked(parts, link) && SoloCredit(u, parts, link) && !KeyIsListed(u, raw) ==>
              OneForEachKey(u, parts, r)
    decreases |raw|, 1
  {
    ListedIffKnown(u, Trim(raw));
    forall parts, link | raw == Linked(parts, link) && SoloCredit(u, parts, link) && !KeyIsListed(u, raw)
      ensures OneForEachKey(u, parts, Credits(u, raw))
    {
      SoloCreditSplits(u, parts, link);
    }
    var trimmed := Trim(raw);
    if trimmed == "" {
      return [];
    }
    if IsKnownSingleAct(u, trimmed) {
      return [u.nfc(trimmed)];
    }
    var unbracketed := StripTrailingParentheticals(WithoutWatermark(trimmed));
    var core := CollapseSelfSlash(u, unbracketed);
    var split := SplitCollab(core);
    if split.None? {
      split := SplitOnFeatFt(core);
    }
    if split.None? {
      return [ArtistDisplayForm(u, trimmed)];
    }
    CreditPartsAreShorter(core);
    r := SplitMembers(u, split.value, |raw|);
    if r == [] {
      r := [ArtistDisplayForm(u, trimmed)];
    }
  }

  method SplitMembers(u: Tables, parts: seq<string>, bound: nat) returns (r: seq<string>)
    requires forall p :: p in parts ==> |p| < bound
    ensures r == FreshBy(CreditKey(u), CreditsOfAll(u, parts, bound), {})
    decreases bound, 0
  {
    var seen: set<string> := {};
    r := [];
    for a := 0 to |parts|
      invariant r + FreshBy(CreditKey(u), CreditsOfAll(u, parts[a..], bound), seen)
                == FreshBy(CreditKey(u), CreditsOfAll(u, parts, bound), {})
    {
      assert parts[a] in parts && parts[a..][1..] == parts[a + 1..];
      var members := SplitArtistCredit(u, parts[a]);
      r, seen := KeepUnseen(u, members, r, seen, CreditsOfAll(u, parts[a + 1..], bound));
    }
  }
}
