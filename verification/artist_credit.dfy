/** What splitting a credit yields, and what its fold key depends on. */
module ArtistCredit {
  import opened Common
  import opened Text
  import opened TextLemmas
  import opened SortedText
  import opened ArtistName

  // ---------------------------------------------------------------------------
  // Contributors
  // ---------------------------------------------------------------------------

  /** Composition never empties a text. */
  ghost predicate NfcKeepsContent(u: Tables) {
    forall s :: s != "" ==> u.nfc(s) != ""
  }

  /** A credit with content is displayed with content. */
  lemma DisplayHasContent(u: Tables, raw: string)
    requires NfcKeepsContent(u) && Trim(raw) != ""
    ensures ArtistDisplayForm(u, raw) != ""
  {
  }

  lemma {:induction false} FreshAreMembers(key: string -> string, members: seq<string>, seen: set<string>, m: string)
    requires m in FreshBy(key, members, seen)
    ensures m in members && key(m) != "" && key(m) !in seen
  {
    if key(members[0]) == "" || key(members[0]) in seen {
      FreshAreMembers(key, members[1..], seen, m);
    } else if m != members[0] {
      FreshAreMembers(key, members[1..], seen + {key(members[0])}, m);
    }
  }

  lemma {:induction false} FreshAreDistinct(key: string -> string, members: seq<string>, seen: set<string>,
                                            i: nat, j: nat)
    requires i < j < |FreshBy(key, members, seen)|
    ensures var kept := FreshBy(key, members, seen); key(kept[i]) != key(kept[j])
  {
    if key(members[0]) == "" || key(members[0]) in seen {
      FreshAreDistinct(key, members[1..], seen, i, j);
    } else {
      var rest := FreshBy(key, members[1..], seen + {key(members[0])});
      if i == 0 {
        assert rest[j - 1] in rest;
        FreshAreMembers(key, members[1..], seen + {key(members[0])}, rest[j - 1]);
      } else {
        FreshAreDistinct(key, members[1..], seen + {key(members[0])}, i - 1, j - 1);
      }
    }
  }

  ghost predicate Represented(key: string -> string, list: seq<string>, k: string) {
    exists m :: m in list && key(m) == k
  }

  lemma {:induction false} FreshKeepsEveryKey(key: string -> string, members: seq<string>, seen: set<string>, m: string)
    requires m in members && key(m) != "" && key(m) !in seen
    ensures Represented(key, FreshBy(key, members, seen), key(m))
  {
    var head := members[0];
    var kept := FreshBy(key, members, seen);
    if key(head) == "" || key(head) in seen {
      FreshKeepsEveryKey(key, members[1..], seen, m);
    } else if key(head) == key(m) {
      assert kept[0] == head && head in kept;
    } else {
      FreshKeepsEveryKey(key, members[1..], seen + {key(head)}, m);
      var rest := FreshBy(key, members[1..], seen + {key(head)});
      var r :| r in rest && key(r) == key(m);
      assert r in kept;
    }
  }

  /** What the contributors are where the credit splits into parts. */
  lemma CreditsWhenSplit(u: Tables, raw: string)
    requires Trim(raw) != "" && !IsKnownSingleAct(u, Trim(raw)) && CreditParts(Core(u, Trim(raw))).Some?
    ensures var parts := CreditParts(Core(u, Trim(raw))).value;
            && (forall p :: p in parts ==> |p| < |raw|)
            && (var members := FreshBy(CreditKey(u), CreditsOfAll(u, parts, |raw|), {});
                Credits(u, raw) == if members == [] then [ArtistDisplayForm(u, Trim(raw))] else members)
  {
    CreditPartsAreShorter(Core(u, Trim(raw)));
  }

  /** A credit with content has contributors, and each is named; a blank one has none. */
  lemma {:induction false} ContributorsAreNamed(u: Tables, raw: string)
    requires NfcKeepsContent(u)
    ensures Credits(u, raw) == [] <==> Trim(raw) == ""
    ensures forall m :: m in Credits(u, raw) ==> m != ""
    decreases |raw|, 1, 0
  {
    var trimmed := Trim(raw);
    if trimmed != "" && !IsKnownSingleAct(u, trimmed) {
      TrimTwice(raw);
      DisplayHasContent(u, trimmed);
      if CreditParts(Core(u, trimmed)).Some? {
        CreditsWhenSplit(u, raw);
        SplitMembersAreNamed(u, CreditParts(Core(u, trimmed)).value, |raw|);
      }
    }
  }

  lemma SplitMembersAreNamed(u: Tables, parts: seq<string>, bound: nat)
    requires NfcKeepsContent(u) && forall p :: p in parts ==> |p| < bound
    ensures forall m :: m in FreshBy(CreditKey(u), CreditsOfAll(u, parts, bound), {}) ==> m != ""
    decreases bound, 0, |parts| + 1
  {
    var all := CreditsOfAll(u, parts, bound);
    AllAreNamed(u, parts, bound);
    forall m | m in FreshBy(CreditKey(u), all, {}) ensures m != "" {
      FreshAreMembers(CreditKey(u), all, {}, m);
    }
  }

  lemma {:induction false} AllAreNamed(u: Tables, parts: seq<string>, bound: nat)
    requires NfcKeepsContent(u) && forall p :: p in parts ==> |p| < bound
    ensures forall m :: m in CreditsOfAll(u, parts, bound) ==> m != ""
    decreases bound, 0, |parts|
  {
    if parts != [] {
      ContributorsAreNamed(u, parts[0]);
      AllAreNamed(u, parts[1..], bound);
    }
  }

  lemma TrimTwice(s: string)
    ensures Trim(Trim(s)) == Trim(s)
  {
    TrimStartEmptyIff(s);
    var t := TrimStart(s);
    if t != "" {
      TrimEndOfConcat("", t);
    }
  }

  /** Two or more contributors have pairwise distinct, non-empty keys. */
  lemma ContributorsAreDistinct(u: Tables, raw: string, i: nat, j: nat)
    requires i < j < |Credits(u, raw)|
    ensures var credits := Credits(u, raw);
            && ArtistFoldKey(u, credits[i]) != "" && ArtistFoldKey(u, credits[j]) != ""
            && ArtistFoldKey(u, credits[i]) != ArtistFoldKey(u, credits[j])
  {
    CreditsWhenSplit(u, raw);
    var all := CreditsOfAll(u, CreditParts(Core(u, Trim(raw))).value, |raw|);
    var credits := Credits(u, raw);
    FreshAreDistinct(CreditKey(u), all, {}, i, j);
    FreshAreMembers(CreditKey(u), all, {}, credits[i]);
    FreshAreMembers(CreditKey(u), all, {}, credits[j]);
    KeyIsFoldKey(u, credits[i]);
    KeyIsFoldKey(u, credits[j]);
  }

  lemma {:induction false} AllHoldsEach(u: Tables, parts: seq<string>, bound: nat, part: string, m: string)
    requires part in parts && m in Credits(u, part) && forall p :: p in parts ==> |p| < bound
    ensures m in CreditsOfAll(u, parts, bound)
  {
    if part != parts[0] { AllHoldsEach(u, parts[1..], bound, part, m); }
  }

  /** Splitting loses nobody: every contributor of every part is represented by key. */
  lemma EveryContributorIsRepresented(u: Tables, raw: string, part: string, m: string)
    requires Trim(raw) != "" && !IsKnownSingleAct(u, Trim(raw))
    requires CreditParts(Core(u, Trim(raw))).Some? && part in CreditParts(Core(u, Trim(raw))).value
    requires m in Credits(u, part) && ArtistFoldKey(u, m) != ""
    ensures Represented(CreditKey(u), Credits(u, raw), ArtistFoldKey(u, m))
  {
    CreditsWhenSplit(u, raw);
    var parts := CreditParts(Core(u, Trim(raw))).value;
    var all := CreditsOfAll(u, parts, |raw|);
    AllHoldsEach(u, parts, |raw|, part, m);
    KeyIsFoldKey(u, m);
    FreshKeepsEveryKey(CreditKey(u), all, {}, m);
  }

  lemma KeyIsFoldKey(u: Tables, m: string)
    ensures CreditKey(u)(m) == ArtistFoldKey(u, m)
  {
  }

  // ---------------------------------------------------------------------------
  // Joining and splitting
  // ---------------------------------------------------------------------------

  datatype Separator = Semicolon | Ampersand | Comma

  function SepText(sep: Separator): string {
    match sep case Semicolon => ";" case Ampersand => " & " case Comma => ","
  }

  function MarkOf(sep: Separator): char {
    match sep case Semicolon => ';' case Ampersand => '&' case Comma => ','
  }

  ghost predicate FreeOf(parts: seq<string>, c: char) {
    forall p :: p in parts ==> c !in p
  }

  /** Two or more trimmed parts without a semicolon, and without an ampersand where that joins them. */
  ghost predicate Joinable(parts: seq<string>, sep: Separator) {
    && !sep.Comma? && |parts| >= 2 && (forall p :: p in parts ==> Tight(p))
    && FreeOf(parts, ';') && FreeOf(parts, MarkOf(sep))
  }

  lemma FoundFirst(before: string, part: string, sep: Separator, rest: string, s: string)
    requires MarkOf(sep) !in part && s == before + part + SepText(sep) + rest
    ensures FindFrom(s, SepText(sep), |before|) == Some(|before| + |part|)
  {
    var pat := SepText(sep);
    var end := |before| + |part|;
    var k := |pat| / 2;
    assert pat[k] == MarkOf(sep);
    assert s[end..end + |pat|] == pat;
    forall j: nat | |before| <= j < end ensures !FoundAt(s, pat, j) {
      if j + |pat| <= |s| {
        assert s[j..j + |pat|][k] == s[j + k];
        assert j + k < end ==> s[j + k] == part[j + k - |before|];
        assert j + k == end ==> s[j + k] == pat[0];
      }
    }
    FindFromIs(s, pat, |before|, end);
  }

  lemma NotFoundAfter(before: string, part: string, sep: Separator)
    requires MarkOf(sep) !in part
    ensures FindFrom(before + part, SepText(sep), |before|) == None
  {
    var pat, s := SepText(sep), before + part;
    var k := |pat| / 2;
    forall j: nat | |before| <= j ensures !FoundAt(s, pat, j) {
      if j + |pat| <= |s| {
        assert s[j..j + |pat|][k] == s[j + k] == part[j + k - |before|];
      }
    }
    FindFromIsNone(s, pat, |before|);
  }

  lemma PartInside(before: string, part: string, pat: string, rest: string, s: string)
    requires s == before + part + pat + rest
    ensures |before| + |part| + |pat| == |before + part + pat| <= |s|
    ensures s[|before|..|before| + |part|] == part
  {
  }

  lemma JoinedStep(before: string, head: string, sep: Separator, rest: string, s: string)
    requires MarkOf(sep) !in head && s == before + head + SepText(sep) + rest
    ensures Raw(s, s, SepText(sep), |before|) == [head] + Raw(s, s, SepText(sep), |before + head + SepText(sep)|)
  {
    FoundFirst(before, head, sep, rest, s);
    PartInside(before, head, SepText(sep), rest, s);
    RawUnfolds(s, s, SepText(sep), |before|, |before| + |head|);
  }

  lemma JoinedEnd(before: string, last: string, sep: Separator)
    requires MarkOf(sep) !in last
    ensures Raw(before + last, before + last, SepText(sep), |before|) == [last]
  {
    NotFoundAfter(before, last, sep);
    assert (before + last)[|before|..] == last;
  }

  /** Cutting a joined text at its separators gives back its parts. */
  lemma {:induction false} JoinedSplits(before: string, parts: seq<string>, sep: Separator)
    requires parts != [] && FreeOf(parts, MarkOf(sep))
    ensures var s := before + JoinWith(parts, SepText(sep)); Raw(s, s, SepText(sep), |before|) == parts
    decreases |parts|
  {
    var head, pat := parts[0], SepText(sep);
    assert head in parts;
    assert parts == [head] + parts[1..];
    if |parts| == 1 {
      JoinedEnd(before, head, sep);
    } else {
      var rest := JoinWith(parts[1..], pat);
      JoinedText(before, head, pat, rest);
      JoinedStep(before, head, sep, rest, before + head + pat + rest);
      JoinedSplits(before + head + pat, parts[1..], sep);
    }
  }

  lemma {:induction false} TightPiecesStay(kept: seq<string>, parts: seq<string>)
    requires forall p :: p in parts ==> Tight(p)
    ensures PushAll(kept, parts) == kept + parts
    decreases |parts|
  {
    if parts != [] {
      assert parts[0] in parts;
      TightIsTrimmed(parts[0]);
      TightPiecesStay(kept + [parts[0]], parts[1..]);
      assert kept + parts == (kept + [parts[0]]) + parts[1..];
    }
  }

  lemma JoinedText(before: string, head: string, pat: string, rest: string)
    ensures before + (head + pat + rest) == before + head + pat + rest
  {
  }

  lemma {:induction false} NotInJoined(parts: seq<string>, sep: string, c: char)
    requires FreeOf(parts, c) && c !in sep
    ensures c !in JoinWith(parts, sep)
  {
    if parts != [] {
      assert parts[0] in parts;
      if |parts| > 1 {
        NotInJoined(parts[1..], sep, c);
        assert JoinWith(parts, sep) == parts[0] + sep + JoinWith(parts[1..], sep);
      }
    }
  }

  lemma NoCharNoFind(s: string, c: char)
    ensures Find(s, [c]).Some? <==> c in s
  {
    if c in s {
      var i: nat :| i < |s| && s[i] == c;
      assert s[i..i + 1] == [c];
      assert FoundAt(s, [c], i);
    }
    if Find(s, [c]).Some? {
      var i := Find(s, [c]).value;
      assert s[i..i + 1][0] == s[i];
    }
  }

  lemma JoinedIsFound(parts: seq<string>, sep: Separator)
    requires Joinable(parts, sep)
    ensures Find(JoinWith(parts, SepText(sep)), SepText(sep)).Some?
  {
    assert parts[0] in parts;
    assert "" + parts[0] == parts[0];
    FoundFirst("", parts[0], sep, JoinWith(parts[1..], SepText(sep)), JoinWith(parts, SepText(sep)));
  }

  lemma JoinedPieces(parts: seq<string>, sep: Separator)
    requires Joinable(parts, sep)
    ensures var s := JoinWith(parts, SepText(sep)); Parts(s, s, SepText(sep), 0, []) == Some(parts)
  {
    JoinedSplits("", parts, sep);
    assert "" + JoinWith(parts, SepText(sep)) == JoinWith(parts, SepText(sep));
    TightPiecesStay([], parts);
    assert [] + parts == parts;
  }

  /** A joined credit splits into exactly the parts it was joined from. */
  lemma JoinedCreditSplits(parts: seq<string>, sep: Separator)
    requires Joinable(parts, sep)
    ensures SplitCollab(JoinWith(parts, SepText(sep))) == Some(parts)
  {
    var s := JoinWith(parts, SepText(sep));
    JoinedIsFound(parts, sep);
    JoinedPieces(parts, sep);
    if sep.Ampersand? {
      NotInJoined(parts, " & ", ';');
      NoCharNoFind(s, ';');
    }
  }

  // ---------------------------------------------------------------------------
  // The collaboration key
  // ---------------------------------------------------------------------------

  /** The parts fold to the same set of non-empty keys. */
  ghost predicate SameFolds(u: Tables, a: seq<string>, b: seq<string>) {
    forall x :: x in FoldParts(u, a) <==> x in FoldParts(u, b)
  }

  lemma {:induction false} FoldPartsMembers(u: Tables, parts: seq<string>, x: string)
    ensures x in FoldParts(u, parts) <==> x != "" && exists p :: p in parts && FoldPart(u, p) == x
  {
    if parts != [] {
      FoldPartsMembers(u, parts[1..], x);
      assert parts == [parts[0]] + parts[1..];
      assert parts[0] in parts;
    }
  }

  /** Permuting or repeating parts leaves their folds the same. */
  lemma SamePartsSameFolds(u: Tables, a: seq<string>, b: seq<string>)
    requires forall p :: p in a <==> p in b
    ensures SameFolds(u, a, b)
  {
    forall x ensures x in FoldParts(u, a) <==> x in FoldParts(u, b) {
      FoldPartsMembers(u, a, x);
      FoldPartsMembers(u, b, x);
    }
  }

  lemma KeyOfJoined(u: Tables, parts: seq<string>, sep: Separator)
    requires Joinable(parts, sep)
    ensures var folded := FoldParts(u, parts);
            CollabFoldKey(u, JoinWith(parts, SepText(sep)))
            == if folded == [] then None else Some(JoinWith(Dedup(Sort(folded)), " & "))
  {
    JoinedCreditSplits(parts, sep);
  }

  /** Parts with the same folds give the same key, in any order, with any repetition, joined either way. */
  lemma SameFoldsSameKey(u: Tables, a: seq<string>, sepA: Separator, b: seq<string>, sepB: Separator)
    requires Joinable(a, sepA) && Joinable(b, sepB) && SameFolds(u, a, b)
    ensures CollabFoldKey(u, JoinWith(a, SepText(sepA))) == CollabFoldKey(u, JoinWith(b, SepText(sepB)))
  {
    KeyOfJoined(u, a, sepA);
    KeyOfJoined(u, b, sepB);
    var fa, fb := FoldParts(u, a), FoldParts(u, b);
    assert fa != [] ==> fa[0] in fb;
    assert fb != [] ==> fb[0] in fa;
    SortDedupForgetsRepeats(fa, fb);
  }

  /** No character's lower case holds an ampersand. */
  ghost predicate LowerFreeOfAmpersand(u: Tables) {
    forall c :: '&' !in u.lower(c)
  }

  lemma {:induction false} FoldAllFree(u: Tables, s: string)
    requires LowerFreeOfAmpersand(u)
    ensures '&' !in FoldAll(u, s).text
  {
    if s != "" { FoldAllFree(u, s[..|s| - 1]); }
  }

  lemma {:induction false} FoldPartsFree(u: Tables, parts: seq<string>)
    requires LowerFreeOfAmpersand(u)
    ensures FreeOf(FoldParts(u, parts), '&')
  {
    if parts != [] {
      FoldPartsFree(u, parts[1..]);
      FoldAllFree(u, u.nfd(ReorderLastFirst(CollapseSelfSlash(u, Unbracketed(parts[0])))));
    }
  }

  lemma FirstAmpersand(head: string, rest: string)
    requires '&' !in head
    ensures var s := head + " & " + rest;
            s[|head| + 1] == '&' && forall j :: 0 <= j < |head| + 1 ==> s[j] != '&'
    ensures (head + " & " + rest)[..|head|] == head && (head + " & " + rest)[|head| + 3..] == rest
  {
  }

  lemma {:induction false} AmpersandJoinIsInjective(a: seq<string>, b: seq<string>)
    requires a != [] && b != [] && FreeOf(a, '&') && FreeOf(b, '&')
    requires JoinWith(a, " & ") == JoinWith(b, " & ")
    ensures a == b
    decreases |a|
  {
    assert a[0] in a && b[0] in b;
    assert a == [a[0]] + a[1..] && b == [b[0]] + b[1..];
    if |a| > 1 { FirstAmpersand(a[0], JoinWith(a[1..], " & ")); }
    if |b| > 1 { FirstAmpersand(b[0], JoinWith(b[1..], " & ")); }
    if |a| > 1 && |b| > 1 {
      assert |a[0]| == |b[0]|;
      AmpersandJoinIsInjective(a[1..], b[1..]);
    }
  }

  lemma DedupSortMembers(s: seq<string>)
    ensures forall x :: x in Dedup(Sort(s)) <==> x in s
    ensures s != [] ==> Dedup(Sort(s)) != []
  {
    DedupOfSorted(Sort(s));
    forall x ensures x in Sort(s) <==> x in s {
      assert x in Sort(s) <==> x in multiset(Sort(s));
      assert x in s <==> x in multiset(s);
    }
    assert |Sort(s)| == |multiset(Sort(s))| == |multiset(s)| == |s|;
  }

  lemma EqualKeysEqualFolds(fa: seq<string>, fb: seq<string>)
    requires fa != [] && fb != [] && FreeOf(fa, '&') && FreeOf(fb, '&')
    requires JoinWith(Dedup(Sort(fa)), " & ") == JoinWith(Dedup(Sort(fb)), " & ")
    ensures forall x :: x in fa <==> x in fb
  {
    DedupSortMembers(fa);
    DedupSortMembers(fb);
    AmpersandJoinIsInjective(Dedup(Sort(fa)), Dedup(Sort(fb)));
  }

  /** Joined credits share a collaboration key exactly when their parts fold to the same set. */
  lemma SameKeyIff(u: Tables, a: seq<string>, sepA: Separator, b: seq<string>, sepB: Separator)
    requires Joinable(a, sepA) && Joinable(b, sepB) && LowerFreeOfAmpersand(u)
    ensures CollabFoldKey(u, JoinWith(a, SepText(sepA))) == CollabFoldKey(u, JoinWith(b, SepText(sepB)))
            <==> SameFolds(u, a, b)
  {
    if SameFolds(u, a, b) {
      SameFoldsSameKey(u, a, sepA, b, sepB);
    }
    if CollabFoldKey(u, JoinWith(a, SepText(sepA))) == CollabFoldKey(u, JoinWith(b, SepText(sepB))) {
      KeyOfJoined(u, a, sepA);
      KeyOfJoined(u, b, sepB);
      FoldPartsFree(u, a);
      FoldPartsFree(u, b);
      var fa, fb := FoldParts(u, a), FoldParts(u, b);
      if fa != [] {
        EqualKeysEqualFolds(fa, fb);
      }
    }
  }
}
