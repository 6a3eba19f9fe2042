/** Credits joined by any of the four delimiters, and the key they share. */
module ArtistJoined {
  import opened Common
  import opened Text
  import opened TextLemmas
  import opened SortedText
  import opened ArtistName
  import opened ArtistCredit
  import opened ArtistDisplay

  /** A semicolon, an ampersand, the joining word in any case, or a comma behind a name of several words. */
  datatype Joiner = BySemicolon | ByAmpersand | ByWord(word: string) | ByComma

  function JoinText(j: Joiner): string {
    match j
    case BySemicolon => ";"
    case ByAmpersand => " & "
    case ByWord(word) => word
    case ByComma => ", "
  }

  /** The joining word does not stand inside the part, nor at its end. */
  predicate NoWordBehind(part: string) {
    Find(Lower(part + " "), " and ").None?
  }

  ghost predicate NoWordsBehind(parts: seq<string>) {
    forall p :: p in parts ==> NoWordBehind(p)
  }

  ghost predicate NoWordsInside(parts: seq<string>) {
    forall p :: p in parts ==> NoJoiningWord(p)
  }

  /** Two or more trimmed parts that hold no delimiter looked for before theirs, nor their own. */
  ghost predicate JoinableBy(parts: seq<string>, j: Joiner) {
    && |parts| >= 2 && AllTight(parts) && FreeOf(parts, ';')
    && match j
       case BySemicolon => true
       case ByAmpersand => FreeOf(parts, '&')
       case ByWord(word) => Lower(word) == " and " && FreeOf(parts, '&') && NoWordsBehind(parts)
       case ByComma => FreeOf(parts, '&') && FreeOf(parts, ',') && NoWordsInside(parts) && SeveralWords(parts[0])
  }

  // ---------------------------------------------------------------------------
  // The joining word
  // ---------------------------------------------------------------------------

  lemma LowerKeeps(s: string, c: char)
    requires LowerAscii(c) == c && c in s
    ensures c in Lower(s)
  {
    var i :| 0 <= i < |s| && s[i] == c;
    assert Lower(s)[i] == c;
  }

  lemma WordShape(word: string)
    requires Lower(word) == " and "
    ensures '&' !in word && ';' !in word
  {
    if '&' in word { LowerKeeps(word, '&'); }
    if ';' in word { LowerKeeps(word, ';'); }
  }

  /** Character by character, the text stands in the guide from `i` on. */
  predicate Stands(guide: string, i: nat, text: string) {
    i + |text| <= |guide| && forall k :: 0 <= k < |text| ==> guide[i + k] == text[k]
  }

  lemma StandsIff(guide: string, i: nat, text: string)
    ensures Stands(guide, i, text) <==> FoundAt(guide, text, i)
  {
    if i + |text| <= |guide| {
      var slice := guide[i..i + |text|];
      assert forall k :: 0 <= k < |text| ==> slice[k] == guide[i + k];
      if Stands(guide, i, text) { assert slice == text; }
    }
  }

  lemma StandsAt(guide: string, i: nat, text: string, k: nat)
    requires k < |text|
    ensures Stands(guide, i, text) ==> guide[i + k] == text[k]
  {
  }

  lemma LowerStands(s: string, i: nat, text: string)
    requires Stands(s, i, text)
    ensures Stands(Lower(s), i, Lower(text))
  {
    forall k | 0 <= k < |text| ensures Lower(s)[i + k] == Lower(text)[k] {
      assert s[i + k] == text[k];
    }
  }

  /** A pattern that has blanks at its ends only. */
  predicate BlankEnded(pat: string) {
    |pat| >= 3 && pat[0] == ' ' && pat[|pat| - 1] == ' ' && forall k :: 0 < k < |pat| - 1 ==> pat[k] != ' '
  }

  lemma StandsInPart(guide: string, start: nat, part: string, pat: string, i: nat)
    requires Stands(guide, start, part) && start + |part| < |guide| && guide[start + |part|] == ' '
    requires start <= i && i + |pat| <= start + |part| + 1 && Stands(guide, i, pat)
    ensures Stands(part + " ", i - start, pat)
  {
    var m := i - start;
    forall k | 0 <= k < |pat| ensures (part + " ")[m + k] == pat[k] {
      assert guide[i + k] == pat[k];
      if m + k < |part| { assert guide[start + (m + k)] == part[m + k]; }
    }
  }

  /** The pattern stands nowhere in the text. */
  ghost predicate Absent(text: string, pat: string) {
    forall i: nat :: !Stands(text, i, pat)
  }

  lemma NotFoundIsAbsent(text: string, pat: string)
    requires Find(text, pat).None?
    ensures Absent(text, pat)
  {
    forall i: nat ensures !Stands(text, i, pat) { StandsIff(text, i, pat); }
  }

  /** Such a pattern does not begin inside a part that a blank follows, if it does not in the part and a blank. */
  lemma NotInsidePart(guide: string, start: nat, part: string, pat: string, i: nat)
    requires BlankEnded(pat) && Stands(guide, start, part)
    requires start + |part| < |guide| && guide[start + |part|] == ' '
    requires Absent(part + " ", pat) && start <= i < start + |part|
    ensures !Stands(guide, i, pat)
  {
    var k := start + |part| - i;
    if k < |pat| - 1 {
      StandsAt(guide, i, pat, k);
    } else if Stands(guide, i, pat) {
      StandsInPart(guide, start, part, pat, i);
    }
  }

  /** From `start` on, the pattern first stands at `end`. */
  ghost predicate FirstStands(guide: string, pat: string, start: nat, end: nat) {
    start <= end && Stands(guide, end, pat) && forall i: nat :: start <= i < end ==> !Stands(guide, i, pat)
  }

  lemma FirstWordStands(guide: string, start: nat, part: string, pat: string)
    requires BlankEnded(pat) && Stands(guide, start, part) && Stands(guide, start + |part|, pat)
    requires Absent(part + " ", pat)
    ensures FirstStands(guide, pat, start, start + |part|)
  {
    StandsAt(guide, start + |part|, pat, 0);
    forall i: nat | start <= i < start + |part| ensures !Stands(guide, i, pat) {
      NotInsidePart(guide, start, part, pat, i);
    }
  }

  lemma FirstStandsIsFound(guide: string, pat: string, start: nat, end: nat)
    requires FirstStands(guide, pat, start, end)
    ensures FindFrom(guide, pat, start) == Some(end)
  {
    forall i: nat | start <= i < end ensures !FoundAt(guide, pat, i) { StandsIff(guide, i, pat); }
    StandsIff(guide, end, pat);
    FindFromIs(guide, pat, start, end);
  }

  lemma LowerWithBlank(part: string)
    ensures Lower(part) + " " == Lower(part + " ")
  {
    LowerOfConcat(part, " ");
    LowerIsStable(" ");
  }

  lemma AbsentInLower(part: string, pat: string)
    requires Find(Lower(part + " "), pat).None?
    ensures Absent(Lower(part) + " ", pat)
  {
    LowerWithBlank(part);
    NotFoundIsAbsent(Lower(part + " "), pat);
  }

  lemma StandsInEnd(guide: string, start: nat, part: string, pat: string, i: nat)
    requires Stands(guide, start, part) && start + |part| == |guide| && start <= i && Stands(guide, i, pat)
    ensures Stands(part + " ", i - start, pat)
  {
    var m := i - start;
    forall k | 0 <= k < |pat| ensures (part + " ")[m + k] == pat[k] {
      assert guide[i + k] == pat[k];
      assert guide[start + (m + k)] == part[m + k];
    }
  }

  lemma NoPatternFrom(guide: string, start: nat, part: string, pat: string)
    requires Absent(part + " ", pat) && Stands(guide, start, part) && start + |part| == |guide|
    ensures FindFrom(guide, pat, start) == None
  {
    forall i: nat | start <= i ensures !FoundAt(guide, pat, i) {
      StandsIff(guide, i, pat);
      if Stands(guide, i, pat) { StandsInEnd(guide, start, part, pat, i); }
    }
    FindFromIsNone(guide, pat, start);
  }

  lemma SumStands(before: string, head: string, word: string, rest: string)
    ensures Stands(before + head + word + rest, |before|, head)
    ensures Stands(before + head + word + rest, |before| + |head|, word)
  {
    var s := before + head + word + rest;
    forall k | 0 <= k < |head| ensures s[|before| + k] == head[k] {}
    forall k | 0 <= k < |word| ensures s[|before| + |head| + k] == word[k] {}
  }

  lemma HeadFirstStands(before: string, head: string, word: string, rest: string, i: nat, end: nat)
    requires BlankEnded(word) && Absent(head + " ", word) && i == |before| && end == i + |head|
    ensures FirstStands(before + head + word + rest, word, i, end)
  {
    SumStands(before, head, word, rest);
    FirstWordStands(before + head + word + rest, i, head, word);
  }

  /** Where a text goes on with a part and the word, the word is found behind the part. */
  lemma FoundBehind(before: string, head: string, word: string, rest: string, i: nat, end: nat)
    requires BlankEnded(word) && Absent(head + " ", word) && i == |before| && end == i + |head|
    ensures FindFrom(before + head + word + rest, word, i) == Some(end)
  {
    HeadFirstStands(before, head, word, rest, i, end);
    FirstStandsIsFound(before + head + word + rest, word, i, end);
  }

  lemma LowerOfFour(a: string, b: string, c: string, d: string)
    ensures Lower(a + b + c + d) == Lower(a) + Lower(b) + Lower(c) + Lower(d)
  {
    LowerOfConcat(a, b);
    LowerOfConcat(a + b, c);
    LowerOfConcat(a + b + c, d);
  }

  lemma PushTight(kept: seq<string>, piece: string)
    requires Tight(piece)
    ensures Pushed(kept, piece) == kept + [piece]
  {
    TightIsTrimmed(piece);
  }

  /** A first piece is cut off. */
  lemma {:induction false} CutOff(guide: string, s: string, i: nat, end: nat, next: nat, pat: string,
                                  kept: seq<string>, head: string)
    requires |guide| == |s| && |pat| > 0 && i <= end && next == end + |pat| <= |s|
    requires FindFrom(guide, pat, i) == Some(end) && s[i..end] == head && Tight(head)
    ensures Parts(guide, s, pat, i, kept) == Parts(guide, s, pat, next, kept + [head])
  {
    PushTight(kept, s[i..end]);
    PartsNext(guide, s, pat, i, end, kept);
  }

  lemma CutLast(guide: string, s: string, i: nat, pat: string, kept: seq<string>, last: string)
    requires |guide| == |s| && |pat| > 0 && i <= |s| && FindFrom(guide, pat, i) == None
    requires s[i..] == last && Tight(last)
    ensures Parts(guide, s, pat, i, kept) == Some(kept + [last])
  {
    PushTight(kept, s[i..]);
    PartsLast(guide, s, pat, i, kept);
  }

  lemma FirstPiece(before: string, head: string, word: string, rest: string, i: nat, end: nat)
    requires i == |before| && end == i + |head|
    ensures end + |word| <= |before + head + word + rest|
    ensures (before + head + word + rest)[i..end] == head
  {
  }

  lemma EndStands(before: string, last: string)
    ensures Stands(before + last, |before|, last)
  {
    forall k | 0 <= k < |last| ensures (before + last)[|before| + k] == last[k] {}
  }

  lemma NoWordFrom(before: string, last: string, pat: string)
    requires Absent(Lower(last) + " ", pat)
    ensures FindFrom(Lower(before + last), pat, |before|) == None
  {
    EndStands(before, last);
    LowerStands(before + last, |before|, last);
    NoPatternFrom(Lower(before + last), |before|, Lower(last), pat);
  }

  lemma WordEnd(before: string, last: string, guide: string, pat: string, kept: seq<string>)
    requires |guide| == |before + last| && |pat| > 0 && Tight(last) && FindFrom(guide, pat, |before|) == None
    ensures Parts(guide, before + last, pat, |before|, kept) == Some(kept + [last])
  {
    assert (before + last)[|before|..] == last;
    CutLast(guide, before + last, |before|, pat, kept, last);
  }

  ghost predicate AbsentBehind(parts: seq<string>, pat: string) {
    forall p :: p in parts ==> Absent(Lower(p) + " ", pat)
  }

  /** The guide of a text that goes on with a part and the word finds the word behind the part. */
  lemma GuideFinds(before: string, head: string, word: string, rest: string, guide: string, i: nat, end: nat)
    requires guide == Lower(before) + Lower(head) + Lower(word) + Lower(rest)
    requires BlankEnded(Lower(word)) && Absent(Lower(head) + " ", Lower(word)) && i == |before| && end == i + |head|
    ensures FindFrom(guide, Lower(word), i) == Some(end)
  {
    FoundBehind(Lower(before), Lower(head), Lower(word), Lower(rest), i, end);
  }

  /** The first cut of a text that goes on with a part and the word. */
  lemma WordStep(before: string, head: string, word: string, rest: string, i: nat, next: nat, kept: seq<string>)
    requires BlankEnded(Lower(word)) && Absent(Lower(head) + " ", Lower(word)) && Tight(head)
    requires i == |before| && next == i + |head| + |word|
    ensures next <= |before + head + word + rest|
    ensures var s := before + head + word + rest;
            Parts(Lower(s), s, Lower(word), i, kept) == Parts(Lower(s), s, Lower(word), next, kept + [head])
  {
    var s, end := before + head + word + rest, i + |head|;
    LowerOfFour(before, head, word, rest);
    GuideFinds(before, head, word, rest, Lower(s), i, end);
    FirstPiece(before, head, word, rest, i, end);
    CutOff(Lower(s), s, i, end, next, Lower(word), kept, head);
  }

  /** Cutting at the word gives back the parts. */
  lemma {:induction false} PatternCuts(before: string, i: nat, parts: seq<string>, word: string, kept: seq<string>)
    requires parts != [] && AllTight(parts) && BlankEnded(Lower(word)) && AbsentBehind(parts, Lower(word))
    requires i == |before|
    ensures var s := before + JoinWith(parts, word);
            Parts(Lower(s), s, Lower(word), i, kept) == Some(kept + parts)
    decreases |parts|
  {
    var head := parts[0];
    assert head in parts;
    if |parts| == 1 {
      NoWordFrom(before, head, Lower(word));
      WordEnd(before, head, Lower(before + head), Lower(word), kept);
      assert parts == [head];
    } else {
      var rest, next := JoinWith(parts[1..], word), i + |head| + |word|;
      JoinedText(before, head, word, rest);
      WordStep(before, head, word, rest, i, next, kept);
      PatternCuts(before + head + word, next, parts[1..], word, kept + [head]);
      KeptGrows(kept, parts);
    }
  }

  lemma JoiningWordIsBlankEnded()
    ensures BlankEnded(" and ")
  {
  }

  lemma NoWordsAreAbsent(parts: seq<string>)
    requires NoWordsBehind(parts)
    ensures AbsentBehind(parts, " and ")
  {
    forall p | p in parts ensures Absent(Lower(p) + " ", " and ") { AbsentInLower(p, " and "); }
  }

  lemma WordCuts(parts: seq<string>, word: string)
    requires parts != [] && AllTight(parts) && Lower(word) == " and " && NoWordsBehind(parts)
    ensures var s := JoinWith(parts, word); Parts(Lower(s), s, " and ", 0, []) == Some(parts)
  {
    JoiningWordIsBlankEnded();
    NoWordsAreAbsent(parts);
    PatternCuts("", 0, parts, word, []);
    assert "" + JoinWith(parts, word) == JoinWith(parts, word);
    assert [] + parts == parts;
  }

  lemma UncutHasOnePart(s: string, pat: string)
    requires pat != "" && Find(Lower(s), pat).None?
    ensures |Parts(Lower(s), s, pat, 0, []).value| <= 1
  {
    FindFromIsNone(Lower(s), pat, 0);
    PartsLast(Lower(s), s, pat, 0, []);
  }

  lemma WordSplits(parts: seq<string>, word: string)
    requires JoinableBy(parts, ByWord(word))
    ensures PartsCi(JoinWith(parts, word), " and ") == Some(parts)
  {
    WordCuts(parts, word);
    if Find(Lower(JoinWith(parts, word)), " and ").None? { UncutHasOnePart(JoinWith(parts, word), " and "); }
  }

  // ---------------------------------------------------------------------------
  // All four
  // ---------------------------------------------------------------------------

  lemma NoEarlierDelimiter(s: string)
    ensures ';' !in s ==> SplitOn(s, ";") == None
    ensures '&' !in s ==> SplitOn(s, " & ") == None
  {
    NoCharNoFind(s, ';');
    FoundHolds(s, " & ", 1);
  }

  lemma ByWordSplits(parts: seq<string>, word: string)
    requires JoinableBy(parts, ByWord(word))
    ensures SplitCollab(JoinWith(parts, word)) == Some(parts)
  {
    WordShape(word);
    NotInJoined(parts, word, ';');
    NotInJoined(parts, word, '&');
    NoEarlierDelimiter(JoinWith(parts, word));
    WordSplits(parts, word);
  }

  lemma ByCommaSplits(parts: seq<string>)
    requires JoinableBy(parts, ByComma)
    ensures SplitCollab(JoinWith(parts, ", ")) == Some(parts)
  {
    var s := JoinWith(parts, ", ");
    SeveralWordsIff(parts[0]);
    NotInJoined(parts, ", ", ';');
    NotInJoined(parts, ", ", '&');
    NoEarlierDelimiter(s);
    DisplayHasNoJoiningWord(parts);
    DisplayHead(parts);
    assert parts[0] in parts;
    TightIsTrimmed(parts[0]);
    DisplayCuts(parts);
  }

  /** A credit joined by any of the four delimiters splits into exactly the parts it was joined from. */
  lemma JoinedBySplits(parts: seq<string>, j: Joiner)
    requires JoinableBy(parts, j)
    ensures SplitCollab(JoinWith(parts, JoinText(j))) == Some(parts)
  {
    match j
    case BySemicolon => JoinedCreditSplits(parts, Semicolon);
    case ByAmpersand => JoinedCreditSplits(parts, Ampersand);
    case ByWord(word) => ByWordSplits(parts, word);
    case ByComma => ByCommaSplits(parts);
  }

  lemma KeysOfFoldsIff(u: Tables, a: seq<string>, b: seq<string>)
    requires LowerFreeOfAmpersand(u) && FoldParts(u, a) != [] && FoldParts(u, b) != []
    ensures JoinWith(Dedup(Sort(FoldParts(u, a))), " & ") == JoinWith(Dedup(Sort(FoldParts(u, b))), " & ")
            <==> SameFolds(u, a, b)
  {
    var fa, fb := FoldParts(u, a), FoldParts(u, b);
    FoldPartsFree(u, a);
    FoldPartsFree(u, b);
    if SameFolds(u, a, b) {
      SortDedupForgetsRepeats(fa, fb);
    } else if JoinWith(Dedup(Sort(fa)), " & ") == JoinWith(Dedup(Sort(fb)), " & ") {
      EqualKeysEqualFolds(fa, fb);
    }
  }

  /** A credit written plainly: no watermark, no slash, and nothing bracketed at its end. */
  ghost predicate PlainlyJoined(parts: seq<string>, j: Joiner) {
    && JoinableBy(parts, j) && FreeOf(parts, '|') && FreeOf(parts, '/')
    && (j.ByWord? ==> '|' !in j.word && '/' !in j.word)
    && var last := parts[|parts| - 1]; last != "" && last[|last| - 1] !in ")]"
  }

  lemma JoinTextIsPlain(j: Joiner)
    requires j.ByWord? ==> '|' !in j.word && '/' !in j.word
    ensures '|' !in JoinText(j) && '/' !in JoinText(j)
  {
  }

  lemma PlainlyJoinedIsPlain(parts: seq<string>, j: Joiner)
    requires PlainlyJoined(parts, j)
    ensures Plain(JoinWith(parts, JoinText(j)))
  {
    JoinTextIsPlain(j);
    JoinedIsPlain(parts, JoinText(j));
  }

  lemma JoinedIsPlain(parts: seq<string>, sep: string)
    requires |parts| >= 2 && AllTight(parts) && FreeOf(parts, '|') && FreeOf(parts, '/')
    requires '|' !in sep && '/' !in sep
    requires var last := parts[|parts| - 1]; last != "" && last[|last| - 1] !in ")]"
    ensures Plain(JoinWith(parts, sep))
  {
    JoinedEnds(parts, sep);
    NotInJoined(parts, sep, '|');
    NotInJoined(parts, sep, '/');
  }

  /** The key of a plain credit that splits. */
  lemma KeyOfSplit(u: Tables, s: string, parts: seq<string>)
    requires Plain(s) && SplitCollab(s) == Some(parts) && FoldParts(u, parts) != []
    ensures ArtistFoldKey(u, s) == JoinWith(Dedup(Sort(FoldParts(u, parts))), " & ")
  {
    assert CollabFoldKey(u, s) == Some(JoinWith(Dedup(Sort(FoldParts(u, parts))), " & "));
    FoldKeyOfPlain(u, s);
  }

  lemma WholeKeyOfJoinedBy(u: Tables, parts: seq<string>, j: Joiner)
    requires PlainlyJoined(parts, j) && FoldParts(u, parts) != []
    ensures ArtistFoldKey(u, JoinWith(parts, JoinText(j))) == JoinWith(Dedup(Sort(FoldParts(u, parts))), " & ")
  {
    PlainlyJoinedIsPlain(parts, j);
    JoinedBySplits(parts, j);
    KeyOfSplit(u, JoinWith(parts, JoinText(j)), parts);
  }

  /**
   Whole credits joined by any of the four delimiters share a fold key exactly when their parts fold to
   the same set.
   */
  lemma SameJoinedKeyIff(u: Tables, a: seq<string>, ja: Joiner, b: seq<string>, jb: Joiner)
    requires PlainlyJoined(a, ja) && PlainlyJoined(b, jb) && LowerFreeOfAmpersand(u)
    requires FoldParts(u, a) != [] && FoldParts(u, b) != []
    ensures ArtistFoldKey(u, JoinWith(a, JoinText(ja))) == ArtistFoldKey(u, JoinWith(b, JoinText(jb)))
            <==> SameFolds(u, a, b)
  {
    WholeKeyOfJoinedBy(u, a, ja);
    WholeKeyOfJoinedBy(u, b, jb);
    KeysOfFoldsIff(u, a, b);
  }
}
