/** How trimming, lowering, measuring and splitting into words act on a text put together from parts. */
module TextLemmas {
  import opened Common
  import opened Text

  /** Neither end is whitespace. */
  predicate Tight(s: string) {
    s != "" && !IsWhitespace(s[0]) && !IsWhitespace(s[|s| - 1])
  }

  lemma {:induction false} TrimEndIsPrefix(s: string)
    ensures TrimEnd(s) <= s && TrimEnd(TrimEnd(s)) == TrimEnd(s)
    ensures TrimEnd(s) != "" ==> !IsWhitespace(TrimEnd(s)[|TrimEnd(s)| - 1])
  {
    if s != "" && IsWhitespace(s[|s| - 1]) { TrimEndIsPrefix(s[..|s| - 1]); }
  }

  lemma TightIsTrimmed(s: string)
    requires Tight(s)
    ensures Trim(s) == TrimEnd(s) == TrimStart(s) == s
  {
  }

  lemma {:induction false} TrimStartOfConcat(a: string, b: string)
    requires TrimStart(a) != "" || (b != "" && !IsWhitespace(b[0]))
    ensures TrimStart(a + b) == TrimStart(a) + b
  {
    if a == "" {
      assert a + b == b;
    } else if IsWhitespace(a[0]) {
      assert (a + b)[1..] == a[1..] + b;
      TrimStartOfConcat(a[1..], b);
    }
  }

  lemma {:induction false} TrimStartEmptyIff(s: string)
    ensures TrimStart(s) == "" <==> Blank(s)
    ensures TrimStart(s) != "" ==> !IsWhitespace(TrimStart(s)[0])
  {
    if s != "" && IsWhitespace(s[0]) {
      TrimStartEmptyIff(s[1..]);
      assert Blank(s) <==> Blank(s[1..]) by { assert s == [s[0]] + s[1..]; }
    }
  }

  lemma {:induction false} TrimEndOfConcat(a: string, b: string)
    requires !Blank(b)
    ensures TrimEnd(a + b) == a + TrimEnd(b)
    ensures TrimEnd(b) != "" && TrimEnd(b) <= b && !IsWhitespace(TrimEnd(b)[|TrimEnd(b)| - 1])
  {
    if IsWhitespace(b[|b| - 1]) {
      var front := b[..|b| - 1];
      assert (a + b)[..|a + b| - 1] == a + front;
      assert b == front + [b[|b| - 1]];
      TrimEndOfConcat(a, front);
    }
  }

  /** Blanks after a text that does not end in one are trimmed away. */
  lemma {:induction false} TrimEndDropsGap(a: string, gap: string)
    requires a != "" && !IsWhitespace(a[|a| - 1]) && Blank(gap)
    ensures TrimEnd(a + gap) == a
  {
    if gap == "" {
      assert a + gap == a;
    } else {
      assert (a + gap)[..|a + gap| - 1] == a + gap[..|gap| - 1];
      TrimEndDropsGap(a, gap[..|gap| - 1]);
    }
  }

  lemma {:induction false} LowerOfConcat(a: string, b: string)
    ensures Lower(a + b) == Lower(a) + Lower(b)
  {
    if a == "" {
      assert a + b == b;
    } else {
      assert (a + b)[1..] == a[1..] + b;
      LowerOfConcat(a[1..], b);
    }
  }

  lemma LowerIsStable(s: string)
    requires forall c :: c in s ==> !('A' <= c <= 'Z')
    ensures Lower(s) == s
  {
    assert forall i :: 0 <= i < |s| ==> s[i] in s;
  }

  lemma {:induction false} ByteLengthOfConcat(a: string, b: string)
    ensures ByteLength(a + b) == ByteLength(a) + ByteLength(b)
  {
    if a == "" {
      assert a + b == b;
    } else {
      assert (a + b)[1..] == a[1..] + b;
      ByteLengthOfConcat(a[1..], b);
    }
  }

  lemma {:induction false} TrimEndCharKeeps(s: string, c: char)
    ensures forall x :: x in s ==> x == c || x in TrimEndChar(s, c)
  {
    if s != "" && s[|s| - 1] == c {
      TrimEndCharKeeps(s[..|s| - 1], c);
      assert s == s[..|s| - 1] + [c];
    }
  }

  /** A character found once and never again is where the last occurrence is. */
  lemma LastOccurrence(a: string, c: char, b: string)
    requires c !in b
    ensures RFind(a + [c] + b, [c]) == Some(|a|)
  {
    var s := a + [c] + b;
    assert s[|a|..|a| + 1] == [c];
    forall j: nat | |a| < j ensures !FoundAt(s, [c], j) {
      if j < |s| { assert s[j] == b[j - |a| - 1]; assert s[j..j + 1][0] == s[j]; }
    }
    RFindIs(s, [c], |a|);
  }

  lemma FindFromIs(s: string, pat: string, start: nat, i: nat)
    requires start <= i && FoundAt(s, pat, i) && forall j: nat :: start <= j < i ==> !FoundAt(s, pat, j)
    ensures FindFrom(s, pat, start) == Some(i)
  {
    FindFromIsFirst(s, pat, start);
  }

  lemma FindFromIsNone(s: string, pat: string, start: nat)
    requires forall j: nat :: start <= j ==> !FoundAt(s, pat, j)
    ensures FindFrom(s, pat, start) == None
  {
    FindFromIsFirst(s, pat, start);
  }

  lemma OccurrenceIsMember(s: string, pat: string)
    requires pat != ""
    ensures RFind(s, pat).Some? ==> pat[0] in s
  {
    if RFind(s, pat).Some? {
      var i := RFind(s, pat).value;
      assert s[i..i + |pat|][0] == s[i];
    }
  }

  // ---------------------------------------------------------------------------
  // Words
  // ---------------------------------------------------------------------------

  /** The leading characters that are not whitespace. */
  function WordPrefix(s: string): (w: string)
    ensures |w| <= |s|
  {
    if s == "" || IsWhitespace(s[0]) then "" else [s[0]] + WordPrefix(s[1..])
  }

  function Words(s: string): seq<string> {
    if s == "" then []
    else if IsWhitespace(s[0]) then Words(s[1..])
    else
      var w := WordPrefix(s);
      [w] + Words(s[|w|..])
  }

  predicate IsWord(s: string) {
    s != "" && forall i :: 0 <= i < |s| ==> !IsWhitespace(s[i])
  }

  lemma {:induction false} WordPrefixOfConcat(a: string, b: string)
    requires b != "" && IsWhitespace(b[0])
    ensures WordPrefix(a + b) == WordPrefix(a)
  {
    if a == "" {
      assert a + b == b;
    } else {
      assert (a + b)[1..] == a[1..] + b;
      WordPrefixOfConcat(a[1..], b);
    }
  }

  /** Words do not reach across whitespace. */
  lemma {:induction false} WordsOfConcat(a: string, b: string)
    requires b != "" && IsWhitespace(b[0])
    ensures Words(a + b) == Words(a) + Words(b)
    decreases |a|
  {
    if a == "" {
      assert a + b == b;
    } else if IsWhitespace(a[0]) {
      assert (a + b)[1..] == a[1..] + b;
      WordsOfConcat(a[1..], b);
    } else {
      WordPrefixOfConcat(a, b);
      var n := |WordPrefix(a)|;
      assert (a + b)[n..] == a[n..] + b;
      WordsOfConcat(a[n..], b);
    }
  }

  lemma {:induction false} PrefixOfWord(w: string)
    requires forall i :: 0 <= i < |w| ==> !IsWhitespace(w[i])
    ensures WordPrefix(w) == w
  {
    if w != "" { PrefixOfWord(w[1..]); }
  }

  lemma OneWord(w: string)
    requires IsWord(w)
    ensures Words(w) == [w]
  {
    PrefixOfWord(w);
    assert w[|w|..] == "";
  }

  /** A space starts a new word list. */
  lemma WordsAfterSpace(a: string, b: string)
    ensures Words(a + " " + b) == Words(a) + Words(b)
  {
    WordsOfConcat(a, " " + b);
    assert a + (" " + b) == a + " " + b;
    assert (" " + b)[1..] == b;
  }

  lemma LowerAroundSpace(a: string, b: string)
    ensures Lower(a + " " + b) == Lower(a) + " " + Lower(b)
  {
    LowerOfConcat(a, " ");
    LowerOfConcat(a + " ", b);
    LowerIsStable(" ");
  }

  lemma {:induction false} WordsOfTrimStart(s: string)
    ensures Words(Lower(TrimStart(s))) == Words(Lower(s))
  {
    if s != "" && IsWhitespace(s[0]) {
      WordsOfTrimStart(s[1..]);
    }
  }

  lemma {:induction false} WordsOfTrimEnd(s: string)
    ensures Words(Lower(TrimEnd(s))) == Words(Lower(s))
  {
    if s != "" && IsWhitespace(s[|s| - 1]) {
      var front, last := s[..|s| - 1], [s[|s| - 1]];
      WordsOfTrimEnd(front);
      assert s == front + last;
      LowerOfConcat(front, last);
      WordsOfConcat(Lower(front), Lower(last));
      assert Lower(last)[1..] == "";
    }
  }

  /** Trimming loses no word. */
  lemma WordsOfTrim(s: string)
    ensures Words(Lower(Trim(s))) == Words(Lower(s))
  {
    WordsOfTrimStart(s);
    WordsOfTrimEnd(TrimStart(s));
  }

  /** A word behind a space stays a word of every remainder that still holds it. */
  lemma WordBehindSpace(a: string, w: string, rest: string, k: nat)
    requires IsWord(w) && (rest == "" || IsWhitespace(rest[0])) && k <= |a| + 1
    ensures Lower(w) in Words(Lower((a + " " + (w + rest))[k..]))
  {
    WordThenRest(w, rest);
    var s := a + " " + (w + rest);
    if k <= |a| {
      assert s[k..] == a[k..] + " " + (w + rest);
      LowerAroundSpace(a[k..], w + rest);
      WordsAfterSpace(Lower(a[k..]), Lower(w + rest));
    } else {
      assert s[k..] == w + rest;
    }
  }

  lemma WordThenRest(w: string, rest: string)
    requires IsWord(w) && (rest == "" || IsWhitespace(rest[0]))
    ensures Lower(w) in Words(Lower(w + rest))
  {
    LowerOfConcat(w, rest);
    assert IsWord(Lower(w));
    OneWord(Lower(w));
    if rest == "" {
      assert w + rest == w;
    } else {
      WordsOfConcat(Lower(w), Lower(rest));
    }
  }

  /** The last word ends as the text ends. */
  lemma {:induction false} LastWordEnds(s: string)
    requires s != "" && !IsWhitespace(s[|s| - 1])
    ensures exists w :: w in Words(s) && w != "" && w[|w| - 1] == s[|s| - 1]
    decreases |s|
  {
    if IsWhitespace(s[0]) {
      LastWordEnds(s[1..]);
    } else {
      var w := WordPrefix(s);
      WordPrefixIsPrefix(s);
      if |w| == |s| {
        assert w in Words(s);
      } else {
        LastWordEnds(s[|w|..]);
      }
    }
  }

  lemma {:induction false} WordPrefixIsPrefix(s: string)
    ensures WordPrefix(s) <= s
  {
    if s != "" && !IsWhitespace(s[0]) { WordPrefixIsPrefix(s[1..]); }
  }

  // ---------------------------------------------------------------------------
  // The library's tables, character by character
  // ---------------------------------------------------------------------------

  /** The code points with the White_Space property. */
  lemma WhitespaceIff(c: char)
    ensures IsWhitespace(c) <==>
            c as int in {9, 10, 11, 12, 13, 32, 133, 160, 5760, 8192, 8193, 8194, 8195, 8196, 8197, 8198, 8199, 8200,
                         8201, 8202, 8232, 8233, 8239, 8287, 12288}
  {
  }

  lemma LowerAsciiPairs(c: char, i: nat)
    requires i < 26
    ensures LowerAscii("ABCDEFGHIJKLMNOPQRSTUVWXYZ"[i]) == "abcdefghijklmnopqrstuvwxyz"[i]
    ensures c !in "ABCDEFGHIJKLMNOPQRSTUVWXYZ" ==> LowerAscii(c) == c
  {
    var upper, lower := "ABCDEFGHIJKLMNOPQRSTUVWXYZ", "abcdefghijklmnopqrstuvwxyz";
    assert upper[i] as int == 65 + i && lower[i] as int == 97 + i;
    if 'A' <= c <= 'Z' { assert upper[c as int - 65] == c; }
  }

  /** The length of one character's UTF-8 encoding (RFC 3629, section 3). */
  lemma Utf8Length(c: char)
    ensures ByteLength([c]) ==
            if c as int <= 0x7F then 1 else if c as int <= 0x7FF then 2 else if c as int <= 0xFFFF then 3 else 4
  {
    assert [c][1..] == "";
  }

  /** Zeros, and then the decimal numeral of the number. */
  ghost predicate IsNumeral(s: string, n: nat) {
    exists zeros :: (forall c :: c in zeros ==> c == '0') && s == zeros + Decimal(n)
  }

  lemma {:induction false} LeadingZeros(zeros: string, digits: string)
    requires (forall c :: c in zeros ==> c == '0') && AllDigits(digits)
    ensures AllDigits(zeros + digits) && DigitsValue(zeros + digits) == DigitsValue(digits)
    decreases |digits|
  {
    var s := zeros + digits;
    assert forall i :: 0 <= i < |s| ==> s[i] == if i < |zeros| then zeros[i] else digits[i - |zeros|];
    assert forall i :: 0 <= i < |zeros| ==> zeros[i] in zeros;
    if digits == "" {
      assert s == zeros;
      ZerosAreNothing(zeros);
    } else {
      assert s[..|s| - 1] == zeros + digits[..|digits| - 1];
      LeadingZeros(zeros, digits[..|digits| - 1]);
    }
  }

  lemma {:induction false} ZerosAreNothing(zeros: string)
    requires forall c :: c in zeros ==> c == '0'
    ensures AllDigits(zeros) && DigitsValue(zeros) == 0
  {
    assert forall i :: 0 <= i < |zeros| ==> zeros[i] in zeros;
    if zeros != "" { ZerosAreNothing(zeros[..|zeros| - 1]); }
  }

  lemma OneDigit(c: char)
    requires IsDigit(c)
    ensures Decimal(c as int - '0' as int) == [c]
  {
  }

  lemma NextDigit(v: nat, c: char)
    requires IsDigit(c) && v > 0
    ensures Decimal(10 * v + (c as int - '0' as int)) == Decimal(v) + [c]
  {
  }

  lemma ZeroGrows(front: string, last: char)
    requires IsNumeral(front, 0) && IsDigit(last)
    ensures IsNumeral(front + [last], last as int - '0' as int)
  {
    var zeros :| (forall c :: c in zeros ==> c == '0') && front == zeros + Decimal(0);
    OneDigit('0');
    OneDigit(last);
    assert forall c :: c in front ==> c == '0';
  }

  lemma NumeralGrows(front: string, v: nat, last: char)
    requires IsNumeral(front, v) && v > 0 && IsDigit(last)
    ensures IsNumeral(front + [last], 10 * v + (last as int - '0' as int))
  {
    var zeros :| (forall c :: c in zeros ==> c == '0') && front == zeros + Decimal(v);
    NextDigit(v, last);
    assert front + [last] == zeros + (Decimal(v) + [last]);
  }

  /** Digits are the numeral of their value. */
  lemma {:induction false} DigitsAreNumeral(s: string)
    requires s != "" && AllDigits(s)
    ensures IsNumeral(s, DigitsValue(s))
  {
    var front, last := s[..|s| - 1], s[|s| - 1];
    assert s == front + [last];
    if front == "" {
      OneDigit(last);
      assert s == "" + Decimal(last as int - '0' as int);
    } else {
      DigitsAreNumeral(front);
      if DigitsValue(front) == 0 { ZeroGrows(front, last); } else { NumeralGrows(front, DigitsValue(front), last); }
    }
  }

  lemma NumeralValue(s: string, n: nat)
    requires IsNumeral(s, n)
    ensures s != "" && AllDigits(s) && DigitsValue(s) == n
  {
    var zeros :| (forall c :: c in zeros ==> c == '0') && s == zeros + Decimal(n);
    LeadingZeros(zeros, Decimal(n));
  }

  /** A text reads as a number of 32 bits exactly when it is a numeral; zeros and one plus sign may go in front. */
  lemma ParseU32Iff(s: string, n: nat)
    ensures ParseU32(s) == Some(n) <==>
              n < 4294967296 && (IsNumeral(s, n) || (s != "" && s[0] == '+' && IsNumeral(s[1..], n)))
  {
    if ParseU32(s) == Some(n) {
      DigitsAreNumeral(if |s| > 1 && s[0] == '+' then s[1..] else s);
    }
    if IsNumeral(s, n) { NumeralValue(s, n); assert IsDigit(s[0]); }
    if s != "" && s[0] == '+' && IsNumeral(s[1..], n) { NumeralValue(s[1..], n); }
  }
}
