/** The parts of the Rust text library the program leans on, over sequences of characters. */
module Text {
  import opened Common

  predicate IsDigit(c: char) {
    '0' <= c <= '9'
  }

  /** The Unicode White_Space property. */
  predicate IsWhitespace(c: char) {
    var n := c as int;
    || 0x09 <= n <= 0x0D || n == 0x20 || n == 0x85 || n == 0xA0 || n == 0x1680
    || 0x2000 <= n <= 0x200A || n == 0x2028 || n == 0x2029 || n == 0x202F || n == 0x205F || n == 0x3000
  }

  predicate AllDigits(s: string) {
    forall i :: 0 <= i < |s| ==> IsDigit(s[i])
  }

  predicate Blank(s: string) {
    forall i :: 0 <= i < |s| ==> IsWhitespace(s[i])
  }

  function LowerAscii(c: char): char {
    if 'A' <= c <= 'Z' then (c as int + 32) as char else c
  }

  function Lower(s: string): (r: string)
    ensures |r| == |s| && forall i :: 0 <= i < |s| ==> r[i] == LowerAscii(s[i])
  {
    if s == "" then "" else [LowerAscii(s[0])] + Lower(s[1..])
  }

  /** Length of the UTF-8 encoding. */
  function ByteLength(s: string): (n: nat)
    ensures n >= |s|
  {
    if s == "" then 0
    else
      var c := s[0] as int;
      (if c < 0x80 then 1 else if c < 0x800 then 2 else if c < 0x1_0000 then 3 else 4) + ByteLength(s[1..])
  }

  function TrimStart(s: string): (r: string)
    ensures |r| <= |s|
  {
    if s != "" && IsWhitespace(s[0]) then TrimStart(s[1..]) else s
  }

  function TrimEnd(s: string): (r: string)
    ensures |r| <= |s|
  {
    if s != "" && IsWhitespace(s[|s| - 1]) then TrimEnd(s[..|s| - 1]) else s
  }

  function Trim(s: string): string {
    TrimEnd(TrimStart(s))
  }

  /** The text with every trailing `c` removed. */
  function TrimEndChar(s: string, c: char): string {
    if s != "" && s[|s| - 1] == c then TrimEndChar(s[..|s| - 1], c) else s
  }

  predicate FoundAt(s: string, pat: string, i: nat) {
    i + |pat| <= |s| && s[i..i + |pat|] == pat
  }

  /** Position of the first occurrence. */
  function Find(s: string, pat: string): (r: Option<nat>)
    ensures r.Some? ==> FoundAt(s, pat, r.value) && forall j: nat :: j < r.value ==> !FoundAt(s, pat, j)
    ensures r.None? ==> forall j: nat :: !FoundAt(s, pat, j)
  {
    FindFromIsFirst(s, pat, 0);
    FindFrom(s, pat, 0)
  }

  function FindFrom(s: string, pat: string, i: nat): (r: Option<nat>)
    ensures r.Some? ==> i <= r.value && r.value + |pat| <= |s|
    decreases |s| + 1 - i
  {
    if i + |pat| > |s| then None
    else if s[i..i + |pat|] == pat then Some(i)
    else FindFrom(s, pat, i + 1)
  }

  lemma {:induction false} FindFromIsFirst(s: string, pat: string, i: nat)
    ensures var r := FindFrom(s, pat, i);
            && (r.Some? ==> FoundAt(s, pat, r.value) && forall j: nat :: i <= j < r.value ==> !FoundAt(s, pat, j))
            && (r.None? ==> forall j: nat :: i <= j ==> !FoundAt(s, pat, j))
    decreases |s| + 1 - i
  {
    if i + |pat| <= |s| && s[i..i + |pat|] != pat {
      FindFromIsFirst(s, pat, i + 1);
      assert !FoundAt(s, pat, i);
    }
  }

  /** Position of the last occurrence. */
  function RFind(s: string, pat: string): (r: Option<nat>)
    ensures r.Some? ==> FoundAt(s, pat, r.value) && forall j: nat :: r.value < j ==> !FoundAt(s, pat, j)
    ensures r.None? ==> forall j: nat :: !FoundAt(s, pat, j)
  {
    RFindUpTo(s, pat, |s|)
  }

  function RFindUpTo(s: string, pat: string, i: nat): (r: Option<nat>)
    requires i <= |s|
    ensures r.Some? ==> r.value <= i && FoundAt(s, pat, r.value)
                        && forall j: nat :: r.value < j <= i ==> !FoundAt(s, pat, j)
    ensures r.None? ==> forall j: nat :: j <= i ==> !FoundAt(s, pat, j)
  {
    if FoundAt(s, pat, i) then Some(i)
    else if i == 0 then None
    else RFindUpTo(s, pat, i - 1)
  }

  /** Around the first occurrence. */
  function SplitOnce(s: string, pat: string): Option<(string, string)> {
    match Find(s, pat)
    case None => None
    case Some(i) => Some((s[..i], s[i + |pat|..]))
  }

  /** The first occurrence is the one known to have none before it. */
  lemma FindIs(s: string, pat: string, i: nat)
    requires FoundAt(s, pat, i) && forall j: nat :: j < i ==> !FoundAt(s, pat, j)
    ensures Find(s, pat) == Some(i)
  {
  }

  lemma RFindIs(s: string, pat: string, i: nat)
    requires FoundAt(s, pat, i) && forall j: nat :: i < j ==> !FoundAt(s, pat, j)
    ensures RFind(s, pat) == Some(i)
  {
  }

  // ---------------------------------------------------------------------------
  // Decimal numbers
  // ---------------------------------------------------------------------------

  function DigitsValue(s: string): nat
    requires AllDigits(s)
  {
    if s == "" then 0 else 10 * DigitsValue(s[..|s| - 1]) + (s[|s| - 1] as int - '0' as int)
  }

  /** Rust's `u32` parser: an optional plus sign, then at least one digit, in range. */
  function ParseU32(s: string): Option<nat> {
    var digits := if |s| > 1 && s[0] == '+' then s[1..] else s;
    if digits != "" && AllDigits(digits) && DigitsValue(digits) < 0x1_0000_0000 then Some(DigitsValue(digits))
    else None
  }

  function Decimal(n: nat): (s: string)
    ensures s != "" && AllDigits(s) && DigitsValue(s) == n
  {
    var last := [('0' as int + n % 10) as char];
    if n < 10 then
      assert last[..|last| - 1] == "";
      last
    else
      var s := Decimal(n / 10) + last;
      assert s[..|s| - 1] == Decimal(n / 10);
      s
  }

  lemma DecimalParses(n: nat)
    requires n < 0x1_0000_0000
    ensures ParseU32(Decimal(n)) == Some(n)
  {
    assert IsDigit(Decimal(n)[0]);
  }
}
