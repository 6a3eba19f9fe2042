/** When rewriting a rewritten body once more changes nothing, told from the body itself. */
module BodyRewriterAgain {
  import opened BodyRewriter
  import opened BodyRewriterHostFree

  // ---------------------------------------------------------------------------
  // What the second rewriting does
  // ---------------------------------------------------------------------------

  ghost predicate HasUrlSlash(body: Bytes, i: nat) {
    exists j: nat :: i <= j < |body| && UrlSlashAt(body, j)
  }

  lemma {:induction false} HostFreeRender(body: Bytes, host: Bytes, prefix: Bytes, i: nat)
    requires i <= |body| && !Mentions(body, host) && prefix != []
    ensures |Render(Edits(body, host, i), prefix)| >= |body| - i
    ensures HasUrlSlash(body, i) ==> |Render(Edits(body, host, i), prefix)| > |body| - i
    ensures !HasUrlSlash(body, i) ==> Render(Edits(body, host, i), prefix) == body[i..]
    decreases |body| - i
  {
    if i < |body| {
      HostFreeRender(body, host, prefix, i + 1);
      assert !HostAt(body, host, i);
      assert body[i..] == [body[i]] + body[i + 1..];
    }
  }

  /** The host is empty, or cannot overlap the prefix. */
  predicate Apart(host: Bytes, prefix: Bytes) {
    host == [] || NoOverlap(host, prefix)
  }

  lemma SecondPassChangesIff(body: Bytes, host: Bytes, prefix: Bytes)
    requires Apart(host, prefix) && prefix != []
    ensures var once := Render(Edits(body, host, 0), prefix);
            Render(Edits(once, host, 0), prefix) == once <==> !HasUrlSlash(once, 0)
  {
    var once := Render(Edits(body, host, 0), prefix);
    if host != [] { RewrittenBodyIsHostFree(body, host, prefix); }
    assert !Mentions(once, host);
    HostFreeRender(once, host, prefix, 0);
    assert once[0..] == once;
  }

  // ---------------------------------------------------------------------------
  // The context a position stands in
  // ---------------------------------------------------------------------------

  /** The last byte, zero where there is none. */
  function Last(text: Bytes): byte {
    if text == [] then 0 else text[|text| - 1]
  }

  predicate IsQuote(b: byte) {
    b == DOUBLE_QUOTE || b == SINGLE_QUOTE
  }

  predicate IsContextByte(b: byte) {
    b == PAREN || b == EQUALS || IsQuote(b)
  }

  /** A single slash written behind this text opens a path-absolute URL. */
  predicate OpensUrl(text: Bytes) {
    var prev := Last(text);
    || prev == PAREN || prev == EQUALS
    || (IsQuote(prev) && var b := Last(text[..|text| - 1]); b == EQUALS || b == PAREN || !IsWordByte(b))
  }

  lemma UrlSlashOpens(body: Bytes, i: nat)
    requires i < |body|
    ensures UrlSlashAt(body, i) <==>
            body[i] == SLASH && !(i + 1 < |body| && body[i + 1] == SLASH) && OpensUrl(body[..i])
  {
    var text := body[..i];
    assert Last(text) == Before(body, i);
    if i > 0 {
      assert Last(text[..i - 1]) == if i < 2 then 0 else body[i - 2];
    }
  }

  /** Two bytes that the context tests cannot tell apart. */
  predicate AlikeBytes(a: byte, b: byte) {
    a == b || (!IsContextByte(a) && !IsContextByte(b) && IsWordByte(a) == IsWordByte(b))
  }

  /** Two texts that the context tests cannot tell apart. */
  predicate Alike(x: Bytes, y: Bytes) {
    && AlikeBytes(Last(x), Last(y))
    && (IsQuote(Last(x)) ==> x != [] && y != [] && AlikeBytes(Last(x[..|x| - 1]), Last(y[..|y| - 1])))
  }

  lemma AlikeOpenAlike(x: Bytes, y: Bytes)
    requires Alike(x, y)
    ensures OpensUrl(x) <==> OpensUrl(y)
  {
  }

  lemma AlikeOneMore(x: Bytes, y: Bytes, b: byte)
    requires Alike(x, y)
    ensures Alike(x + [b], y + [b])
  {
    assert (x + [b])[..|x|] == x && (y + [b])[..|y|] == y;
  }

  lemma AlikeBehind(x: Bytes, p: Bytes, y: Bytes, h: Bytes)
    requires p != [] && h != [] && AlikeBytes(Last(p), Last(h)) && !IsContextByte(Last(p))
    ensures Alike(x + p, y + h)
  {
    assert Last(x + p) == Last(p) && Last(y + h) == Last(h);
  }

  // ---------------------------------------------------------------------------
  // The condition on the body
  // ---------------------------------------------------------------------------

  /** A prefix of two bytes or more that opens with one slash and holds no context byte. */
  predicate RootedPrefix(prefix: Bytes) {
    && |prefix| >= 2 && prefix[0] == SLASH && prefix[1] != SLASH
    && forall p :: 0 <= p < |prefix| ==> !IsContextByte(prefix[p])
  }

  /** The context tests read the ends of host and prefix alike. */
  predicate EndAlike(host: Bytes, prefix: Bytes) {
    host == [] || AlikeBytes(Last(prefix), Last(host))
  }

  /** From `i` on no prefix is put before a slash and no host is swapped where a URL opens. */
  ghost predicate Quiet(body: Bytes, host: Bytes, i: nat)
    requires i <= |body|
  {
    && Prefixed !in Edits(body, host, i)
    && forall p :: p in SwapStarts(body, host, i) && p <= |body| ==> !OpensUrl(body[..p])
  }

  lemma QuietAtSwap(body: Bytes, host: Bytes, i: nat)
    requires i < |body| && HostAt(body, host, i)
    ensures Quiet(body, host, i) <==> !OpensUrl(body[..i]) && Quiet(body, host, i + |host|)
  {
    assert i in SwapStarts(body, host, i);
  }

  lemma QuietElsewhere(body: Bytes, host: Bytes, i: nat)
    requires i < |body| && !HostAt(body, host, i)
    ensures Quiet(body, host, i) <==> !UrlSlashAt(body, i) && Quiet(body, host, i + 1)
  {
  }

  // ---------------------------------------------------------------------------
  // The URL slashes of the output
  // ---------------------------------------------------------------------------

  /** What is written where the body goes on with a slash opens with a slash. */
  lemma SlashStaysSlash(body: Bytes, host: Bytes, prefix: Bytes, i: nat)
    requires i < |body| && body[i] == SLASH && RootedPrefix(prefix)
    ensures var out := Render(Edits(body, host, i), prefix); out != [] && out[0] == SLASH
  {
  }

  /** A prefix written where a URL opens holds a URL slash. */
  lemma PrefixOpens(x: Bytes, prefix: Bytes, rest: Bytes)
    requires RootedPrefix(prefix) && OpensUrl(x)
    ensures HasUrlSlash(x + (prefix + rest), |x|)
  {
    var out := x + (prefix + rest);
    assert out[..|x|] == x && out[|x|] == prefix[0] && out[|x| + 1] == prefix[1];
    UrlSlashOpens(out, |x|);
  }

  /** A prefix written anywhere else holds none. */
  lemma PrefixIsQuiet(x: Bytes, prefix: Bytes, rest: Bytes, j: nat)
    requires RootedPrefix(prefix) && !OpensUrl(x) && |x| <= j < |x| + |prefix|
    ensures !UrlSlashAt(x + (prefix + rest), j)
  {
    var out := x + (prefix + rest);
    UrlSlashOpens(out, j);
    if j == |x| {
      assert out[..j] == x;
    } else {
      assert Before(out, j) == prefix[j - 1 - |x|];
    }
  }

  lemma SwapKeepsQuiet(x: Bytes, prefix: Bytes, rest: Bytes)
    requires RootedPrefix(prefix) && !OpensUrl(x)
    ensures HasUrlSlash(x + (prefix + rest), |x|) <==> HasUrlSlash((x + prefix) + rest, |x + prefix|)
  {
    var out := x + (prefix + rest);
    assert out == (x + prefix) + rest;
    forall j | |x| <= j < |x| + |prefix| ensures !UrlSlashAt(out, j) { PrefixIsQuiet(x, prefix, rest, j); }
  }

  lemma CopyKeepsQuiet(x: Bytes, b: byte, rest: Bytes)
    requires b != SLASH || !OpensUrl(x) || (rest != [] && rest[0] == SLASH)
    ensures HasUrlSlash(x + ([b] + rest), |x|) <==> HasUrlSlash((x + [b]) + rest, |x + [b]|)
  {
    var out := x + ([b] + rest);
    assert out == (x + [b]) + rest && out[..|x|] == x;
    UrlSlashOpens(out, |x|);
  }

  /** A copied byte that is no URL slash of the body is none of the output. */
  lemma CopiedIsQuiet(body: Bytes, host: Bytes, prefix: Bytes, i: nat, x: Bytes)
    requires i < |body| && RootedPrefix(prefix) && Alike(x, body[..i]) && !UrlSlashAt(body, i)
    ensures var rest := Render(Edits(body, host, i + 1), prefix);
            body[i] != SLASH || !OpensUrl(x) || (rest != [] && rest[0] == SLASH)
  {
    UrlSlashOpens(body, i);
    AlikeOpenAlike(x, body[..i]);
    if i + 1 < |body| && body[i + 1] == SLASH { SlashStaysSlash(body, host, prefix, i + 1); }
  }

  lemma GrowSlice(body: Bytes, host: Bytes, i: nat)
    requires i < |body|
    ensures body[..i + 1] == body[..i] + [body[i]]
    ensures HostAt(body, host, i) ==> body[..i + |host|] == body[..i] + host
  {
  }

  /** Behind what is already written, the output has a URL slash exactly when the body is not quiet. */
  ghost predicate SlashIff(body: Bytes, host: Bytes, prefix: Bytes, i: nat, x: Bytes)
    requires i <= |body|
  {
    HasUrlSlash(x + Render(Edits(body, host, i), prefix), |x|) <==> !Quiet(body, host, i)
  }

  lemma SwapSlash(body: Bytes, host: Bytes, prefix: Bytes, i: nat, x: Bytes)
    requires i < |body| && HostAt(body, host, i) && RootedPrefix(prefix) && Alike(x, body[..i])
    requires SlashIff(body, host, prefix, i + |host|, x + prefix)
    ensures SlashIff(body, host, prefix, i, x)
  {
    var rest := Render(Edits(body, host, i + |host|), prefix);
    AlikeOpenAlike(x, body[..i]);
    RenderCons(Swap, Edits(body, host, i + |host|), prefix);
    QuietAtSwap(body, host, i);
    if OpensUrl(x) {
      PrefixOpens(x, prefix, rest);
    } else {
      SwapKeepsQuiet(x, prefix, rest);
    }
  }

  lemma PrefixedSlash(body: Bytes, host: Bytes, prefix: Bytes, i: nat, x: Bytes)
    requires i < |body| && !HostAt(body, host, i) && UrlSlashAt(body, i)
    requires RootedPrefix(prefix) && Alike(x, body[..i])
    ensures SlashIff(body, host, prefix, i, x)
  {
    var rest := Render(Edits(body, host, i + 1), prefix);
    UrlSlashOpens(body, i);
    AlikeOpenAlike(x, body[..i]);
    QuietElsewhere(body, host, i);
    RenderCons(Prefixed, Edits(body, host, i + 1), prefix);
    assert prefix + [SLASH] + rest == prefix + ([SLASH] + rest);
    PrefixOpens(x, prefix, [SLASH] + rest);
  }

  lemma CopySlash(body: Bytes, host: Bytes, prefix: Bytes, i: nat, x: Bytes)
    requires i < |body| && !HostAt(body, host, i) && !UrlSlashAt(body, i)
    requires RootedPrefix(prefix) && Alike(x, body[..i])
    requires SlashIff(body, host, prefix, i + 1, x + [body[i]])
    ensures SlashIff(body, host, prefix, i, x)
  {
    QuietElsewhere(body, host, i);
    RenderCons(Copy(body[i]), Edits(body, host, i + 1), prefix);
    CopiedIsQuiet(body, host, prefix, i, x);
    CopyKeepsQuiet(x, body[i], Render(Edits(body, host, i + 1), prefix));
  }

  lemma {:induction false} OutputSlashIff(body: Bytes, host: Bytes, prefix: Bytes, i: nat, x: Bytes)
    requires i <= |body| && RootedPrefix(prefix) && EndAlike(host, prefix) && Alike(x, body[..i])
    ensures SlashIff(body, host, prefix, i, x)
    decreases |body| - i
  {
    if i < |body| {
      GrowSlice(body, host, i);
      if HostAt(body, host, i) {
        AlikeBehind(x, prefix, body[..i], host);
        OutputSlashIff(body, host, prefix, i + |host|, x + prefix);
        SwapSlash(body, host, prefix, i, x);
      } else if UrlSlashAt(body, i) {
        PrefixedSlash(body, host, prefix, i, x);
      } else {
        AlikeOneMore(x, body[..i], body[i]);
        OutputSlashIff(body, host, prefix, i + 1, x + [body[i]]);
        CopySlash(body, host, prefix, i, x);
      }
    }
  }

  /**
   Rewriting once more changes nothing exactly when the first rewriting puts no prefix before a slash
   and swaps no host where a URL opens.
   */
  lemma RewriteAgainIff(body: Bytes, host: Bytes, prefix: Bytes)
    requires Apart(host, prefix) && RootedPrefix(prefix) && EndAlike(host, prefix)
    ensures var once := Render(Edits(body, host, 0), prefix);
            Render(Edits(once, host, 0), prefix) == once <==>
            Prefixed !in Edits(body, host, 0)
            && forall p :: p in SwapStarts(body, host, 0) && p <= |body| ==> !OpensUrl(body[..p])
  {
    var once := Render(Edits(body, host, 0), prefix);
    SecondPassChangesIff(body, host, prefix);
    OutputSlashIff(body, host, prefix, 0, []);
    assert [] + once == once;
  }

  // ---------------------------------------------------------------------------
  // Bodies that change again
  // ---------------------------------------------------------------------------

  lemma FirstEdits(body: Bytes, host: Bytes)
    requires |body| == 2 && |host| != 1
    ensures !HostAt(body, host, 0) ==>
            Edits(body, host, 0) ==
            [if UrlSlashAt(body, 0) then Prefixed else Copy(body[0]),
             if UrlSlashAt(body, 1) then Prefixed else Copy(body[1])]
  {
    assert !HostAt(body, host, 1);
    assert Edits(body, host, 2) == [];
  }

  /** A slash behind an equals sign gets the prefix each time. */
  lemma PrefixedAgain(host: Bytes, prefix: Bytes)
    requires (host == [] || |host| > 2) && Apart(host, prefix) && RootedPrefix(prefix) && EndAlike(host, prefix)
    ensures var body := [EQUALS, SLASH];
            var once := Render(Edits(body, host, 0), prefix);
            Render(Edits(once, host, 0), prefix) != once
  {
    var body := [EQUALS, SLASH];
    FirstEdits(body, host);
    assert UrlSlashAt(body, 1);
    assert Prefixed in Edits(body, host, 0);
    RewriteAgainIff(body, host, prefix);
  }

  /**
   Where host and prefix end differently the condition is not enough: behind a quote, a prefix that
   ends in a hyphen opens a URL that the host's last letter did not open.
   */
  lemma EndingsMatter()
    ensures var host, prefix, body := [0x68], [SLASH, 0x2D], [0x68, DOUBLE_QUOTE, SLASH];
            && Apart(host, prefix) && RootedPrefix(prefix) && Quiet(body, host, 0)
            && var once := Render(Edits(body, host, 0), prefix);
               Render(Edits(once, host, 0), prefix) != once
  {
    var host, prefix, body: Bytes := [0x68], [SLASH, 0x2D], [0x68, DOUBLE_QUOTE, SLASH];
    HyphenEdits(host, body);
    var once := [SLASH, 0x2D, DOUBLE_QUOTE, SLASH];
    RenderHyphen(prefix);
    assert UrlSlashAt(once, 3);
    SecondPassChangesIff(body, host, prefix);
  }

  lemma HyphenEdits(host: Bytes, body: Bytes)
    requires host == [0x68] && body == [0x68, DOUBLE_QUOTE, SLASH]
    ensures Edits(body, host, 0) == [Swap, Copy(DOUBLE_QUOTE), Copy(SLASH)]
    ensures Quiet(body, host, 0)
  {
    assert body[0..1][0] == body[0] && body[1..2][0] == body[1] && body[2..3][0] == body[2];
    assert HostAt(body, host, 0) && !HostAt(body, host, 1) && !HostAt(body, host, 2);
    assert Edits(body, host, 3) == [];
    assert Edits(body, host, 2) == [Copy(SLASH)];
    assert SwapStarts(body, host, 1) == SwapStarts(body, host, 2) == SwapStarts(body, host, 3);
    assert body[..0] == [];
  }

  lemma RenderHyphen(prefix: Bytes)
    requires prefix == [SLASH, 0x2D]
    ensures Render([Swap, Copy(DOUBLE_QUOTE), Copy(SLASH)], prefix) == [SLASH, 0x2D, DOUBLE_QUOTE, SLASH]
  {
    RenderCons(Swap, [Copy(DOUBLE_QUOTE), Copy(SLASH)], prefix);
    RenderCons(Copy(DOUBLE_QUOTE), [Copy(SLASH)], prefix);
    RenderCons(Copy(SLASH), [], prefix);
  }
}
