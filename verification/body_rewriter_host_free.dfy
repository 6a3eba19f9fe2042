/**
 When the rewritten body is free of the upstream host: a string-border argument over the scan.
 A leak would have to run across an inserted prefix, so it needs the host and the prefix to
 agree wherever they could overlap.
 */
module BodyRewriterHostFree {
  import opened BodyRewriter

  ghost predicate Mentions(text: Bytes, host: Bytes) {
    exists i: nat :: HostAt(text, host, i)
  }

  /** Laying `host` at offset `d` of `prefix`, the two share a position and agree on all they share. */
  predicate Agree(host: Bytes, prefix: Bytes, d: int) {
    && -|host| < d < |prefix|
    && forall j :: 0 <= j < |prefix| && 0 <= j - d < |host| ==> prefix[j] == host[j - d]
  }

  /** No placement of the host over the prefix agrees, neither inside it nor across an end. */
  predicate NoOverlap(host: Bytes, prefix: Bytes) {
    forall d :: -|host| < d < |prefix| ==> !Agree(host, prefix, d)
  }

  lemma PrefixTail(w: Bytes, b: byte, rest: Bytes)
    requires w != []
    ensures w <= [b] + rest <==> w[0] == b && w[1..] <= rest
  {
    if w[0] == b && w[1..] <= rest { assert w == [b] + w[1..]; }
  }

  /** Output that opens with a prefix does not open with a suffix of the host. */
  lemma PrefixIsNoSuffix(host: Bytes, prefix: Bytes, rest: Bytes, m: nat)
    requires 0 < m < |host| && NoOverlap(host, prefix)
    ensures !(host[m..] <= prefix + rest)
  {
    var out := prefix + rest;
    if host[m..] <= out {
      forall j | 0 <= j < |prefix| && 0 <= j + m < |host| ensures prefix[j] == host[j - (0 - m)] {
        assert out[j] == host[m..][j];
      }
      assert Agree(host, prefix, 0 - m);
    }
  }

  lemma EditedOutput(body: Bytes, host: Bytes, prefix: Bytes, k: nat) returns (rest: Bytes)
    requires k < |body| && (HostAt(body, host, k) || UrlSlashAt(body, k))
    ensures Render(Edits(body, host, k), prefix) == prefix + rest
  {
    if HostAt(body, host, k) {
      rest := Render(Edits(body, host, k + |host|), prefix);
      RenderCons(Swap, Edits(body, host, k + |host|), prefix);
    } else {
      var tail := Render(Edits(body, host, k + 1), prefix);
      rest := [SLASH] + tail;
      RenderCons(Prefixed, Edits(body, host, k + 1), prefix);
      assert (prefix + [SLASH]) + tail == prefix + rest;
    }
  }

  /** A proper suffix of the host at the front of the output was at the front of the input. */
  lemma {:induction false} SuffixWasThere(body: Bytes, host: Bytes, prefix: Bytes, k: nat, m: nat)
    requires k <= |body| && 0 < m <= |host| && NoOverlap(host, prefix)
    requires host[m..] <= Render(Edits(body, host, k), prefix)
    ensures host[m..] <= body[k..]
    decreases |host| - m
  {
    if m < |host| {
      assert k < |body|;
      if HostAt(body, host, k) || UrlSlashAt(body, k) {
        var rest := EditedOutput(body, host, prefix, k);
        PrefixIsNoSuffix(host, prefix, rest, m);
      } else {
        CopiedSuffix(body, host, prefix, k, m);
        SuffixWasThere(body, host, prefix, k + 1, m + 1);
        SuffixFrom(host, m, body, k);
      }
    }
  }

  lemma CopiedSuffix(body: Bytes, host: Bytes, prefix: Bytes, k: nat, m: nat)
    requires k < |body| && m < |host| && !HostAt(body, host, k) && !UrlSlashAt(body, k)
    requires host[m..] <= Render(Edits(body, host, k), prefix)
    ensures host[m] == body[k] && host[m + 1..] <= Render(Edits(body, host, k + 1), prefix)
  {
    RenderFromHere(body, host, prefix, k, Copy(body[k]), k + 1);
    PrefixTail(host[m..], body[k], Render(Edits(body, host, k + 1), prefix));
    assert host[m..][1..] == host[m + 1..];
  }

  lemma SuffixFrom(host: Bytes, m: nat, body: Bytes, k: nat)
    requires m < |host| && k < |body| && host[m] == body[k] && host[m + 1..] <= body[k + 1..]
    ensures host[m..] <= body[k..]
  {
    assert host[m..] == [host[m]] + host[m + 1..] && body[k..] == [body[k]] + body[k + 1..];
  }

  /** A mention that starts at a copied byte was there in the input. */
  lemma CopiedByteMention(body: Bytes, host: Bytes, prefix: Bytes, i: nat)
    requires i < |body| && NoOverlap(host, prefix)
    requires HostAt([body[i]] + Render(Edits(body, host, i + 1), prefix), host, 0)
    ensures HostAt(body, host, i)
  {
    var tail := Render(Edits(body, host, i + 1), prefix);
    HeadAndRest(host, body[i], tail);
    SuffixWasThere(body, host, prefix, i + 1, 1);
    FrontMatches(body, host, i);
  }

  lemma FrontMatches(body: Bytes, host: Bytes, i: nat)
    requires i < |body| && host != [] && host[0] == body[i] && host[1..] <= body[i + 1..]
    ensures HostAt(body, host, i)
  {
    var there, slice := body[i + 1..], body[i..i + |host|];
    assert there[..|host| - 1] == host[1..];
    forall j | 0 <= j < |host| ensures slice[j] == host[j] {
      if j > 0 {
        assert slice[j] == there[..|host| - 1][j - 1] == host[1..][j - 1];
      }
    }
    assert slice == host;
  }

  lemma HeadAndRest(host: Bytes, b: byte, tail: Bytes)
    requires HostAt([b] + tail, host, 0)
    ensures host[0] == b && host[1..] <= tail
  {
    var text := [b] + tail;
    assert text[0..0 + |host|] == host;
    assert text[1..] == tail;
    assert host[1..] == tail[..|host| - 1];
  }

  lemma MentionInTail(head: Bytes, tail: Bytes, host: Bytes, q: nat)
    requires HostAt(head + tail, host, q) && q >= |head|
    ensures HostAt(tail, host, q - |head|)
  {
    assert (head + tail)[q..q + |host|] == tail[q - |head|..q - |head| + |host|];
  }

  lemma MentionOverPrefix(prefix: Bytes, tail: Bytes, host: Bytes, q: nat)
    requires HostAt(prefix + tail, host, q) && q < |prefix|
    ensures Agree(host, prefix, q)
  {
    var out := prefix + tail;
    var slice := out[q..q + |host|];
    forall j | 0 <= j < |prefix| && 0 <= j - q < |host| ensures prefix[j] == host[j - q] {
      assert slice[j - q] == out[j];
    }
  }

  lemma {:induction false} NoMentionFrom(body: Bytes, host: Bytes, prefix: Bytes, i: nat, q: nat)
    requires i <= |body| && NoOverlap(host, prefix)
    ensures !HostAt(Render(Edits(body, host, i), prefix), host, q)
    decreases |body| - i, 1
  {
    if i < |body| {
      if HostAt(body, host, i) {
        if q >= |prefix| { NoMentionFrom(body, host, prefix, i + |host|, q - |prefix|); }
        SwapMentionsNothing(body, host, prefix, i, q);
      } else if UrlSlashAt(body, i) {
        if q >= |prefix| { NoMentionFromCopied(body, host, prefix, i, q - |prefix|); }
        PrefixedMentionsNothing(body, host, prefix, i, q);
      } else {
        NoMentionFromCopied(body, host, prefix, i, q);
        RenderFromHere(body, host, prefix, i, Copy(body[i]), i + 1);
      }
    }
  }

  lemma SwapMentionsNothing(body: Bytes, host: Bytes, prefix: Bytes, i: nat, q: nat)
    requires NoOverlap(host, prefix) && HostAt(body, host, i)
    requires q >= |prefix| ==> !HostAt(Render(Edits(body, host, i + |host|), prefix), host, q - |prefix|)
    ensures !HostAt(Render(Edits(body, host, i), prefix), host, q)
  {
    RenderFromHere(body, host, prefix, i, Swap, i + |host|);
    NoMentionBehindPrefix(Render(Edits(body, host, i + |host|), prefix), host, prefix, q);
  }

  lemma PrefixedMentionsNothing(body: Bytes, host: Bytes, prefix: Bytes, i: nat, q: nat)
    requires i < |body| && NoOverlap(host, prefix) && !HostAt(body, host, i) && UrlSlashAt(body, i)
    requires q >= |prefix| ==> !HostAt([body[i]] + Render(Edits(body, host, i + 1), prefix), host, q - |prefix|)
    ensures !HostAt(Render(Edits(body, host, i), prefix), host, q)
  {
    var rest := [SLASH] + Render(Edits(body, host, i + 1), prefix);
    RenderFromHere(body, host, prefix, i, Prefixed, i + 1);
    assert prefix + [SLASH] + Render(Edits(body, host, i + 1), prefix) == prefix + rest;
    NoMentionBehindPrefix(rest, host, prefix, q);
  }

  lemma NoMentionBehindPrefix(tail: Bytes, host: Bytes, prefix: Bytes, q: nat)
    requires NoOverlap(host, prefix) && (q >= |prefix| ==> !HostAt(tail, host, q - |prefix|))
    ensures !HostAt(prefix + tail, host, q)
  {
    if HostAt(prefix + tail, host, q) { NoMentionAfter(prefix, tail, host, prefix, q); }
  }

  lemma NoMentionAfter(head: Bytes, tail: Bytes, host: Bytes, prefix: Bytes, q: nat)
    requires head == prefix && NoOverlap(host, prefix) && HostAt(head + tail, host, q)
    ensures q >= |prefix| && HostAt(tail, host, q - |prefix|)
  {
    if q < |prefix| {
      MentionOverPrefix(prefix, tail, host, q);
    } else {
      MentionInTail(head, tail, host, q);
    }
  }

  lemma {:induction false} NoMentionFromCopied(body: Bytes, host: Bytes, prefix: Bytes, i: nat, q: nat)
    requires i < |body| && NoOverlap(host, prefix) && !HostAt(body, host, i)
    ensures !HostAt([body[i]] + Render(Edits(body, host, i + 1), prefix), host, q)
    decreases |body| - i, 0
  {
    var tail := Render(Edits(body, host, i + 1), prefix);
    if HostAt([body[i]] + tail, host, q) {
      if q == 0 {
        CopiedByteMention(body, host, prefix, i);
      } else {
        MentionInTail([body[i]], tail, host, q);
        NoMentionFrom(body, host, prefix, i + 1, q - 1);
      }
    }
  }

  /** Without overlap, no rewritten body mentions the upstream host anywhere, for any body. */
  lemma RewrittenBodyIsHostFree(body: Bytes, host: Bytes, prefix: Bytes)
    requires NoOverlap(host, prefix)
    ensures !Mentions(Render(Edits(body, host, 0), prefix), host)
  {
    forall q: nat ensures !HostAt(Render(Edits(body, host, 0), prefix), host, q) {
      NoMentionFrom(body, host, prefix, 0, q);
    }
  }

  // ---------------------------------------------------------------------------
  // The condition is exact
  // ---------------------------------------------------------------------------

  /** No proper non-empty suffix of the host is also its prefix. */
  predicate Unbordered(host: Bytes) {
    forall n :: 0 < n < |host| ==> host[..n] != host[|host| - n..]
  }

  /** The prefix opens with a byte the host does not hold. */
  predicate OpensOutside(host: Bytes, prefix: Bytes) {
    prefix != [] && prefix[0] !in host
  }

  /** The host holds none of the bytes that put a following slash in URL context. */
  predicate NeutralBytes(host: Bytes) {
    DOUBLE_QUOTE !in host && SINGLE_QUOTE !in host && PAREN !in host && EQUALS !in host
  }

  predicate Neutral(text: Bytes) {
    forall i :: 0 <= i < |text| ==>
      text[i] != DOUBLE_QUOTE && text[i] != SINGLE_QUOTE && text[i] != PAREN && text[i] != EQUALS
  }

  function Copies(text: Bytes): seq<Edit> {
    if text == [] then [] else [Copy(text[0])] + Copies(text[1..])
  }

  lemma {:induction false} RenderCopies(text: Bytes, rest: seq<Edit>, prefix: Bytes)
    ensures Render(Copies(text) + rest, prefix) == text + Render(rest, prefix)
  {
    if text == [] {
      assert Copies(text) + rest == rest;
    } else {
      RenderCopies(text[1..], rest, prefix);
      assert Copies(text) + rest == [Copy(text[0])] + (Copies(text[1..]) + rest);
      RenderCons(Copy(text[0]), Copies(text[1..]) + rest, prefix);
      SplitHead(text, Render(rest, prefix));
    }
  }

  lemma SplitHead(text: Bytes, rest: Bytes)
    requires text != []
    ensures [text[0]] + (text[1..] + rest) == text + rest
  {
  }

  lemma SandwichSlices(host: Bytes, x: Bytes, y: Bytes)
    ensures var body := x + host + y;
            body[0..|x|] == x && body[|x|..|x| + |host|] == host && body[|x| + |host|..|body|] == y
  {
  }

  /** Neutral text without a host is copied. */
  lemma {:induction false} NeutralIsCopied(body: Bytes, host: Bytes, i: nat, n: nat)
    requires Neutral(body) && i <= n <= |body|
    requires forall q: nat :: i <= q < n ==> !HostAt(body, host, q)
    ensures Edits(body, host, i) == Copies(body[i..n]) + Edits(body, host, n)
    decreases n - i
  {
    if i == n {
      assert Copies(body[i..n]) + Edits(body, host, n) == Edits(body, host, n);
    } else {
      NeutralIsCopied(body, host, i + 1, n);
      NeutralEdit(body, host, i);
      CopyFirst(body, i, n, Edits(body, host, n));
    }
  }

  lemma NeutralEdit(body: Bytes, host: Bytes, i: nat)
    requires Neutral(body) && i < |body| && !HostAt(body, host, i)
    ensures Edits(body, host, i) == [Copy(body[i])] + Edits(body, host, i + 1)
  {
    assert !UrlSlashAt(body, i);
    EditsFromHere(body, host, i, Copy(body[i]), i + 1);
  }

  lemma CopyFirst(body: Bytes, i: nat, n: nat, rest: seq<Edit>)
    requires i < n <= |body|
    ensures Copies(body[i..n]) + rest == [Copy(body[i])] + (Copies(body[i + 1..n]) + rest)
  {
    assert body[i..n][1..] == body[i + 1..n];
  }

  /** What of the host sticks out before and behind the prefix when laid at offset `d`. */
  function Left(host: Bytes, d: int): Bytes
    requires -|host| < d
  {
    if d < 0 then host[..-d] else []
  }

  function Right(host: Bytes, prefix: Bytes, d: int): Bytes
    requires d < |prefix|
  {
    if d + |host| > |prefix| && |prefix| >= d then host[|prefix| - d..] else []
  }

  /** A host between two short pieces of itself is swapped and the pieces copied. */
  lemma SandwichEdits(host: Bytes, x: Bytes, y: Bytes)
    requires Unbordered(host) || x == []
    requires Neutral(x + host + y) && |x| < |host| && |y| < |host| && x == host[..|x|]
    ensures Edits(x + host + y, host, 0) == Copies(x) + ([Swap] + Copies(y))
  {
    var body := x + host + y;
    forall q: nat | q < |x| ensures !HostAt(body, host, q) {
      if HostAt(body, host, q) { EarlyMatchMakesBorder(host, x, y, q); }
    }
    SandwichSlices(host, x, y);
    NeutralIsCopied(body, host, 0, |x|);
    SandwichTail(host, x, y);
  }

  lemma SandwichTail(host: Bytes, x: Bytes, y: Bytes)
    requires Neutral(x + host + y) && |y| < |host|
    ensures |x| <= |x + host + y|
    ensures Edits(x + host + y, host, |x|) == [Swap] + Copies(y)
  {
    var body := x + host + y;
    var n := |x| + |host|;
    SandwichSlices(host, x, y);
    NeutralIsCopied(body, host, n, |body|);
    assert Copies(y) + [] == Copies(y);
  }

  lemma EarlyMatchMakesBorder(host: Bytes, x: Bytes, y: Bytes, q: nat)
    requires q < |x| < |host| && x == host[..|x|] && HostAt(x + host + y, host, q)
    ensures var n := |host| - (|x| - q); 0 < n < |host| && host[..n] == host[|host| - n..]
  {
    var n := |host| - (|x| - q);
    var text := x + host + y;
    var slice := text[q..q + |host|];
    forall j | 0 <= j < n ensures host[|host| - n..][j] == host[j] {
      assert slice[|x| - q + j] == text[|x| + j] == host[j];
    }
    assert host[|host| - n..] == host[..n];
  }

  lemma SandwichRenders(host: Bytes, prefix: Bytes, x: Bytes, y: Bytes)
    requires Unbordered(host) || x == []
    requires Neutral(x + host + y) && |x| < |host| && |y| < |host| && x == host[..|x|]
    ensures Render(Edits(x + host + y, host, 0), prefix) == x + (prefix + y)
  {
    SandwichEdits(host, x, y);
    RenderCopies(x, [Swap] + Copies(y), prefix);
    RenderCons(Swap, Copies(y), prefix);
    RenderCopies(y, [], prefix);
    assert Copies(y) + [] == Copies(y) && y + [] == y;
  }

  /** A host that sticks out before the prefix holds its first byte. */
  lemma OverhangHoldsFirst(host: Bytes, prefix: Bytes, d: int)
    requires Agree(host, prefix, d) && prefix != []
    ensures d < 0 ==> prefix[0] in host
  {
    assert d < 0 ==> prefix[0] == host[0 - d];
  }

  /** The input that leaks when the host agrees with the prefix at offset `d`. */
  lemma OverlapLeaks(host: Bytes, prefix: Bytes, d: int) returns (body: Bytes)
    requires Unbordered(host) || OpensOutside(host, prefix)
    requires NeutralBytes(host) && host != [] && Agree(host, prefix, d)
    ensures Mentions(Render(Edits(body, host, 0), prefix), host)
  {
    var x, y := Left(host, d), Right(host, prefix, d);
    body := x + host + y;
    assert Neutral(body);
    assert |y| < |host|;
    if prefix != [] { OverhangHoldsFirst(host, prefix, d); }
    SandwichRenders(host, prefix, x, y);
    LaidOut(host, prefix, d);
  }

  lemma LaidOut(host: Bytes, prefix: Bytes, d: int)
    requires host != [] && Agree(host, prefix, d)
    ensures Mentions(Left(host, d) + (prefix + Right(host, prefix, d)), host)
  {
    var out := Left(host, d) + (prefix + Right(host, prefix, d));
    var at: nat := if d < 0 then 0 else d;
    forall j | 0 <= j < |host| ensures at + j < |out| && out[at + j] == host[j] {
      Placed(host, prefix, d, j);
    }
    assert at + (|host| - 1) < |out|;
    assert out[at..at + |host|] == host;
    assert HostAt(out, host, at);
  }

  lemma Placed(host: Bytes, prefix: Bytes, d: int, j: nat)
    requires Agree(host, prefix, d) && j < |host|
    ensures var out := Left(host, d) + (prefix + Right(host, prefix, d));
            var at := if d < 0 then 0 else d;
            at + j < |out| && out[at + j] == host[j]
  {
    if 0 <= j + d < |prefix| {
      assert prefix[j + d] == host[(j + d) - d];
    }
  }

  /** The rewriter hides the host in every body. */
  ghost predicate HidesHost(host: Bytes, prefix: Bytes) {
    forall body :: HidesHostIn(body, host, prefix)
  }

  ghost predicate HidesHostIn(body: Bytes, host: Bytes, prefix: Bytes) {
    !Mentions(Render(Edits(body, host, 0), prefix), host)
  }

  /**
   For a host with none of the context bytes that has no border or lacks the first byte of the
   prefix, the rewriter hides the host in every body exactly when host and prefix do not overlap.
   */
  lemma HidesHostIffNoOverlap(host: Bytes, prefix: Bytes)
    requires host != [] && NeutralBytes(host) && (Unbordered(host) || OpensOutside(host, prefix))
    ensures HidesHost(host, prefix) <==> NoOverlap(host, prefix)
  {
    if NoOverlap(host, prefix) {
      forall body ensures HidesHostIn(body, host, prefix) {
        RewrittenBodyIsHostFree(body, host, prefix);
      }
    } else {
      var d :| -|host| < d < |prefix| && Agree(host, prefix, d);
      var body := OverlapLeaks(host, prefix, d);
      assert !HidesHostIn(body, host, prefix);
    }
  }
}
