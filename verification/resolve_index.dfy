/**
 The persistent positive index: one stored row per artwork key, read back with the version of
 the selection rules that wrote it, and consulted at larger sizes when the exact one is missing.
 A store operation may fault; `ok` says whether it worked.
 */
module ResolveIndex {
  import opened Common
  import opened ArtworkTypes

  /** A row as found on disk: the versioned envelope, or any other text (trimmed). */
  datatype Row = Envelope(version: nat, hash: string) | Text(body: string)

  datatype Hit = Hit(hash: string, version: nat)

  /** Reported for rows written before rows carried a version. */
  const LEGACY_ENTRY_VERSION: nat := 0

  /** Fallback probe order, largest first. */
  const SIZE_FALLBACK_ORDER: seq<string> := ["original", "large", "medium", "small"]

  predicate IsLowerHex(c: char) {
    '0' <= c <= '9' || 'a' <= c <= 'f'
  }

  predicate IsValidContentHash(s: string) {
    |s| == 64 && forall i :: 0 <= i < |s| ==> IsLowerHex(s[i])
  }

  function ReadRow(row: Row): Option<Hit> {
    match row
    case Envelope(v, h) => if IsValidContentHash(h) then Some(Hit(h, v)) else None
    case Text(b) => if IsValidContentHash(b) then Some(Hit(b, LEGACY_ENTRY_VERSION)) else None
  }

  function HashesOf(rows: map<Key, Row>): set<string> {
    set k | k in rows && ReadRow(rows[k]).Some? :: ReadRow(rows[k]).value.hash
  }

  /** The rows that a sweep cannot remove. */
  function Stuck(rows: map<Key, Row>, stuck: set<Key>): map<Key, Row> {
    rows - (rows.Keys - stuck)
  }

  lemma HashesOfOneMore(rows: map<Key, Row>, left: set<Key>, k: Key)
    requires k in left
    ensures HashesOf(rows - (left - {k})) == HashesOf(rows - left)
              + if k in rows && ReadRow(rows[k]).Some? then {ReadRow(rows[k]).value.hash} else {}
  {
    var less, more := rows - left, rows - (left - {k});
    assert forall j :: j in more <==> j in less || (j == k && k in rows);
    forall h | h in HashesOf(more)
      ensures h in HashesOf(less) || (k in rows && Find(rows, k).Some? && h == Find(rows, k).value.hash)
    {
      var j :| j in more && ReadRow(more[j]).Some? && ReadRow(more[j]).value.hash == h;
      assert j in less ==> less[j] == more[j];
    }
    forall h | h in HashesOf(less) ensures h in HashesOf(more) {
      var j :| j in less && ReadRow(less[j]).Some? && ReadRow(less[j]).value.hash == h;
      assert more[j] == less[j];
    }
    if k in rows { assert more[k] == rows[k]; }
  }

  /** What a row says: a hash of 64 lower-case hexadecimal digits, of version 0 where none is written. */
  lemma RowReadIff(row: Row, hash: string, version: nat)
    ensures ReadRow(row) == Some(Hit(hash, version)) <==>
              && |hash| == 64 && (forall i :: 0 <= i < 64 ==> hash[i] in "0123456789abcdef")
              && (row == Envelope(version, hash) || (row == Text(hash) && version == 0))
  {
    HexIff();
  }

  lemma HexIff()
    ensures forall c :: IsLowerHex(c) <==> c in "0123456789abcdef"
  {
    var digits := "0123456789abcdef";
    forall c ensures IsLowerHex(c) <==> c in digits {
      if '0' <= c <= '9' { assert digits[c as int - '0' as int] == c; }
      if 'a' <= c <= 'f' { assert digits[c as int - 'a' as int + 10] == c; }
    }
  }

  function Find(rows: map<Key, Row>, k: Key): Option<Hit> {
    if k in rows then ReadRow(rows[k]) else None
  }

  /** Position in the taxonomy, 0 the largest; nothing outside it. */
  function SizeRank(size: string): Option<nat> {
    if size == "original" then Some(0)
    else if size == "large" then Some(1)
    else if size == "medium" then Some(2)
    else if size == "small" then Some(3)
    else None
  }

  /** `larger` may stand in for a request of `size`: both are known and it is strictly larger. */
  predicate MayServe(larger: string, size: string) {
    SizeRank(larger).Some? && SizeRank(size).Some? && SizeRank(larger).value < SizeRank(size).value
  }

  /** Which stored size may stand in for which. */
  lemma MayServeIff(larger: string, size: string)
    ensures MayServe(larger, size) <==>
              || (larger == "original" && (size == "large" || size == "medium" || size == "small"))
              || (larger == "large" && (size == "medium" || size == "small"))
              || (larger == "medium" && size == "small")
  {
    assert "original"[0] != "large"[0] && "original"[0] != "medium"[0] && "original"[0] != "small"[0];
    assert "large"[0] != "medium"[0] && "large"[0] != "small"[0] && "medium"[0] != "small"[0];
  }

  lemma RankIsPosition(i: nat)
    requires i < 4
    ensures SizeRank(SIZE_FALLBACK_ORDER[i]) == Some(i)
  {
    match i
    case 0 => case 1 => case 2 => case 3 =>
  }

  /** The largest stored size that may serve `size`, which is itself preferred. */
  ghost predicate BestStored(rows: map<Key, Row>, scheme: string, value: string, size: string,
                             found: Option<(Hit, string)>)
  {
    match found
    case Some((hit, served)) =>
      && Find(rows, Key(scheme, value, served)) == Some(hit)
      && (served == size ||
          (&& Find(rows, Key(scheme, value, size)) == None
           && MayServe(served, size)
           && forall bigger :: MayServe(bigger, served) ==> Find(rows, Key(scheme, value, bigger)) == None))
    case None =>
      && Find(rows, Key(scheme, value, size)) == None
      && forall bigger :: MayServe(bigger, size) ==> Find(rows, Key(scheme, value, bigger)) == None
  }

  class Index {
    var rows: map<Key, Row>

    constructor (stored: map<Key, Row>)
      ensures rows == stored
    {
      rows := stored;
    }

    method Get(k: Key, ok: bool) returns (hit: Option<Hit>)
      ensures hit == if ok then Find(rows, k) else None
    {
      if !ok || k !in rows {
        return None;
      }
      hit := ReadRow(rows[k]);
    }

    /** A hash of the wrong shape is refused. */
    method Put(k: Key, hash: string, version: nat, ok: bool) returns (stored: bool)
      modifies this
      ensures stored <==> ok && IsValidContentHash(hash)
      ensures rows == if stored then old(rows)[k := Envelope(version, hash)] else old(rows)
    {
      stored := ok && IsValidContentHash(hash);
      if stored {
        rows := rows[k := Envelope(version, hash)];
      }
    }

    /** Answers whether a row was removed; nothing when the store faulted. */
    method ForgetKey(k: Key, ok: bool) returns (removed: Option<bool>)
      modifies this
      ensures removed == if k !in old(rows) then (if ok then Some(false) else None)
                         else if ok then Some(true) else None
      ensures rows == if ok then old(rows) - {k} else old(rows)
    {
      if !ok {
        return None;
      }
      removed := Some(k in rows);
      rows := rows - {k};
    }

    /**
     Sweeps the rows one by one. A row that cannot be removed stays and is not reported; one that
     cannot be read goes, but its hash is not reported.
     */
    method DropAll(stuck: set<Key>, unread: set<Key>) returns (hashes: set<string>)
      modifies this
      ensures rows == Stuck(old(rows), stuck)
      ensures hashes == HashesOf(old(rows) - stuck - unread)
    {
      hashes := {};
      var left := rows.Keys;
      while left != {}
        invariant left <= old(rows).Keys
        invariant rows == Stuck(old(rows), stuck + left)
        invariant hashes == HashesOf(old(rows) - stuck - unread - left)
        decreases left
      {
        var k :| k in left;
        var hit := if k in unread then None else ReadRow(rows[k]);
        HashesOfOneMore(old(rows) - stuck - unread, left, k);
        left := left - {k};
        if k !in stuck {
          rows := rows - {k};
          if hit.Some? {
            hashes := hashes + {hit.value.hash};
          }
        }
      }
      assert old(rows) - stuck - unread - left == old(rows) - stuck - unread;
      assert stuck + left == stuck;
    }

    /** With readable rows this is the requested size, or else the largest stored larger one. */
    method GetAnySize(scheme: string, value: string, preferred: string, ok: bool)
      returns (found: Option<(Hit, string)>)
      ensures if ok then BestStored(rows, scheme, value, preferred, found) else found == None
    {
      if !ok {
        return None;
      }
      var exact := Get(Key(scheme, value, preferred), true);
      if exact.Some? {
        return Some((exact.value, preferred));
      }
      var want := SizeRank(preferred);
      for i := 0 to |SIZE_FALLBACK_ORDER|
        invariant forall j :: 0 <= j < i && MayServe(SIZE_FALLBACK_ORDER[j], preferred) ==>
                    Find(rows, Key(scheme, value, SIZE_FALLBACK_ORDER[j])) == None
      {
        var candidate := SIZE_FALLBACK_ORDER[i];
        RankIsPosition(i);
        if candidate != preferred && want.Some? && SizeRank(candidate).Some?
           && SizeRank(candidate).value <= want.value {
          var hit := Get(Key(scheme, value, candidate), true);
          if hit.Some? {
            SmallerRanksProbed(i);
            return Some((hit.value, candidate));
          }
        }
      }
      SmallerRanksProbed(4);
      found := None;
    }
  }

  /** There is only one best stored size. */
  lemma BestStoredIsUnique(rows: map<Key, Row>, scheme: string, value: string, size: string,
                           a: Option<(Hit, string)>, b: Option<(Hit, string)>)
    requires BestStored(rows, scheme, value, size, a) && BestStored(rows, scheme, value, size, b)
    ensures a == b
  {
    if a.Some? && b.Some? && a.value.1 != size && b.value.1 != size {
      var x, y := a.value.1, b.value.1;
      assert !MayServe(x, y) && !MayServe(y, x);
      RankIsPosition(SizeRank(x).value);
      RankIsPosition(SizeRank(y).value);
      SameRankSameSize(x, y);
    }
  }

  lemma SameRankSameSize(x: string, y: string)
    requires SizeRank(x).Some? && SizeRank(x) == SizeRank(y)
    ensures x == y
  {
  }

  /** Every size larger than the i-th stands before it in the probe order. */
  lemma SmallerRanksProbed(i: nat)
    requires i <= 4
    ensures forall size :: SizeRank(size).Some? && SizeRank(size).value < i ==>
              exists j :: 0 <= j < i && SIZE_FALLBACK_ORDER[j] == size
  {
    forall size | SizeRank(size).Some? && SizeRank(size).value < i
      ensures exists j :: 0 <= j < i && SIZE_FALLBACK_ORDER[j] == size
    {
      var j := SizeRank(size).value;
      assert SIZE_FALLBACK_ORDER[j] == size by { match j case 0 => case 1 => case 2 => case _ => }
    }
  }

  // ---------------------------------------------------------------------------
  // The key's byte framing
  // ---------------------------------------------------------------------------

  const UNIT_SEPARATOR: char := 0x1F as char

  /** The text whose digest names a row's file. */
  function Framed(k: Key): string {
    k.scheme + [UNIT_SEPARATOR] + k.value + [UNIT_SEPARATOR] + k.size
  }

  lemma {:induction false} SameHead(a: string, b: string, x: string, y: string)
    requires UNIT_SEPARATOR !in a && UNIT_SEPARATOR !in b
    requires a + [UNIT_SEPARATOR] + x == b + [UNIT_SEPARATOR] + y
    ensures a == b && x == y
  {
    var s := a + [UNIT_SEPARATOR] + x;
    assert s[|a|] == UNIT_SEPARATOR && s[|b|] == UNIT_SEPARATOR;
    assert s[..|a|] == a && s[..|b|] == b;
    assert |a| == |b|;
    assert s[|a| + 1..] == x && s[|b| + 1..] == y;
  }

  lemma {:induction false} SameTail(a: string, b: string, x: string, y: string)
    requires UNIT_SEPARATOR !in a && UNIT_SEPARATOR !in b
    requires x + [UNIT_SEPARATOR] + a == y + [UNIT_SEPARATOR] + b
    ensures a == b && x == y
  {
    var s := x + [UNIT_SEPARATOR] + a;
    assert s[|s| - |a| - 1] == UNIT_SEPARATOR && s[|s| - |b| - 1] == UNIT_SEPARATOR;
    assert s[|s| - |a|..] == a && s[|s| - |b|..] == b;
    assert |a| == |b|;
    assert s[..|x|] == x && s[..|y|] == y;
  }

  /** Keys whose scheme and size are free of the separator never share a frame, whatever their values. */
  lemma FrameIsInjective(k: Key, j: Key)
    requires '\U{001F}' !in k.scheme && '\U{001F}' !in j.scheme
    requires '\U{001F}' !in k.size && '\U{001F}' !in j.size
    requires Framed(k) == Framed(j)
    ensures k == j
  {
    var kt, jt := k.value + [UNIT_SEPARATOR] + k.size, j.value + [UNIT_SEPARATOR] + j.size;
    assert Framed(k) == k.scheme + [UNIT_SEPARATOR] + kt && Framed(j) == j.scheme + [UNIT_SEPARATOR] + jt;
    SameHead(k.scheme, j.scheme, kt, jt);
    SameTail(k.size, j.size, k.value, j.value);
  }

  /** A key shares its frame with some other key exactly when one of its parts holds the separator. */
  lemma FrameCollidesIff(k: Key)
    ensures (exists j: Key :: j != k && Framed(j) == Framed(k)) <==>
            '\U{001F}' in k.scheme || '\U{001F}' in k.value || '\U{001F}' in k.size
  {
    if UNIT_SEPARATOR in k.scheme || UNIT_SEPARATOR in k.value || UNIT_SEPARATOR in k.size {
      var j := SameFrame(k);
    } else {
      forall j: Key | Framed(j) == Framed(k) ensures j == k {
        FrameHasTwoSeparators(k, j);
      }
    }
  }

  lemma SplitAtSeparator(s: string) returns (head: string, tail: string)
    requires UNIT_SEPARATOR in s
    ensures s == head + [UNIT_SEPARATOR] + tail
  {
    var i :| 0 <= i < |s| && s[i] == UNIT_SEPARATOR;
    head, tail := s[..i], s[i + 1..];
  }

  /** Moving a separator from inside a part to between two parts. */
  lemma SameFrame(k: Key) returns (j: Key)
    requires UNIT_SEPARATOR in k.scheme || UNIT_SEPARATOR in k.value || UNIT_SEPARATOR in k.size
    ensures j != k && Framed(j) == Framed(k)
  {
    var us := [UNIT_SEPARATOR];
    if UNIT_SEPARATOR in k.scheme {
      var head, tail := SplitAtSeparator(k.scheme);
      j := Key(head, tail + us + k.value, k.size);
      assert |j.scheme| < |k.scheme|;
    } else if UNIT_SEPARATOR in k.value {
      var head, tail := SplitAtSeparator(k.value);
      j := Key(k.scheme + us + head, tail, k.size);
      assert |j.scheme| > |k.scheme|;
    } else {
      var head, tail := SplitAtSeparator(k.size);
      j := Key(k.scheme, k.value + us + head, tail);
      assert |j.size| < |k.size|;
    }
  }

  function Count(s: string, c: char): nat {
    if s == [] then 0 else (if s[0] == c then 1 else 0) + Count(s[1..], c)
  }

  lemma {:induction false} CountConcat(s: string, t: string, c: char)
    ensures Count(s + t, c) == Count(s, c) + Count(t, c)
  {
    if s == [] {
      assert s + t == t;
    } else {
      assert (s + t)[1..] == s[1..] + t;
      CountConcat(s[1..], t, c);
    }
  }

  lemma {:induction false} CountZero(s: string, c: char)
    ensures Count(s, c) == 0 <==> c !in s
  {
    if s != [] { CountZero(s[1..], c); }
  }

  lemma CountFrame(k: Key)
    ensures Count(Framed(k), UNIT_SEPARATOR) ==
            2 + Count(k.scheme, UNIT_SEPARATOR) + Count(k.value, UNIT_SEPARATOR) + Count(k.size, UNIT_SEPARATOR)
  {
    var us := [UNIT_SEPARATOR];
    CountConcat(k.scheme + us + k.value + us, k.size, UNIT_SEPARATOR);
    CountConcat(k.scheme + us + k.value, us, UNIT_SEPARATOR);
    CountConcat(k.scheme + us, k.value, UNIT_SEPARATOR);
    CountConcat(k.scheme, us, UNIT_SEPARATOR);
  }

  lemma FrameHasTwoSeparators(k: Key, j: Key)
    requires UNIT_SEPARATOR !in k.scheme && UNIT_SEPARATOR !in k.value && UNIT_SEPARATOR !in k.size
    requires Framed(j) == Framed(k)
    ensures j == k
  {
    CountFrame(k);
    CountFrame(j);
    CountZero(k.scheme, UNIT_SEPARATOR); CountZero(k.value, UNIT_SEPARATOR); CountZero(k.size, UNIT_SEPARATOR);
    CountZero(j.scheme, UNIT_SEPARATOR); CountZero(j.size, UNIT_SEPARATOR);
    FrameIsInjective(k, j);
  }
}
