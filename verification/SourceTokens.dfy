// Where the lexer of the parity tool lets each kind of token begin and end,
// in terms of the bytes themselves (apps/coder-parity/src/main.rs).
module SourceTokens {
  import opened Common
  import opened SourceStripper

  // -------------------------------------------------------------- line comments

  /** `e` is the first newline from `i` on, or the end of the text. */
  ghost predicate FirstNewline(x: seq<byte>, i: nat, e: nat) {
    && i <= e <= |x| && (e < |x| ==> x[e] == 10)
    && (forall k :: i <= k < e ==> x[k] != 10)
  }

  lemma {:induction false} LineEndIff(x: seq<byte>, i: nat, e: nat)
    requires i <= |x|
    ensures LineEnd(x, i) == e <==> FirstNewline(x, i, e)
    decreases |x| - i
  {
    if i < |x| && x[i] != NEWLINE {
      LineEndIff(x, i + 1, e);
    }
  }

  /** A line comment reaches to the newline that ends it. */
  lemma LineCommentIff(x: seq<byte>, i: nat, e: nat)
    requires i + 1 < |x| && x[i] == 47 && x[i + 1] == 47
    ensures NoiseEnd(x, i) == Some(e) <==> FirstNewline(x, i, e)
  {
    LineEndIff(x, i + 1, e);
  }

  // ------------------------------------------------------------- block comments

  // A two-byte comment mark, slash and star or star and slash, stands at `k`.
  predicate IsMark(x: seq<byte>, k: nat) {
    k + 1 < |x| && ((x[k] == 47 && x[k + 1] == 42) || (x[k] == 42 && x[k + 1] == 47))
  }

  /** Reading marks and single bytes from `start` on, a new one begins at `k`. */
  predicate Begins(x: seq<byte>, start: nat, k: nat)
    decreases k
  {
    || k == start
    || (k > start && Begins(x, start, k - 1) && !IsMark(x, k - 1))
    || (k > start + 1 && Begins(x, start, k - 2) && IsMark(x, k - 2))
  }

  /** How many comments are open at `k`, one being open at `start`: openers less closers before `k`. */
  function OpenAt(x: seq<byte>, start: nat, k: nat): int
    requires k <= |x|
    decreases k
  {
    if k <= start then 1
    else
      OpenAt(x, start, k - 1) +
      if Begins(x, start, k - 1) && IsMark(x, k - 1) then (if x[k - 1] == 47 then 1 else -1) else 0
  }

  /** `e` is the first beginning at which no comment is open, or the end of the text when there is none. */
  ghost predicate CommentCloses(x: seq<byte>, start: nat, e: nat) {
    && start <= e <= |x| && (e < |x| ==> Begins(x, start, e) && OpenAt(x, start, e) == 0)
    && (forall k :: start <= k < e && Begins(x, start, k) ==> OpenAt(x, start, k) > 0)
  }

  lemma CommentClosesOnce(x: seq<byte>, start: nat, e: nat, f: nat)
    requires CommentCloses(x, start, e) && CommentCloses(x, start, f)
    ensures e == f
  {
  }

  /** Behind the first byte of a mark nothing begins. */
  lemma {:induction false} NotInsideMark(x: seq<byte>, start: nat, k: nat)
    requires start <= k && Begins(x, start, k) && IsMark(x, k)
    ensures !Begins(x, start, k + 1)
    decreases k
  {
    if k > start && Begins(x, start, k - 1) && IsMark(x, k - 1) {
      NotInsideMark(x, start, k - 1);
    }
  }

  /** The scan, at a beginning with `depth` comments open and none closed before, ends where the comment closes. */
  lemma {:induction false} BlockEndCloses(x: seq<byte>, start: nat, i: nat, depth: nat)
    requires start <= i <= |x| && Begins(x, start, i) && OpenAt(x, start, i) == depth
    requires forall k :: start <= k < i && Begins(x, start, k) ==> OpenAt(x, start, k) > 0
    ensures CommentCloses(x, start, BlockEnd(x, i, depth))
    decreases |x| - i
  {
    if i < |x| && depth > 0 {
      if IsMark(x, i) {
        NotInsideMark(x, start, i);
        assert Begins(x, start, i + 2);
        var next := if x[i] == 47 then depth + 1 else depth - 1;
        assert OpenAt(x, start, i + 1) == next && OpenAt(x, start, i + 2) == next;
        BlockEndCloses(x, start, i + 2, next);
      } else {
        assert Begins(x, start, i + 1) && OpenAt(x, start, i + 1) == depth;
        BlockEndCloses(x, start, i + 1, depth);
      }
    }
  }

  /** A block comment ends where the marks behind its opener first balance it, nested comments counted. */
  lemma BlockCommentIff(x: seq<byte>, i: nat, e: nat)
    requires i + 1 < |x| && x[i] == 47 && x[i + 1] == 42
    ensures NoiseEnd(x, i) == Some(e) <==> CommentCloses(x, i + 2, e)
  {
    BlockEndCloses(x, i + 2, i + 2, 1);
    var f := BlockEnd(x, i + 2, 1);
    if CommentCloses(x, i + 2, e) {
      CommentClosesOnce(x, i + 2, e, f);
    }
  }

  // -------------------------------------------------------------------- strings

  /** How many backslashes stand directly before `k`, back to `i` at most. */
  function Backslashes(x: seq<byte>, i: nat, k: nat): nat
    requires k <= |x|
    decreases k
  {
    if k > i && x[k - 1] == 92 then 1 + Backslashes(x, i, k - 1) else 0
  }

  /** An unescaped quote: the backslashes before it escape each other. */
  predicate Unescaped(x: seq<byte>, i: nat, k: nat) {
    i <= k < |x| && x[k] == 34 && Backslashes(x, i, k) % 2 == 0
  }

  /** `e` lies behind the first unescaped quote from `i` on, or is the end of the text when there is none. */
  ghost predicate StringCloses(x: seq<byte>, i: nat, e: nat) {
    || (i < e && Unescaped(x, i, e - 1) && forall k :: i <= k < e - 1 ==> !Unescaped(x, i, k))
    || (e == |x| && forall k :: i <= k < |x| ==> !Unescaped(x, i, k))
  }

  lemma StringClosesOnce(x: seq<byte>, i: nat, e: nat, f: nat)
    requires i <= |x| && StringCloses(x, i, e) && StringCloses(x, i, f)
    ensures e == f
  {
  }

  /** A byte that is no backslash does not matter to the quotes behind it. */
  lemma {:induction false} BehindPlain(x: seq<byte>, i: nat, k: nat)
    requires i < k <= |x| && x[i] != 92
    ensures Backslashes(x, i, k) == Backslashes(x, i + 1, k)
    decreases k
  {
    if k > i + 1 {
      BehindPlain(x, i, k - 1);
    }
  }

  /** An escape, a backslash and the byte it escapes, does not change which quotes behind it are escaped. */
  lemma {:induction false} BehindEscape(x: seq<byte>, i: nat, k: nat)
    requires i + 2 <= k <= |x| && x[i] == 92
    ensures Backslashes(x, i, k) % 2 == Backslashes(x, i + 2, k) % 2
    decreases k
  {
    if k == i + 2 {
      assert Backslashes(x, i, i + 1) == 1;
    } else {
      BehindEscape(x, i, k - 1);
    }
  }

  lemma {:induction false} StringEndCloses(x: seq<byte>, i: nat)
    requires i <= |x|
    ensures StringCloses(x, i, StringEnd(x, i))
    decreases |x| - i
  {
    if i < |x| && x[i] != QUOTE {
      if x[i] == BACKSLASH && i + 1 < |x| {
        StringEndCloses(x, i + 2);
        forall k | i + 2 <= k < |x|
          ensures Unescaped(x, i, k) <==> Unescaped(x, i + 2, k)
        {
          BehindEscape(x, i, k);
        }
        assert !Unescaped(x, i, i);
        assert Backslashes(x, i, i + 1) == 1 && !Unescaped(x, i, i + 1);
      } else {
        StringEndCloses(x, i + 1);
        forall k | i + 1 <= k < |x|
          ensures Unescaped(x, i, k) <==> Unescaped(x, i + 1, k)
        {
          BehindPlain(x, i, k);
        }
        assert !Unescaped(x, i, i);
      }
    }
  }

  lemma {:induction false} StringEndIff(x: seq<byte>, i: nat, e: nat)
    requires i <= |x|
    ensures StringEnd(x, i) == e <==> StringCloses(x, i, e)
  {
    StringEndCloses(x, i);
    if StringCloses(x, i, e) {
      StringClosesOnce(x, i, e, StringEnd(x, i));
    }
  }

  /** A string, or a byte string, reaches to its first unescaped quote. */
  lemma StringIff(x: seq<byte>, i: nat, e: nat)
    requires i < |x| && (x[i] == 34 || (i + 1 < |x| && x[i] == 98 && x[i + 1] == 34))
    ensures NoiseEnd(x, i) == Some(e) <==> StringCloses(x, if x[i] == 34 then i + 1 else i + 2, e)
  {
    StringEndIff(x, if x[i] == 34 then i + 1 else i + 2, e);
  }

  // ---------------------------------------------------------------- raw strings

  /** `r`, `hashes` hashes and a quote stand at `r`. */
  ghost predicate RawAt(x: seq<byte>, r: nat, hashes: nat) {
    && r + 1 + hashes < |x| && x[r] == 114 && x[r + 1 + hashes] == 34
    && (forall k :: r + 1 <= k < r + 1 + hashes ==> x[k] == 35)
  }

  /** The same at `i`, or behind a `b` at `i`. */
  ghost predicate RawOpensAt(x: seq<byte>, i: nat, hashes: nat) {
    i < |x| && (RawAt(x, i, hashes) || (x[i] == 98 && RawAt(x, i + 1, hashes)))
  }

  lemma {:induction false} HashesEndAt(x: seq<byte>, i: nat, hashes: nat)
    requires i + hashes <= |x| && (forall k :: i <= k < i + hashes ==> x[k] == 35)
    requires i + hashes < |x| ==> x[i + hashes] != 35
    ensures HashesEnd(x, i) == i + hashes
    decreases hashes
  {
    if hashes > 0 {
      HashesEndAt(x, i + 1, hashes - 1);
    }
  }

  /** A raw string opens at `i`, behind a `b` or not, exactly where the lexer sees one, and its opener is this long. */
  lemma RawOpenIff(x: seq<byte>, i: nat, hashes: nat)
    requires i < |x|
    ensures RawAt(x, i, hashes) ==> RawPrefix(x, i) == Some(hashes + 2)
    ensures x[i] == 98 && RawAt(x, i + 1, hashes) ==> RawPrefix(x, i) == Some(hashes + 3)
    ensures RawPrefix(x, i).Some? ==> exists n: nat :: RawOpensAt(x, i, n)
  {
    if RawAt(x, i, hashes) {
      HashesEndAt(x, i + 1, hashes);
    }
    if x[i] == 98 && RawAt(x, i + 1, hashes) {
      HashesEndAt(x, i + 2, hashes);
    }
    if RawPrefix(x, i).Some? {
      var r := if x[i] == LOWER_B then i + 1 else i;
      HashesEndCounts(x, r + 1);
      assert RawAt(x, r, HashesEnd(x, r + 1) - (r + 1));
      assert RawOpensAt(x, i, HashesEnd(x, r + 1) - (r + 1));
    }
  }

  /** A quote with at least that many hashes behind it stands at `k`. */
  predicate RawMark(x: seq<byte>, k: nat, hashes: nat) {
    k + hashes < |x| && x[k] == 34 && forall j :: k < j <= k + hashes ==> x[j] == 35
  }

  /** `e` lies behind the first such quote from `i` on, or is the end of the text when there is none. */
  ghost predicate RawCloses(x: seq<byte>, i: nat, hashes: nat, e: nat) {
    || (e >= i + 1 + hashes && RawMark(x, e - 1 - hashes, hashes)
        && forall k :: i <= k < e - 1 - hashes ==> !RawMark(x, k, hashes))
    || (e == |x| && forall k :: i <= k < |x| ==> !RawMark(x, k, hashes))
  }

  lemma {:induction false} RawEndCloses(x: seq<byte>, i: nat, hashes: nat)
    requires i <= |x|
    ensures RawCloses(x, i, hashes, RawEnd(x, i, hashes))
    decreases |x| - i
  {
    if i < |x| {
      assert RawMark(x, i, hashes) <==> x[i] == QUOTE && HashesAt(x, i + 1, hashes);
      if !RawMark(x, i, hashes) {
        RawEndCloses(x, i + 1, hashes);
      }
    }
  }

  lemma RawClosesOnce(x: seq<byte>, i: nat, hashes: nat, e: nat, f: nat)
    requires i <= |x| && RawCloses(x, i, hashes, e) && RawCloses(x, i, hashes, f)
    ensures e == f
  {
  }

  /** A raw string reaches to the first quote with as many hashes as its opener has, one more behind a `b`. */
  lemma RawStringIff(x: seq<byte>, i: nat, hashes: nat, e: nat)
    requires RawOpensAt(x, i, hashes)
    ensures NoiseEnd(x, i) == Some(e) <==>
            if x[i] == 98 then RawCloses(x, i + 3 + hashes, hashes + 1, e) else RawCloses(x, i + 2 + hashes, hashes, e)
  {
    RawOpenIff(x, i, hashes);
    var body, n := if x[i] == 98 then i + 3 + hashes else i + 2 + hashes, if x[i] == 98 then hashes + 1 else hashes;
    RawEndCloses(x, body, n);
    if RawCloses(x, body, n, e) {
      RawClosesOnce(x, body, n, e, RawEnd(x, body, n));
    }
  }

  // -------------------------------------------------------------- char literals

  /** How many bytes the UTF-8 scalar has whose first byte is `b`; a continuation byte counts by itself. */
  ghost predicate ScalarLength(b: byte, n: nat) {
    || (n == 1 && b < 192) || (n == 2 && 192 <= b < 224) || (n == 3 && 224 <= b < 240) || (n == 4 && 240 <= b)
  }

  /** A quote that no escape follows opens a literal exactly when one scalar later there is another quote. */
  lemma PlainCharIff(x: seq<byte>, i: nat, n: nat)
    requires i + 1 < |x| && x[i] == 39 && x[i + 1] != 92 && ScalarLength(x[i + 1], n)
    ensures i + 1 + n < |x| && x[i + 1 + n] == 39 ==> NoiseEnd(x, i) == Some(i + 2 + n)
    ensures !(i + 1 + n < |x| && x[i + 1 + n] == 39) ==> NoiseEnd(x, i) == None
  {
  }

  /** An escape behind a quote opens a literal up to the next quote, within twelve bytes of the first. */
  lemma EscapedCharIff(x: seq<byte>, i: nat, e: nat)
    requires i + 1 < |x| && x[i] == 39 && x[i + 1] == 92
    ensures NoiseEnd(x, i) == Some(e) <==>
            && i + 3 <= e <= Min(i + 12, |x|) && x[e - 1] == 39
            && (forall k :: i + 2 <= k < e - 1 ==> x[k] != 39)
  {
    var limit := Min(i + 12, |x|);
    var r := QuoteBefore(x, i + 2, limit);
    assert CharClose(x, i) == r;
    if i + 3 <= e <= limit && x[e - 1] == 39 {
      QuoteBeforeIsFirst(x, i + 2, limit, e - 1);
    }
    if r.Some? {
      forall k | i + 2 <= k < r.value
        ensures x[k] != 39
      {
        if x[k] == 39 {
          QuoteBeforeIsFirst(x, i + 2, limit, k);
        }
      }
    }
  }

  // ------------------------------------------------------------------------ code

  /** One of the tokens above begins at `i`. */
  ghost predicate TokenAt(x: seq<byte>, i: nat)
    requires i < |x|
  {
    || (i + 1 < |x| && x[i] == 47 && (x[i + 1] == 47 || x[i + 1] == 42))
    || x[i] == 34
    || (i + 1 < |x| && x[i] == 98 && x[i + 1] == 34)
    || (exists hashes: nat :: RawOpensAt(x, i, hashes))
    || (x[i] == 39 && CharLiteralAt(x, i))
  }

  ghost predicate CharLiteralAt(x: seq<byte>, i: nat)
    requires i < |x|
  {
    i + 1 < |x| &&
    if x[i + 1] == 92 then exists k :: i + 2 <= k < Min(i + 12, |x|) && x[k] == 39
    else exists n :: QuoteAfter(x, i, n)
  }

  /** One scalar of `n` bytes stands between the quotes. */
  ghost predicate QuoteAfter(x: seq<byte>, i: nat, n: nat) {
    i + 1 + n < |x| && ScalarLength(x[i + 1], n) && x[i + 1 + n] == 39
  }

  /** A char literal is one where the lexer finds its closing quote. */
  lemma CharLiteralIff(x: seq<byte>, i: nat)
    requires i < |x| && x[i] == 39
    ensures CharClose(x, i).Some? <==> CharLiteralAt(x, i)
  {
    if i + 1 < |x| {
      if x[i + 1] == 92 {
        if k :| i + 2 <= k < Min(i + 12, |x|) && x[k] == 39 {
          QuoteBeforeIsFirst(x, i + 2, Min(i + 12, |x|), k);
        }
      } else {
        var b := x[i + 1];
        var n := if b < 192 then 1 else if b < 224 then 2 else if b < 240 then 3 else 4;
        assert ScalarLength(b, n);
        PlainCharIff(x, i, n);
        assert QuoteAfter(x, i, n) <==> i + 1 + n < |x| && x[i + 1 + n] == 39;
        assert forall m :: QuoteAfter(x, i, m) ==> m == n;
      }
    }
  }

  /** Code is exactly what begins no token. */
  lemma CodeIff(x: seq<byte>, i: nat)
    requires i < |x|
    ensures NoiseEnd(x, i) == None <==> !TokenAt(x, i)
  {
    forall hashes: nat | RawOpensAt(x, i, hashes)
      ensures RawPrefix(x, i).Some?
    {
      RawOpenIff(x, i, hashes);
    }
    RawOpenIff(x, i, 0);
    assert (exists hashes: nat :: RawOpensAt(x, i, hashes)) <==> RawPrefix(x, i).Some?;
    if x[i] == 39 {
      CharLiteralIff(x, i);
    }
  }
}
