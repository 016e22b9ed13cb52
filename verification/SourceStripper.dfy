// The source stripper of the parity tool: a hand-written lexer that blanks
// strings, comments and char literals in place (apps/coder-parity/src/main.rs).
module SourceStripper {
  import opened Common

  const NEWLINE: byte := 10
  const SPACE: byte := 32
  const QUOTE: byte := 34
  const HASH: byte := 35
  const APOSTROPHE: byte := 39
  const STAR: byte := 42
  const SLASH: byte := 47
  const BACKSLASH: byte := 92
  const LOWER_B: byte := 98
  const LOWER_R: byte := 114

  // ------------------------------------------------------ where each kind ends

  predicate Pair(x: seq<byte>, i: nat, a: byte, b: byte) {
    i + 1 < |x| && x[i] == a && x[i + 1] == b
  }

  function LineEnd(x: seq<byte>, i: nat): (e: nat)
    requires i <= |x|
    ensures i <= e <= |x|
    decreases |x| - i
  {
    if i < |x| && x[i] != NEWLINE then LineEnd(x, i + 1) else i
  }

  function BlockEnd(x: seq<byte>, i: nat, depth: nat): (e: nat)
    requires i <= |x|
    ensures i <= e <= |x|
    decreases |x| - i
  {
    if i == |x| || depth == 0 then i
    else if Pair(x, i, SLASH, STAR) then BlockEnd(x, i + 2, depth + 1)
    else if Pair(x, i, STAR, SLASH) then BlockEnd(x, i + 2, depth - 1)
    else BlockEnd(x, i + 1, depth)
  }

  function HashesEnd(x: seq<byte>, i: nat): (e: nat)
    requires i <= |x|
    ensures i <= e <= |x|
    decreases |x| - i
  {
    if i < |x| && x[i] == HASH then HashesEnd(x, i + 1) else i
  }

  /** raw_string_prefix_len: the length of `r"`, `r#"`, `br"` and so on at `i`. */
  function RawPrefix(x: seq<byte>, i: nat): (r: Option<nat>)
    requires i < |x|
    ensures r.Some? ==> 2 <= r.value && i + r.value <= |x| && x[i + r.value - 1] == QUOTE
    ensures r.Some? && x[i] == LOWER_B ==> 3 <= r.value
    ensures r.Some? ==> x[i] == LOWER_B || x[i] == LOWER_R
  {
    var c := if x[i] == LOWER_B then i + 1 else i;
    if c >= |x| || x[c] != LOWER_R then None
    else
      var e := HashesEnd(x, c + 1);
      if e < |x| && x[e] == QUOTE then Some(e + 1 - i) else None
  }

  /** The number of hashes the closing delimiter is looked up with: one too many after a `b`. */
  function HashCount(x: seq<byte>, i: nat, prefix: nat): nat
    requires i < |x| && prefix >= 2 && (x[i] == LOWER_B || x[i] == LOWER_R)
  {
    prefix - 1 - (if x[i] == LOWER_B then 1 else 0) - (if x[i] == LOWER_R then 1 else 0)
  }

  predicate HashesAt(x: seq<byte>, i: nat, n: nat) {
    i + n <= |x| && forall k :: i <= k < i + n ==> x[k] == HASH
  }

  function RawEnd(x: seq<byte>, i: nat, hashes: nat): (e: nat)
    requires i <= |x|
    ensures i <= e <= |x|
    decreases |x| - i
  {
    if i == |x| then i
    else if x[i] == QUOTE && HashesAt(x, i + 1, hashes) then i + 1 + hashes
    else RawEnd(x, i + 1, hashes)
  }

  function StringEnd(x: seq<byte>, i: nat): (e: nat)
    requires i <= |x|
    ensures i <= e <= |x|
    decreases |x| - i
  {
    if i == |x| then i
    else if x[i] == QUOTE then i + 1
    else if x[i] == BACKSLASH && i + 1 < |x| then StringEnd(x, i + 2)
    else StringEnd(x, i + 1)
  }

  function Utf8ScalarEnd(x: seq<byte>, i: nat): nat {
    if i >= |x| then i
    else i + if x[i] < 0xC0 then 1 else if x[i] < 0xE0 then 2 else if x[i] < 0xF0 then 3 else 4
  }

  function QuoteBefore(x: seq<byte>, i: nat, limit: nat): (r: Option<nat>)
    requires limit <= |x|
    ensures r.Some? ==> i <= r.value < limit && x[r.value] == APOSTROPHE
    ensures r.None? ==> forall k :: i <= k < limit ==> x[k] != APOSTROPHE
    decreases limit - i
  {
    if i >= limit then None
    else if x[i] == APOSTROPHE then Some(i)
    else QuoteBefore(x, i + 1, limit)
  }

  /** char_literal_close: the closing quote of the literal that opens at `i`, None for a lifetime. */
  function CharClose(x: seq<byte>, i: nat): (r: Option<nat>)
    requires i < |x|
    ensures r.Some? ==> i < r.value < |x|
  {
    if i + 1 >= |x| then None
    else if x[i + 1] == BACKSLASH then QuoteBefore(x, i + 2, Min(i + 12, |x|))
    else
      var e := Utf8ScalarEnd(x, i + 1);
      if e < |x| && x[e] == APOSTROPHE then Some(e) else None
  }

  /** Where the string, comment or char literal that starts at `i` ends; None when `i` is code. */
  function NoiseEnd(x: seq<byte>, i: nat): (r: Option<nat>)
    requires i < |x|
    ensures r.Some? ==> i < r.value <= |x|
  {
    if Pair(x, i, SLASH, SLASH) then Some(LineEnd(x, i + 1))
    else if Pair(x, i, SLASH, STAR) then Some(BlockEnd(x, i + 2, 1))
    else if RawPrefix(x, i).Some? then
      var prefix := RawPrefix(x, i).value;
      Some(RawEnd(x, i + prefix, HashCount(x, i, prefix)))
    else if x[i] == QUOTE then Some(StringEnd(x, i + 1))
    else if Pair(x, i, LOWER_B, QUOTE) then Some(StringEnd(x, i + 2))
    else if x[i] == APOSTROPHE && CharClose(x, i).Some? then Some(CharClose(x, i).value + 1)
    else None
  }

  function Blank(b: byte): byte {
    if b == NEWLINE then NEWLINE else SPACE
  }

  function Blanks(x: seq<byte>): seq<byte> {
    seq(|x|, k requires 0 <= k < |x| => Blank(x[k]))
  }

  /** The stripped text of `x` from position `i` on. */
  function Strip(x: seq<byte>, i: nat): (y: seq<byte>)
    requires i <= |x|
    ensures |y| == |x| - i
    decreases |x| - i
  {
    if i == |x| then []
    else match NoiseEnd(x, i)
    case Some(e) => Blanks(x[i..e]) + Strip(x, e)
    case None => [x[i]] + Strip(x, i + 1)
  }

  // ------------------------------------------------------------- idempotence

  /** Scanning from `i`, position `k` is reached as code and kept. */
  predicate IsCode(x: seq<byte>, i: nat, k: nat)
    requires i <= |x|
    decreases |x| - i
  {
    if i == |x| || k < i then false
    else match NoiseEnd(x, i)
    case Some(e) => k >= e && IsCode(x, e, k)
    case None => k == i || IsCode(x, i + 1, k)
  }

  lemma BlanksThen(x: seq<byte>, i: nat, e: nat, tail: seq<byte>, k: nat)
    requires i <= k < |x| && i < e <= |x| && |tail| == |x| - e
    ensures |Blanks(x[i..e]) + tail| == |x| - i
    ensures (Blanks(x[i..e]) + tail)[k - i] == if k < e then Blank(x[k]) else tail[k - e]
  {
  }

  lemma {:induction false} StripNoise(x: seq<byte>, i: nat, e: nat, k: nat)
    requires i <= k < |x| && NoiseEnd(x, i) == Some(e)
    ensures Strip(x, i)[k - i] == if k < e then Blank(x[k]) else Strip(x, e)[k - e]
  {
    BlanksThen(x, i, e, Strip(x, e), k);
    assert Strip(x, i) == Blanks(x[i..e]) + Strip(x, e);
  }

  lemma {:induction false} CodeNoise(x: seq<byte>, i: nat, e: nat, k: nat)
    requires i <= k < |x| && NoiseEnd(x, i) == Some(e)
    ensures IsCode(x, i, k) <==> k >= e && IsCode(x, e, k)
  {
  }

  lemma StripKept(x: seq<byte>, i: nat, k: nat)
    requires i <= k < |x| && NoiseEnd(x, i) == None
    ensures Strip(x, i)[k - i] == if k == i then x[i] else Strip(x, i + 1)[k - i - 1]
    ensures IsCode(x, i, k) <==> k == i || IsCode(x, i + 1, k)
  {
    assert Strip(x, i) == [x[i]] + Strip(x, i + 1);
  }

  /** The byte of the stripped text at `k`, scanning from `i`, is this one. */
  ghost predicate IsByte(x: seq<byte>, i: nat, k: nat)
    requires i <= k < |x|
  {
    && Strip(x, i)[k - i] == (if IsCode(x, i, k) then x[k] else Blank(x[k]))
    && (IsCode(x, i, k) ==> NoiseEnd(x, k) == None)
  }

  lemma NoiseByte(x: seq<byte>, i: nat, e: nat, k: nat)
    requires i <= k < |x| && NoiseEnd(x, i) == Some(e)
    ensures k < e || IsByte(x, e, k) ==> IsByte(x, i, k)
  {
    StripNoise(x, i, e, k);
    CodeNoise(x, i, e, k);
  }

  lemma KeptOrLater(x: seq<byte>, i: nat, k: nat)
    requires i <= k < |x| && NoiseEnd(x, i) == None
    ensures k == i || IsByte(x, i + 1, k) ==> IsByte(x, i, k)
  {
    StripKept(x, i, k);
  }

  lemma {:induction false} StripAt(x: seq<byte>, i: nat, k: nat)
    requires i <= k < |x|
    ensures IsByte(x, i, k)
    decreases |x| - i
  {
    var r := NoiseEnd(x, i);
    if r.Some? {
      NoiseByte(x, i, r.value, k);
      if k >= r.value {
        StripAt(x, r.value, k);
      }
    } else {
      KeptOrLater(x, i, k);
      if k > i {
        StripAt(x, i + 1, k);
      }
    }
  }

  /** The byte after a kept byte starts a token of its own: it is kept exactly when it starts no noise. */
  lemma {:induction false} AfterCode(x: seq<byte>, i: nat, k: nat)
    requires i <= k && k + 1 < |x| && IsCode(x, i, k)
    ensures IsCode(x, i, k + 1) <==> NoiseEnd(x, k + 1) == None
    decreases |x| - i
  {
    match NoiseEnd(x, i)
    case Some(e) => AfterCode(x, e, k);
    case None =>
      if k > i {
        AfterCode(x, i + 1, k);
      }
  }

  /** `y` is `x` with some bytes blanked: the relation between input and output, position by position. */
  ghost predicate Stripped(x: seq<byte>, y: seq<byte>) {
    |y| == |x| && forall k :: 0 <= k < |x| ==> y[k] == if IsCode(x, 0, k) then x[k] else Blank(x[k])
  }

  lemma {:induction false} StripRelates(x: seq<byte>)
    ensures Stripped(x, Strip(x, 0))
    ensures forall k :: 0 <= k < |x| && IsCode(x, 0, k) ==> NoiseEnd(x, k) == None
  {
    forall k | 0 <= k < |x|
      ensures Strip(x, 0)[k] == if IsCode(x, 0, k) then x[k] else Blank(x[k])
      ensures IsCode(x, 0, k) ==> NoiseEnd(x, k) == None
    {
      StripAt(x, 0, k);
    }
  }

  lemma {:induction false} NoQuoteLeft(x: seq<byte>, y: seq<byte>, k: nat)
    requires Stripped(x, y) && k < |x|
    requires IsCode(x, 0, k) ==> NoiseEnd(x, k) == None
    ensures y[k] != QUOTE
  {
  }

  /** A byte of the output that is neither space nor newline was there as code. */
  lemma {:induction false} VisibleIsCode(x: seq<byte>, y: seq<byte>, k: nat)
    requires Stripped(x, y) && k < |x| && y[k] != SPACE && y[k] != NEWLINE
    ensures IsCode(x, 0, k) && x[k] == y[k]
  {
  }

  lemma NoEscapeLeft(x: seq<byte>, y: seq<byte>, k: nat)
    requires Stripped(x, y) && k + 1 < |x| && y[k] == APOSTROPHE && x[k + 1] == BACKSLASH
    requires CharClose(x, k) == None
    ensures QuoteBefore(y, k + 2, Min(k + 12, |y|)) == None
  {
    var r := QuoteBefore(y, k + 2, Min(k + 12, |y|));
    if r.Some? {
      VisibleIsCode(x, y, r.value);
    }
  }

  /** No char literal remains: blanking what follows a lifetime's quote cannot turn it into a literal. */
  lemma {:induction false} NoCharLeft(x: seq<byte>, y: seq<byte>, k: nat)
    requires Stripped(x, y) && k < |x| && y[k] == APOSTROPHE
    requires forall j :: 0 <= j < |x| && IsCode(x, 0, j) ==> NoiseEnd(x, j) == None
    ensures CharClose(y, k) == None
  {
    VisibleIsCode(x, y, k);
    assert NoiseEnd(x, k) == None;
    if k + 1 < |x| {
      AfterCode(x, 0, k);
      if x[k + 1] == BACKSLASH {
        assert NoiseEnd(x, k + 1) == None;
        NoEscapeLeft(x, y, k);
      } else {
        assert y[k + 1] != BACKSLASH;
        assert y[k + 1] == x[k + 1] || (x[k + 1] < 0x80 && y[k + 1] < 0x80);
        var e := Utf8ScalarEnd(y, k + 1);
        assert e == Utf8ScalarEnd(x, k + 1);
        if e < |y| && y[e] == APOSTROPHE {
          VisibleIsCode(x, y, e);
        }
      }
    }
  }

  /** A second pass finds nothing at any position of the output. */
  lemma {:induction false} NothingLeft(x: seq<byte>, k: nat)
    requires k < |x|
    ensures |Strip(x, 0)| == |x|
    ensures
      var y := Strip(x, 0);
      && y[k] != QUOTE
      && !Pair(y, k, SLASH, SLASH) && !Pair(y, k, SLASH, STAR)
      && (y[k] == APOSTROPHE ==> CharClose(y, k) == None)
      && NoiseEnd(y, k) == None
  {
    var y := Strip(x, 0);
    StripRelates(x);
    forall j | 0 <= j < |x|
      ensures y[j] != QUOTE
    {
      NoQuoteLeft(x, y, j);
    }
    if y[k] == SLASH && k + 1 < |x| {
      VisibleIsCode(x, y, k);
      assert NoiseEnd(x, k) == None;
      assert y[k + 1] == x[k + 1] || y[k + 1] == Blank(x[k + 1]);
    }
    if y[k] == APOSTROPHE {
      NoCharLeft(x, y, k);
    }
    assert RawPrefix(y, k) == None;
  }

  lemma {:induction false} CleanStays(y: seq<byte>, i: nat)
    requires i <= |y| && forall k :: i <= k < |y| ==> NoiseEnd(y, k) == None
    ensures Strip(y, i) == y[i..]
    decreases |y| - i
  {
    if i < |y| {
      CleanStays(y, i + 1);
    }
  }

  /** Stripping twice is stripping once, on every byte string. */
  lemma {:induction false} StripIsIdempotent(x: seq<byte>)
    ensures Strip(Strip(x, 0), 0) == Strip(x, 0)
  {
    var y := Strip(x, 0);
    forall k | 0 <= k < |y|
      ensures NoiseEnd(y, k) == None
    {
      NothingLeft(x, k);
    }
    CleanStays(y, 0);
    assert y[0..] == y;
  }

  /** Offsets survive: same length, each byte unchanged or a space, every newline in place and none new. */
  lemma {:induction false} StripKeepsOffsets(x: seq<byte>)
    ensures |Strip(x, 0)| == |x|
    ensures forall k :: 0 <= k < |x| ==> Strip(x, 0)[k] == x[k] || Strip(x, 0)[k] == SPACE
    ensures forall k :: 0 <= k < |x| ==> (Strip(x, 0)[k] == NEWLINE <==> x[k] == NEWLINE)
  {
    StripRelates(x);
  }

  // ------------------------------------- where the stripper departs from Rust's lexer

  lemma {:induction false} HashesEndCounts(x: seq<byte>, i: nat)
    requires i <= |x|
    ensures HashesAt(x, i, HashesEnd(x, i) - i)
    decreases |x| - i
  {
    if i < |x| && x[i] == HASH {
      HashesEndCounts(x, i + 1);
    }
  }

  /**
   * The closing delimiter is looked up with the number of hashes the opener
   * has if and only if the opener does not start with `b`; a `br` opener asks
   * for one hash more.
   */
  lemma HashCountExact(x: seq<byte>, i: nat, hashes: nat)
    requires RawOpener(x, i, hashes)
    ensures HashCount(x, i, RawPrefix(x, i).value) == hashes <==> x[i] != LOWER_B
    ensures x[i] == LOWER_B ==> HashCount(x, i, RawPrefix(x, i).value) == hashes + 1
  {
    var r := if x[i] == LOWER_B then i + 1 else i;
    var e := HashesEnd(x, r + 1);
    HashesEndCounts(x, r + 1);
    assert e == r + 1 + hashes;
  }

  lemma {:induction false} RawEndBeyond(x: seq<byte>, i: nat, n: nat, hashes: nat)
    requires HashesAt(x, i, n)
    ensures RawEnd(x, i, hashes) >= i + n
    ensures RawEnd(x, i, hashes) == i + n ==> i + n == |x|
    decreases n
  {
    if n > 0 {
      RawEndBeyond(x, i + 1, n - 1, hashes);
    }
  }

  /** Asking for one hash more ends a raw string later, unless it ends with the text anyway. */
  lemma {:induction false} OneHashMore(x: seq<byte>, i: nat, hashes: nat)
    requires i <= |x|
    ensures RawEnd(x, i, hashes + 1) == RawEnd(x, i, hashes) <==> RawEnd(x, i, hashes) == |x|
    ensures RawEnd(x, i, hashes + 1) >= RawEnd(x, i, hashes)
    decreases |x| - i
  {
    if i < |x| {
      OneHashMore(x, i + 1, hashes);
      if x[i] == QUOTE && HashesAt(x, i + 1, hashes) {
        RawEndBeyond(x, i + 1, hashes, hashes + 1);
      }
    }
  }

  /** A raw string opens at `i` with `hashes` hashes. */
  ghost predicate RawOpener(x: seq<byte>, i: nat, hashes: nat) {
    && i < |x| && RawPrefix(x, i).Some?
    && var r := if x[i] == LOWER_B then i + 1 else i;
    r + 1 + hashes < |x| && HashesAt(x, r + 1, hashes) && x[r + 1 + hashes] == QUOTE
  }

  /**
   * A raw string is blanked to its own end, the first quote with as many hashes
   * as it opened with, if and only if it does not start with `b` or ends with
   * the text.
   */
  lemma {:induction false} RawBlankedIff(x: seq<byte>, i: nat, hashes: nat)
    requires RawOpener(x, i, hashes)
    ensures
      var e := RawEnd(x, i + RawPrefix(x, i).value, hashes);
      NoiseEnd(x, i) == Some(e) <==> x[i] != LOWER_B || e == |x|
  {
    HashCountExact(x, i, hashes);
    OneHashMore(x, i + RawPrefix(x, i).value, hashes);
  }

  /**
   * A `br` literal whose longer delimiter never comes takes all code behind it
   * along: everything to the end of the text is blanked.
   */
  lemma {:induction false} ByteRawRunsOn(x: seq<byte>, i: nat, hashes: nat)
    requires RawOpener(x, i, hashes) && x[i] == LOWER_B
    requires forall k :: i + RawPrefix(x, i).value <= k < |x| && x[k] == QUOTE ==> !HashesAt(x, k + 1, hashes + 1)
    ensures NoiseEnd(x, i) == Some(|x|) && Strip(x, i) == Blanks(x[i..])
  {
    HashCountExact(x, i, hashes);
    NeverCloses(x, i + RawPrefix(x, i).value, hashes + 1);
    NoiseToTheEnd(x, i);
  }

  lemma {:induction false} NoiseToTheEnd(x: seq<byte>, i: nat)
    requires i < |x| && NoiseEnd(x, i) == Some(|x|)
    ensures Strip(x, i) == Blanks(x[i..])
  {
    assert x[i..|x|] == x[i..] && Strip(x, |x|) == [];
  }

  lemma {:induction false} NeverCloses(x: seq<byte>, i: nat, hashes: nat)
    requires i <= |x| && forall k :: i <= k < |x| && x[k] == QUOTE ==> !HashesAt(x, k + 1, hashes)
    ensures RawEnd(x, i, hashes) == |x|
    decreases |x| - i
  {
    if i < |x| {
      NeverCloses(x, i + 1, hashes);
    }
  }

  /** Code after a literal, blanked: of `br"";x` nothing is left. */
  lemma CodeAfterByteRawIsBlanked()
    ensures Strip([LOWER_B, LOWER_R, QUOTE, QUOTE, 59, 120], 0) == [SPACE, SPACE, SPACE, SPACE, SPACE, SPACE]
  {
    var x := [LOWER_B, LOWER_R, QUOTE, QUOTE, 59, 120];
    assert HashesEnd(x, 2) == 2;
    assert x[4] != HASH && !HashesAt(x, 4, 1);
    ByteRawRunsOn(x, 0, 0);
  }

  /**
   * The literal opened at `i` starts with an escape and closes at `c`: after the
   * backslash and the byte it escapes, `c` is the first quote.
   */
  ghost predicate EscapeLiteral(x: seq<byte>, i: nat, c: nat) {
    && i + 3 <= c < |x| && x[i] == APOSTROPHE && x[i + 1] == BACKSLASH && x[c] == APOSTROPHE
    && (forall k :: i + 3 <= k < c ==> x[k] != APOSTROPHE)
  }

  lemma {:induction false} QuoteBeforeIsFirst(x: seq<byte>, i: nat, limit: nat, k: nat)
    requires limit <= |x| && i <= k < limit && x[k] == APOSTROPHE
    ensures QuoteBefore(x, i, limit).Some? && QuoteBefore(x, i, limit).value <= k
    decreases limit - i
  {
    if x[i] != APOSTROPHE {
      QuoteBeforeIsFirst(x, i + 1, limit, k);
    }
  }

  /**
   * An escaped char literal is blanked as a whole if and only if the escaped
   * byte is not itself a quote and the literal is at most twelve bytes long.
   */
  lemma EscapeBlankedIff(x: seq<byte>, i: nat, c: nat)
    requires EscapeLiteral(x, i, c)
    ensures NoiseEnd(x, i) == Some(c + 1) <==> x[i + 2] != APOSTROPHE && c < i + 12
  {
    var r := QuoteBefore(x, i + 2, Min(i + 12, |x|));
    assert CharClose(x, i) == r;
    assert r.Some? && r.value != i + 2 ==> c <= r.value;
    if x[i + 2] == APOSTROPHE {
      QuoteBeforeIsFirst(x, i + 2, Min(i + 12, |x|), i + 2);
    } else if c < i + 12 {
      QuoteBeforeIsFirst(x, i + 2, Min(i + 12, |x|), c);
    }
  }

  /** When the escaped byte is a quote, it closes the literal, and the real closing quote is left to open another. */
  lemma EscapedQuoteClosesEarly(x: seq<byte>, i: nat)
    requires i + 2 < |x| && x[i] == APOSTROPHE && x[i + 1] == BACKSLASH && x[i + 2] == APOSTROPHE
    ensures NoiseEnd(x, i) == Some(i + 3)
    ensures Strip(x, i) == [SPACE, SPACE, SPACE] + Strip(x, i + 3)
  {
    assert Blanks(x[i..i + 3]) == [SPACE, SPACE, SPACE];
  }

  // ------------------------------------------------------------- the procedure

  /** `o` is `before` with the bytes of [lo, hi) blanked. */
  ghost predicate BlankedRange(x: seq<byte>, before: seq<byte>, o: seq<byte>, lo: nat, hi: nat) {
    && |o| == |before| == |x| && lo <= hi <= |x|
    && (forall k :: 0 <= k < |x| ==> o[k] == if lo <= k < hi then Blank(x[k]) else before[k])
  }

  /** Everything from `i` on is still the input. */
  ghost predicate Untouched(x: seq<byte>, o: seq<byte>, i: nat) {
    |o| == |x| && i <= |x| && forall k :: i <= k < |x| ==> o[k] == x[k]
  }

  method LineComment(x: seq<byte>, out: array<byte>, start: nat) returns (index: nat)
    requires Untouched(x, out[..], start) && Pair(x, start, SLASH, SLASH)
    modifies out
    ensures NoiseEnd(x, start) == Some(index) && BlankedRange(x, old(out[..]), out[..], start, index)
  {
    index := start;
    while index < |x| && x[index] != NEWLINE
      invariant start <= index <= |x| && LineEnd(x, start) == LineEnd(x, index)
      invariant BlankedRange(x, old(out[..]), out[..], start, index)
    {
      out[index] := SPACE;
      index := index + 1;
    }
  }

  method BlockComment(x: seq<byte>, out: array<byte>, start: nat) returns (index: nat)
    requires Untouched(x, out[..], start) && Pair(x, start, SLASH, STAR)
    modifies out
    ensures NoiseEnd(x, start) == Some(index) && BlankedRange(x, old(out[..]), out[..], start, index)
  {
    out[start], out[start + 1] := SPACE, SPACE;
    index := start + 2;
    var depth := 1;
    while index < |x| && depth > 0
      invariant start + 2 <= index <= |x| && depth >= 0
      invariant BlockEnd(x, start + 2, 1) == BlockEnd(x, index, depth)
      invariant BlankedRange(x, old(out[..]), out[..], start, index)
    {
      if x[index] == SLASH && index + 1 < |x| && x[index + 1] == STAR {
        depth := depth + 1;
        out[index], out[index + 1] := SPACE, SPACE;
        index := index + 2;
      } else if x[index] == STAR && index + 1 < |x| && x[index + 1] == SLASH {
        depth := depth - 1;
        out[index], out[index + 1] := SPACE, SPACE;
        index := index + 2;
      } else {
        if x[index] != NEWLINE {
          out[index] := SPACE;
        }
        index := index + 1;
      }
    }
  }

  /** Blanks [from, to), sparing newlines. */
  method BlankOut(x: seq<byte>, out: array<byte>, start: nat, from: nat, to: nat, ghost before: seq<byte>)
    requires from <= to <= |x| && Untouched(x, before, start)
    requires BlankedRange(x, before, out[..], start, from)
    modifies out
    ensures BlankedRange(x, before, out[..], start, to)
  {
    for index := from to to
      invariant BlankedRange(x, before, out[..], start, index)
    {
      if x[index] != NEWLINE {
        out[index] := SPACE;
      }
    }
  }

  /** The body of a raw string: up to a quote followed by enough hashes. */
  method RawBody(x: seq<byte>, out: array<byte>, start: nat, body: nat, hashes: nat, ghost before: seq<byte>)
    returns (index: nat)
    requires Untouched(x, before, start) && BlankedRange(x, before, out[..], start, body)
    modifies out
    ensures index == RawEnd(x, body, hashes) && BlankedRange(x, before, out[..], start, index)
  {
    index := body;
    while index < |x|
      invariant body <= index <= |x| && RawEnd(x, body, hashes) == RawEnd(x, index, hashes)
      invariant BlankedRange(x, before, out[..], start, index)
    {
      if x[index] == QUOTE {
        var closes := HashesFollow(x, index + 1, hashes);
        if closes {
          BlankOut(x, out, start, index, index + 1 + hashes, before);
          index := index + 1 + hashes;
          return;
        }
      }
      BlankOut(x, out, start, index, index + 1, before);
      index := index + 1;
    }
  }

  method RawString(x: seq<byte>, out: array<byte>, start: nat, prefix: nat) returns (index: nat)
    requires start < |x| && RawPrefix(x, start) == Some(prefix)
    requires Untouched(x, out[..], start)
    modifies out
    ensures NoiseEnd(x, start) == Some(index) && BlankedRange(x, old(out[..]), out[..], start, index)
  {
    ghost var before := out[..];
    BlankOut(x, out, start, start, start + prefix, before);
    index := RawBody(x, out, start, start + prefix, HashCount(x, start, prefix), before);
  }

  method HashesFollow(x: seq<byte>, i: nat, hashes: nat) returns (ok: bool)
    ensures ok <==> HashesAt(x, i, hashes)
  {
    for k := 0 to hashes
      invariant HashesAt(x, i, k) || (k == 0 && i > |x|)
    {
      if i + k >= |x| || x[i + k] != HASH {
        return false;
      }
    }
    return i + hashes <= |x|;
  }

  /** The body of a string literal: up to the first unescaped quote. */
  method StringBody(x: seq<byte>, out: array<byte>, start: nat, body: nat, ghost before: seq<byte>) returns (index: nat)
    requires Untouched(x, before, start) && BlankedRange(x, before, out[..], start, body)
    modifies out
    ensures index == StringEnd(x, body) && BlankedRange(x, before, out[..], start, index)
  {
    index := body;
    while index < |x| && x[index] != QUOTE
      invariant body <= index <= |x| && StringEnd(x, body) == StringEnd(x, index)
      invariant BlankedRange(x, before, out[..], start, index)
    {
      if x[index] == BACKSLASH && index + 1 < |x| {
        BlankOut(x, out, start, index, index + 2, before);
        index := index + 2;
      } else {
        BlankOut(x, out, start, index, index + 1, before);
        index := index + 1;
      }
    }
    if index < |x| {
      BlankOut(x, out, start, index, index + 1, before);
      index := index + 1;
    }
  }

  method StringLiteral(x: seq<byte>, out: array<byte>, start: nat) returns (index: nat)
    requires start < |x| && RawPrefix(x, start) == None
    requires x[start] == QUOTE || Pair(x, start, LOWER_B, QUOTE)
    requires Untouched(x, out[..], start)
    modifies out
    ensures NoiseEnd(x, start) == Some(index) && BlankedRange(x, old(out[..]), out[..], start, index)
  {
    ghost var before := out[..];
    var openLen := if x[start] == LOWER_B then 2 else 1;
    BlankOut(x, out, start, start, start + openLen, before);
    index := StringBody(x, out, start, start + openLen, before);
  }

  method CharLiteral(x: seq<byte>, out: array<byte>, start: nat, close: nat) returns (index: nat)
    requires Untouched(x, out[..], start)
    requires start < |x| && x[start] == APOSTROPHE && CharClose(x, start) == Some(close)
    modifies out
    ensures NoiseEnd(x, start) == Some(index) && BlankedRange(x, old(out[..]), out[..], start, index)
  {
    ghost var before := out[..];
    BlankOut(x, out, start, start, close + 1, before);
    index := close + 1;
  }

  /** raw_string_prefix_len. */
  method RawStringPrefixLen(x: seq<byte>, index: nat) returns (len: Option<nat>)
    requires index < |x|
    ensures len == RawPrefix(x, index)
  {
    var cursor := index;
    if x[cursor] == LOWER_B {
      cursor := cursor + 1;
    }
    if cursor >= |x| || x[cursor] != LOWER_R {
      return None;
    }
    cursor := cursor + 1;
    ghost var hashes := cursor;
    while cursor < |x| && x[cursor] == HASH
      invariant hashes <= cursor <= |x| && HashesEnd(x, hashes) == HashesEnd(x, cursor)
    {
      cursor := cursor + 1;
    }
    if cursor < |x| && x[cursor] == QUOTE {
      return Some(cursor + 1 - index);
    }
    return None;
  }

  /** char_literal_close. */
  method CharLiteralClose(x: seq<byte>, index: nat) returns (close: Option<nat>)
    requires index < |x|
    ensures close == CharClose(x, index)
  {
    var next := index + 1;
    if next >= |x| {
      return None;
    }
    if x[next] == BACKSLASH {
      var limit := Min(index + 12, |x|);
      var cursor := next + 1;
      while cursor < limit
        invariant QuoteBefore(x, next + 1, limit) == QuoteBefore(x, cursor, limit)
      {
        if x[cursor] == APOSTROPHE {
          return Some(cursor);
        }
        cursor := cursor + 1;
      }
      return None;
    }
    var scalarEnd := Utf8ScalarEnd(x, next);
    if scalarEnd < |x| && x[scalarEnd] == APOSTROPHE {
      return Some(scalarEnd);
    }
    return None;
  }

  /** Replacing the part of the output that belongs to one token. */
  lemma Splice(before: seq<byte>, o: seq<byte>, token: seq<byte>, tail: seq<byte>, i: nat, e: nat)
    requires i <= e <= |o| && i <= |before|
    requires o[..e] == before[..i] + token
    ensures o[..e] + tail == before[..i] + (token + tail)
  {
  }

  lemma BlankedPrefix(x: seq<byte>, before: seq<byte>, o: seq<byte>, i: nat, e: nat)
    requires BlankedRange(x, before, o, i, e)
    ensures o[..e] == before[..i] + Blanks(x[i..e])
  {
  }

  lemma {:induction false} BlankedToken(x: seq<byte>, before: seq<byte>, o: seq<byte>, i: nat, e: nat, goal: seq<byte>)
    requires BlankedRange(x, before, o, i, e) && Untouched(x, before, i) && i < |x| && NoiseEnd(x, i) == Some(e)
    requires before[..i] + Strip(x, i) == goal
    ensures Untouched(x, o, e) && o[..e] + Strip(x, e) == goal
  {
    BlankedPrefix(x, before, o, i, e);
    Splice(before, o, Blanks(x[i..e]), Strip(x, e), i, e);
    assert Strip(x, i) == Blanks(x[i..e]) + Strip(x, e);
  }

  lemma KeptByte(x: seq<byte>, o: seq<byte>, i: nat)
    requires Untouched(x, o, i) && i < |x| && NoiseEnd(x, i) == None
    requires o[..i] + Strip(x, i) == Strip(x, 0)
    ensures o[..i + 1] + Strip(x, i + 1) == Strip(x, 0)
  {
    assert o[..i + 1] == o[..i] + [x[i]];
    Splice(o, o, [x[i]], Strip(x, i + 1), i, i + 1);
    assert Strip(x, i) == [x[i]] + Strip(x, i + 1);
  }

  /** The output is right up to `i`, and untouched from there on. */
  ghost predicate DoneUpTo(x: seq<byte>, o: seq<byte>, i: nat) {
    Untouched(x, o, i) && o[..i] + Strip(x, i) == Strip(x, 0)
  }

  /** A string or a comment at `start`, if there is one, is blanked. */
  method StringOrComment(x: seq<byte>, out: array<byte>, start: nat) returns (index: nat)
    requires start < |x| && Untouched(x, out[..], start)
    modifies out
    ensures index == start ==>
      out[..] == old(out[..]) &&
      NoiseEnd(x, start) ==
      if x[start] == APOSTROPHE && CharClose(x, start).Some? then Some(CharClose(x, start).value + 1) else None
    ensures index != start ==>
      NoiseEnd(x, start) == Some(index) && BlankedRange(x, old(out[..]), out[..], start, index)
  {
    var b := x[start];
    var raw := RawStringPrefixLen(x, start);
    if b == SLASH && start + 1 < |x| && x[start + 1] == SLASH {
      index := LineComment(x, out, start);
    } else if b == SLASH && start + 1 < |x| && x[start + 1] == STAR {
      index := BlockComment(x, out, start);
    } else if raw.Some? {
      index := RawString(x, out, start, raw.value);
    } else if b == QUOTE || (b == LOWER_B && start + 1 < |x| && x[start + 1] == QUOTE) {
      index := StringLiteral(x, out, start);
    } else {
      index := start;
    }
  }

  /** One turn of the scan: a token blanked, or a byte of code kept. */
  method NextToken(x: seq<byte>, out: array<byte>, start: nat) returns (index: nat)
    requires start < |x| && DoneUpTo(x, out[..], start)
    modifies out
    ensures start < index <= |x| && DoneUpTo(x, out[..], index)
  {
    ghost var before := out[..];
    index := StringOrComment(x, out, start);
    if index != start {
      BlankedToken(x, before, out[..], start, index, Strip(x, 0));
      return;
    }
    var close := None;
    if x[start] == APOSTROPHE {
      close := CharLiteralClose(x, start);
    }
    if close.Some? {
      index := CharLiteral(x, out, start, close.value);
      BlankedToken(x, before, out[..], start, index, Strip(x, 0));
    } else {
      KeptByte(x, out[..], start);
      index := start + 1;
    }
  }

  /** strip_rust_code_noise: an in-place scan over a copy of the input. */
  method StripRustCodeNoise(x: seq<byte>) returns (out: array<byte>)
    ensures fresh(out) && out[..] == Strip(x, 0)
  {
    out := new byte[|x|](i requires 0 <= i < |x| => x[i]);
    assert out[..][..0] == [];
    var index := 0;
    while index < |x|
      invariant index <= |x| && fresh(out) && DoneUpTo(x, out[..], index)
      decreases |x| - index
    {
      index := NextToken(x, out, index);
    }
  }
}
