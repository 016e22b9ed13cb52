// Function bodies cut out of stripped source by brace matching
// (apps/coder-parity/src/main.rs).
module BodyExtractor {
  import opened Common
  import opened SourceStripper

  const OPEN_PAREN: byte := 40
  const CLOSE_PAREN: byte := 41
  const SEMICOLON: byte := 59
  const OPEN_BRACE: byte := 123
  const CLOSE_BRACE: byte := 125

  /** `pub fn build_router(` */
  const BUILD_ROUTER: seq<byte> :=
    [112, 117, 98, 32, 102, 110, 32, 98, 117, 105, 108, 100, 95, 114, 111, 117, 116, 101, 114, 40]

  // ---------------------------------------------------------- what is looked for

  /** How many more `open` than `close` there are in [i, j). */
  function Depth(s: seq<byte>, open: byte, close: byte, i: nat, j: nat): int
    requires i <= j <= |s|
    decreases j
  {
    if i == j then 0
    else Depth(s, open, close, i, j - 1) + if s[j - 1] == open then 1 else if s[j - 1] == close then -1 else 0
  }

  function Parens(s: seq<byte>, i: nat, j: nat): int
    requires i <= j <= |s|
  {
    Depth(s, OPEN_PAREN, CLOSE_PAREN, i, j)
  }

  function Braces(s: seq<byte>, i: nat, j: nat): int
    requires i <= j <= |s|
  {
    Depth(s, OPEN_BRACE, CLOSE_BRACE, i, j)
  }

  /** A brace or semicolon outside all parentheses opened since `from`. */
  predicate Decides(s: seq<byte>, from: nat, i: nat)
    requires from <= i < |s|
  {
    (s[i] == OPEN_BRACE || s[i] == SEMICOLON) && Parens(s, from, i) == 0
  }

  /** The body of the function whose signature starts at `from` opens at `i`. */
  ghost predicate OpensAt(s: seq<byte>, from: nat, i: nat) {
    && from <= i < |s| && s[i] == OPEN_BRACE && Parens(s, from, i) == 0
    && (forall j :: from <= j < i ==> !Decides(s, from, j))
  }

  /** The brace that opens at `i` is matched at `j`: every shorter piece is still inside. */
  ghost predicate MatchedAt(s: seq<byte>, i: nat, j: nat) {
    && i <= j < |s| && Braces(s, i, j + 1) == 0
    && (forall k :: i < k <= j ==> Braces(s, i, k) > 0)
  }

  /** Depth is a count: so many of the one byte in the piece, less so many of the other. */
  lemma {:induction false} DepthCounts(s: seq<byte>, open: byte, close: byte, i: nat, j: nat)
    requires i <= j <= |s| && open != close
    ensures Depth(s, open, close, i, j) == Count(s, open, i, j) - Count(s, close, i, j)
    decreases j
  {
    if i < j {
      DepthCounts(s, open, close, i, j - 1);
      assert s[i..j] == s[i..j - 1] + [s[j - 1]];
    }
  }

  /** How many bytes `b` there are in [i, j). */
  ghost function Count(s: seq<byte>, b: byte, i: nat, j: nat): int
    requires i <= j <= |s|
  {
    multiset(s[i..j])[b]
  }

  /**
   * A body opens at the first `{` up to which as many parentheses have been
   * closed as opened, unless a `;` comes first in such a place.
   */
  lemma OpensMeans(s: seq<byte>, from: nat, i: nat)
    ensures OpensAt(s, from, i) <==>
            && from <= i < |s| && s[i] == 123 && Count(s, 40, from, i) == Count(s, 41, from, i)
            && (forall j :: from <= j < i && (s[j] == 123 || s[j] == 59) ==>
                  Count(s, 40, from, j) != Count(s, 41, from, j))
  {
    forall j | from <= j < |s|
      ensures Parens(s, from, j) == Count(s, 40, from, j) - Count(s, 41, from, j)
      ensures Decides(s, from, j) <==>
              (s[j] == 123 || s[j] == 59) && Count(s, 40, from, j) == Count(s, 41, from, j)
    {
      DepthCounts(s, 40, 41, from, j);
    }
  }

  /** A brace is matched where as many have been closed as opened for the first time. */
  lemma MatchedMeans(s: seq<byte>, i: nat, j: nat)
    ensures MatchedAt(s, i, j) <==>
            && i <= j < |s| && Count(s, 123, i, j + 1) == Count(s, 125, i, j + 1)
            && (forall k :: i < k <= j ==> Count(s, 123, i, k) > Count(s, 125, i, k))
  {
    forall k | i <= k <= |s|
      ensures Braces(s, i, k) == Count(s, 123, i, k) - Count(s, 125, i, k)
    {
      DepthCounts(s, 123, 125, i, k);
    }
  }

  /** The declaration that is looked for, spelled out. */
  lemma DeclarationText()
    ensures |BUILD_ROUTER| == |"pub fn build_router("|
    ensures forall i :: 0 <= i < |BUILD_ROUTER| ==> BUILD_ROUTER[i] == "pub fn build_router("[i] as int
  {
    var text := "pub fn build_router(";
    assert forall i :: 0 <= i < 10 ==> BUILD_ROUTER[i] == text[i] as int;
    assert forall i :: 10 <= i < 20 ==> BUILD_ROUTER[i] == text[i] as int;
  }

  lemma MatchIsUnique(s: seq<byte>, i: nat, j: nat, k: nat)
    requires MatchedAt(s, i, j) && k != j
    ensures !MatchedAt(s, i, k)
  {
    if i <= k < j {
      assert Braces(s, i, k + 1) > 0;
    } else if j < k {
      assert Braces(s, i, j + 1) == 0;
    }
  }

  lemma OpeningIsUnique(s: seq<byte>, from: nat, i: nat, k: nat)
    requires OpensAt(s, from, i) && k != i
    ensures !OpensAt(s, from, k)
  {
    if from <= k < i {
      assert !Decides(s, from, k);
    } else if i < k {
      assert Decides(s, from, i);
    }
  }

  /** The matched piece is balanced, and its first and last bytes are its own braces. */
  lemma MatchedPiece(s: seq<byte>, i: nat, j: nat)
    requires MatchedAt(s, i, j) && s[i] == OPEN_BRACE
    ensures i < j && s[j] == CLOSE_BRACE
  {
    assert Braces(s, i, i + 1) == Braces(s, i, i) + 1 == 1;
    var step := if s[j] == OPEN_BRACE then 1 else if s[j] == CLOSE_BRACE then -1 else 0;
    assert Braces(s, i, j + 1) == Braces(s, i, j) + step;
  }

  // ------------------------------------------------------------- the procedures

  /** The brace counter both extractors share. */
  method MatchBrace(s: seq<byte>, open: nat) returns (end: Option<nat>)
    requires open < |s| && s[open] == OPEN_BRACE
    ensures end.Some? ==> MatchedAt(s, open, end.value)
    ensures end.None? ==> forall j: nat :: !MatchedAt(s, open, j)
  {
    var depth := 0;
    var index := open;
    while index < |s|
      invariant open <= index <= |s| && depth == Braces(s, open, index)
      invariant forall k :: open < k <= index ==> Braces(s, open, k) > 0
    {
      assert Braces(s, open, index + 1) ==
             depth + if s[index] == OPEN_BRACE then 1 else if s[index] == CLOSE_BRACE then -1 else 0;
      if s[index] == OPEN_BRACE {
        depth := depth + 1;
      } else if s[index] == CLOSE_BRACE {
        depth := depth - 1;
        if depth == 0 {
          return Some(index);
        }
      }
      index := index + 1;
    }
    forall j: nat
      ensures !MatchedAt(s, open, j)
    {
      if open <= j < |s| {
        assert Braces(s, open, j + 1) > 0;
      }
    }
    return None;
  }

  /**
   * extract_fn_body_with_stripped: the slice of `content` from the first brace
   * outside parentheses to its match, or None exactly when there is none.
   */
  method ExtractFnBody(content: seq<byte>, stripped: seq<byte>, from: nat) returns (body: Option<seq<byte>>)
    requires |stripped| == |content|
    ensures body.Some? ==> exists i: nat, j: nat ::
      OpensAt(stripped, from, i) && MatchedAt(stripped, i, j) && body.value == content[i..j + 1]
    ensures body.None? ==> forall i: nat, j: nat :: OpensAt(stripped, from, i) ==> !MatchedAt(stripped, i, j)
  {
    var index := from;
    var paren := 0;
    while index < |stripped|
      invariant from <= index && (index <= |stripped| || index == from)
      invariant index <= |stripped| ==> paren == Parens(stripped, from, index)
      invariant forall j :: from <= j < index && j < |stripped| ==> !Decides(stripped, from, j)
    {
      var b := stripped[index];
      if b == OPEN_PAREN {
        paren := paren + 1;
      } else if b == CLOSE_PAREN {
        paren := paren - 1;
      } else if b == OPEN_BRACE && paren == 0 {
        break;
      } else if b == SEMICOLON && paren == 0 {
        assert Decides(stripped, from, index);
        assert forall i: nat :: OpensAt(stripped, from, i) ==> Decides(stripped, from, i) && i <= index;
        return None;
      }
      index := index + 1;
    }
    if index >= |stripped| {
      assert forall i: nat :: OpensAt(stripped, from, i) ==> Decides(stripped, from, i);
      return None;
    }
    assert OpensAt(stripped, from, index);
    var end := MatchBrace(stripped, index);
    if end.None? {
      forall i: nat | i != index
        ensures !OpensAt(stripped, from, i)
      {
        OpeningIsUnique(stripped, from, index, i);
      }
      return None;
    }
    return Some(content[index..end.value + 1]);
  }

  /** `pattern` first occurs in `content` at `at`. */
  ghost predicate FirstAt(content: seq<byte>, pattern: seq<byte>, at: nat) {
    && at <= |content| && pattern <= content[at..]
    && (forall k :: 0 <= k < at ==> !(pattern <= content[k..]))
  }

  method FindFirst(content: seq<byte>, pattern: seq<byte>) returns (at: Option<nat>)
    ensures at.Some? ==> FirstAt(content, pattern, at.value)
    ensures at.None? ==> forall k :: 0 <= k <= |content| ==> !(pattern <= content[k..])
  {
    for k := 0 to |content| + 1
      invariant forall j :: 0 <= j < k ==> !(pattern <= content[j..])
    {
      if pattern <= content[k..] {
        return Some(k);
      }
    }
    return None;
  }

  /** The first opening brace of `s`. */
  ghost predicate FirstBrace(s: seq<byte>, i: nat) {
    i < |s| && s[i] == OPEN_BRACE && forall k :: 0 <= k < i ==> s[k] != OPEN_BRACE
  }

  /** What extract_build_router_body is after: from the declaration on, [i, j] is the first brace to its match. */
  ghost predicate BodyAfter(content: seq<byte>, pattern: seq<byte>, at: nat, i: nat, j: nat) {
    && FirstAt(content, pattern, at)
    && FirstBrace(Strip(content[at..], 0), i) && MatchedAt(Strip(content[at..], 0), i, j)
  }

  /** The first brace of the stripped text and its match. */
  method FirstBlock(rest: seq<byte>) returns (block: Option<(nat, nat)>)
    ensures block.Some? ==>
      FirstBrace(Strip(rest, 0), block.value.0) && MatchedAt(Strip(rest, 0), block.value.0, block.value.1)
    ensures block.None? ==> forall i: nat, j: nat :: FirstBrace(Strip(rest, 0), i) ==> !MatchedAt(Strip(rest, 0), i, j)
  {
    var buffer := StripRustCodeNoise(rest);
    var stripped := buffer[..];
    var open := 0;
    while open < |stripped| && stripped[open] != OPEN_BRACE
      invariant open <= |stripped| && forall k :: 0 <= k < open ==> stripped[k] != OPEN_BRACE
    {
      open := open + 1;
    }
    if open == |stripped| {
      return None;
    }
    assert forall k: nat :: FirstBrace(stripped, k) ==> k == open;
    var end := MatchBrace(stripped, open);
    if end.None? {
      return None;
    }
    return Some((open, end.value));
  }

  method ExtractAfter(content: seq<byte>, pattern: seq<byte>) returns (body: Option<seq<byte>>)
    ensures body.Some? ==> exists at: nat, i: nat, j: nat ::
      BodyAfter(content, pattern, at, i, j) && body.value == content[at..][i..j + 1]
    ensures body.None? ==> forall at: nat, i: nat, j: nat :: !BodyAfter(content, pattern, at, i, j)
  {
    var start := FindFirst(content, pattern);
    if start.None? {
      return None;
    }
    var at := start.value;
    assert forall k: nat :: FirstAt(content, pattern, k) ==> k == at;
    var rest := content[at..];
    var block := FirstBlock(rest);
    if block.None? {
      return None;
    }
    assert BodyAfter(content, pattern, at, block.value.0, block.value.1);
    return Some(rest[block.value.0..block.value.1 + 1]);
  }

  /** extract_build_router_body: the original text between the first brace after the declaration and its match. */
  method ExtractBuildRouterBody(content: seq<byte>) returns (body: Option<seq<byte>>)
    ensures body.Some? ==> exists at: nat, i: nat, j: nat ::
      BodyAfter(content, BUILD_ROUTER, at, i, j) && body.value == content[at..][i..j + 1]
    ensures body.None? ==> forall at: nat, i: nat, j: nat :: !BodyAfter(content, BUILD_ROUTER, at, i, j)
  {
    body := ExtractAfter(content, BUILD_ROUTER);
  }
}
