/** The functions of Go's strings and unicode packages that the models use. */
module Text {

  /** unicode.IsSpace */
  predicate IsSpace(c: char) {
    || '\U{09}' <= c <= '\U{0D}' || c == ' ' || c == '\U{85}' || c == '\U{A0}' || c == '\U{1680}'
    || '\U{2000}' <= c <= '\U{200A}' || c == '\U{2028}' || c == '\U{2029}' || c == '\U{202F}'
    || c == '\U{205F}' || c == '\U{3000}'
  }

  predicate NoSpace(s: string) {
    forall i | 0 <= i < |s| :: !IsSpace(s[i])
  }

  /** strings.TrimSpace */
  function TrimSpace(s: string): (r: string)
    ensures forall c <- r :: c in s
    decreases |s|
  {
    if s != "" && IsSpace(s[0]) then TrimSpace(s[1..])
    else if s != "" && IsSpace(s[|s| - 1]) then TrimSpace(s[..|s| - 1])
    else s
  }

  /** strings.Trim(s, "\"") */
  function TrimQuotes(s: string): (r: string)
    ensures forall c <- r :: c in s
    ensures r != "" ==> r[0] != '\"' && r[|r| - 1] != '\"'
    ensures |r| <= |s| && (s != "" && s[0] == '\"' ==> |r| < |s|)
    decreases |s|
  {
    if s != "" && s[0] == '\"' then TrimQuotes(s[1..])
    else if s != "" && s[|s| - 1] == '\"' then TrimQuotes(s[..|s| - 1])
    else s
  }

  /** strings.Split at one character: the pieces between its occurrences. */
  function Split(s: string, at: char): (r: seq<string>)
    ensures r != [] && forall p <- r :: at !in p
  {
    if s == "" then [""]
    else
      var rest := Split(s[1..], at);
      if s[0] == at then [""] + rest else [[s[0]] + rest[0]] + rest[1..]
  }

  /** Where `c` first occurs, the length if it does not. */
  function IndexOf(s: string, c: char): (i: nat)
    ensures i <= |s| && c !in s[..i] && (i < |s| ==> s[i] == c)
  {
    if s == "" || s[0] == c then 0
    else
      assert forall i: nat | i < |s| :: s[..i + 1] == [s[0]] + s[1..][..i];
      1 + IndexOf(s[1..], c)
  }

  lemma {:induction false} SplitFirst(piece: string, at: char, rest: string)
    requires at !in piece
    ensures Split(piece, at) == [piece]
    ensures Split(piece + [at] + rest, at) == [piece] + Split(rest, at)
  {
    var s := piece + [at] + rest;
    if piece == "" {
      assert s[0] == at && s[1..] == rest;
    } else {
      assert s[0] == piece[0] && s[1..] == piece[1..] + [at] + rest;
      SplitFirst(piece[1..], at, rest);
      assert [piece[0]] + piece[1..] == piece;
    }
  }

  lemma {:induction false} IndexOfFirst(before: string, c: char, rest: string)
    requires c !in before
    ensures IndexOf(before + [c] + rest, c) == |before|
  {
    var s := before + [c] + rest;
    if before != "" {
      assert s[0] == before[0] && s[1..] == before[1..] + [c] + rest;
      IndexOfFirst(before[1..], c, rest);
    }
  }
}
