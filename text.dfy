/** The JavaScript string operations the routes and components rely on:
    `trim`, `toLowerCase`, `includes` and `split`. */
module Text {
  import opened Common

  /** The white-space and line-terminator characters `String.prototype.trim`
      removes: tab, vertical tab, form feed, the byte-order mark, the space
      separators of Unicode category Zs, and line feed, carriage return and the
      two Unicode line and paragraph separators. */
  predicate IsSpace(c: char)
  {
    c == ' ' || c == '\t' || c == '\n' || c == '\r' || c == '\U{B}' || c == '\U{C}'
    || c == '\U{A0}' || c == '\U{FEFF}' || c == '\U{2028}' || c == '\U{2029}'
    || c == '\U{1680}' || '\U{2000}' <= c <= '\U{200A}' || c == '\U{202F}' || c == '\U{205F}' || c == '\U{3000}'
  }

  function TrimStart(s: string): (r: string)
    ensures |r| <= |s| && r == s[|s| - |r|..]
    ensures forall i :: 0 <= i < |s| - |r| ==> IsSpace(s[i])
    ensures r != [] ==> !IsSpace(r[0])
    decreases |s|
  {
    if s != [] && IsSpace(s[0]) then TrimStart(s[1..]) else s
  }

  function TrimEnd(s: string): (r: string)
    ensures |r| <= |s| && r == s[..|r|]
    ensures forall i :: |r| <= i < |s| ==> IsSpace(s[i])
    ensures r != [] ==> !IsSpace(r[|r| - 1])
    decreases |s|
  {
    if s != [] && IsSpace(s[|s| - 1]) then TrimEnd(s[..|s| - 1]) else s
  }

  /** `s.trim()`: `s` without its leading and trailing white space. */
  function Trim(s: string): (r: string)
    ensures |r| <= |s|
    ensures r == [] <==> forall i :: 0 <= i < |s| ==> IsSpace(s[i])
    ensures r != [] ==> !IsSpace(r[0]) && !IsSpace(r[|r| - 1])
  {
    var t := TrimStart(s);
    assert t == [] ==> forall i :: 0 <= i < |s| ==> IsSpace(s[i]);
    assert t != [] ==> !IsSpace(s[|s| - |t|]);
    TrimEnd(t)
  }

  /** The number of white-space characters `s` starts with. */
  function LeadingSpaces(s: string): (k: nat)
    ensures k <= |s|
    ensures forall i :: 0 <= i < k ==> IsSpace(s[i])
    ensures k < |s| ==> !IsSpace(s[k])
  {
    |s| - |TrimStart(s)|
  }

  /** What trimming keeps: the piece of `s` that follows its leading white
      space, with nothing but white space after it. */
  lemma TrimKeepsMiddle(s: string)
    ensures var k, r := LeadingSpaces(s), Trim(s);
      && k + |r| <= |s| && r == s[k..k + |r|]
      && forall i :: k + |r| <= i < |s| ==> IsSpace(s[i])
  {
    var k, t := LeadingSpaces(s), TrimStart(s);
    var r := TrimEnd(t);
    assert Trim(s) == r;
    PrefixOfSuffix(s, k, r);
    forall i | k + |r| <= i < |s|
      ensures IsSpace(s[i])
    {
      assert IsSpace(t[i - k]);
    }
  }

  /** A prefix of the suffix of `s` from `k` is the slice of `s` from `k`. */
  lemma PrefixOfSuffix(s: string, k: nat, r: string)
    requires k <= |s| && |r| <= |s| - k && r == s[k..][..|r|]
    ensures r == s[k..k + |r|]
    ensures forall i :: k + |r| <= i < |s| ==> s[i] == s[k..][i - k]
  {
  }

  /** Trimming twice is trimming once. */
  lemma TrimIdempotent(s: string)
    ensures Trim(Trim(s)) == Trim(s)
  {
    var r := Trim(s);
    if r != [] {
      assert TrimStart(r) == r;
      assert TrimEnd(r) == r;
    }
  }

  /** `toLowerCase` on one character (ASCII letters only). */
  function LowerChar(c: char): char
  {
    if 'A' <= c <= 'Z' then (c as int + 32) as char else c
  }

  /** `s.toLowerCase()`. */
  function Lower(s: string): (r: string)
    ensures |r| == |s|
    ensures forall i :: 0 <= i < |s| ==> r[i] == LowerChar(s[i])
  {
    seq(|s|, i requires 0 <= i < |s| => LowerChar(s[i]))
  }

  /** `s.includes(sub)`. */
  predicate Contains(s: string, sub: string)
  {
    exists i :: 0 <= i <= |s| - |sub| && sub <= s[i..]
  }

  lemma ContainsEmpty(s: string)
    ensures Contains(s, "")
  {
    assert "" <= s[0..];
  }

  /** A character of the regular-expression class `\w`. */
  predicate IsWordChar(c: char)
  {
    'a' <= c <= 'z' || 'A' <= c <= 'Z' || '0' <= c <= '9' || c == '_'
  }

  /** `s.split(sep)[0]`: everything before the first separator (all of `s` if none). */
  function BeforeFirst(s: string, sep: char): (r: string)
    ensures |r| <= |s| && r == s[..|r|]
    ensures sep !in r
    ensures |r| < |s| ==> s[|r|] == sep
  {
    match FirstIndex(s, c => c == sep)
    case None => s
    case Some(i) => s[..i]
  }

  /** `s.split(sep)[1]`: the piece between the first and the second separator,
      `None` (JavaScript's `undefined`) when `s` has no separator. */
  function SecondPiece(s: string, sep: char): (r: Option<string>)
    ensures r.None? <==> sep !in s
    ensures r.Some? ==> sep !in r.value
    ensures r.Some? ==> |BeforeFirst(s, sep)| + 1 + |r.value| <= |s|
    ensures r.Some? ==> s[..|BeforeFirst(s, sep)| + 1 + |r.value|] == BeforeFirst(s, sep) + [sep] + r.value
    ensures r.Some? ==> var n := |BeforeFirst(s, sep)| + 1 + |r.value|; n == |s| || s[n] == sep
  {
    var before := BeforeFirst(s, sep);
    if |before| == |s| then None
    else
      var rest := s[|before| + 1..];
      var piece := BeforeFirst(rest, sep);
      assert s[..|before| + 1 + |piece|] == before + [sep] + piece;
      assert |piece| < |rest| ==> s[|before| + 1 + |piece|] == rest[|piece|];
      Some(piece)
  }
}
