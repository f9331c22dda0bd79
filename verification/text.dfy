/** Characters and strings as the JavaScript runtime sees them: the `\s` class, `trim`,
    ASCII case folding for regexes with the `i` flag, decimal rendering of numbers. */
module Text {

  datatype Option<+T> = None | Some(value: T)

  /** JavaScript's `\s`: WhiteSpace and LineTerminator code points; `String.prototype.trim`
      removes exactly these. */
  predicate IsSpace(c: char) {
    c == ' ' || c == '\t' || c == '\n' || c == '\r' || c == '\U{B}' || c == '\U{C}'
    || c == '\U{A0}' || c == '\U{1680}' || ('\U{2000}' <= c <= '\U{200A}')
    || c == '\U{2028}' || c == '\U{2029}' || c == '\U{202F}' || c == '\U{205F}'
    || c == '\U{3000}' || c == '\U{FEFF}'
  }

  predicate IsDigit(c: char) { '0' <= c <= '9' }

  predicate IsUpperAscii(c: char) { 'A' <= c <= 'Z' }

  predicate IsLowerAscii(c: char) { 'a' <= c <= 'z' }

  predicate IsLetter(c: char) { IsUpperAscii(c) || IsLowerAscii(c) }

  /** `\w` */
  predicate IsWordChar(c: char) { IsLetter(c) || IsDigit(c) || c == '_' }

  /** ASCII upper-casing: the canonical form the `i` flag compares by (a non-ASCII
      character never folds onto an ASCII one). */
  function UpperChar(c: char): (u: char)
    ensures IsLowerAscii(c) ==> IsUpperAscii(u)
    ensures !IsLowerAscii(c) ==> u == c
  {
    if IsLowerAscii(c) then (c as int - 32) as char else c
  }

  function Upper(s: string): (u: string)
    ensures |u| == |s|
    ensures forall i :: 0 <= i < |s| ==> u[i] == UpperChar(s[i])
  {
    if s == [] then [] else [UpperChar(s[0])] + Upper(s[1..])
  }

  predicate CharEq(a: char, b: char, ci: bool) {
    if ci then UpperChar(a) == UpperChar(b) else a == b
  }

  /** The literal `w` occurs in `s` at position `p` (compared case-insensitively when `ci`). */
  predicate LitAt(s: string, p: nat, w: string, ci: bool) {
    p + |w| <= |s| && forall i :: 0 <= i < |w| ==> CharEq(s[p + i], w[i], ci)
  }

  lemma LitAtExact(s: string, p: nat, w: string)
    ensures LitAt(s, p, w, false) <==> p + |w| <= |s| && s[p..p + |w|] == w
  {
    if p + |w| <= |s| && LitAt(s, p, w, false) {
      assert forall i :: 0 <= i < |w| ==> s[p..p + |w|][i] == w[i];
    }
  }

  /** A literal found in `s` is found at the same place in a slice that holds it. */
  lemma LitAtSlice(s: string, p: nat, w: string, ci: bool, lo: nat, hi: nat)
    requires LitAt(s, p, w, ci) && lo <= p && p + |w| <= hi <= |s|
    ensures LitAt(s[lo..hi], p - lo, w, ci)
  {
    var t := s[lo..hi];
    forall k | p - lo <= k < p - lo + |w| ensures t[k] == s[lo + k] {
    }
  }

  /** Length of the longest run of characters satisfying `cls` that starts at `p`. */
  function Run(s: string, p: nat, cls: char -> bool): (n: nat)
    decreases |s| - p
    ensures p <= |s| ==> p + n <= |s|
    ensures p > |s| ==> n == 0
    ensures forall i :: p <= i < p + n ==> cls(s[i])
    ensures p + n < |s| ==> !cls(s[p + n])
  {
    if p < |s| && cls(s[p]) then 1 + Run(s, p + 1, cls) else 0
  }

  /** Length of the longest run at `p` of characters outside `stops` (a class `[^...]`). */
  function RunOutside(s: string, p: nat, stops: seq<char>): (n: nat)
    decreases |s| - p
    ensures p <= |s| ==> p + n <= |s|
    ensures p > |s| ==> n == 0
    ensures forall i :: p <= i < p + n ==> s[i] !in stops
    ensures p + n < |s| ==> s[p + n] in stops
  {
    if p < |s| && s[p] !in stops then 1 + RunOutside(s, p + 1, stops) else 0
  }

  /** Length of the run of `\s` characters at `p`. */
  function SpaceRun(s: string, p: nat): (n: nat)
    ensures p <= |s| ==> p + n <= |s|
    ensures p > |s| ==> n == 0
    ensures forall i :: p <= i < p + n ==> IsSpace(s[i])
    ensures p + n < |s| ==> !IsSpace(s[p + n])
  {
    Run(s, p, IsSpace)
  }

  predicate IsBlank(s: string) {
    forall i :: 0 <= i < |s| ==> IsSpace(s[i])
  }

  /** Number of `\s` characters at the end of `s`. */
  function TrailingSpaces(s: string): (n: nat)
    ensures n <= |s|
    ensures forall i :: |s| - n <= i < |s| ==> IsSpace(s[i])
    ensures n < |s| ==> !IsSpace(s[|s| - 1 - n])
  {
    if s != [] && IsSpace(s[|s| - 1]) then 1 + TrailingSpaces(s[..|s| - 1]) else 0
  }

  function TrimStart(s: string): (t: string)
    ensures |t| <= |s| && t == s[|s| - |t|..]
    ensures IsBlank(s[..|s| - |t|])
    ensures t != [] ==> !IsSpace(t[0])
  {
    s[SpaceRun(s, 0)..]
  }

  function TrimEnd(s: string): (t: string)
    ensures |t| <= |s| && t == s[..|t|]
    ensures IsBlank(s[|t|..])
    ensures t != [] ==> !IsSpace(t[|t| - 1])
  {
    s[..|s| - TrailingSpaces(s)]
  }

  /** `String.prototype.trim`: `s` with its leading and trailing white space removed, and
      nothing else. */
  function Trim(s: string): (t: string)
    ensures t == [] <==> IsBlank(s)
    ensures t != [] ==> !IsSpace(t[0]) && !IsSpace(t[|t| - 1])
  {
    TrimBlank(s);
    TrimEnd(TrimStart(s))
  }

  /** What trim removes is white space at the two ends of the text, and nothing else. */
  lemma TrimKeepsMiddle(s: string)
    ensures var t := Trim(s);
      exists i: nat :: i + |t| <= |s| && t == s[i..i + |t|] && IsBlank(s[..i]) && IsBlank(s[i + |t|..])
  {
    var a := TrimStart(s);
    var k := |s| - |a|;
    var t := TrimEnd(a);
    assert t == s[k..k + |t|];
    assert s[k + |t|..] == a[|t|..];
  }

  lemma TrimBlank(s: string)
    ensures TrimEnd(TrimStart(s)) == [] <==> IsBlank(s)
  {
    var a := TrimStart(s);
    var k := |s| - |a|;
    assert s == s[..k] + a;
    if TrimEnd(a) == [] {
      assert IsBlank(a[0..]);
      forall i | 0 <= i < |s| ensures IsSpace(s[i]) {
        assert s[i] == s[..k][i];
      }
    }
  }

  /** `s.startsWith(c)` for a one-character prefix. */
  predicate StartsWith(s: string, c: char) {
    |s| > 0 && s[0] == c
  }

  /** s[i], as the one term the quantifier of Contains is instantiated on. */
  function CharAt(s: string, i: nat): char
    requires i < |s|
  {
    s[i]
  }

  /** `s.includes(c)` for a single character. */
  predicate Contains(s: string, c: char) {
    exists i: nat :: i < |s| && CharAt(s, i) == c
  }

  /** Contains in terms of plain indexing. */
  lemma ContainsIndex(s: string, c: char)
    ensures Contains(s, c) <==> exists i :: 0 <= i < |s| && s[i] == c
  {
    if Contains(s, c) {
      var i: nat :| i < |s| && CharAt(s, i) == c;
      assert s[i] == c;
    }
    if exists i :: 0 <= i < |s| && s[i] == c {
      var i :| 0 <= i < |s| && s[i] == c;
      assert CharAt(s, i) == c;
    }
  }

  lemma ContainsAppend(a: string, b: string, c: char)
    ensures Contains(a + b, c) <==> Contains(a, c) || Contains(b, c)
  {
    if Contains(a + b, c) {
      var i: nat :| i < |a + b| && CharAt(a + b, i) == c;
      if i >= |a| { assert CharAt(b, i - |a|) == c; } else { assert CharAt(a, i) == c; }
    }
    if Contains(a, c) {
      var i: nat :| i < |a| && CharAt(a, i) == c;
      assert CharAt(a + b, i) == c;
    }
    if Contains(b, c) {
      var i: nat :| i < |b| && CharAt(b, i) == c;
      assert CharAt(a + b, |a| + i) == c;
    }
  }

  lemma ContainsSlice(s: string, i: nat, j: nat, c: char)
    requires i <= j <= |s| && !Contains(s, c)
    ensures !Contains(s[i..j], c)
  {
    forall k: nat | k < j - i ensures CharAt(s[i..j], k) != c {
      assert CharAt(s[i..j], k) == CharAt(s, i + k);
    }
  }

  /** `trim` only removes characters, so it adds none. */
  lemma TrimKeepsOut(s: string, c: char)
    requires !Contains(s, c)
    ensures !Contains(Trim(s), c)
  {
    var a := TrimStart(s);
    ContainsSlice(s, |s| - |a|, |s|, c);
    assert a == s[|s| - |a|..|s|];
    ContainsSlice(a, 0, |TrimEnd(a)|, c);
    assert TrimEnd(a) == a[0..|TrimEnd(a)|];
  }

  function DigitString(n: nat): (r: string)
    ensures |r| >= 1 && forall i :: 0 <= i < |r| ==> IsDigit(r[i])
  {
    if n < 10 then [(48 + n) as char] else DigitString(n / 10) + [(48 + n % 10) as char]
  }

  /** Decimal rendering of an integer (`String(n)`, also `JSON.stringify(n)` for integers). */
  function IntString(n: int): (r: string)
    ensures |r| >= 1
  {
    if n < 0 then "-" + DigitString(-n) else DigitString(n)
  }

  lemma AppendAssociates<T>(a: seq<T>, b: seq<T>, c: seq<T>)
    ensures (a + b) + c == a + (b + c)
  {
  }

  /** `Array.prototype.join` */
  function Join(xs: seq<string>, sep: string): string {
    if xs == [] then "" else if |xs| == 1 then xs[0] else xs[0] + sep + Join(xs[1..], sep)
  }

  /** A character that is in no item and not in the separator is not in the joined text. */
  lemma {:induction false} JoinKeepsOut(xs: seq<string>, sep: string, c: char)
    requires !Contains(sep, c) && forall i :: 0 <= i < |xs| ==> !Contains(xs[i], c)
    ensures !Contains(Join(xs, sep), c)
    decreases |xs|
  {
    if xs == [] {
      ContainsIndex("", c);
    } else if |xs| > 1 {
      JoinKeepsOut(xs[1..], sep, c);
      ContainsAppend(xs[0], sep, c);
      ContainsAppend(xs[0] + sep, Join(xs[1..], sep), c);
    }
  }
}
