/** The two search orders a backtracking regex matcher uses, and what `String.prototype.replace`
    does with the match it finds.

    A lazy quantifier, and the scan for the leftmost match, try positions in increasing order and
    keep the first that lets the rest of the pattern succeed (FirstFrom); a greedy quantifier
    tries them in decreasing order (LastFrom). Each regex of the system is written, in its own
    module, as a scanner built from these two searches. */
module Search {
  import opened Text

  /** The least q in [lo, hi] with f(q). */
  function FirstFrom(lo: nat, hi: nat, f: nat -> bool): (r: Option<nat>)
    decreases hi - lo
    ensures r.Some? ==> lo <= r.value <= hi && f(r.value)
    ensures r.Some? ==> forall q :: lo <= q < r.value ==> !f(q)
    ensures r.None? ==> forall q :: lo <= q <= hi ==> !f(q)
  {
    if lo > hi then None
    else if f(lo) then Some(lo)
    else FirstFrom(lo + 1, hi, f)
  }

  /** The greatest q in [lo, hi] with f(q). */
  function LastFrom(lo: nat, hi: nat, f: nat -> bool): (r: Option<nat>)
    decreases hi
    ensures r.Some? ==> lo <= r.value <= hi && f(r.value)
    ensures r.Some? ==> forall q :: r.value < q <= hi ==> !f(q)
    ensures r.None? ==> forall q :: lo <= q <= hi ==> !f(q)
  {
    if lo > hi then None
    else if f(hi) then Some(hi)
    else if hi == 0 then None
    else LastFrom(lo, hi - 1, f)
  }

  /** Two predicates that agree on [lo, hi] give the same searches. */
  lemma {:induction false} SearchCongruence(lo: nat, hi: nat, f: nat -> bool, g: nat -> bool)
    requires forall q :: lo <= q <= hi ==> f(q) == g(q)
    ensures FirstFrom(lo, hi, f) == FirstFrom(lo, hi, g)
    ensures LastFrom(lo, hi, f) == LastFrom(lo, hi, g)
  {
    var a, b := FirstFrom(lo, hi, f), FirstFrom(lo, hi, g);
    if a.Some? && b.Some? {
      assert !(a.value < b.value) && !(b.value < a.value);
    }
    var c, d := LastFrom(lo, hi, f), LastFrom(lo, hi, g);
    if c.Some? && d.Some? {
      assert !(c.value < d.value) && !(d.value < c.value);
    }
  }

  /** The positions where a scanner (or a pattern's remainder) succeeds. */
  function Succeeds<T>(at: nat -> Option<T>): nat -> bool {
    (p: nat) => at(p).Some?
  }

  /** `String.prototype.match` without the `g` flag: the leftmost position of [0, n] where the
      scanner `at` succeeds. */
  function Leftmost<T>(n: nat, at: nat -> Option<T>): (r: Option<nat>)
    ensures r.Some? ==> r.value <= n && at(r.value).Some?
    ensures r.Some? ==> forall p: nat :: p < r.value ==> at(p).None?
    ensures r.None? ==> forall p: nat :: p <= n ==> at(p).None?
  {
    var f := Succeeds(at);
    assert forall p: nat :: f(p) == at(p).Some?;
    FirstFrom(0, n, f)
  }

  /** Scanners that agree everywhere find the same leftmost match. */
  lemma LeftmostCongruence<T>(n: nat, at: nat -> Option<T>, at': nat -> Option<T>)
    requires forall p: nat :: p <= n ==> at(p) == at'(p)
    ensures Leftmost(n, at) == Leftmost(n, at')
  {
    SearchCongruence(0, n, Succeeds(at), Succeeds(at'));
  }

  /** Every match a scanner reports at a position of `s` ends after that position, inside `s`. */
  ghost predicate NonEmptyMatches(s: string, at: nat -> Option<nat>) {
    forall p: nat :: p <= |s| && at(p).Some? ==> p < at(p).value <= |s|
  }

  /** `s.replace(re, …)` for a regex with the `g` flag from position `from` on: `at(p)` is the end
      of the match of `re` that starts at p, if any, and `repl(p, e)` the text that replaces
      s[p..e]. After each match the scan resumes where the match ended. */
  function ReplaceAll(s: string, from: nat, at: nat -> Option<nat>, repl: (nat, nat) -> string): (r: string)
    requires from <= |s| && NonEmptyMatches(s, at)
    decreases |s| - from
  {
    match FirstFrom(from, |s|, (p: nat) => at(p).Some?)
    case None => s[from..]
    case Some(p) => s[from..p] + repl(p, at(p).value) + ReplaceAll(s, at(p).value, at, repl)
  }

  /** A global replace whose replacement is never longer than the text it replaces cannot lengthen
      the text, and leaves a text with no match as it is. */
  lemma {:induction false} ReplaceAllShrinks(s: string, from: nat, at: nat -> Option<nat>, repl: (nat, nat) -> string)
    requires from <= |s| && NonEmptyMatches(s, at)
    requires forall p: nat :: from <= p <= |s| && at(p).Some? ==> |repl(p, at(p).value)| <= at(p).value - p
    ensures |ReplaceAll(s, from, at, repl)| <= |s| - from
    ensures (forall p: nat :: from <= p <= |s| ==> at(p).None?) ==> ReplaceAll(s, from, at, repl) == s[from..]
    decreases |s| - from
  {
    match FirstFrom(from, |s|, (p: nat) => at(p).Some?)
    case None =>
    case Some(p) =>
      ReplaceAllShrinks(s, at(p).value, at, repl);
  }

  /** The first match from `from` on is at p: the text before it is kept, the match is replaced,
      and the scan goes on from the match's end. */
  lemma ReplaceAllFirst(s: string, from: nat, at: nat -> Option<nat>, repl: (nat, nat) -> string, p: nat)
    requires from <= p <= |s| && NonEmptyMatches(s, at) && at(p).Some?
    requires forall q: nat :: from <= q < p ==> at(q).None?
    ensures ReplaceAll(s, from, at, repl) == s[from..p] + repl(p, at(p).value) + ReplaceAll(s, at(p).value, at, repl)
  {
    var f := (q: nat) => at(q).Some?;
    assert f(p);
    match FirstFrom(from, |s|, f)
    case None =>
    case Some(r) =>
      if r < p {
        assert false;
      } else if p < r {
        assert false;
      }
  }

  /** With no match from `from` on, the rest of the text is kept as it is. */
  lemma ReplaceAllNoMatch(s: string, from: nat, at: nat -> Option<nat>, repl: (nat, nat) -> string)
    requires from <= |s| && NonEmptyMatches(s, at)
    requires forall q: nat :: from <= q <= |s| ==> at(q).None?
    ensures ReplaceAll(s, from, at, repl) == s[from..]
  {
    match FirstFrom(from, |s|, (q: nat) => at(q).Some?)
    case None =>
    case Some(r) =>
      assert false;
  }

  function Digit(c: char): nat
    requires IsDigit(c)
  {
    c as nat - 48
  }

  /** ECMAScript GetSubstitution: the replacement text for `template` when `replace` is given a
      string. `$$` is a dollar sign, `$&` the match, `` $` `` the text before it, `$'` the text
      after it, `$n` and `$nn` a capture group (a two-digit reference beyond the group count is
      read as one digit and a literal digit); any other `$` is literal. */
  function Substitute(t: string, matched: string, before: string, after: string, groups: seq<string>): string
    decreases |t|
  {
    if t == [] then []
    else if t[0] != '$' || |t| == 1 then [t[0]] + Substitute(t[1..], matched, before, after, groups)
    else if t[1] == '$' then "$" + Substitute(t[2..], matched, before, after, groups)
    else if t[1] == '&' then matched + Substitute(t[2..], matched, before, after, groups)
    else if t[1] == '`' then before + Substitute(t[2..], matched, before, after, groups)
    else if t[1] == '\'' then after + Substitute(t[2..], matched, before, after, groups)
    else if IsDigit(t[1]) && |t| >= 3 && IsDigit(t[2]) && 1 <= 10 * Digit(t[1]) + Digit(t[2]) <= |groups| then
      groups[10 * Digit(t[1]) + Digit(t[2]) - 1] + Substitute(t[3..], matched, before, after, groups)
    else if IsDigit(t[1]) && 1 <= Digit(t[1]) <= |groups| then
      groups[Digit(t[1]) - 1] + Substitute(t[2..], matched, before, after, groups)
    else "$" + Substitute(t[1..], matched, before, after, groups)
  }

  /** A template without `$` is inserted as it is. */
  lemma {:induction false} SubstituteLiteral(t: string, matched: string, before: string, after: string, groups: seq<string>)
    requires !Contains(t, '$')
    ensures Substitute(t, matched, before, after, groups) == t
    decreases |t|
  {
    if t != [] {
      assert CharAt(t, 0) != '$';
      ContainsSlice(t, 1, |t|, '$');
      assert t[1..] == t[1..|t|];
      SubstituteLiteral(t[1..], matched, before, after, groups);
    }
  }

  /** `$1` followed by text without `$`, with fewer than ten groups, is the first group followed by
      that text. */
  lemma SubstituteFirstGroup(x: string, matched: string, before: string, after: string, groups: seq<string>)
    requires 1 <= |groups| < 10 && !Contains(x, '$')
    ensures Substitute("$1" + x, matched, before, after, groups) == groups[0] + x
  {
    var t := "$1" + x;
    assert t[0] == '$' && t[1] == '1' && t[2..] == x;
    if |t| >= 3 && IsDigit(t[2]) {
      assert 10 * Digit(t[1]) + Digit(t[2]) >= 10;
    }
    SubstituteLiteral(x, matched, before, after, groups);
  }

  /** `s.replace(re, t)` when the first match of `re` is s[start..end] with capture groups
      `groups`. */
  function ReplaceSpan(s: string, start: nat, end: nat, t: string, groups: seq<string>): string
    requires start <= end <= |s|
  {
    s[..start] + Substitute(t, s[start..end], s[..start], s[end..], groups) + s[end..]
  }

  /** A non-global replace keeps the text before the match and the text after it. */
  lemma ReplaceSpanKeepsOutside(s: string, start: nat, end: nat, t: string, groups: seq<string>)
    requires start <= end <= |s|
    ensures var r := ReplaceSpan(s, start, end, t, groups);
      start + (|s| - end) <= |r| && r[..start] == s[..start] && r[|r| - (|s| - end)..] == s[end..]
  {
    var mid := Substitute(t, s[start..end], s[..start], s[end..], groups);
    var r := s[..start] + mid + s[end..];
    assert r[..start] == s[..start];
    assert r[|r| - (|s| - end)..] == s[end..];
  }

  /** A template without `$` replaces the match by itself. */
  lemma ReplaceSpanLiteral(s: string, start: nat, end: nat, t: string, groups: seq<string>)
    requires start <= end <= |s| && !Contains(t, '$')
    ensures ReplaceSpan(s, start, end, t, groups) == s[..start] + t + s[end..]
  {
    SubstituteLiteral(t, s[start..end], s[..start], s[end..], groups);
  }
}
