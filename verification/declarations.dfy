/** The part every declaration regex of the tools shares: `export\s+const\s+NAME\s*=\s*` and
    the bracket that opens the declared value. */
module Declarations {
  import opened Text
  import opened Search

  /** Where the declared name may start: every position of the `\s+` run after `const` except
      its first, up to the first character that is not a space. */
  datatype Window = Window(lo: nat, hi: nat)

  /** `export\s+const\s+` at p (keywords compared case-insensitively when `ci`). Both `\s+` runs
      are taken whole, since a keyword never starts with a space. */
  function ConstHeader(s: string, p: nat, ci: bool): (w: Option<Window>)
    ensures w.Some? ==> LitAt(s, p, "export", ci) && p + 13 <= w.value.lo <= w.value.hi <= |s|
    ensures w.Some? ==> IsBlank(s[w.value.lo - 1..w.value.hi])
    ensures w.Some? && w.value.hi < |s| ==> !IsSpace(s[w.value.hi])
  {
    if !LitAt(s, p, "export", ci) then None
    else
      var m1 := SpaceRun(s, p + 6);
      if m1 == 0 || !LitAt(s, p + 6 + m1, "const", ci) then None
      else
        var d := p + 6 + m1 + 5;
        var m2 := SpaceRun(s, d);
        if m2 == 0 then None else Some(Window(d + 1, d + m2))
  }

  /** Where `NAME` starts after the header at p, given that the rest of the pattern must succeed
      right after it: the `\s+` before the name is greedy, so the last workable start wins. */
  function NameStart(s: string, p: nat, name: string, ci: bool, rest: nat -> bool): (k: Option<nat>)
    ensures k.Some? ==> ConstHeader(s, p, ci).Some?
    ensures k.Some? ==> ConstHeader(s, p, ci).value.lo <= k.value <= ConstHeader(s, p, ci).value.hi
    ensures k.Some? ==> LitAt(s, k.value, name, ci) && rest(k.value + |name|)
    ensures k.Some? ==> forall q: nat :: k.value < q <= ConstHeader(s, p, ci).value.hi ==> !(LitAt(s, q, name, ci) && rest(q + |name|))
    ensures k.None? && ConstHeader(s, p, ci).Some? ==>
      forall q: nat :: ConstHeader(s, p, ci).value.lo <= q <= ConstHeader(s, p, ci).value.hi ==> !(LitAt(s, q, name, ci) && rest(q + |name|))
  {
    match ConstHeader(s, p, ci)
    case None => None
    case Some(w) =>
      assert forall q: nat :: Fits(s, name, ci, rest)(q) == (LitAt(s, q, name, ci) && rest(q + |name|));
      LastFrom(w.lo, w.hi, Fits(s, name, ci, rest))
  }

  /** The starts q where the name occurs and the rest of the pattern succeeds after it. */
  function Fits(s: string, name: string, ci: bool, rest: nat -> bool): nat -> bool {
    (q: nat) => LitAt(s, q, name, ci) && rest(q + |name|)
  }

  lemma UpperCharIdempotent(c: char)
    ensures UpperChar(UpperChar(c)) == UpperChar(c)
  {
  }

  /** Compared case-insensitively, a name and its upper-case form occur at the same places. */
  lemma LitAtUpper(s: string, q: nat, name: string)
    ensures LitAt(s, q, Upper(name), true) == LitAt(s, q, name, true)
  {
    forall i | 0 <= i < |name| ensures UpperChar(Upper(name)[i]) == UpperChar(name[i]) {
      UpperCharIdempotent(name[i]);
    }
  }

  /** With the `i` flag, looking for a name or for its upper-case form finds the same start. */
  lemma NameStartIgnoresCase(s: string, p: nat, name: string, rest: nat -> bool)
    ensures NameStart(s, p, Upper(name), true, rest) == NameStart(s, p, name, true, rest)
  {
    match ConstHeader(s, p, true)
    case None =>
    case Some(w) =>
      forall q: nat | w.lo <= q <= w.hi
        ensures Fits(s, Upper(name), true, rest)(q) == Fits(s, name, true, rest)(q)
      {
        LitAtUpper(s, q, name);
      }
      SearchCongruence(w.lo, w.hi, Fits(s, Upper(name), true, rest), Fits(s, name, true, rest));
  }

  /** `export\s+const\s+NAME` followed by the remainder of a pattern, whose outcome after each
      position is `rest`: the outcome of the whole match at p. */
  function AfterName<T>(s: string, p: nat, name: string, ci: bool, rest: nat -> Option<T>): (r: Option<T>)
    ensures r.Some? ==> NameStart(s, p, name, ci, Succeeds(rest)).Some?
    ensures r.Some? ==> r == rest(NameStart(s, p, name, ci, Succeeds(rest)).value + |name|)
    ensures r.None? ==> NameStart(s, p, name, ci, Succeeds(rest)).None?
  {
    match NameStart(s, p, name, ci, Succeeds(rest))
    case None => None
    case Some(k) => rest(k + |name|)
  }

  /** With the `i` flag, a declaration of a name and of its upper-case form match alike. */
  lemma AfterNameIgnoresCase<T>(s: string, p: nat, name: string, rest: nat -> Option<T>)
    ensures AfterName(s, p, Upper(name), true, rest) == AfterName(s, p, name, true, rest)
  {
    NameStartIgnoresCase(s, p, name, Succeeds(rest));
    assert |Upper(name)| == |name|;
    match NameStart(s, p, name, true, Succeeds(rest))
    case None =>
    case Some(k) =>
  }

  /** `\s*=\s*` followed by `open`, from e: the position of `open` (both runs are taken whole,
      since neither `=` nor a bracket is a space). */
  function AssignOpen(s: string, e: nat, open: char): (o: Option<nat>)
    ensures o.Some? ==> e < o.value < |s| && s[o.value] == open
    ensures o.Some? ==> exists a :: e <= a < o.value && s[a] == '='
  {
    var a := e + SpaceRun(s, e);
    if a < |s| && s[a] == '=' then
      var b := a + 1 + SpaceRun(s, a + 1);
      if b < |s| && s[b] == open then Some(b) else None
    else None
  }

  /** A match of a regex: `s[start..end]`. */
  datatype Span = Span(start: nat, end: nat)
}
