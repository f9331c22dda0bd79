/** The regexes of the component tools (src/tools/components.ts), each as a scanner over the
    theme file's text. A component name is matched as literal text. */
module ComponentScan {
  import opened Text
  import opened Search
  import opened Declarations

  // ------------------------------------------------------------------ lookup
  // export\s+const\s+NAME\s*=\s*({[\s\S]*?});?\s*(?:export|$)     flag i

  /** `\s*(?:export|$)` from y: the end of the match. */
  function ExportOrEnd(s: string, y: nat): (e: Option<nat>)
    ensures e.Some? ==> y <= e.value <= |s|
    ensures e.Some? ==> e.value == |s| || (y + 6 <= e.value && LitAt(s, e.value - 6, "export", true))
  {
    var z := y + SpaceRun(s, y);
    if LitAt(s, z, "export", true) then Some(z + 6)
    else if z == |s| then Some(z)
    else None
  }

  /** `;?\s*(?:export|$)` from x: the semicolon is taken when the rest still succeeds after it. */
  function LookupTail(s: string, x: nat): (e: Option<nat>)
    ensures e.Some? ==> x <= e.value <= |s|
  {
    if x < |s| && s[x] == ';' && ExportOrEnd(s, x + 1).Some? then ExportOrEnd(s, x + 1) else ExportOrEnd(s, x)
  }

  /** `[\s\S]*?}` and the tail after the opening brace at o: the lazy body stops at the first
      closing brace after which the tail succeeds. The end of the match. */
  function LookupBody(s: string, o: nat): (e: Option<nat>)
    ensures e.Some? ==> o + 2 <= e.value <= |s|
  {
    assert forall j: nat :: BodyCloses(s)(j) == (j < |s| && s[j] == '}' && LookupTail(s, j + 1).Some?);
    match FirstFrom(o + 1, |s|, BodyCloses(s))
    case None => None
    case Some(j) => LookupTail(s, j + 1)
  }

  /** The closing braces at which the lazy body may stop: those the tail succeeds after. */
  function BodyCloses(s: string): nat -> bool {
    (j: nat) => j < |s| && s[j] == '}' && LookupTail(s, j + 1).Some?
  }

  function LookupRest(s: string, e: nat): (r: Option<nat>)
    ensures r.Some? ==> e < r.value <= |s|
  {
    match AssignOpen(s, e, '{')
    case None => None
    case Some(o) => LookupBody(s, o)
  }

  function LookupRests(s: string): nat -> Option<nat> {
    (e: nat) => LookupRest(s, e)
  }

  /** The lookup regex at p: the end of its match. */
  function LookupAt(s: string, p: nat, name: string): (e: Option<nat>)
    ensures e.Some? ==> p + 6 < e.value <= |s| && LitAt(s, p, "export", true)
  {
    assert forall x: nat :: LookupRests(s)(x) == LookupRest(s, x);
    AfterName(s, p, name, true, LookupRests(s))
  }

  function LookupAts(s: string, name: string): nat -> Option<nat> {
    (p: nat) => LookupAt(s, p, name)
  }

  /** `themeContent.match(componentRegex)`: the leftmost match of the lookup regex. */
  function FindComponent(s: string, name: string): (m: Option<Span>)
    ensures m.Some? ==> m.value.start < m.value.end <= |s| && LookupAt(s, m.value.start, name) == Some(m.value.end)
    ensures m.Some? ==> forall p: nat :: p < m.value.start ==> LookupAt(s, p, name).None?
    ensures m.None? <==> forall p: nat :: p <= |s| ==> LookupAt(s, p, name).None?
  {
    assert forall p: nat :: LookupAts(s, name)(p) == LookupAt(s, p, name);
    match Leftmost(|s|, LookupAts(s, name))
    case None => None
    case Some(p) => Some(Span(p, LookupAt(s, p, name).value))
  }

  /** The lookup compares the name case-insensitively: a name and its upper-case form find the
      same declaration. */
  lemma FindComponentIgnoresCase(s: string, name: string)
    ensures FindComponent(s, Upper(name)) == FindComponent(s, name)
  {
    forall p: nat | p <= |s| ensures LookupAts(s, Upper(name))(p) == LookupAts(s, name)(p) {
      LookupAtIgnoresCase(s, p, name);
    }
    LeftmostCongruence(|s|, LookupAts(s, Upper(name)), LookupAts(s, name));
    match Leftmost(|s|, LookupAts(s, name))
    case None =>
    case Some(p) => LookupAtIgnoresCase(s, p, name);
  }

  lemma LookupAtIgnoresCase(s: string, p: nat, name: string)
    ensures LookupAt(s, p, Upper(name)) == LookupAt(s, p, name)
  {
    AfterNameIgnoresCase(s, p, name, LookupRests(s));
  }

  // ------------------------------------------------------------------ update
  // (export\s+const\s+NAME\s*=\s*)({[\s\S]*?});     flag i

  /** A declaration found by a regex: the match starts at `start`, the opening brace is at
      `open` and the closing brace at `close`. */
  datatype Block = Block(start: nat, open: nat, close: nat)

  /** A `};` starts at j. */
  predicate ClosesAt(s: string, j: nat) {
    j + 1 < |s| && s[j] == '}' && s[j + 1] == ';'
  }

  /** `\s*=\s*{[\s\S]*?};` from e: the opening brace and the first `};` after it. */
  function UpdateRest(s: string, e: nat): (r: Option<(nat, nat)>)
    ensures r.Some? ==> e < r.value.0 < r.value.1 && r.value.1 + 1 < |s|
    ensures r.Some? ==> s[r.value.0] == '{' && ClosesAt(s, r.value.1)
    ensures r.Some? ==> forall j: nat :: r.value.0 < j < r.value.1 ==> !ClosesAt(s, j)
  {
    match AssignOpen(s, e, '{')
    case None => None
    case Some(o) =>
      var closes := (j: nat) => ClosesAt(s, j);
      assert forall j: nat :: closes(j) == ClosesAt(s, j);
      match FirstFrom(o + 1, |s|, closes)
      case None => None
      case Some(j) => Some((o, j))
  }

  function UpdateRests(s: string): nat -> Option<(nat, nat)> {
    (e: nat) => UpdateRest(s, e)
  }

  /** The update regex at p. */
  function UpdateAt(s: string, p: nat, name: string): (b: Option<Block>)
    ensures b.Some? ==> b.value.start == p && p + 13 < b.value.open < b.value.close && b.value.close + 1 < |s|
    ensures b.Some? ==> LitAt(s, p, "export", true) && s[b.value.open] == '{' && ClosesAt(s, b.value.close)
    ensures b.Some? ==> forall j: nat :: b.value.open < j < b.value.close ==> !ClosesAt(s, j)
  {
    assert forall e: nat :: UpdateRests(s)(e) == UpdateRest(s, e);
    match AfterName(s, p, name, true, UpdateRests(s))
    case None => None
    case Some(r) => Some(Block(p, r.0, r.1))
  }

  function UpdateAts(s: string, name: string): nat -> Option<Block> {
    (p: nat) => UpdateAt(s, p, name)
  }

  /** The leftmost match of the update regex, the one `replace` rewrites. */
  function FindDeclaration(s: string, name: string): (b: Option<Block>)
    ensures b.Some? ==> UpdateAt(s, b.value.start, name) == b
    ensures b.Some? ==> forall p: nat :: p < b.value.start ==> UpdateAt(s, p, name).None?
    ensures b.None? <==> forall p: nat :: p <= |s| ==> UpdateAt(s, p, name).None?
  {
    assert forall p: nat :: UpdateAts(s, name)(p) == UpdateAt(s, p, name);
    match Leftmost(|s|, UpdateAts(s, name))
    case None => None
    case Some(p) => UpdateAt(s, p, name)
  }

  /** `s.match(regex)[0]`: the text of the leftmost match of the update regex. */
  function DeclarationMatch(s: string, name: string): (t: Option<string>)
    ensures t.Some? <==> FindDeclaration(s, name).Some?
  {
    match FindDeclaration(s, name)
    case None => None
    case Some(b) => Some(MatchedText(s, b))
  }

  /** The text of a match: from `export` to the `};` that closes it. */
  function MatchedText(s: string, b: Block): (t: string)
    requires b.start + 6 <= b.close && b.close + 1 < |s| && ClosesAt(s, b.close) && LitAt(s, b.start, "export", true)
    ensures t == s[b.start..b.close + 2]
    ensures |t| >= 2 && LitAt(t, 0, "export", true) && ClosesAt(t, |t| - 2)
  {
    var t := s[b.start..b.close + 2];
    assert t[|t| - 2] == s[b.close] && t[|t| - 1] == s[b.close + 1];
    LitAtSlice(s, b.start, "export", true, b.start, b.close + 2);
    t
  }

  /** The text `match` returns starts with `export` (in any case) and ends with the `};` the lazy
      `[\s\S]*?` stops at. */
  lemma DeclarationMatchShape(s: string, name: string)
    requires DeclarationMatch(s, name).Some?
    ensures var t := DeclarationMatch(s, name).value;
      |t| >= 8 && LitAt(t, 0, "export", true) && ClosesAt(t, |t| - 2)
  {
  }

  /** `s.replace(componentRegex, `$1${styles};`)`: the declaration's value, up to the first `};`,
      replaced (through the `$` patterns of the template, which `styles` may itself contain). */
  function ReplaceDeclaration(s: string, name: string, styles: string): (r: Option<string>)
    ensures r.None? <==> FindDeclaration(s, name).None?
    ensures r.Some? ==> r.value == Rewrite(s, FindDeclaration(s, name).value, styles)
  {
    match FindDeclaration(s, name)
    case None => None
    case Some(b) => Some(Rewrite(s, b, styles))
  }

  /** The replacement of the match `b` by the update template. */
  function Rewrite(s: string, b: Block, styles: string): string
    requires b.start <= b.open <= b.close && b.close + 1 < |s|
  {
    ReplaceSpan(s, b.start, b.close + 2, "$1" + styles + ";", [s[b.start..b.open], s[b.open..b.close + 1]])
  }

  /** With no `$` in the new styles, the update keeps everything up to the opening brace and
      everything after the first `};`, and puts the styles and a semicolon in between. */
  lemma RewriteKeepsRest(s: string, b: Block, styles: string)
    requires b.start <= b.open <= b.close && b.close + 1 < |s|
    requires !Contains(styles, '$')
    ensures Rewrite(s, b, styles) == s[..b.open] + styles + ";" + s[b.close + 2..]
  {
    var x := styles + ";";
    assert !Contains(";", '$') by { ContainsIndex(";", '$'); }
    ContainsAppend(styles, ";", '$');
    assert "$1" + styles + ";" == "$1" + x;
    var matched, before, after := s[b.start..b.close + 2], s[..b.start], s[b.close + 2..];
    var groups := [s[b.start..b.open], s[b.open..b.close + 1]];
    SubstituteFirstGroup(x, matched, before, after, groups);
    assert before + groups[0] == s[..b.open];
  }

  // ------------------------------------------------------------------ delete
  // export\s+const\s+NAME\s*=\s*{[\s\S]*?};?\s*\n     flags gi

  /** `\s*\n` from y: the greedy `\s*` gives back spaces until a newline follows, so the match
      ends just after the last newline of the space run. */
  function NewlineEnd(s: string, y: nat): (e: Option<nat>)
    ensures e.Some? ==> y < e.value <= |s| && s[e.value - 1] == '\n'
  {
    var m := SpaceRun(s, y);
    assert forall q: nat :: Newlines(s)(q) == (q < |s| && s[q] == '\n');
    if m == 0 then None
    else match LastFrom(y, y + m - 1, Newlines(s))
      case None => None
      case Some(q) => Some(q + 1)
  }

  function Newlines(s: string): nat -> bool {
    (q: nat) => q < |s| && s[q] == '\n'
  }

  /** `;?\s*\n` from x. */
  function DeleteTail(s: string, x: nat): (e: Option<nat>)
    ensures e.Some? ==> x < e.value <= |s|
  {
    if x < |s| && s[x] == ';' && NewlineEnd(s, x + 1).Some? then NewlineEnd(s, x + 1) else NewlineEnd(s, x)
  }

  /** `\s*=\s*{[\s\S]*?};?\s*\n` from e: the end of the match. */
  function DeleteRest(s: string, e: nat): (r: Option<nat>)
    ensures r.Some? ==> e < r.value <= |s|
  {
    match AssignOpen(s, e, '{')
    case None => None
    case Some(o) =>
      assert forall j: nat :: DeleteCloses(s)(j) == (j < |s| && s[j] == '}' && DeleteTail(s, j + 1).Some?);
      match FirstFrom(o + 1, |s|, DeleteCloses(s))
      case None => None
      case Some(j) => DeleteTail(s, j + 1)
  }

  /** The closing braces at which the lazy body of the delete regex may stop. */
  function DeleteCloses(s: string): nat -> bool {
    (j: nat) => j < |s| && s[j] == '}' && DeleteTail(s, j + 1).Some?
  }

  function DeleteRests(s: string): nat -> Option<nat> {
    (e: nat) => DeleteRest(s, e)
  }

  /** The delete regex at p: the end of its match. */
  function DeleteAt(s: string, p: nat, name: string): (e: Option<nat>)
    ensures e.Some? ==> p < e.value <= |s|
  {
    AfterName(s, p, name, true, DeleteRests(s))
  }

  function DeleteAts(s: string, name: string): nat -> Option<nat> {
    (p: nat) => DeleteAt(s, p, name)
  }

  /** A replacement that is always the same text. */
  function Constant(t: string): (nat, nat) -> string {
    (p: nat, e: nat) => t
  }

  /** The global removal of the delete regex's matches, from position `from` on. */
  function StripFrom(s: string, name: string, from: nat): (r: string)
    requires from <= |s|
    ensures |r| <= |s| - from
  {
    var at := DeleteAts(s, name);
    assert forall p: nat :: at(p) == DeleteAt(s, p, name);
    ReplaceAllShrinks(s, from, at, Constant(""));
    ReplaceAll(s, from, at, Constant(""))
  }

  /** `s.replace(componentRegex, '')`: every declaration of the name (any case) removed, each
      match cut out in turn (StripStep). */
  function StripDeclarations(s: string, name: string): (r: string)
    ensures |r| <= |s|
    ensures (forall p: nat :: p <= |s| ==> DeleteAt(s, p, name).None?) ==> r == s
  {
    assert (forall p: nat :: p <= |s| ==> DeleteAt(s, p, name).None?) ==> StripFrom(s, name, 0) == s by {
      if forall p: nat :: p <= |s| ==> DeleteAt(s, p, name).None? {
        StripRest(s, name, 0);
      }
    }
    StripFrom(s, name, 0)
  }

  /** The first declaration of the name from `from` on is s[p..e]: the text before it is kept,
      the declaration (with its `;` and the spaces up to its last newline) is cut out, and the
      scan goes on after it. */
  lemma StripStep(s: string, name: string, from: nat, p: nat)
    requires from <= p <= |s| && DeleteAt(s, p, name).Some?
    requires forall q: nat :: from <= q < p ==> DeleteAt(s, q, name).None?
    ensures StripFrom(s, name, from) == s[from..p] + StripFrom(s, name, DeleteAt(s, p, name).value)
  {
    var at := DeleteAts(s, name);
    assert forall q: nat :: at(q) == DeleteAt(s, q, name);
    ReplaceAllFirst(s, from, at, Constant(""), p);
  }

  /** With no declaration of the name from `from` on, the rest of the text is kept. */
  lemma StripRest(s: string, name: string, from: nat)
    requires from <= |s|
    requires forall q: nat :: from <= q <= |s| ==> DeleteAt(s, q, name).None?
    ensures StripFrom(s, name, from) == s[from..]
  {
    var at := DeleteAts(s, name);
    assert forall q: nat :: at(q) == DeleteAt(s, q, name);
    ReplaceAllNoMatch(s, from, at, Constant(""));
  }

  /** What precedes the first declaration of the name is kept by the removal. */
  lemma StripKeepsPrefix(s: string, name: string, p: nat)
    requires p <= |s| && DeleteAt(s, p, name).Some?
    requires forall q: nat :: q < p ==> DeleteAt(s, q, name).None?
    ensures s[..p] <= StripDeclarations(s, name)
  {
    StripStep(s, name, 0, p);
    assert s[0..p] == s[..p];
  }

  // ,?\s*NAME\s*,?     flag g

  /** `\s*NAME` from x: the greedy `\s*` keeps as many spaces as still let the name follow. */
  function NameEndFrom(s: string, x: nat, name: string): (e: Option<nat>)
    ensures e.Some? ==> x + |name| <= e.value <= |s| && LitAt(s, e.value - |name|, name, false)
    ensures e.Some? ==> e.value <= x + SpaceRun(s, x) + |name|
    ensures e.None? <==> forall k: nat :: x <= k <= x + SpaceRun(s, x) ==> !LitAt(s, k, name, false)
  {
    var occurs := (k: nat) => LitAt(s, k, name, false);
    assert forall k: nat :: occurs(k) == LitAt(s, k, name, false);
    match LastFrom(x, x + SpaceRun(s, x), occurs)
    case None => None
    case Some(k) => Some(k + |name|)
  }

  /** The reference-removal regex at p: an optional comma before the name is taken when the
      name still follows; the spaces and an optional comma after the name go with it. */
  function ReferenceAt(s: string, p: nat, name: string): (e: Option<nat>)
    ensures e.Some? ==> p + |name| <= e.value <= |s|
  {
    var nameEnd := if p < |s| && s[p] == ',' && NameEndFrom(s, p + 1, name).Some? then NameEndFrom(s, p + 1, name)
      else NameEndFrom(s, p, name);
    match nameEnd
    case None => None
    case Some(e) =>
      var f := e + SpaceRun(s, e);
      Some(if f < |s| && s[f] == ',' then f + 1 else f)
  }

  function ReferenceAts(s: string, name: string): nat -> Option<nat> {
    (p: nat) => ReferenceAt(s, p, name)
  }

  /** `s.replace(new RegExp(`,?\\s*${name}\\s*,?`, 'g'), '')`: every occurrence of the name, with
      no word boundary, removed with the commas and spaces around it. */
  function RemoveName(s: string, name: string): (r: string)
    requires name != ""
    ensures |r| <= |s|
    ensures (forall p: nat :: p <= |s| ==> ReferenceAt(s, p, name).None?) ==> r == s
  {
    var at := ReferenceAts(s, name);
    assert forall p: nat :: at(p) == ReferenceAt(s, p, name);
    ReplaceAllShrinks(s, 0, at, Constant(""));
    ReplaceAll(s, 0, at, Constant(""))
  }

  // /,\s*,/g  /{\s*,/g  /,\s*}/g

  /** `a\s*b` at p. */
  function PairAt(s: string, p: nat, a: char, b: char): (e: Option<nat>)
    ensures e.Some? ==> p + 2 <= e.value <= |s| && s[p] == a && s[e.value - 1] == b
  {
    if p < |s| && s[p] == a then
      var q := p + 1 + SpaceRun(s, p + 1);
      if q < |s| && s[q] == b then Some(q + 1) else None
    else None
  }

  function PairAts(s: string, a: char, b: char): nat -> Option<nat> {
    (p: nat) => PairAt(s, p, a, b)
  }

  /** `s.replace(/a\s*b/g, c)` */
  function ReplacePairs(s: string, a: char, b: char, c: char): (r: string)
    ensures |r| <= |s|
    ensures (forall p: nat :: p <= |s| ==> PairAt(s, p, a, b).None?) ==> r == s
  {
    var at := PairAts(s, a, b);
    assert forall p: nat :: at(p) == PairAt(s, p, a, b);
    ReplaceAllShrinks(s, 0, at, Constant([c]));
    ReplaceAll(s, 0, at, Constant([c]))
  }

  /** The three clean-up passes after a deletion, each a single left-to-right pass. */
  function CleanCommas(s: string): (r: string)
    ensures |r| <= |s|
  {
    ReplacePairs(ReplacePairs(ReplacePairs(s, ',', ',', ','), '{', ',', '{'), ',', '}', '}')
  }

  /** The text deleteComponentStyle writes: declarations removed, then the name, then the
      stray commas. It is never longer than the text it starts from. */
  function DeleteText(s: string, name: string): (r: string)
    requires name != ""
    ensures |r| <= |s|
  {
    CleanCommas(RemoveName(StripDeclarations(s, name), name))
  }

  /** The comma clean-up is a single pass: of three commas in a row only the first two are
      merged, so running it again would change the text again. */
  lemma CleanCommasSinglePass()
    ensures CleanCommas(",,,") == ",,"
    ensures CleanCommas(",,") == ","
  {
    PairsOfThreeCommas();
    PairsOfTwoCommas();
    assert ReplacePairs(",", '{', ',', '{') == ",";
    assert ReplacePairs(",", ',', '}', '}') == ",";
  }

  /** In `,,,` the scan replaces the first pair and resumes after it, at the last comma. */
  lemma PairsOfThreeCommas()
    ensures ReplacePairs(",,,", ',', ',', ',') == ",,"
  {
    var at := PairAts(",,,", ',', ',');
    assert at(0) == Some(2);
    assert FirstFrom(0, 3, Succeeds(at)) == Some(0);
    assert at(2).None? && at(3).None?;
    assert FirstFrom(2, 3, Succeeds(at)) == None;
  }

  lemma PairsOfTwoCommas()
    ensures ReplacePairs(",,", ',', ',', ',') == ","
    ensures ReplacePairs(",,", '{', ',', '{') == ",,"
    ensures ReplacePairs(",,", ',', '}', '}') == ",,"
  {
    var at := PairAts(",,", ',', ',');
    assert at(0) == Some(2);
    assert FirstFrom(0, 2, Succeeds(at)) == Some(0);
    assert FirstFrom(2, 2, Succeeds(at)) == None;
  }

  /** The name is removed wherever it occurs, with no word boundary: deleting `BUTTON` also cuts
      it out of `BUTTON_GROUP`. */
  lemma RemoveNameIgnoresWordBoundaries()
    ensures RemoveName("BUTTON_GROUP", "BUTTON") == "_GROUP"
  {
    var s, name := "BUTTON_GROUP", "BUTTON";
    var at := ReferenceAts(s, name);
    ReferencesInExample();
    assert at(0) == Some(6);
    assert FirstFrom(0, 12, Succeeds(at)) == Some(0);
    assert forall p: nat :: 6 <= p <= 12 ==> at(p).None?;
    assert FirstFrom(6, 12, Succeeds(at)) == None;
  }

  lemma ReferencesInExample()
    ensures ReferenceAt("BUTTON_GROUP", 0, "BUTTON") == Some(6)
    ensures forall p: nat :: 6 <= p <= 12 ==> ReferenceAt("BUTTON_GROUP", p, "BUTTON").None?
  {
    ReferenceAtStart();
    forall p: nat | 6 <= p <= 12 ensures ReferenceAt("BUTTON_GROUP", p, "BUTTON").None? {
      NoReferenceInTail(p);
    }
  }

  lemma ReferenceAtStart()
    ensures ReferenceAt("BUTTON_GROUP", 0, "BUTTON") == Some(6)
  {
    var s, name := "BUTTON_GROUP", "BUTTON";
    assert NameEndFrom(s, 0, name) == Some(6) by {
      assert LitAt(s, 0, name, false);
      assert SpaceRun(s, 0) == 0;
    }
    assert SpaceRun(s, 6) == 0 by {
      assert !IsSpace(s[6]);
    }
    assert s[0] != ',' && s[6] != ',';
  }

  lemma NoReferenceInTail(p: nat)
    requires 6 <= p <= 12
    ensures ReferenceAt("BUTTON_GROUP", p, "BUTTON").None?
  {
    var s, name := "BUTTON_GROUP", "BUTTON";
    assert p < |s| ==> s[p] != ',' && !IsSpace(s[p]);
    assert SpaceRun(s, p) == 0;
    if p == 6 {
      assert s[6] != name[0];
    } else {
      assert p + |name| > |s|;
    }
    assert !LitAt(s, p, name, false);
    assert NameEndFrom(s, p, name).None?;
  }

  // ------------------------------------------------------------------ aggregate export
  // export\s+const\s+\w+\s*=\s*{([^}]*)};     no flags

  /** The aggregate regex at p: a declaration of any word whose value has no nested closing
      brace, closed by `};`. Every quantifier of this regex is taken whole. */
  function AggregateAt(s: string, p: nat): (b: Option<Block>)
    ensures b.Some? ==> b.value.start == p < b.value.open < b.value.close && b.value.close + 1 < |s|
    ensures b.Some? ==> LitAt(s, p, "export", false)
  {
    match ConstHeader(s, p, false)
    case None => None
    case Some(w) => AggregateTail(s, p, w.hi)
  }

  /** `\w+\s*=\s*{([^}]*)};` from x, ending the declaration that starts at p. */
  function AggregateTail(s: string, p: nat, x: nat): (b: Option<Block>)
    requires p < x
    ensures b.Some? ==> b.value.start == p < b.value.open < b.value.close && b.value.close + 1 < |s|
    ensures b.Some? ==> s[b.value.open] == '{' && s[b.value.close] == '}' && s[b.value.close + 1] == ';'
    ensures b.Some? ==> forall j :: b.value.open < j < b.value.close ==> s[j] != '}'
  {
    var n := Run(s, x, IsWordChar);
    if n == 0 then None
    else match AssignOpen(s, x + n, '{')
      case None => None
      case Some(o) =>
        var c := o + 1 + RunOutside(s, o + 1, "}");
        if c + 1 < |s| && s[c + 1] == ';' then Some(Block(p, o, c)) else None
  }

  function AggregateAts(s: string): nat -> Option<Block> {
    (p: nat) => AggregateAt(s, p)
  }

  /** `themeContent.match(mainExportRegex)`: the first flat declaration of the file, whichever
      name it declares. */
  function FindAggregate(s: string): (b: Option<Block>)
    ensures b.Some? ==> AggregateAt(s, b.value.start) == b
    ensures b.Some? ==> forall p: nat :: p < b.value.start ==> AggregateAt(s, p).None?
    ensures b.None? <==> forall p: nat :: p <= |s| ==> AggregateAt(s, p).None?
  {
    assert forall p: nat :: AggregateAts(s)(p) == AggregateAt(s, p);
    match Leftmost(|s|, AggregateAts(s))
    case None => None
    case Some(p) => AggregateAt(s, p)
  }

  /** `newExportContent`: the old entries trimmed and the new name after a comma, or the name
      alone when there were none. */
  function AggregateEntries(body: string, name: string): string {
    if Trim(body) != "" then Trim(body) + ",\n  " + name else "\n  " + name
  }

  /** The template that replaces the matched declaration. */
  function AggregateTemplate(agg: string, entries: string): string {
    "export const " + agg + " = {" + entries + "\n};"
  }

  /** The aggregate declaration appended when the file has none. */
  function AggregateDeclaration(agg: string, name: string): string {
    "\nexport const " + agg + " = {\n  " + name + "\n};\n"
  }

  /** The replacement of the matched declaration `b` by the aggregate template. */
  function RewriteAggregate(s: string, b: Block, agg: string, name: string): string
    requires b.start <= b.open < b.close && b.close + 1 < |s|
  {
    ReplaceSpan(s, b.start, b.close + 2, AggregateTemplate(agg, AggregateEntries(Body(s, b), name)), [Body(s, b)])
  }

  /** The entries of the matched declaration: the text between its braces (the regex's group). */
  function Body(s: string, b: Block): string
    requires b.open < b.close <= |s|
  {
    s[b.open + 1..b.close]
  }

  /** The step of createComponentStyle that registers `name` with the aggregate export `agg`. */
  function AddToAggregate(s: string, agg: string, name: string): (r: string)
    ensures FindAggregate(s).None? ==> r == s + AggregateDeclaration(agg, name)
    ensures FindAggregate(s).Some? ==> r == RewriteAggregate(s, FindAggregate(s).value, agg, name)
  {
    match FindAggregate(s)
    case None => s + AggregateDeclaration(agg, name)
    case Some(b) => RewriteAggregate(s, b, agg, name)
  }

  /** `r` is `s` with the block `b` (up to and including its `};`) replaced by something: the text
      before the block and the text after it are both kept. */
  predicate KeepsOutside(s: string, b: Block, r: string) {
    b.start <= b.close + 2 <= |s| && |s| - (b.close + 2) + b.start <= |r|
    && r[..b.start] == s[..b.start] && r[|r| - (|s| - (b.close + 2))..] == s[b.close + 2..]
  }

  /** Registering a name never touches the text outside the declaration it rewrites, whatever
      `$` patterns the template holds. */
  lemma AddToAggregateKeepsOutside(s: string, agg: string, name: string)
    ensures FindAggregate(s).Some? ==> KeepsOutside(s, FindAggregate(s).value, AddToAggregate(s, agg, name))
  {
    match FindAggregate(s)
    case None =>
    case Some(b) => RewriteAggregateKeepsOutside(s, b, agg, name);
  }

  lemma RewriteAggregateKeepsOutside(s: string, b: Block, agg: string, name: string)
    requires b.start <= b.open < b.close && b.close + 1 < |s|
    ensures KeepsOutside(s, b, RewriteAggregate(s, b, agg, name))
  {
    var body := Body(s, b);
    ReplaceSpanKeepsOutside(s, b.start, b.close + 2, AggregateTemplate(agg, AggregateEntries(body, name)), [body]);
  }

  /** Without `$` in play, the first flat declaration is replaced by the aggregate under the
      name `agg`, holding the old entries and `name`; the text around it is kept. */
  lemma RewriteAggregateInPlace(s: string, b: Block, agg: string, name: string)
    requires b.start <= b.open < b.close && b.close + 1 < |s|
    requires !Contains(Body(s, b), '$') && !Contains(agg, '$') && !Contains(name, '$')
    ensures RewriteAggregate(s, b, agg, name)
      == s[..b.start] + AggregateTemplate(agg, AggregateEntries(Body(s, b), name)) + s[b.close + 2..]
  {
    var t := AggregateTemplate(agg, AggregateEntries(Body(s, b), name));
    AggregateLiteral(Body(s, b), agg, name);
    ReplaceSpanLiteral(s, b.start, b.close + 2, t, [Body(s, b)]);
  }

  /** The aggregate template holds a `$` only if the old entries, the aggregate's name or the
      new name does. */
  lemma AggregateLiteral(body: string, agg: string, name: string)
    requires !Contains(body, '$') && !Contains(agg, '$') && !Contains(name, '$')
    ensures !Contains(AggregateTemplate(agg, AggregateEntries(body, name)), '$')
  {
    EntriesLiteral(body, name);
    TemplateLiteral(agg, AggregateEntries(body, name));
  }

  lemma EntriesLiteral(body: string, name: string)
    requires !Contains(body, '$') && !Contains(name, '$')
    ensures !Contains(AggregateEntries(body, name), '$')
  {
    var trimmed := Trim(body);
    TrimKeepsOut(body, '$');
    if trimmed != "" {
      var sep := ",\n  ";
      ContainsIndex(sep, '$');
      ContainsAppend(trimmed, sep, '$');
      ContainsAppend(trimmed + sep, name, '$');
      assert AggregateEntries(body, name) == trimmed + sep + name;
    } else {
      var lead := "\n  ";
      ContainsIndex(lead, '$');
      ContainsAppend(lead, name, '$');
      assert AggregateEntries(body, name) == lead + name;
    }
  }

  lemma TemplateLiteral(agg: string, entries: string)
    requires !Contains(agg, '$') && !Contains(entries, '$')
    ensures !Contains(AggregateTemplate(agg, entries), '$')
  {
    var head, eq, tail := "export const ", " = {", "\n};";
    ContainsIndex(head, '$');
    ContainsIndex(eq, '$');
    ContainsIndex(tail, '$');
    ContainsAppend(head, agg, '$');
    ContainsAppend(head + agg, eq, '$');
    ContainsAppend(head + agg + eq, entries, '$');
    ContainsAppend(head + agg + eq + entries, tail, '$');
  }

  // ------------------------------------------------------------------ list
  // export\s+const\s+([A-Z_][A-Z0-9_]*)\s*=     flags gi

  /** A name the list regex accepts: a letter or an underscore, then letters, digits and
      underscores (in either case, under the `i` flag). */
  predicate IsIdentifier(n: string) {
    |n| > 0 && (IsLetter(n[0]) || n[0] == '_') && forall i :: 0 <= i < |n| ==> IsWordChar(n[i])
  }

  /** A match of the list regex: the declared name and the end of the match. */
  datatype Listed = Listed(name: string, end: nat)

  function ListedAt(s: string, p: nat): (d: Option<Listed>)
    ensures d.Some? ==> p < d.value.end <= |s| && IsIdentifier(d.value.name)
  {
    match ConstHeader(s, p, true)
    case None => None
    case Some(w) => ListedTail(s, w.hi)
  }

  /** `([A-Z_][A-Z0-9_]*)\s*=` at q (with the `i` flag the classes take both cases). */
  function ListedTail(s: string, q: nat): (d: Option<Listed>)
    ensures d.Some? ==> q < d.value.end <= |s| && IsIdentifier(d.value.name)
  {
    if !(q < |s| && (IsLetter(s[q]) || s[q] == '_')) then None
    else
      var n := Run(s, q, IsWordChar);
      var f := q + n + SpaceRun(s, q + n);
      if f < |s| && s[f] == '=' then
        var name := s[q..q + n];
        assert forall i :: 0 <= i < n ==> name[i] == s[q + i];
        Some(Listed(name, f + 1))
      else None
  }

  function ListedAts(s: string): nat -> Option<Listed> {
    (p: nat) => ListedAt(s, p)
  }

  /** `componentRegex.exec(themeContent)` with `lastIndex == from`: the next match. */
  function NextListed(s: string, from: nat): (d: Option<Listed>)
    ensures d.Some? ==> from < d.value.end <= |s| && IsIdentifier(d.value.name)
    ensures d.None? ==> forall p: nat :: from <= p <= |s| ==> ListedAt(s, p).None?
    ensures d.Some? ==> exists p: nat :: from <= p <= |s| && ListedAt(s, p) == d && forall q: nat :: from <= q < p ==> ListedAt(s, q).None?
  {
    var f := Succeeds(ListedAts(s));
    assert forall p: nat :: f(p) == ListedAt(s, p).Some?;
    match FirstFrom(from, |s|, f)
    case None => None
    case Some(p) => ListedAt(s, p)
  }

  /** The names the `exec` loop meets from `from` on, in the order of the text. */
  function Declared(s: string, from: nat): (names: seq<string>)
    decreases |s| - from
    ensures forall n :: n in names ==> IsIdentifier(n)
  {
    match NextListed(s, from)
    case None => []
    case Some(d) => [d.name] + Declared(s, d.end)
  }

  /** The names without the aggregate's own (`!== theme.theme.name`; an absent name excludes
      nothing). */
  function Without(names: seq<string>, agg: Option<string>): (r: seq<string>)
    ensures |r| <= |names|
    ensures forall n :: n in r <==> n in names && Some(n) != agg
    ensures agg.None? ==> r == names
  {
    if names == [] then []
    else (if Some(names[0]) != agg then [names[0]] else []) + Without(names[1..], agg)
  }
}
