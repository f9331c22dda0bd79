/** The regexes of the foundations and media-query tools (src/tools/variables.ts), each as a
    scanner over the module's text. Category, variable and module names are matched as literal
    text. */
module VariableScan {
  import opened Text
  import opened Search
  import opened Declarations
  import opened ComponentScan

  // ------------------------------------------------------------------ category block
  // CAT\s*:\s*{([^}]*)}     flag s

  /** `\s*:\s*{` from x: the position of the brace (both runs are taken whole, since neither `:`
      nor `{` is a space). */
  function ColonOpen(s: string, x: nat): (o: Option<nat>)
    ensures o.Some? ==> x < o.value < |s| && s[o.value] == '{'
  {
    var a := x + SpaceRun(s, x);
    if a < |s| && s[a] == ':' then
      var o := a + 1 + SpaceRun(s, a + 1);
      if o < |s| && s[o] == '{' then Some(o) else None
    else None
  }

  /** The category regex at p: `[^}]*` runs to the first closing brace, which must be there. */
  function CategoryAt(s: string, p: nat, category: string): (b: Option<Block>)
    ensures b.Some? ==> b.value.start == p && LitAt(s, p, category, false)
    ensures b.Some? ==> p + |category| < b.value.open < b.value.close < |s|
    ensures b.Some? ==> s[b.value.open] == '{' && s[b.value.close] == '}'
    ensures b.Some? ==> forall j :: b.value.open < j < b.value.close ==> s[j] != '}'
  {
    if !LitAt(s, p, category, false) then None
    else match ColonOpen(s, p + |category|)
      case None => None
      case Some(o) =>
        var c := o + 1 + RunOutside(s, o + 1, "}");
        if c < |s| then Some(Block(p, o, c)) else None
  }

  function CategoryAts(s: string, category: string): nat -> Option<Block> {
    (p: nat) => CategoryAt(s, p, category)
  }

  /** `foundationsContent.match(categoryRegex)`: the leftmost category block. */
  function FindCategory(s: string, category: string): (b: Option<Block>)
    ensures b.Some? ==> CategoryAt(s, b.value.start, category) == b
    ensures b.Some? ==> forall p: nat :: p < b.value.start ==> CategoryAt(s, p, category).None?
    ensures b.None? <==> forall p: nat :: p <= |s| ==> CategoryAt(s, p, category).None?
  {
    assert forall p: nat :: CategoryAts(s, category)(p) == CategoryAt(s, p, category);
    match Leftmost(|s|, CategoryAts(s, category))
    case None => None
    case Some(p) => CategoryAt(s, p, category)
  }

  // NAME\s*:     no flags, tested on the category's body

  /** `NAME\s*:` at p. */
  predicate KeyAt(s: string, p: nat, name: string) {
    LitAt(s, p, name, false) && var a := p + |name| + SpaceRun(s, p + |name|); a < |s| && s[a] == ':'
  }

  /** `variableRegex.test(body)`: the name followed by a colon occurs somewhere. */
  function HasKey(body: string, name: string): (r: bool)
    ensures r <==> exists p: nat :: p <= |body| && KeyAt(body, p, name)
  {
    var keyed := (p: nat) => KeyAt(body, p, name);
    assert forall p: nat :: keyed(p) == KeyAt(body, p, name);
    FirstFrom(0, |body|, keyed).Some?
  }

  /** The entries of a block after one more: the old entries trimmed and the new one after a
      comma, or the new one alone when there were none, each on a line indented by four. */
  function CategoryEntries(body: string, entry: string): (r: string)
    ensures Trim(body) != "" ==> r == Trim(body) + ",\n    " + entry
    ensures Trim(body) == "" ==> r == "\n    " + entry
  {
    AggregateEntries(body, "  " + entry)
  }

  /** `name: <json>` */
  function Entry(name: string, json: string): string {
    name + ": " + json
  }

  /** `s.replace(categoryRegex, `${category}: {${updated}\n  }`)` for the matched block `b`. */
  function AddToCategory(s: string, b: Block, category: string, entry: string): string
    requires b.open < b.close < |s| && b.start <= b.close
  {
    ReplaceSpan(s, b.start, b.close + 1, CategoryBlock(category, Body(s, b), entry), [Body(s, b)])
  }

  /** `${category}: {${entries}\n  }`: the category block with the entry added to its body. */
  function CategoryBlock(category: string, body: string, entry: string): string {
    category + ": {" + CategoryEntries(body, entry) + "\n  }"
  }

  /** A replacement without `$` keeps the text before the block and after its closing brace. */
  lemma AddToCategoryInPlace(s: string, b: Block, category: string, entry: string)
    requires b.open < b.close < |s| && b.start <= b.close
    requires !Contains(CategoryBlock(category, Body(s, b), entry), '$')
    ensures AddToCategory(s, b, category, entry) == s[..b.start] + CategoryBlock(category, Body(s, b), entry) + s[b.close + 1..]
  {
    var t, end := CategoryBlock(category, Body(s, b), entry), b.close + 1;
    assert b.start <= end <= |s|;
    ReplaceSpanLiteral(s, b.start, end, t, [Body(s, b)]);
  }

  // ------------------------------------------------------------------ bracketed declaration
  // (export\s+const\s+F\s*=\s*{)([^}]*)(};?)       flag s
  // (export\s+const\s+M\s*=\s*\[)([\s\S]*?)(\];?)  flag s

  /** A match of the two regexes above: it starts at `start`, the opening bracket is at `open`,
      the first closing one after it at `close`, and the match ends at `end`. */
  datatype Bracketed = Bracketed(start: nat, open: nat, close: nat, end: nat)

  /** The first `close` after position o. */
  function FirstClose(s: string, o: nat, close: char): (c: Option<nat>)
    ensures c.Some? ==> o < c.value < |s| && s[c.value] == close
    ensures c.Some? ==> forall j :: o < j < c.value ==> s[j] != close
    ensures c.None? ==> forall j :: o < j < |s| ==> s[j] != close
  {
    var closes := (j: nat) => j < |s| && s[j] == close;
    assert forall j: nat :: closes(j) == (j < |s| && s[j] == close);
    FirstFrom(o + 1, |s|, closes)
  }

  /** `\s*=\s*` and the bracketed part from e. Both `[^}]*}` and the lazy `[\s\S]*?\]` stop at the
      first closing bracket; the optional `;` after it is taken when present. */
  function BracketRest(s: string, e: nat, open: char, close: char): (r: Option<(nat, nat, nat)>)
    ensures r.Some? ==> e < r.value.0 < r.value.1 < r.value.2 <= |s|
    ensures r.Some? ==> s[r.value.0] == open && s[r.value.1] == close
    ensures r.Some? ==> forall j :: r.value.0 < j < r.value.1 ==> s[j] != close
    ensures r.Some? ==> r.value.2 == if r.value.1 + 1 < |s| && s[r.value.1 + 1] == ';' then r.value.1 + 2 else r.value.1 + 1
  {
    match AssignOpen(s, e, open)
    case None => None
    case Some(o) =>
      match FirstClose(s, o, close)
      case None => None
      case Some(c) => Some((o, c, if c + 1 < |s| && s[c + 1] == ';' then c + 2 else c + 1))
  }

  function BracketRests(s: string, open: char, close: char): nat -> Option<(nat, nat, nat)> {
    (e: nat) => BracketRest(s, e, open, close)
  }

  /** The declaration regex for `name` at p (no `i` flag). */
  function BracketedAt(s: string, p: nat, name: string, open: char, close: char): (m: Option<Bracketed>)
    ensures m.Some? ==> m.value.start == p < m.value.open < m.value.close < m.value.end <= |s|
    ensures m.Some? ==> LitAt(s, p, "export", false) && s[m.value.open] == open && s[m.value.close] == close
    ensures m.Some? ==> forall j :: m.value.open < j < m.value.close ==> s[j] != close
  {
    assert forall e: nat :: BracketRests(s, open, close)(e) == BracketRest(s, e, open, close);
    match AfterName(s, p, name, false, BracketRests(s, open, close))
    case None => None
    case Some(r) => Some(Bracketed(p, r.0, r.1, r.2))
  }

  function BracketedAts(s: string, name: string, open: char, close: char): nat -> Option<Bracketed> {
    (p: nat) => BracketedAt(s, p, name, open, close)
  }

  /** The leftmost match of the declaration regex. */
  function FindBracketed(s: string, name: string, open: char, close: char): (m: Option<Bracketed>)
    ensures m.Some? ==> BracketedAt(s, m.value.start, name, open, close) == m
    ensures m.Some? ==> forall p: nat :: p < m.value.start ==> BracketedAt(s, p, name, open, close).None?
    ensures m.None? <==> forall p: nat :: p <= |s| ==> BracketedAt(s, p, name, open, close).None?
  {
    assert forall p: nat :: BracketedAts(s, name, open, close)(p) == BracketedAt(s, p, name, open, close);
    match Leftmost(|s|, BracketedAts(s, name, open, close))
    case None => None
    case Some(p) => BracketedAt(s, p, name, open, close)
  }

  /** The text between the brackets (the second group). */
  function Inner(s: string, m: Bracketed): string
    requires m.open < m.close <= |s|
  {
    s[m.open + 1..m.close]
  }

  /** The three groups: the header with its bracket, the contents, and the closing bracket. */
  function Groups(s: string, m: Bracketed): seq<string>
    requires m.start <= m.open < m.close < m.end <= |s|
  {
    [s[m.start..m.open + 1], Inner(s, m), s[m.close..m.end]]
  }

  /** `s.replace(regex, `$1${updated}\n${close};`)`: the contents after the header replaced by
      `updated` and the declaration closed again. */
  function AppendInside(s: string, m: Bracketed, updated: string, close: char): string
    requires m.start <= m.open < m.close < m.end <= |s|
  {
    ReplaceSpan(s, m.start, m.end, "$1" + updated + "\n" + [close] + ";", Groups(s, m))
  }

  /** Without `$` in `updated`, the header and everything after the match are kept. */
  lemma AppendInsideInPlace(s: string, m: Bracketed, updated: string, close: char)
    requires m.start <= m.open < m.close < m.end <= |s|
    requires !Contains(updated, '$') && close != '$'
    ensures AppendInside(s, m, updated, close) == s[..m.open + 1] + updated + "\n" + [close] + ";" + s[m.end..]
  {
    var x := updated + "\n" + [close] + ";";
    ContainsIndex("\n" + [close] + ";", '$');
    ContainsAppend(updated, "\n" + [close] + ";", '$');
    assert x == updated + ("\n" + [close] + ";");
    assert "$1" + updated + "\n" + [close] + ";" == "$1" + x;
    SubstituteFirstGroup(x, s[m.start..m.end], s[..m.start], s[m.end..], Groups(s, m));
    assert s[..m.start] + s[m.start..m.open + 1] == s[..m.open + 1];
  }

  // ------------------------------------------------------------------ variable value
  // (CAT\s*:\s*{[^}]*NAME\s*:\s*)([^,\n}]+)     flag s

  /** A match of the update regex: it starts at `start`; the value (group 2) is s[value..end]. */
  datatype ValueSpan = ValueSpan(start: nat, value: nat, end: nat)

  const ValueStops: seq<char> := [',', '\n', '}']

  /** `NAME\s*:\s*([^,\n}]+)` at k: the value's start and end. The `\s*` after the colon gives back
      spaces until the value can start (a space other than a newline can start it); the value
      then runs to the first comma, newline or closing brace. */
  function ValueAfterKey(s: string, k: nat, name: string): (r: Option<(nat, nat)>)
    ensures r.Some? ==> k + |name| < r.value.0 < r.value.1 <= |s| && LitAt(s, k, name, false)
    ensures r.Some? ==> forall j :: r.value.0 <= j < r.value.1 ==> s[j] !in ValueStops
    ensures r.Some? ==> r.value.1 == |s| || s[r.value.1] in ValueStops
  {
    if !LitAt(s, k, name, false) then None
    else
      var a := k + |name| + SpaceRun(s, k + |name|);
      if !(a < |s| && s[a] == ':') then None
      else
        var starts := (q: nat) => q < |s| && s[q] !in ValueStops;
        assert forall q: nat :: starts(q) == (q < |s| && s[q] !in ValueStops);
        match LastFrom(a + 1, a + 1 + SpaceRun(s, a + 1), starts)
        case None => None
        case Some(v) => Some((v, v + RunOutside(s, v, ValueStops)))
  }

  function ValuesAfterKey(s: string, name: string): nat -> bool {
    (k: nat) => ValueAfterKey(s, k, name).Some?
  }

  /** The update regex at p: the greedy `[^}]*` after the brace gives back characters until the
      name, a colon and a value follow, so the last such name inside the block wins. */
  function ValueAt(s: string, p: nat, category: string, name: string): (m: Option<ValueSpan>)
    ensures m.Some? ==> m.value.start == p < m.value.value < m.value.end <= |s| && LitAt(s, p, category, false)
    ensures m.Some? ==> forall j :: m.value.value <= j < m.value.end ==> s[j] !in ValueStops
    ensures m.Some? ==> m.value.end == |s| || s[m.value.end] in ValueStops
  {
    if !LitAt(s, p, category, false) then None
    else match ColonOpen(s, p + |category|)
      case None => None
      case Some(o) =>
        assert forall k: nat :: ValuesAfterKey(s, name)(k) == ValueAfterKey(s, k, name).Some?;
        match LastFrom(o + 1, o + 1 + RunOutside(s, o + 1, "}"), ValuesAfterKey(s, name))
        case None => None
        case Some(k) =>
          var r := ValueAfterKey(s, k, name).value;
          Some(ValueSpan(p, r.0, r.1))
  }

  function ValueAts(s: string, category: string, name: string): nat -> Option<ValueSpan> {
    (p: nat) => ValueAt(s, p, category, name)
  }

  /** The leftmost match of the update regex (what both `test` and `replace` find). */
  function FindValue(s: string, category: string, name: string): (m: Option<ValueSpan>)
    ensures m.Some? ==> ValueAt(s, m.value.start, category, name) == m
    ensures m.Some? ==> forall p: nat :: p < m.value.start ==> ValueAt(s, p, category, name).None?
    ensures m.None? <==> forall p: nat :: p <= |s| ==> ValueAt(s, p, category, name).None?
  {
    assert forall p: nat :: ValueAts(s, category, name)(p) == ValueAt(s, p, category, name);
    match Leftmost(|s|, ValueAts(s, category, name))
    case None => None
    case Some(p) => ValueAt(s, p, category, name)
  }

  /** `s.replace(variableRegex, `$1${json}`)` for the match m. */
  function ReplaceValue(s: string, m: ValueSpan, json: string): string
    requires m.start <= m.value <= m.end <= |s|
  {
    ReplaceSpan(s, m.start, m.end, "$1" + json, [s[m.start..m.value], s[m.value..m.end]])
  }

  /** With no `$` in the new value's text, only the old value's text is replaced. */
  lemma ReplaceValueInPlace(s: string, m: ValueSpan, json: string)
    requires m.start <= m.value <= m.end <= |s|
    requires !Contains(json, '$')
    ensures ReplaceValue(s, m, json) == s[..m.value] + json + s[m.end..]
  {
    SubstituteFirstGroup(json, s[m.start..m.end], s[..m.start], s[m.end..], [s[m.start..m.value], s[m.value..m.end]]);
    assert s[..m.start] + s[m.start..m.value] == s[..m.value];
  }

  // ------------------------------------------------------------------ media-query names
  // name:\s*['"]([^'"]+)['"]     flag g

  const Quotes: seq<char> := ['\'', '"']

  /** The name regex at p: the name (group 1) and the end of the match. Every quantifier is
      taken whole: a quote follows the run of non-quotes, and no quote is a space. */
  function NamedAt(s: string, p: nat): (d: Option<Listed>)
    ensures d.Some? ==> p < d.value.end <= |s| && LitAt(s, p, "name:", false)
    ensures d.Some? ==> d.value.name != [] && forall i :: 0 <= i < |d.value.name| ==> d.value.name[i] !in Quotes
  {
    if !LitAt(s, p, "name:", false) then None
    else
      var q := p + 5 + SpaceRun(s, p + 5);
      if q < |s| && s[q] in Quotes then
        var n := RunOutside(s, q + 1, Quotes);
        if n > 0 && q + 1 + n < |s| then
          var name := s[q + 1..q + 1 + n];
          assert forall i :: 0 <= i < n ==> name[i] == s[q + 1 + i];
          Some(Listed(name, q + 2 + n))
        else None
      else None
  }

  function NamedAts(s: string): nat -> Option<Listed> {
    (p: nat) => NamedAt(s, p)
  }

  /** `nameRegex.exec(content)` with `lastIndex == from`: the next match. */
  function NextNamed(s: string, from: nat): (d: Option<Listed>)
    ensures d.Some? ==> from < d.value.end <= |s| && d.value.name != []
    ensures d.None? ==> forall p: nat :: from <= p <= |s| ==> NamedAt(s, p).None?
    ensures d.Some? ==> exists p: nat :: from <= p <= |s| && NamedAt(s, p) == d && forall q: nat :: from <= q < p ==> NamedAt(s, q).None?
  {
    var f := Succeeds(NamedAts(s));
    assert forall p: nat :: f(p) == NamedAt(s, p).Some?;
    match FirstFrom(from, |s|, f)
    case None => None
    case Some(p) => NamedAt(s, p)
  }

  /** The names the `exec` loop collects from `from` on, in the order of the text. */
  function Named(s: string, from: nat): (names: seq<string>)
    decreases |s| - from
    ensures forall n :: n in names ==> n != []
  {
    match NextNamed(s, from)
    case None => []
    case Some(d) => [d.name] + Named(s, d.end)
  }

  // ------------------------------------------------------------------ includes

  /** `s.includes(t)` */
  function Includes(s: string, t: string): (r: bool)
    ensures r <==> exists p: nat :: p <= |s| && LitAt(s, p, t, false)
  {
    var at := (p: nat) => LitAt(s, p, t, false);
    assert forall p: nat :: at(p) == LitAt(s, p, t, false);
    FirstFrom(0, |s|, at).Some?
  }
}
