/** What the foundations and media-query tools do to the modules they write themselves: a
    variable added to an empty foundations module is found again by the duplicate check and by
    updateCSSVariable, while a media query added to an empty media-query module is neither found by
    addMediaQuery's duplicate check nor listed by listMediaQueries, because `JSON.stringify`
    writes the key as `"name":` and both of those look for `name:`. */
module VariableLaws {
  import opened Text
  import opened Search
  import opened Json
  import opened Types
  import opened Validators
  import opened Store
  import opened ConfigTools
  import opened ComponentScan
  import opened VariableScan
  import opened Variables

  // ---------------------------------------------------------------- colons in written JSON

  predicate NoColon(t: string) {
    forall i :: 0 <= i < |t| ==> t[i] != ':'
  }

  /** Every `:` of t comes right after a `"` (for a `:` at the very start: when `quoted`, that is
      when the text before t ends with a `"`). */
  predicate QuotedColons(quoted: bool, t: string) {
    forall i :: 0 <= i < |t| ==> ColonQuoted(quoted, t, i)
  }

  /** The character at position i of t is not a `:`, or the one before it is a `"` (`quoted`
      stands for the one before t). */
  predicate ColonQuoted(quoted: bool, t: string, i: nat)
    requires i < |t|
  {
    t[i] == ':' ==> if i == 0 then quoted else t[i - 1] == '"'
  }

  /** Whether the text before what follows t ends with a `"`. */
  function EndsQuoted(quoted: bool, t: string): bool {
    if t == [] then quoted else t[|t| - 1] == '"'
  }

  lemma NoColonQuoted(quoted: bool, t: string)
    requires NoColon(t)
    ensures QuotedColons(quoted, t)
  {
    forall i | 0 <= i < |t| ensures ColonQuoted(quoted, t, i) {
      assert t[i] != ':';
    }
  }

  lemma QuotedWeaken(quoted: bool, t: string)
    requires QuotedColons(false, t)
    ensures QuotedColons(quoted, t)
  {
    forall i | 0 <= i < |t| ensures ColonQuoted(quoted, t, i) {
      assert ColonQuoted(false, t, i);
    }
  }

  lemma QuotedConcat(quoted: bool, a: string, b: string)
    requires QuotedColons(quoted, a) && QuotedColons(EndsQuoted(quoted, a), b)
    ensures QuotedColons(quoted, a + b)
  {
    var t := a + b;
    forall i | 0 <= i < |t| ensures ColonQuoted(quoted, t, i) {
      if i < |a| {
        assert ColonQuoted(quoted, a, i);
        if i > 0 { assert t[i - 1] == a[i - 1]; }
      } else {
        var j := i - |a|;
        assert ColonQuoted(EndsQuoted(quoted, a), b, j);
        if j > 0 { assert t[i - 1] == b[j - 1]; }
        else if |a| > 0 { assert t[i - 1] == a[|a| - 1]; }
      }
    }
  }

  lemma NoColonConcat(a: string, b: string)
    requires NoColon(a) && NoColon(b)
    ensures NoColon(a + b)
  {
    forall i | 0 <= i < |a + b| ensures (a + b)[i] != ':' {
      if i < |a| { assert (a + b)[i] == a[i]; } else { assert (a + b)[i] == b[i - |a|]; }
    }
  }

  lemma EscapeCharNoColon(c: char)
    requires c != ':'
    ensures NoColon(EscapeChar(c))
  {
  }

  lemma {:induction false} EscapeNoColon(s: string)
    requires NoColon(s)
    ensures NoColon(Escape(s))
    decreases |s|
  {
    if s != [] {
      EscapeCharNoColon(s[0]);
      EscapeNoColon(s[1..]);
      NoColonConcat(EscapeChar(s[0]), Escape(s[1..]));
    }
  }

  lemma QuoteNoColon(s: string)
    requires NoColon(s)
    ensures NoColon(Quote(s)) && EndsQuoted(false, Quote(s))
  {
    EscapeNoColon(s);
    NoColonConcat("\"", Escape(s));
    NoColonConcat("\"" + Escape(s), "\"");
  }

  lemma IntStringNoColon(n: int)
    ensures NoColon(IntString(n))
  {
    var d := DigitString(if n < 0 then -n else n);
    assert NoColon(d);
    if n < 0 { NoColonConcat("-", d); }
  }

  /** A value whose keys and strings hold no `:`. */
  predicate ColonFreeValue(v: Value)
    decreases v
  {
    match v
    case Str(s) => NoColon(s)
    case Arr(items) => forall i :: 0 <= i < |items| ==> ColonFreeValue(items[i])
    case Obj(members) => forall i :: 0 <= i < |members| ==> NoColon(members[i].key) && ColonFreeValue(members[i].value)
    case _ => true
  }

  lemma {:induction false} JoinQuoted(parts: seq<string>, sep: string)
    requires forall i :: 0 <= i < |parts| ==> QuotedColons(false, parts[i])
    requires NoColon(sep)
    ensures QuotedColons(false, Join(parts, sep))
    decreases |parts|
  {
    if |parts| > 1 {
      JoinQuoted(parts[1..], sep);
      NoColonQuoted(EndsQuoted(false, parts[0]), sep);
      QuotedConcat(false, parts[0], sep);
      QuotedWeaken(EndsQuoted(false, parts[0] + sep), Join(parts[1..], sep));
      QuotedConcat(false, parts[0] + sep, Join(parts[1..], sep));
    }
  }

  lemma WrapQuoted(open: string, parts: seq<string>, close: string, indent: string, inner: string, gap: string)
    requires forall i :: 0 <= i < |parts| ==> QuotedColons(false, parts[i])
    requires NoColon(open) && NoColon(close) && NoColon(indent) && NoColon(inner)
    ensures QuotedColons(false, Wrap(open, parts, close, indent, inner, gap))
  {
    if gap == "" {
      JoinQuoted(parts, ",");
      QuotedWeaken(EndsQuoted(false, open), Join(parts, ","));
      QuotedConcat(false, open, Join(parts, ","));
      NoColonQuoted(EndsQuoted(false, open + Join(parts, ",")), close);
      QuotedConcat(false, open + Join(parts, ","), close);
    } else {
      var sep := ",\n" + inner;
      NoColonConcat(",\n", inner);
      JoinQuoted(parts, sep);
      var head := open + "\n" + inner;
      NoColonConcat(open, "\n");
      NoColonConcat(open + "\n", inner);
      NoColonQuoted(false, head);
      QuotedWeaken(EndsQuoted(false, head), Join(parts, sep));
      QuotedConcat(false, head, Join(parts, sep));
      var tail := "\n" + indent + close;
      NoColonConcat("\n", indent);
      NoColonConcat("\n" + indent, close);
      NoColonQuoted(EndsQuoted(false, head + Join(parts, sep)), tail);
      QuotedConcat(false, head + Join(parts, sep), tail);
      assert Wrap(open, parts, close, indent, inner, gap) == head + Join(parts, sep) + tail;
    }
  }

  /** One member as SerializeJSONObject writes it: its colon follows the closing quote of the key. */
  lemma MemberQuoted(key: string, colon: string, value: string)
    requires NoColon(key) && (colon == ":" || colon == ": ") && QuotedColons(false, value)
    ensures QuotedColons(false, Quote(key) + colon + value)
  {
    QuoteNoColon(key);
    NoColonQuoted(false, Quote(key));
    QuotedConcat(false, Quote(key), colon);
    QuotedWeaken(EndsQuoted(false, Quote(key) + colon), value);
    QuotedConcat(false, Quote(key) + colon, value);
  }

  /** `JSON.stringify` writes a `:` only after the closing quote of a key. */
  lemma {:induction false} StringifyQuoted(v: Value, indent: string, gap: string)
    requires ColonFreeValue(v) && NoColon(indent) && NoColon(gap)
    ensures QuotedColons(false, Stringify(v, indent, gap))
    decreases v
  {
    match v
    case Null =>
    case Bool(b) =>
    case Num(n) => IntStringNoColon(n);
    case Str(s) => QuoteNoColon(s);
    case Arr(items) =>
      if items != [] {
        var inner := indent + gap;
        NoColonConcat(indent, gap);
        var parts := seq(|items|, i requires 0 <= i < |items| => Stringify(items[i], inner, gap));
        forall i | 0 <= i < |parts| ensures QuotedColons(false, parts[i]) {
          StringifyQuoted(items[i], inner, gap);
        }
        WrapQuoted("[", parts, "]", indent, inner, gap);
      }
    case Obj(members) =>
      if members != [] {
        var inner := indent + gap;
        NoColonConcat(indent, gap);
        var colon := if gap == "" then ":" else ": ";
        var parts := seq(|members|, i requires 0 <= i < |members| =>
          Quote(members[i].key) + colon + Stringify(members[i].value, inner, gap));
        forall i | 0 <= i < |parts| ensures QuotedColons(false, parts[i]) {
          StringifyQuoted(members[i].value, inner, gap);
          MemberQuoted(members[i].key, colon, Stringify(members[i].value, inner, gap));
        }
        WrapQuoted("{", parts, "}", indent, inner, gap);
      }
  }

  /** Indenting the lines inserts only spaces after newlines, so no `:` loses its quote. */
  lemma {:induction false} IndentQuoted(quoted: bool, s: string)
    requires QuotedColons(quoted, s)
    ensures QuotedColons(quoted, IndentLines(s))
    decreases |s|
  {
    if s != [] {
      var h := if s[0] == '\n' then "\n  " else [s[0]];
      var rest, q := s[1..], s[0] == '"';
      forall i | 0 <= i < |rest| ensures ColonQuoted(q, rest, i) {
        assert ColonQuoted(quoted, s, i + 1);
      }
      IndentQuoted(q, rest);
      assert ColonQuoted(quoted, s, 0);
      forall i | 0 <= i < |h| ensures ColonQuoted(quoted, h, i) {
      }
      assert EndsQuoted(quoted, h) == q;
      QuotedConcat(quoted, h, IndentLines(rest));
      assert IndentLines(s) == h + IndentLines(s[1..]);
    }
  }

  // ---------------------------------------------------------------- addMediaQuery's own output

  /** A literal found at p is also found there without its tail. */
  lemma LitAtPrefix(s: string, p: nat, w: string, t: string)
    requires |w| <= |t| && t[..|w|] == w
    ensures LitAt(s, p, t, false) ==> LitAt(s, p, w, false)
  {
    if LitAt(s, p, t, false) {
      forall i | 0 <= i < |w| ensures CharEq(s[p + i], w[i], false) {
        assert t[i] == w[i];
      }
    }
  }

  /** In a text whose every colon follows a quote, `name:` occurs nowhere. */
  lemma NoBareKey(s: string, p: nat)
    requires QuotedColons(false, s)
    ensures !LitAt(s, p, "name:", false)
  {
    if p + 5 <= |s| {
      if s[p + 4] == ':' {
        assert ColonQuoted(false, s, p + 4);
        assert !CharEq(s[p + 3], "name:"[3], false);
      } else {
        assert !CharEq(s[p + 4], "name:"[4], false);
      }
    }
  }

  /** Such a text is never taken for a duplicate, and the name regex lists nothing in it. */
  lemma QuotedNotNamed(s: string)
    requires QuotedColons(false, s)
    ensures forall n :: !Mentions(s, n)
    ensures Named(s, 0) == []
  {
    forall p: nat ensures NamedAt(s, p).None? {
      NoBareKey(s, p);
    }
    forall n ensures !Mentions(s, n) {
      var single, double := "name: '" + n + "'", "name: \"" + n + "\"";
      forall p: nat | p <= |s| ensures !LitAt(s, p, single, false) && !LitAt(s, p, double, false) {
        NoBareKey(s, p);
        LitAtPrefix(s, p, "name:", single);
        LitAtPrefix(s, p, "name:", double);
      }
    }
  }

  predicate ColonFreePairs(values: seq<(string, string)>) {
    forall i :: 0 <= i < |values| ==> NoColon(values[i].0) && NoColon(values[i].1)
  }

  /** The media-query module addMediaQuery writes into a blank file: JSON.stringify's keys are
      quoted, so (without colons in the names and values) every colon in it follows a quote. */
  lemma FreshMediaQuoted(m: string, name: string, mediaType: string, values: seq<(string, string)>)
    requires NoColon(m) && NoColon(name) && NoColon(mediaType) && ColonFreePairs(values)
    ensures QuotedColons(false, FreshMediaQueries(m, MediaEntry(name, mediaType, values)))
  {
    var obj := MediaObject(name, mediaType, values);
    assert ColonFreeValue(obj.members[2].value);
    assert ColonFreeValue(obj);
    StringifyQuoted(obj, "", "  ");
    IndentQuoted(false, Pretty(obj));
    var head := "export const " + m + " = [\n  ";
    NoColonConcat("export const ", m);
    NoColonConcat("export const " + m, " = [\n  ");
    NoColonQuoted(false, head);
    QuotedConcat(false, head, MediaEntry(name, mediaType, values));
    NoColonQuoted(EndsQuoted(false, head + MediaEntry(name, mediaType, values)), "\n];\n");
    QuotedConcat(false, head + MediaEntry(name, mediaType, values), "\n];\n");
  }

  /** A theme whose media-query module is chosen, and a module file that is missing or blank. */
  predicate BlankMediaModule(stored: Option<Config>, files: map<string, string>, themeName: Option<string>) {
    var sel := SelectPart(stored, themeName, MediaQueriesModule);
    sel.Selected? && IsBlank(ReadOrEmpty(files, sel.path))
  }

  /** Names, types and breakpoints without colons, and a module name without one either. */
  predicate ColonFreeQuery(stored: Option<Config>, themeName: Option<string>, name: string, mediaType: string, values: seq<(string, string)>) {
    var sel := SelectPart(stored, themeName, MediaQueriesModule);
    sel.Selected? && NoColon(PartName(sel.theme, MediaQueriesModule))
    && NoColon(name) && NoColon(mediaType) && ColonFreePairs(values)
  }

  /** addMediaQuery on a blank module writes the fresh module. */
  lemma AddMediaToBlank(stored: Option<Config>, files: map<string, string>, name: string, mediaType: string, values: seq<(string, string)>, themeName: Option<string>)
    requires MediaErrors(name, mediaType, values) == [] && BlankMediaModule(stored, files, themeName)
    ensures var sel := SelectPart(stored, themeName, MediaQueriesModule);
      AddMediaOutcome(stored, files, name, mediaType, values, themeName)
        == Write(sel.path, FreshMediaQueries(PartName(sel.theme, MediaQueriesModule), MediaEntry(name, mediaType, values)),
                 Some(MediaQuery(name, mediaType, values, sel.theme.name, sel.path)), MediaAdded(name, sel.theme))
  {
    var sel := SelectPart(stored, themeName, MediaQueriesModule);
    assert Trim(ReadOrEmpty(files, sel.path)) == "";
  }

  lemma AddMediaToBlankQuoted(stored: Option<Config>, files: map<string, string>, name: string, mediaType: string, values: seq<(string, string)>, themeName: Option<string>)
    requires MediaErrors(name, mediaType, values) == []
    requires BlankMediaModule(stored, files, themeName) && ColonFreeQuery(stored, themeName, name, mediaType, values)
    ensures var o := AddMediaOutcome(stored, files, name, mediaType, values, themeName);
      o.Write? && o.path == SelectPart(stored, themeName, MediaQueriesModule).path && QuotedColons(false, o.text)
  {
    var sel := SelectPart(stored, themeName, MediaQueriesModule);
    AddMediaToBlank(stored, files, name, mediaType, values, themeName);
    FreshMediaQuoted(PartName(sel.theme, MediaQueriesModule), name, mediaType, values);
  }

  /** On a module whose colons all follow quotes, the duplicate check never fires. */
  lemma AddMediaToQuoted(stored: Option<Config>, files: map<string, string>, name: string, mediaType: string, values: seq<(string, string)>, themeName: Option<string>)
    requires MediaErrors(name, mediaType, values) == []
    requires var sel := SelectPart(stored, themeName, MediaQueriesModule);
      sel.Selected? && sel.path in files && QuotedColons(false, files[sel.path])
    ensures AddMediaOutcome(stored, files, name, mediaType, values, themeName).Write?
  {
    var sel := SelectPart(stored, themeName, MediaQueriesModule);
    QuotedNotNamed(files[sel.path]);
    assert !Mentions(files[sel.path], name);
  }

  /** On a module whose colons all follow quotes, listMediaQueries finds no name. */
  lemma ListQuoted(stored: Option<Config>, files: map<string, string>, themeName: Option<string>)
    requires var sel := SelectPart(stored, themeName, MediaQueriesModule);
      sel.Selected? && sel.path in files && QuotedColons(false, files[sel.path])
    ensures MediaListOutcome(stored, files, themeName).data == Some([])
  {
    QuotedNotNamed(files[SelectPart(stored, themeName, MediaQueriesModule).path]);
  }

  /** addMediaQuery on a blank module writes the fresh module; after that the duplicate check does
      not see the query it wrote (the same query is written a second time), and
      listMediaQueries finds no name in the module. */
  lemma AddMediaTwiceNotRefused(stored: Option<Config>, files: map<string, string>, name: string, mediaType: string, values: seq<(string, string)>, themeName: Option<string>)
    requires MediaErrors(name, mediaType, values) == []
    requires BlankMediaModule(stored, files, themeName) && ColonFreeQuery(stored, themeName, name, mediaType, values)
    ensures var first := AddMediaOutcome(stored, files, name, mediaType, values, themeName);
      first.Write? && AddMediaOutcome(stored, Apply(files, first), name, mediaType, values, themeName).Write?
    ensures var first := AddMediaOutcome(stored, files, name, mediaType, values, themeName);
      first.Write? && MediaListOutcome(stored, Apply(files, first), themeName).data == Some([])
  {
    var sel := SelectPart(stored, themeName, MediaQueriesModule);
    AddMediaToBlankQuoted(stored, files, name, mediaType, values, themeName);
    var first := AddMediaOutcome(stored, files, name, mediaType, values, themeName);
    ApplyWrite(files, sel.path, first.text, first.data, first.message);
    AddMediaToQuoted(stored, Apply(files, first), name, mediaType, values, themeName);
    ListQuoted(stored, Apply(files, first), themeName);
  }

  // ---------------------------------------------------------------- addCSSVariable's own output

  /** The text the fresh foundations module starts with, before the category. */
  function FoundationsHead(f: string): string {
    "export const " + f + " = {\n  "
  }

  /** The fresh module after the category: the brace of its block and the entry's indent. */
  const CategoryOpen := ": {\n    "

  /** The fresh module after the entry's value. */
  const EntryTail := "\n  }\n};\n"

  /** The fresh foundations module, piece by piece. */
  lemma FreshFoundationsLayout(f: string, category: string, name: string, json: string)
    ensures FreshFoundations(f, category, Entry(name, json))
      == FoundationsHead(f) + category + CategoryOpen + name + ": " + json + EntryTail
  {
  }

  /** Where each piece of the fresh module sits: the head, the category at p0, the colon and
      brace after it, the name at k followed by `: `, and a closing brace near the end. */
  lemma FreshIndices(head: string, category: string, name: string, json: string)
    ensures var s := head + category + CategoryOpen + name + ": " + json + EntryTail;
      var p0 := |head|; var x := p0 + |category|; var k := x + 8;
      |s| == k + |name| + |json| + 10
      && (forall i :: 0 <= i < p0 ==> s[i] == head[i])
      && (forall i :: p0 <= i < x ==> s[i] == category[i - p0])
      && s[x] == ':' && s[x + 1] == ' ' && s[x + 2] == '{' && s[x + 3] == '\n'
      && s[x + 4] == ' ' && s[x + 5] == ' ' && s[x + 6] == ' ' && s[x + 7] == ' '
      && (forall i :: k <= i < k + |name| ==> s[i] == name[i - k])
      && s[k + |name|] == ':' && s[k + |name| + 1] == ' ' && s[|s| - 5] == '}'
  {
  }

  /** The layout facts the scans of the fresh module rely on, with p0 the category's position. */
  predicate FreshShape(s: string, p0: nat, category: string, name: string) {
    var x := p0 + |category|; var k := x + 8;
    k + |name| + 10 <= |s|
    && (forall i :: 0 <= i < x ==> s[i] != ':')
    && LitAt(s, p0, category, false)
    && s[x] == ':' && s[x + 1] == ' ' && s[x + 2] == '{' && s[x + 3] == '\n'
    && s[x + 4] == ' ' && s[x + 5] == ' ' && s[x + 6] == ' ' && s[x + 7] == ' '
    && LitAt(s, k, name, false)
    && (forall i :: k <= i < k + |name| ==> s[i] != '}')
    && s[k + |name|] == ':' && s[k + |name| + 1] == ' ' && s[|s| - 5] == '}'
  }

  /** The fresh module has that shape when neither the declaration's name nor the category
      holds a colon and the name holds no closing brace. */
  lemma FreshFoundationsShape(f: string, category: string, name: string, json: string)
    requires NoColon(f) && NoColon(category) && !Contains(name, '}')
    ensures FreshShape(FreshFoundations(f, category, Entry(name, json)), |FoundationsHead(f)|, category, name)
  {
    var head := FoundationsHead(f);
    FreshFoundationsLayout(f, category, name, json);
    FreshIndices(head, category, name, json);
    var s := FreshFoundations(f, category, Entry(name, json));
    var p0, k := |head|, |head| + |category| + 8;
    NoColonConcat("export const ", f);
    NoColonConcat("export const " + f, " = {\n  ");
    forall i | 0 <= i < p0 + |category| ensures s[i] != ':' {
      if i < p0 { assert s[i] == head[i]; } else { assert s[i] == category[i - p0]; }
    }
    forall i | 0 <= i < |category| ensures CharEq(s[p0 + i], category[i], false) {
      assert s[p0 + i] == category[p0 + i - p0];
    }
    forall i | 0 <= i < |name| ensures CharEq(s[k + i], name[i], false) {
      assert s[k + i] == name[k + i - k];
    }
    ContainsIndex(name, '}');
    forall i | k <= i < k + |name| ensures s[i] != '}' {
      assert s[i] == name[i - k];
    }
  }

  /** The category regex does not match before p0: a match would need a colon after a run of
      spaces that covers the category's last character. */
  lemma NoCategoryBefore(s: string, p0: nat, category: string, name: string, p: nat)
    requires FreshShape(s, p0, category, name) && category != [] && !IsSpace(category[|category| - 1])
    requires p < p0
    ensures CategoryAt(s, p, category).None?
  {
    var last := p0 + |category| - 1;
    assert CharEq(s[p0 + (|category| - 1)], category[|category| - 1], false);
    assert !IsSpace(s[last]);
    var x := p + |category|;
    if x <= |s| {
      var a := x + SpaceRun(s, x);
      assert a <= last;
      assert !(a < |s| && s[a] == ':');
    }
  }

  /** `\s*:\s*{` after the category in the fresh module: the brace two places after it. */
  lemma ColonOpenFresh(s: string, p0: nat, category: string, name: string)
    requires FreshShape(s, p0, category, name)
    ensures ColonOpen(s, p0 + |category|) == Some(p0 + |category| + 2)
  {
    var x := p0 + |category|;
    assert SpaceRun(s, x) == 0;
    assert SpaceRun(s, x + 1) == 1;
  }

  /** The category block of the fresh module reaches past the entry's key. */
  lemma CategoryAtFresh(s: string, p0: nat, category: string, name: string)
    requires FreshShape(s, p0, category, name)
    ensures var b := CategoryAt(s, p0, category);
      b.Some? && b.value.open == p0 + |category| + 2 && b.value.close > p0 + |category| + 8 + |name|
  {
    var x := p0 + |category|;
    var o, k := x + 2, x + 8;
    ColonOpenFresh(s, p0, category, name);
    var n := RunOutside(s, o + 1, "}");
    assert forall i :: o < i <= k + |name| ==> s[i] != '}';
    assert o + 1 + n > k + |name|;
    assert o + 1 + n <= |s| - 5;
  }

  /** The category block of the fresh module holds the entry's key. */
  lemma KeyInFresh(s: string, p0: nat, category: string, name: string)
    requires FreshShape(s, p0, category, name)
    ensures CategoryAt(s, p0, category).Some? && HasKey(Body(s, CategoryAt(s, p0, category).value), name)
  {
    CategoryAtFresh(s, p0, category, name);
    var k := p0 + |category| + 8;
    var b := CategoryAt(s, p0, category).value;
    var body := Body(s, b);
    assert body == s[b.open + 1..b.close];
    assert KeyAt(body, 5, name) by {
      forall i | 0 <= i < |name| ensures CharEq(body[5 + i], name[i], false) {
        assert body[5 + i] == s[k + i];
      }
      assert body[5 + |name|] == ':';
      assert SpaceRun(body, 5 + |name|) == 0;
    }
  }

  /** `NAME\s*:\s*([^,\n}]+)` matches at a key followed by a colon and a space: the space can
      start the value. */
  lemma ValueAfterKeySpace(s: string, k: nat, name: string)
    requires LitAt(s, k, name, false) && k + |name| + 1 < |s| && s[k + |name|] == ':' && s[k + |name| + 1] == ' '
    ensures ValueAfterKey(s, k, name).Some?
  {
    var a := k + |name|;
    assert SpaceRun(s, a) == 0;
    var starts := (q: nat) => q < |s| && s[q] !in ValueStops;
    assert starts(a + 1);
    assert LastFrom(a + 1, a + 1 + SpaceRun(s, a + 1), starts).Some?;
  }

  /** The update regex matches the fresh module at the category. */
  lemma ValueAtFresh(s: string, p0: nat, category: string, name: string)
    requires FreshShape(s, p0, category, name)
    ensures ValueAt(s, p0, category, name).Some?
  {
    var o, k := p0 + |category| + 2, p0 + |category| + 8;
    CategoryAtFresh(s, p0, category, name);
    ColonOpenFresh(s, p0, category, name);
    ValueAfterKeySpace(s, k, name);
    var n := RunOutside(s, o + 1, "}");
    assert ValuesAfterKey(s, name)(k);
    assert LastFrom(o + 1, o + 1 + n, ValuesAfterKey(s, name)).Some?;
  }

  /** What addCSSVariable and updateCSSVariable find of a variable in a foundations text: the
      first category block holds its key, and the update regex finds its value. */
  predicate Knows(t: string, category: string, name: string) {
    FindCategory(t, category).Some? && HasKey(Body(t, FindCategory(t, category).value), name)
    && FindValue(t, category, name).Some?
  }

  /** A category the fresh module can be scanned for: no colon in it, and a last character that
      is not a space. */
  predicate PlainCategory(category: string) {
    NoColon(category) && category != [] && !IsSpace(category[|category| - 1])
  }

  /** The fresh foundations module knows the variable it was written with. */
  lemma FreshKnows(f: string, category: string, name: string, json: string)
    requires NoColon(f) && PlainCategory(category) && !Contains(name, '}')
    ensures Knows(FreshFoundations(f, category, Entry(name, json)), category, name)
  {
    var s := FreshFoundations(f, category, Entry(name, json));
    var p0 := |FoundationsHead(f)|;
    FreshFoundationsShape(f, category, name, json);
    KeyInFresh(s, p0, category, name);
    ValueAtFresh(s, p0, category, name);
    forall p: nat | p < p0 ensures CategoryAt(s, p, category).None? {
      NoCategoryBefore(s, p0, category, name, p);
    }
    var b := FindCategory(s, category);
    assert b.Some?;
    assert b.value.start == p0;
  }

  /** A foundations theme is chosen, and its module file is missing or blank. */
  predicate BlankFoundationsModule(stored: Option<Config>, files: map<string, string>, themeName: Option<string>) {
    var sel := SelectPart(stored, themeName, FoundationsModule);
    sel.Selected? && IsBlank(ReadOrEmpty(files, sel.path))
  }

  /** A chosen foundations module whose name holds no colon, a plain category, and a name without
      a closing brace. */
  predicate PlainVariable(stored: Option<Config>, themeName: Option<string>, category: string, name: string) {
    var sel := SelectPart(stored, themeName, FoundationsModule);
    sel.Selected? && NoColon(PartName(sel.theme, FoundationsModule)) && PlainCategory(category) && !Contains(name, '}')
  }

  /** addCSSVariable on a blank module writes the fresh module. */
  lemma AddVariableToBlank(stored: Option<Config>, files: map<string, string>, category: string, name: string, value: CssValue, themeName: Option<string>)
    requires ValidateCSSVariable(category, name, value).valid && BlankFoundationsModule(stored, files, themeName)
    ensures var sel := SelectPart(stored, themeName, FoundationsModule);
      AddVariableOutcome(stored, files, category, name, value, themeName)
        == Write(sel.path, FreshFoundations(PartName(sel.theme, FoundationsModule), category, Entry(name, ValueJson(value))),
                 Some(Variable(category, name, value, sel.theme.name, sel.path, CssVariableName(category, name))), VariableAdded(category, name, sel.theme))
  {
    var sel := SelectPart(stored, themeName, FoundationsModule);
    assert Trim(ReadOrEmpty(files, sel.path)) == "";
  }

  /** ... and that module knows the variable. */
  lemma AddVariableToBlankKnows(stored: Option<Config>, files: map<string, string>, category: string, name: string, value: CssValue, themeName: Option<string>)
    requires ValidateCSSVariable(category, name, value).valid && BlankFoundationsModule(stored, files, themeName)
    requires PlainVariable(stored, themeName, category, name)
    ensures var o := AddVariableOutcome(stored, files, category, name, value, themeName);
      o.Write? && o.path == SelectPart(stored, themeName, FoundationsModule).path && Knows(o.text, category, name)
  {
    var sel := SelectPart(stored, themeName, FoundationsModule);
    AddVariableToBlank(stored, files, category, name, value, themeName);
    FreshKnows(PartName(sel.theme, FoundationsModule), category, name, ValueJson(value));
  }

  /** addCSSVariable refuses a variable the module already knows. */
  lemma AddVariableToKnown(stored: Option<Config>, files: map<string, string>, category: string, name: string, value: CssValue, themeName: Option<string>)
    requires ValidateCSSVariable(category, name, value).valid
    requires var sel := SelectPart(stored, themeName, FoundationsModule);
      sel.Selected? && sel.path in files && Knows(files[sel.path], category, name)
    ensures AddVariableOutcome(stored, files, category, name, value, themeName) == Refuse(VariableExists(category, name))
  {
    var t := files[SelectPart(stored, themeName, FoundationsModule).path];
    var b := FindCategory(t, category).value;
    assert !IsSpace(t[b.open]);
    assert Trim(t) != "";
  }

  /** updateCSSVariable writes a variable the module knows. */
  lemma UpdateKnown(stored: Option<Config>, files: map<string, string>, category: string, name: string, value: CssValue, themeName: Option<string>)
    requires ValidateCSSVariable(category, name, value).valid
    requires var sel := SelectPart(stored, themeName, FoundationsModule);
      sel.Selected? && sel.path in files && Knows(files[sel.path], category, name)
    ensures UpdateVariableOutcome(stored, files, category, name, value, themeName).Write?
  {
  }

  /** Adding a variable to a blank module and adding it again: the second call is refused as a
      duplicate, and updateCSSVariable (with any valid value) finds the variable and writes. */
  lemma AddVariableTwiceRefused(stored: Option<Config>, files: map<string, string>, category: string, name: string, value: CssValue, value2: CssValue, themeName: Option<string>)
    requires ValidateCSSVariable(category, name, value).valid && ValidateCSSVariable(category, name, value2).valid
    requires BlankFoundationsModule(stored, files, themeName) && PlainVariable(stored, themeName, category, name)
    ensures var first := AddVariableOutcome(stored, files, category, name, value, themeName);
      first.Write? && AddVariableOutcome(stored, Apply(files, first), category, name, value2, themeName) == Refuse(VariableExists(category, name))
    ensures var first := AddVariableOutcome(stored, files, category, name, value, themeName);
      first.Write? && UpdateVariableOutcome(stored, Apply(files, first), category, name, value2, themeName).Write?
  {
    var sel := SelectPart(stored, themeName, FoundationsModule);
    AddVariableToBlankKnows(stored, files, category, name, value, themeName);
    var first := AddVariableOutcome(stored, files, category, name, value, themeName);
    ApplyWrite(files, sel.path, first.text, first.data, first.message);
    AddVariableToKnown(stored, Apply(files, first), category, name, value2, themeName);
    UpdateKnown(stored, Apply(files, first), category, name, value2, themeName);
  }
}
