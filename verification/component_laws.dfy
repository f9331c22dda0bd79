/** What createComponentStyle and deleteComponentStyle do to the theme modules they write
    themselves, on small modules worked through character by character.

    The aggregate regex of create matches the first flat declaration of the module, whatever
    name it declares, and that includes the declaration create has just appended. A component
    whose styles are flat (no nested object) created in a blank module is therefore replaced by
    the aggregate export at once: the lookup no longer finds it, a second create is not refused,
    and get fails. A component with a nested object survives, and a second create is refused. */
module ComponentLaws {
  import opened Text
  import opened Search
  import opened Json
  import opened Types
  import opened Validators
  import opened Store
  import opened ConfigTools
  import opened Declarations
  import opened ComponentScan
  import opened Components

  // ---------------------------------------------------------------- the styles written

  /** Empty styles are written as `{}`. */
  lemma EmptyStylesText()
    ensures StylesText(Obj([])) == "{}"
  {
    assert Pretty(Obj([])) == "{}";
    assert !Contains("{}", '"') by {
      ContainsIndex("{}", '"');
    }
  }

  /** Styles with one nested, empty object are written over three lines, with the key unquoted. */
  lemma IconStylesText()
    ensures StylesText(Obj([Member("_icon", Obj([]))])) == "{\n  _icon: {}\n}"
  {
    var a, k, b := "{\n  ", "_icon", " {}\n}";
    IconPretty();
    IconSplit();
    NoQuotes();
    UnquoteOneKey(a, k, b);
  }

  lemma IconSplit()
    ensures "{\n  \"_icon\": {}\n}" == "{\n  " + "\"" + "_icon" + "\":" + " {}\n}"
    ensures "{\n  " + "_icon" + ":" + " {}\n}" == "{\n  _icon: {}\n}"
  {
  }

  lemma NoQuotes()
    ensures !Contains("{\n  ", '"') && !Contains("_icon", '"') && !Contains(" {}\n}", '"')
  {
    ContainsIndex("{\n  ", '"');
    ContainsIndex("_icon", '"');
    ContainsIndex(" {}\n}", '"');
  }

  lemma IconPretty()
    ensures Pretty(Obj([Member("_icon", Obj([]))])) == "{\n  \"_icon\": {}\n}"
  {
    PrettyOneEmptyMember("_icon");
    IconQuote();
  }

  /** An object with one member whose value is `{}` is printed on three lines. */
  lemma PrettyOneEmptyMember(k: string)
    ensures Pretty(Obj([Member(k, Obj([]))])) == "{\n  " + Quote(k) + ": {}\n}"
  {
    var ms := [Member(k, Obj([]))];
    var parts := seq(|ms|, i requires 0 <= i < |ms| => Quote(ms[i].key) + ": " + Stringify(ms[i].value, "  ", "  "));
    var part := Quote(k) + ": {}";
    assert Stringify(Obj([]), "  ", "  ") == "{}";
    assert |parts| == 1 && parts[0] == part;
    assert parts == [part];
    assert "" + "  " == "  ";
    assert Stringify(Obj(ms), "", "  ") == Wrap("{", parts, "}", "", "  ", "  ");
    assert Join(parts, ",\n  ") == part;
  }

  lemma IconQuote()
    ensures Quote("_icon") == "\"_icon\""
  {
    var s := "_icon";
    assert Escape(s[4..]) == "n";
    assert Escape(s[3..]) == "on";
    assert Escape(s[2..]) == "con";
    assert Escape(s[1..]) == "icon";
  }

  // ---------------------------------------------------------------- declarations as create writes them

  /** `export const ` at p, followed by a character that is not a space. */
  predicate Header(s: string, p: nat) {
    p + 14 <= |s|
    && s[p] == 'e' && s[p + 1] == 'x' && s[p + 2] == 'p' && s[p + 3] == 'o' && s[p + 4] == 'r' && s[p + 5] == 't'
    && s[p + 6] == ' '
    && s[p + 7] == 'c' && s[p + 8] == 'o' && s[p + 9] == 'n' && s[p + 10] == 's' && s[p + 11] == 't'
    && s[p + 12] == ' ' && !IsSpace(s[p + 13])
  }

  lemma HeaderOf(pre: string, rest: string)
    requires rest != [] && !IsSpace(rest[0])
    ensures Header(pre + "export const " + rest, |pre|)
  {
    var s := pre + "export const " + rest;
    assert s[|pre| + 13] == rest[0];
  }

  /** The header every declaration create writes starts with. */
  lemma HeaderLit(rest: string)
    requires rest != [] && !IsSpace(rest[0])
    ensures Header("\nexport const " + rest, 1)
  {
    assert "\nexport const " + rest == "\n" + "export const " + rest;
    HeaderOf("\n", rest);
  }

  /** After such a header the declared name can only start right after the single space. */
  lemma HeaderWindow(s: string, p: nat, ci: bool)
    requires Header(s, p)
    ensures ConstHeader(s, p, ci) == Some(Window(p + 13, p + 13))
  {
    forall i | 0 <= i < 6 ensures CharEq(s[p + i], "export"[i], ci) {
      assert i == 0 || i == 1 || i == 2 || i == 3 || i == 4 || i == 5;
    }
    assert SpaceRun(s, p + 6) == 1;
    forall i | 0 <= i < 5 ensures CharEq(s[p + 7 + i], "const"[i], ci) {
      assert i == 0 || i == 1 || i == 2 || i == 3 || i == 4;
    }
    assert SpaceRun(s, p + 12) == 1;
  }

  /** A name made of `\w` characters. */
  predicate Word(n: string) {
    n != [] && forall i :: 0 <= i < |n| ==> IsWordChar(n[i])
  }

  /** Where the pieces of `\nexport const NAME = STYLES;\n` sit. */
  lemma DeclarationLayout(name: string, st: string)
    requires Word(name)
    ensures var s, x := Declaration(name, st), 14 + |name|;
      |s| == x + |st| + 5 && s[0] == '\n' && Header(s, 1)
      && (forall i :: 14 <= i < x ==> s[i] == name[i - 14])
      && s[x] == ' ' && s[x + 1] == '=' && s[x + 2] == ' '
      && (forall i :: x + 3 <= i < x + 3 + |st| ==> s[i] == st[i - x - 3])
      && s[x + 3 + |st|] == ';' && s[x + 4 + |st|] == '\n'
  {
    var rest := name + " = " + st + ";\n";
    assert Declaration(name, st) == "\n" + "export const " + rest;
    assert rest[0] == name[0];
    HeaderOf("\n", rest);
  }

  /** The name of a declaration is matched, case-insensitively or not, where create put it. */
  lemma NameInDeclaration(s: string, name: string, ci: bool)
    requires 14 + |name| <= |s| && forall i :: 14 <= i < 14 + |name| ==> s[i] == name[i - 14]
    ensures LitAt(s, 14, name, ci)
  {
    forall i | 0 <= i < |name| ensures CharEq(s[14 + i], name[i], ci) {
      assert s[14 + i] == name[14 + i - 14];
    }
  }

  /** `\w+` from 14 takes the whole name. */
  lemma NameRun(s: string, name: string)
    requires Word(name) && 14 + |name| < |s| && !IsWordChar(s[14 + |name|])
    requires forall i :: 14 <= i < 14 + |name| ==> s[i] == name[i - 14]
    ensures Run(s, 14, IsWordChar) == |name|
  {
  }

  lemma OneSpace(s: string, p: nat)
    requires p + 1 < |s| && IsSpace(s[p]) && !IsSpace(s[p + 1])
    ensures SpaceRun(s, p) == 1
  {
  }

  /** ` = ` then the opening character. */
  lemma AssignOpenAt(s: string, e: nat, open: char)
    requires e + 3 < |s| && s[e] == ' ' && s[e + 1] == '=' && s[e + 2] == ' ' && s[e + 3] == open
    requires !IsSpace(open)
    ensures AssignOpen(s, e, open) == Some(e + 3)
  {
    OneSpace(s, e);
    OneSpace(s, e + 2);
  }

  // ---------------------------------------------------------------- flat styles

  /** `\nexport const NAME = {};\n`, character by character. */
  predicate FlatShape(s: string, name: string) {
    var x := 14 + |name|;
    Word(name) && |s| == x + 7 && s[0] == '\n' && Header(s, 1)
    && (forall i :: 14 <= i < x ==> s[i] == name[i - 14])
    && s[x] == ' ' && s[x + 1] == '=' && s[x + 2] == ' ' && s[x + 3] == '{' && s[x + 4] == '}'
    && s[x + 5] == ';' && s[x + 6] == '\n'
  }

  lemma FlatShapeOf(name: string)
    requires Word(name)
    ensures FlatShape(Declaration(name, "{}"), name)
  {
    DeclarationLayout(name, "{}");
  }

  /** The aggregate regex matches at p and nowhere before: that is the match. */
  lemma FirstAggregate(s: string, p: nat, b: Block)
    requires AggregateAt(s, p) == Some(b) && forall q: nat :: q < p ==> AggregateAt(s, q).None?
    ensures FindAggregate(s) == Some(b)
  {
    var f := FindAggregate(s);
    assert p <= |s| && AggregateAt(s, p).Some?;
    assert f.Some?;
    assert !(f.value.start < p);
    assert !(p < f.value.start);
  }

  /** The aggregate regex at p is its tail after the header. */
  lemma AggregateAfterHeader(s: string, p: nat, x: nat, b: Block)
    requires p < x && ConstHeader(s, p, false) == Some(Window(x, x)) && AggregateTail(s, p, x) == Some(b)
    ensures AggregateAt(s, p) == Some(b)
  {
  }

  lemma NotExportAt(s: string, p: nat)
    requires p < |s| && s[p] != 'e'
    ensures AggregateAt(s, p).None?
  {
    assert !CharEq(s[p], "export"[0], false);
  }

  lemma FlatTail(s: string, name: string)
    requires FlatShape(s, name)
    ensures var x := 14 + |name|;
      AggregateTail(s, 1, 14) == Some(Block(1, x + 3, x + 4))
  {
    var x := 14 + |name|;
    NameRun(s, name);
    AssignOpenAt(s, x, '{');
    assert RunOutside(s, x + 4, "}") == 0;
  }

  lemma FlatAggregateAt(s: string, name: string)
    requires FlatShape(s, name)
    ensures var x := 14 + |name|;
      FindAggregate(s) == Some(Block(1, x + 3, x + 4))
  {
    var x := 14 + |name|;
    NotExportAt(s, 0);
    forall q: nat | q < 1 ensures AggregateAt(s, q).None? {
      assert q == 0;
    }
    HeaderWindow(s, 1, false);
    FlatTail(s, name);
    AggregateAfterHeader(s, 1, 14, Block(1, x + 3, x + 4));
    FirstAggregate(s, 1, Block(1, x + 3, x + 4));
  }

  /** A declaration of flat, empty styles is the first match of the aggregate regex. */
  lemma FlatAggregate(name: string)
    requires Word(name)
    ensures var x := 14 + |name|;
      FindAggregate(Declaration(name, "{}")) == Some(Block(1, x + 3, x + 4))
  {
    FlatShapeOf(name);
    FlatAggregateAt(Declaration(name, "{}"), name);
  }

  lemma WordNoDollar(n: string)
    requires Word(n)
    ensures !Contains(n, '$')
  {
    ContainsIndex(n, '$');
  }

  lemma EmptyEntries(name: string)
    ensures AggregateEntries("", name) == "\n  " + name
  {
    assert IsBlank("");
  }

  lemma AggregateAround(agg: string, name: string)
    ensures "\n" + AggregateTemplate(agg, "\n  " + name) + "\n" == AggregateDeclaration(agg, name)
  {
  }

  lemma FlatEnds(s: string, name: string)
    requires FlatShape(s, name)
    ensures s[..1] == "\n" && s[14 + |name| + 6..] == "\n"
  {
  }

  lemma FlatRewrite(s: string, name: string, agg: string)
    requires FlatShape(s, name) && Word(agg)
    ensures var x := 14 + |name|;
      RewriteAggregate(s, Block(1, x + 3, x + 4), agg, name) == AggregateDeclaration(agg, name)
  {
    var x := 14 + |name|;
    var b := Block(1, x + 3, x + 4);
    assert Body(s, b) == "";
    assert !Contains("", '$');
    WordNoDollar(name);
    WordNoDollar(agg);
    RewriteAggregateInPlace(s, b, agg, name);
    EmptyEntries(name);
    FlatEnds(s, name);
    AggregateAround(agg, name);
  }

  /** Registering a component whose styles are flat, in a module that holds only its
      declaration, replaces that declaration by the aggregate export. */
  lemma FlatCreated(name: string, agg: string)
    requires Word(name) && Word(agg)
    ensures AddToAggregate(Declaration(name, "{}"), agg, name) == AggregateDeclaration(agg, name)
  {
    FlatShapeOf(name);
    FlatAggregateAt(Declaration(name, "{}"), name);
    FlatRewrite(Declaration(name, "{}"), name, agg);
  }

  /** After `};` only the final line break: the lookup's tail reaches the end of the text. */
  lemma FlatLookupTail(s: string, name: string)
    requires FlatShape(s, name)
    ensures var x := 14 + |name|; LookupTail(s, x + 5) == Some(x + 7)
  {
    var x := 14 + |name|;
    assert SpaceRun(s, x + 6) == 1;
    assert !LitAt(s, x + 7, "export", true);
    assert ExportOrEnd(s, x + 6) == Some(x + 7);
  }

  lemma FlatRest(s: string, name: string)
    requires FlatShape(s, name)
    ensures var x := 14 + |name|; LookupRest(s, x) == Some(x + 7)
  {
    var x := 14 + |name|;
    AssignOpenAt(s, x, '{');
    FlatLookupTail(s, name);
    assert BodyCloses(s)(x + 4);
    FirstFromAt(x + 4, |s|, BodyCloses(s), x + 4);
    assert LookupBody(s, x + 3) == LookupTail(s, x + 5);
  }

  /** The lookup regex matches the whole flat declaration. */
  lemma FlatLookup(s: string, name: string)
    requires FlatShape(s, name)
    ensures LookupAt(s, 1, name) == Some(|s|)
  {
    var x := 14 + |name|;
    FlatRest(s, name);
    assert LookupRests(s)(x) == LookupRest(s, x);
    assert Succeeds(LookupRests(s))(x);
    DeclaredNameStart(s, name, Succeeds(LookupRests(s)));
    AfterNameAt(s, 1, name, LookupRests(s), 14);
  }

  /** Before create rewrites it, the lookup finds a flat declaration. */
  lemma FlatFound(name: string)
    requires Word(name)
    ensures FindComponent(Declaration(name, "{}"), name).Some?
  {
    FlatShapeOf(name);
    FlatLookup(Declaration(name, "{}"), name);
  }

  /** `;?\s*\n` after the closing brace takes the `;` and the final line break. */
  lemma FlatDeleteTail(s: string, name: string)
    requires FlatShape(s, name)
    ensures var x := 14 + |name|; DeleteTail(s, x + 5) == Some(x + 7)
  {
    var x := 14 + |name|;
    assert SpaceRun(s, x + 6) == 1;
    assert Newlines(s)(x + 6);
    assert LastFrom(x + 6, x + 6, Newlines(s)) == Some(x + 6);
    assert NewlineEnd(s, x + 6) == Some(x + 7);
  }

  lemma FlatDeleteRest(s: string, name: string)
    requires FlatShape(s, name)
    ensures var x := 14 + |name|; DeleteRest(s, x) == Some(x + 7)
  {
    var x := 14 + |name|;
    AssignOpenAt(s, x, '{');
    FlatDeleteTail(s, name);
    assert DeleteCloses(s)(x + 4);
    FirstFromAt(x + 4, |s|, DeleteCloses(s), x + 4);
  }

  /** The delete regex matches the whole flat declaration, from `export` to the end. */
  lemma FlatDeleteAt(s: string, name: string)
    requires FlatShape(s, name)
    ensures DeleteAt(s, 1, name) == Some(|s|)
  {
    var x := 14 + |name|;
    FlatDeleteRest(s, name);
    assert DeleteRests(s)(x) == DeleteRest(s, x);
    assert Succeeds(DeleteRests(s))(x);
    DeclaredNameStart(s, name, Succeeds(DeleteRests(s)));
    AfterNameAt(s, 1, name, DeleteRests(s), 14);
  }

  /** No regex of the form `export...` matches at the leading line break. */
  lemma NoDeleteAtStart(s: string, name: string)
    requires s != [] && s[0] == '\n'
    ensures DeleteAt(s, 0, name).None?
  {
    assert !CharEq(s[0], "export"[0], true);
    assert ConstHeader(s, 0, true).None?;
  }

  /** The removal of declarations cuts the flat declaration out, leaving the line break. */
  lemma FlatStripped(s: string, name: string)
    requires FlatShape(s, name)
    ensures StripDeclarations(s, name) == "\n"
  {
    FlatDeleteAt(s, name);
    NoDeleteAtStart(s, name);
    forall q: nat | q < 1 ensures DeleteAt(s, q, name).None? {
      assert q == 0;
    }
    StripStep(s, name, 0, 1);
    forall q: nat | |s| <= q <= |s| ensures DeleteAt(s, q, name).None? {
      assert q == |s|;
    }
    StripRest(s, name, |s|);
    assert s[0..1] == "\n" && s[|s|..] == [];
  }

  /** A line break alone holds no reference to a name. */
  lemma LineBreakNoName(name: string)
    requires Word(name)
    ensures RemoveName("\n", name) == "\n"
  {
    forall k: nat ensures !LitAt("\n", k, name, false) {
      if k + |name| <= 1 {
        assert !CharEq("\n"[k + 0], name[0], false);
      }
    }
    forall p: nat | p <= 1 ensures ReferenceAt("\n", p, name).None? {
    }
  }

  /** A text of at most one character holds no pair to merge. */
  lemma ShortNoPairs(s: string, a: char, b: char, c: char)
    requires |s| <= 1
    ensures ReplacePairs(s, a, b, c) == s
  {
  }

  lemma LineBreakNoCommas()
    ensures CleanCommas("\n") == "\n"
  {
    ShortNoPairs("\n", ',', ',', ',');
    ShortNoPairs("\n", '{', ',', '{');
    ShortNoPairs("\n", ',', '}', '}');
  }

  /** Deleting the component from a module that holds only its flat declaration leaves a
      line break. */
  lemma FlatDeleted(name: string)
    requires Word(name)
    ensures DeleteText(Declaration(name, "{}"), name) == "\n"
  {
    FlatShapeOf(name);
    FlatStripped(Declaration(name, "{}"), name);
    LineBreakNoName(name);
    LineBreakNoCommas();
  }

  // ---------------------------------------------------------------- the aggregate export

  /** `\nexport const AGG = {\n  NAME\n};\n`, character by character. */
  predicate AggregateShape(s: string, agg: string, name: string) {
    var y, z := 14 + |agg|, 14 + |agg| + 7 + |name|;
    Word(agg) && Word(name) && |s| == z + 4 && s[0] == '\n' && Header(s, 1)
    && (forall i :: 14 <= i < y ==> s[i] == agg[i - 14])
    && s[y] == ' ' && s[y + 1] == '=' && s[y + 2] == ' ' && s[y + 3] == '{'
    && s[y + 4] == '\n' && s[y + 5] == ' ' && s[y + 6] == ' '
    && (forall i :: y + 7 <= i < z ==> s[i] == name[i - y - 7])
    && s[z] == '\n' && s[z + 1] == '}' && s[z + 2] == ';' && s[z + 3] == '\n'
  }

  /** `\nexport const AGG = {\n  `: the part of the aggregate export before the name. */
  lemma AggregateFront(agg: string)
    requires Word(agg)
    ensures var f, y := "\nexport const " + agg + " = {\n  ", 14 + |agg|;
      |f| == y + 7 && f[0] == '\n' && Header(f, 1) && (forall i :: 14 <= i < y ==> f[i] == agg[i - 14])
      && f[y] == ' ' && f[y + 1] == '=' && f[y + 2] == ' ' && f[y + 3] == '{'
      && f[y + 4] == '\n' && f[y + 5] == ' ' && f[y + 6] == ' '
  {
    var m := " = {\n  ";
    var rest := agg + m;
    assert "\nexport const " + agg + m == "\nexport const " + rest;
    assert rest[0] == agg[0];
    HeaderLit(rest);
    assert m[0] == ' ' && m[1] == '=' && m[2] == ' ' && m[3] == '{' && m[4] == '\n' && m[5] == ' ' && m[6] == ' ';
  }

  lemma HeaderExtend(a: string, b: string, p: nat)
    requires Header(a, p)
    ensures Header(a + b, p)
  {
    var s := a + b;
    assert s[p + 13] == a[p + 13];
  }

  lemma AggregateShapeOf(agg: string, name: string)
    requires Word(agg) && Word(name)
    ensures AggregateShape(AggregateDeclaration(agg, name), agg, name)
  {
    var f, t := "\nexport const " + agg + " = {\n  ", "\n};\n";
    AggregateFront(agg);
    assert AggregateDeclaration(agg, name) == f + (name + t);
    HeaderExtend(f, name + t, 1);
    assert t[0] == '\n' && t[1] == '}' && t[2] == ';' && t[3] == '\n';
  }

  /** The only `=` of the aggregate export is the one after its name. */
  lemma AggregateEquals(s: string, agg: string, name: string, a: nat)
    requires AggregateShape(s, agg, name) && a < |s| && s[a] == '='
    ensures a == 14 + |agg| + 1
  {
  }

  /** `\s*=\s*{` can only start right after the aggregate's name, or at the space after it. */
  lemma AssignOpenInAggregate(s: string, agg: string, name: string, e: nat)
    requires AggregateShape(s, agg, name) && AssignOpen(s, e, '{').Some?
    ensures e == 14 + |agg| || e == 14 + |agg| + 1
  {
    var y := 14 + |agg|;
    var a := e + SpaceRun(s, e);
    assert a < |s| && s[a] == '=';
    AggregateEquals(s, agg, name, a);
    assert !IsSpace(s[y - 1]) by {
      assert s[y - 1] == agg[|agg| - 1];
    }
    assert e >= y;
  }

  /** The component name does not occur in the aggregate's name, in any case. */
  predicate Apart(agg: string, name: string) {
    forall q: nat :: q <= |agg| ==> !LitAt(agg, q, name, true)
  }

  /** A match of the name that starts inside the export cannot end where `\s*=` could follow. */
  lemma NameNotBeforeAssign(s: string, agg: string, name: string, q: nat)
    requires AggregateShape(s, agg, name) && Apart(agg, name) && 14 <= q && LitAt(s, q, name, true)
    ensures q + |name| != 14 + |agg| && q + |name| != 14 + |agg| + 1
  {
    var y, e := 14 + |agg|, q + |name|;
    assert CharEq(s[e - 1], name[|name| - 1], true);
    if e == y {
      forall i | 0 <= i < |name| ensures CharEq(agg[q - 14 + i], name[i], true) {
        assert s[q + i] == agg[q + i - 14];
      }
      assert LitAt(agg, q - 14, name, true);
    }
  }

  /** The facts the `export\s+const\s+NAME` part of a match gives about where the name starts. */
  lemma AfterNameFacts(s: string, p: nat, name: string, at: nat -> Option<nat>) returns (k: nat)
    requires AfterName(s, p, name, true, at).Some?
    ensures at(k + |name|).Some? && LitAt(s, k, name, true) && p + 13 <= k && LitAt(s, p, "export", true)
  {
    k := NameStart(s, p, name, true, Succeeds(at)).value;
  }

  /** The rest of the lookup regex begins with `\s*=\s*{`. */
  lemma LookupRestOpens(s: string, e: nat)
    requires LookupRests(s)(e).Some?
    ensures AssignOpen(s, e, '{').Some?
  {
    assert LookupRests(s)(e) == LookupRest(s, e);
  }

  /** In the aggregate export, the rest of the lookup regex can only succeed right after the
      aggregate's name or at the space after it. */
  lemma RestsInAggregate(s: string, agg: string, name: string)
    requires AggregateShape(s, agg, name)
    ensures forall e: nat :: LookupRests(s)(e).Some? ==> e == 14 + |agg| || e == 14 + |agg| + 1
  {
    forall e: nat | LookupRests(s)(e).Some? ensures e == 14 + |agg| || e == 14 + |agg| + 1 {
      LookupRestOpens(s, e);
      AssignOpenInAggregate(s, agg, name, e);
    }
  }

  /** No `export const NAME` in the aggregate export is followed where the rest could succeed. */
  lemma AfterNameInAggregate(s: string, agg: string, name: string, p: nat, at: nat -> Option<nat>)
    requires AggregateShape(s, agg, name) && Apart(agg, name)
    requires forall e: nat :: at(e).Some? ==> e == 14 + |agg| || e == 14 + |agg| + 1
    ensures AfterName(s, p, name, true, at).None?
  {
    if AfterName(s, p, name, true, at).Some? {
      var k := AfterNameFacts(s, p, name, at);
      assert CharEq(s[p], "export"[0], true);
      assert p != 0;
      NameNotBeforeAssign(s, agg, name, k);
      assert false;
    }
  }

  /** The lookup regex never matches in the aggregate export: the only `NAME = {` it holds is the
      aggregate's own. */
  lemma AggregateNoLookupAt(s: string, agg: string, name: string, p: nat)
    requires AggregateShape(s, agg, name) && Apart(agg, name)
    ensures LookupAt(s, p, name).None?
  {
    RestsInAggregate(s, agg, name);
    AfterNameInAggregate(s, agg, name, p, LookupRests(s));
  }

  /** After create has replaced a flat declaration by the aggregate export, the lookup does not
      find the component. */
  lemma AggregateHidesName(agg: string, name: string)
    requires Word(agg) && Word(name) && Apart(agg, name)
    ensures FindComponent(AggregateDeclaration(agg, name), name).None?
  {
    var s := AggregateDeclaration(agg, name);
    AggregateShapeOf(agg, name);
    forall p: nat | p <= |s| ensures LookupAt(s, p, name).None? {
      AggregateNoLookupAt(s, agg, name, p);
    }
  }

  // ---------------------------------------------------------------- nested styles

  /** The characters of `{\n  _icon: {}\n}`. */
  lemma IconChars()
    ensures var st := "{\n  _icon: {}\n}";
      |st| == 15 && st[0] == '{' && st[1] == '\n' && st[2] == ' ' && st[3] == ' '
      && st[4] == '_' && st[5] == 'i' && st[6] == 'c' && st[7] == 'o' && st[8] == 'n'
      && st[9] == ':' && st[10] == ' ' && st[11] == '{' && st[12] == '}' && st[13] == '\n' && st[14] == '}'
  {
    var a, b, c, d := "{\n  ", "_icon", ": {}", "\n}";
    assert "{\n  _icon: {}\n}" == a + b + c + d;
    assert a[0] == '{' && a[1] == '\n' && a[2] == ' ' && a[3] == ' ';
    assert b[0] == '_' && b[1] == 'i' && b[2] == 'c' && b[3] == 'o' && b[4] == 'n';
    assert c[0] == ':' && c[1] == ' ' && c[2] == '{' && c[3] == '}';
    assert d[0] == '\n' && d[1] == '}';
  }

  /** `\nexport const NAME = {\n  _icon: {}\n};\n`, character by character, at the start of `s`. */
  predicate NestedPrefix(s: string, name: string) {
    var x := 14 + |name|;
    Word(name) && |s| >= x + 20 && s[0] == '\n' && Header(s, 1)
    && (forall i :: 14 <= i < x ==> s[i] == name[i - 14])
    && s[x] == ' ' && s[x + 1] == '=' && s[x + 2] == ' '
    && s[x + 3] == '{' && s[x + 4] == '\n' && s[x + 5] == ' ' && s[x + 6] == ' '
    && s[x + 7] == '_' && s[x + 8] == 'i' && s[x + 9] == 'c' && s[x + 10] == 'o' && s[x + 11] == 'n'
    && s[x + 12] == ':' && s[x + 13] == ' ' && s[x + 14] == '{' && s[x + 15] == '}'
    && s[x + 16] == '\n' && s[x + 17] == '}' && s[x + 18] == ';' && s[x + 19] == '\n'
  }

  lemma NestedLayout(name: string)
    requires Word(name)
    ensures var d := Declaration(name, "{\n  _icon: {}\n}");
      NestedPrefix(d, name) && |d| == 14 + |name| + 20
  {
    DeclarationLayout(name, "{\n  _icon: {}\n}");
    IconChars();
  }

  lemma NestedSemicolon(s: string, name: string, i: nat)
    requires NestedPrefix(s, name) && |s| == 14 + |name| + 20 && i < |s| && s[i] == ';'
    ensures i == 14 + |name| + 18
  {
  }

  lemma NestedOpenBrace(s: string, name: string, i: nat)
    requires NestedPrefix(s, name) && i < |s| && s[i] == '{'
    ensures i == 14 + |name| + 3 || i == 14 + |name| + 14 || i >= 14 + |name| + 20
  {
  }

  /** What a match of the aggregate regex guarantees: `{`, no `}` up to the first `}`, then `;`. */
  predicate FlatBlockOrNone(s: string, r: Option<Block>) {
    r.Some? ==>
      (r.value.open < r.value.close && r.value.close + 1 < |s|
       && s[r.value.open] == '{' && s[r.value.close + 1] == ';'
       && forall j :: r.value.open < j < r.value.close ==> s[j] != '}')
  }

  lemma AggregateTailFlat(s: string, p: nat, x: nat)
    requires p < x
    ensures FlatBlockOrNone(s, AggregateTail(s, p, x))
  {
  }

  lemma AggregateAtFlat(s: string, p: nat)
    ensures FlatBlockOrNone(s, AggregateAt(s, p))
  {
    match ConstHeader(s, p, false)
    case None =>
    case Some(w) =>
      AggregateTailFlat(s, p, w.hi);
  }

  /** No `{[^}]*};` in the nested declaration alone: between any `{` and the `;` there is a `}`. */
  lemma NestedNoFlatBlock(s: string, name: string, r: Option<Block>)
    requires NestedPrefix(s, name) && |s| == 14 + |name| + 20 && FlatBlockOrNone(s, r)
    ensures r.None?
  {
    if r.Some? {
      NestedSemicolon(s, name, r.value.close + 1);
      NestedOpenBrace(s, name, r.value.open);
    }
  }

  /** In the declaration alone, `{[^}]*}` from its brace stops at the inner `}`, which is not
      followed by `;`: the aggregate regex finds nothing. */
  lemma NestedNoAggregateAt(s: string, name: string, p: nat)
    requires NestedPrefix(s, name) && |s| == 14 + |name| + 20
    ensures AggregateAt(s, p).None?
  {
    AggregateAtFlat(s, p);
    NestedNoFlatBlock(s, name, AggregateAt(s, p));
  }

  /** Create leaves a nested declaration alone and appends the aggregate export after it. */
  lemma NestedCreated(name: string, agg: string)
    requires Word(name)
    ensures var d := Declaration(name, "{\n  _icon: {}\n}");
      AddToAggregate(d, agg, name) == d + AggregateDeclaration(agg, name)
  {
    var d := Declaration(name, "{\n  _icon: {}\n}");
    NestedLayout(name);
    forall p: nat | p <= |d| ensures AggregateAt(d, p).None? {
      NestedNoAggregateAt(d, name, p);
    }
  }

  // ---------------------------------------------------------------- the lookup after a nested create

  /** The nested declaration followed by the aggregate export. */
  predicate NestedThenAggregate(s: string, name: string) {
    var x := 14 + |name|;
    NestedPrefix(s, name) && |s| > x + 35 && s[x + 20] == '\n' && Header(s, x + 21)
  }

  lemma HeaderShift(a: string, b: string, p: nat)
    requires Header(b, p)
    ensures Header(a + b, |a| + p)
  {
    var s := a + b;
    assert s[|a| + p + 13] == b[p + 13];
  }

  lemma NestedThenAggregateOf(name: string, agg: string)
    requires Word(name) && Word(agg)
    ensures NestedThenAggregate(Declaration(name, "{\n  _icon: {}\n}") + AggregateDeclaration(agg, name), name)
  {
    var d, a := Declaration(name, "{\n  _icon: {}\n}"), AggregateDeclaration(agg, name);
    NestedLayout(name);
    AggregateShapeOf(agg, name);
    HeaderShift(d, a, 1);
    var s := d + a;
    assert s[|d|] == a[0];
    assert forall i :: 0 <= i < |d| ==> s[i] == d[i];
  }

  /** After the outer `}` and its `;`, two line breaks and then `export`: the tail succeeds. */
  lemma OuterTail(s: string, name: string)
    requires NestedThenAggregate(s, name)
    ensures var x := 14 + |name|; LookupTail(s, x + 18) == Some(x + 27)
  {
    var x := 14 + |name|;
    assert SpaceRun(s, x + 19) == 2 by {
      assert IsSpace(s[x + 19]) && IsSpace(s[x + 20]) && !IsSpace(s[x + 21]);
    }
    forall i | 0 <= i < 6 ensures CharEq(s[x + 21 + i], "export"[i], true) {
      assert i == 0 || i == 1 || i == 2 || i == 3 || i == 4 || i == 5;
    }
    assert ExportOrEnd(s, x + 19) == Some(x + 27);
  }

  /** After the inner `}` comes a line break and the outer `}`: the tail fails there. */
  lemma InnerTail(s: string, name: string)
    requires NestedThenAggregate(s, name)
    ensures var x := 14 + |name|; LookupTail(s, x + 16).None?
  {
    var x := 14 + |name|;
    OneSpace(s, x + 16);
    assert !CharEq(s[x + 17], "export"[0], true);
    assert ExportOrEnd(s, x + 16).None?;
  }

  /** The lazy body stops at the outer `}`. */
  lemma NestedBodyStops(s: string, name: string)
    requires NestedThenAggregate(s, name)
    ensures var x := 14 + |name|; FirstFrom(x + 4, |s|, BodyCloses(s)) == Some(x + 17)
  {
    var x := 14 + |name|;
    OuterTail(s, name);
    InnerTail(s, name);
    assert BodyCloses(s)(x + 17);
    forall q | x + 4 <= q < x + 17 ensures !BodyCloses(s)(q) {
      if q != x + 15 {
        assert s[q] != '}';
      }
    }
    FirstFromAt(x + 4, |s|, BodyCloses(s), x + 17);
  }

  /** The first position of [lo, hi] where f holds. */
  lemma FirstFromAt(lo: nat, hi: nat, f: nat -> bool, r: nat)
    requires lo <= r <= hi && f(r) && forall q :: lo <= q < r ==> !f(q)
    ensures FirstFrom(lo, hi, f) == Some(r)
  {
  }

  lemma NestedRest(s: string, name: string)
    requires NestedThenAggregate(s, name)
    ensures var x := 14 + |name|; LookupRest(s, x) == Some(x + 27)
  {
    var x := 14 + |name|;
    AssignOpenAt(s, x, '{');
    NestedBodyStops(s, name);
    OuterTail(s, name);
    assert LookupBody(s, x + 3) == LookupTail(s, x + 18);
  }

  /** With a one-position window, the name starts there when it fits. */
  lemma NameStartAt(s: string, p: nat, name: string, ci: bool, rest: nat -> bool, k: nat)
    requires ConstHeader(s, p, ci) == Some(Window(k, k)) && LitAt(s, k, name, ci) && rest(k + |name|)
    ensures NameStart(s, p, name, ci, rest) == Some(k)
  {
    assert Fits(s, name, ci, rest)(k);
  }

  /** In a declaration create wrote, the name starts right after `export const `. */
  lemma DeclaredNameStart(s: string, name: string, rest: nat -> bool)
    requires Header(s, 1) && 14 + |name| <= |s| && forall i :: 14 <= i < 14 + |name| ==> s[i] == name[i - 14]
    requires rest(14 + |name|)
    ensures NameStart(s, 1, name, true, rest) == Some(14)
  {
    HeaderWindow(s, 1, true);
    NameInDeclaration(s, name, true);
    NameStartAt(s, 1, name, true, rest, 14);
  }

  lemma AfterNameAt(s: string, p: nat, name: string, at: nat -> Option<nat>, k: nat)
    requires NameStart(s, p, name, true, Succeeds(at)) == Some(k)
    ensures AfterName(s, p, name, true, at) == at(k + |name|)
  {
  }

  /** The lookup regex matches the nested declaration, up to the `export` that follows it. */
  lemma NestedLookup(s: string, name: string)
    requires NestedThenAggregate(s, name)
    ensures var x := 14 + |name|; LookupAt(s, 1, name) == Some(x + 27)
  {
    var x := 14 + |name|;
    NestedRest(s, name);
    assert LookupRests(s)(x) == LookupRest(s, x);
    assert Succeeds(LookupRests(s))(x);
    DeclaredNameStart(s, name, Succeeds(LookupRests(s)));
    AfterNameAt(s, 1, name, LookupRests(s), 14);
  }

  /** After a create with nested styles, the lookup finds the component. */
  lemma NestedFound(name: string, agg: string)
    requires Word(name) && Word(agg)
    ensures FindComponent(Declaration(name, "{\n  _icon: {}\n}") + AggregateDeclaration(agg, name), name).Some?
  {
    var s := Declaration(name, "{\n  _icon: {}\n}") + AggregateDeclaration(agg, name);
    NestedThenAggregateOf(name, agg);
    NestedLookup(s, name);
  }

  // ---------------------------------------------------------------- the tools in sequence

  /** A word that does not start with an underscore passes the name validator. */
  lemma WordNameValid(name: string)
    requires Word(name) && name[0] != '_'
    ensures ValidateComponentName(name).valid
  {
    assert !IsSpace(name[0]) && name[0] != '$';
  }

  /** Both styles the sequences below use pass the styles validator. */
  lemma SampleStylesValid()
    ensures StylesVerdict(Obj([])).valid
    ensures StylesVerdict(Obj([Member("_icon", Obj([]))])).valid
  {
    assert Entries(Obj([Member("_icon", Obj([]))]))[0].key == "_icon";
    assert "_icon" !in ObjectFeatures && "_icon" != AdvancedSelectorKey && "_icon" != DynamicValuesKey;
  }

  /** A blank module holds no `export` keyword. */
  lemma BlankNoExport(s: string, p: nat)
    requires IsBlank(s)
    ensures !LitAt(s, p, "export", true)
  {
    if p + 6 <= |s| {
      assert !CharEq(s[p + 0], "export"[0], true);
    }
  }

  /** A blank module declares no component. */
  lemma BlankNoComponent(s: string, name: string)
    requires IsBlank(s)
    ensures FindComponent(s, name).None?
  {
    forall p: nat | p <= |s| ensures LookupAt(s, p, name).None? {
      BlankNoExport(s, p);
    }
  }

  /** A write leaves its text in the module it names. */
  lemma Written<T>(files: map<string, string>, o: Outcome<T>)
    requires o.Write?
    ensures o.path in Apply(files, o) && Apply(files, o)[o.path] == o.text
  {
  }

  /** With no declaration of the name in the theme module, get fails and create writes. */
  lemma AbsentCreates(stored: Option<Config>, files: map<string, string>, name: string, styles: Value, themeName: Option<string>)
    requires ValidateComponentName(name).valid && StylesVerdict(styles).valid
    requires SelectThemeFile(stored, themeName).Selected?
    requires var sel := SelectThemeFile(stored, themeName);
      sel.path in files ==> FindComponent(files[sel.path], name).None?
    ensures GetComponentStyle(stored, files, name, themeName).Failure?
    ensures CreateOutcome(stored, files, name, styles, themeName).Write?
  {
    CreateRefusesExisting(stored, files, name, styles, themeName);
  }

  /** Create in a blank module writes the declaration registered with the theme's aggregate. */
  lemma BlankCreate(stored: Option<Config>, files: map<string, string>, name: string, styles: Value, themeName: Option<string>)
    requires ValidateComponentName(name).valid && StylesVerdict(styles).valid
    requires SelectThemeFile(stored, themeName).Selected?
    requires IsBlank(ReadOrEmpty(files, SelectThemeFile(stored, themeName).path))
    ensures var sel := SelectThemeFile(stored, themeName);
      var o := CreateOutcome(stored, files, name, styles, themeName);
      o.Write? && o.path == sel.path
      && o.text == AddToAggregate(Declaration(name, StylesText(styles)), Shown(sel.theme.theme.value.name), name)
  {
    var sel := SelectThemeFile(stored, themeName);
    if sel.path in files {
      BlankNoComponent(files[sel.path], name);
    }
    AbsentCreates(stored, files, name, styles, themeName);
  }

  /** The first flat create in a blank module writes the aggregate export alone. */
  lemma FlatFirstCreate(stored: Option<Config>, files: map<string, string>, name: string, themeName: Option<string>)
    requires SelectThemeFile(stored, themeName).Selected?
    requires Word(name) && name[0] != '_'
    requires var sel := SelectThemeFile(stored, themeName);
      IsBlank(ReadOrEmpty(files, sel.path)) && Word(Shown(sel.theme.theme.value.name))
    ensures var sel := SelectThemeFile(stored, themeName);
      var o := CreateOutcome(stored, files, name, Obj([]), themeName);
      o.Write? && o.path == sel.path && o.text == AggregateDeclaration(Shown(sel.theme.theme.value.name), name)
  {
    var sel := SelectThemeFile(stored, themeName);
    WordNameValid(name);
    SampleStylesValid();
    BlankCreate(stored, files, name, Obj([]), themeName);
    EmptyStylesText();
    FlatCreated(name, Shown(sel.theme.theme.value.name));
  }

  /** Once the module holds the aggregate export alone, get fails and create writes again. */
  lemma AfterFlatCreate(stored: Option<Config>, files: map<string, string>, name: string, themeName: Option<string>)
    requires SelectThemeFile(stored, themeName).Selected?
    requires Word(name) && name[0] != '_'
    requires var sel := SelectThemeFile(stored, themeName);
      var agg := Shown(sel.theme.theme.value.name);
      Word(agg) && Apart(agg, name) && sel.path in files && files[sel.path] == AggregateDeclaration(agg, name)
    ensures GetComponentStyle(stored, files, name, themeName).Failure?
    ensures CreateOutcome(stored, files, name, Obj([]), themeName).Write?
  {
    var sel := SelectThemeFile(stored, themeName);
    AggregateHidesName(Shown(sel.theme.theme.value.name), name);
    WordNameValid(name);
    SampleStylesValid();
    AbsentCreates(stored, files, name, Obj([]), themeName);
  }

  /** Creating a flat component in a blank module writes only the aggregate export, so get then
      fails and a second create of the same name is not refused. */
  lemma CreateTwiceNotRefused(stored: Option<Config>, files: map<string, string>, name: string, themeName: Option<string>)
    requires SelectThemeFile(stored, themeName).Selected?
    requires Word(name) && name[0] != '_'
    requires var sel := SelectThemeFile(stored, themeName);
      IsBlank(ReadOrEmpty(files, sel.path)) && Word(Shown(sel.theme.theme.value.name)) && Apart(Shown(sel.theme.theme.value.name), name)
    ensures var sel := SelectThemeFile(stored, themeName);
      var o := CreateOutcome(stored, files, name, Obj([]), themeName);
      o.Write? && o.path == sel.path && o.text == AggregateDeclaration(Shown(sel.theme.theme.value.name), name)
    ensures var files' := Apply(files, CreateOutcome(stored, files, name, Obj([]), themeName));
      GetComponentStyle(stored, files', name, themeName).Failure?
      && CreateOutcome(stored, files', name, Obj([]), themeName).Write?
  {
    var sel := SelectThemeFile(stored, themeName);
    var agg := Shown(sel.theme.theme.value.name);
    var o := CreateOutcome(stored, files, name, Obj([]), themeName);
    FlatFirstCreate(stored, files, name, themeName);
    Written(files, o);
    AfterFlatCreate(stored, Apply(files, o), name, themeName);
  }

  /** The first create of a component with a nested object in a blank module writes the
      declaration followed by the aggregate export. */
  lemma NestedFirstCreate(stored: Option<Config>, files: map<string, string>, name: string, themeName: Option<string>)
    requires SelectThemeFile(stored, themeName).Selected?
    requires Word(name) && name[0] != '_'
    requires IsBlank(ReadOrEmpty(files, SelectThemeFile(stored, themeName).path))
    ensures var sel := SelectThemeFile(stored, themeName);
      var o := CreateOutcome(stored, files, name, Obj([Member("_icon", Obj([]))]), themeName);
      o.Write? && o.path == sel.path
      && o.text == Declaration(name, "{\n  _icon: {}\n}") + AggregateDeclaration(Shown(sel.theme.theme.value.name), name)
  {
    var sel := SelectThemeFile(stored, themeName);
    WordNameValid(name);
    SampleStylesValid();
    BlankCreate(stored, files, name, Obj([Member("_icon", Obj([]))]), themeName);
    IconStylesText();
    NestedCreated(name, Shown(sel.theme.theme.value.name));
  }

  /** Once the module holds the nested declaration and the aggregate export, get finds the
      component and create refuses it. */
  lemma AfterNestedCreate(stored: Option<Config>, files: map<string, string>, name: string, themeName: Option<string>)
    requires SelectThemeFile(stored, themeName).Selected?
    requires Word(name) && name[0] != '_'
    requires var sel := SelectThemeFile(stored, themeName);
      var agg := Shown(sel.theme.theme.value.name);
      Word(agg) && sel.path in files && files[sel.path] == Declaration(name, "{\n  _icon: {}\n}") + AggregateDeclaration(agg, name)
    ensures GetComponentStyle(stored, files, name, themeName).Success?
    ensures CreateOutcome(stored, files, name, Obj([Member("_icon", Obj([]))]), themeName) == Refuse(AlreadyExists(name))
  {
    var sel := SelectThemeFile(stored, themeName);
    NestedFound(name, Shown(sel.theme.theme.value.name));
    WordNameValid(name);
    SampleStylesValid();
    CreateRefusesExisting(stored, files, name, Obj([Member("_icon", Obj([]))]), themeName);
  }

  /** Creating a component with a nested object in a blank module keeps its declaration: get
      then finds it and a second create is refused as existing. */
  lemma CreateNestedTwiceRefused(stored: Option<Config>, files: map<string, string>, name: string, themeName: Option<string>)
    requires SelectThemeFile(stored, themeName).Selected?
    requires Word(name) && name[0] != '_'
    requires var sel := SelectThemeFile(stored, themeName);
      IsBlank(ReadOrEmpty(files, sel.path)) && Word(Shown(sel.theme.theme.value.name))
    ensures var sel := SelectThemeFile(stored, themeName);
      var o := CreateOutcome(stored, files, name, Obj([Member("_icon", Obj([]))]), themeName);
      o.Write? && o.path == sel.path
      && o.text == Declaration(name, "{\n  _icon: {}\n}") + AggregateDeclaration(Shown(sel.theme.theme.value.name), name)
    ensures var files' := Apply(files, CreateOutcome(stored, files, name, Obj([Member("_icon", Obj([]))]), themeName));
      GetComponentStyle(stored, files', name, themeName).Success?
      && CreateOutcome(stored, files', name, Obj([Member("_icon", Obj([]))]), themeName) == Refuse(AlreadyExists(name))
  {
    var o := CreateOutcome(stored, files, name, Obj([Member("_icon", Obj([]))]), themeName);
    NestedFirstCreate(stored, files, name, themeName);
    Written(files, o);
    AfterNestedCreate(stored, Apply(files, o), name, themeName);
  }

  /** Delete of the only declaration of a module writes a line break. */
  lemma DeleteOnly(stored: Option<Config>, files: map<string, string>, name: string, themeName: Option<string>)
    requires SelectThemeFile(stored, themeName).Selected?
    requires Word(name) && name[0] != '_'
    requires var sel := SelectThemeFile(stored, themeName);
      sel.path in files && files[sel.path] == Declaration(name, "{}")
    ensures GetComponentStyle(stored, files, name, themeName).Success?
    ensures var sel := SelectThemeFile(stored, themeName);
      var o := DeleteOutcome(stored, files, name, themeName);
      o.Write? && o.path == sel.path && o.text == "\n"
  {
    WordNameValid(name);
    FlatFound(name);
    DeleteShrinks(stored, files, name, themeName);
    FlatDeleted(name);
  }

  /** Once the module holds a line break alone, get fails and delete refuses. */
  lemma AfterDelete(stored: Option<Config>, files: map<string, string>, name: string, themeName: Option<string>)
    requires SelectThemeFile(stored, themeName).Selected?
    requires Word(name) && name[0] != '_'
    requires var sel := SelectThemeFile(stored, themeName);
      sel.path in files && files[sel.path] == "\n"
    ensures GetComponentStyle(stored, files, name, themeName).Failure?
    ensures DeleteOutcome(stored, files, name, themeName) == Refuse(ComponentNotFound(name))
  {
    WordNameValid(name);
    BlankNoComponent("\n", name);
  }

  /** Deleting the only declaration of a module leaves a line break: get then fails and a second
      delete is refused as not found. */
  lemma DeleteThenGet(stored: Option<Config>, files: map<string, string>, name: string, themeName: Option<string>)
    requires SelectThemeFile(stored, themeName).Selected?
    requires Word(name) && name[0] != '_'
    requires var sel := SelectThemeFile(stored, themeName);
      sel.path in files && files[sel.path] == Declaration(name, "{}")
    ensures GetComponentStyle(stored, files, name, themeName).Success?
    ensures var sel := SelectThemeFile(stored, themeName);
      var o := DeleteOutcome(stored, files, name, themeName);
      o.Write? && o.path == sel.path && o.text == "\n"
    ensures var files' := Apply(files, DeleteOutcome(stored, files, name, themeName));
      GetComponentStyle(stored, files', name, themeName).Failure?
      && DeleteOutcome(stored, files', name, themeName) == Refuse(ComponentNotFound(name))
  {
    var o := DeleteOutcome(stored, files, name, themeName);
    DeleteOnly(stored, files, name, themeName);
    Written(files, o);
    AfterDelete(stored, Apply(files, o), name, themeName);
  }
}
