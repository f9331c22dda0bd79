/** JSON values as the tools receive them (parsed arguments) and `JSON.stringify`. */
module Json {
  import opened Text
  import opened Search

  /** A value parsed from JSON. Object members are listed in `Object.keys` order. */
  datatype Value =
    | Null
    | Bool(b: bool)
    | Num(n: int)
    | Str(s: string)
    | Arr(items: seq<Value>)
    | Obj(members: seq<Member>)

  datatype Member = Member(key: string, value: Value)

  /** `typeof v === 'object'` (true of null, arrays and objects). */
  predicate IsObjectLike(v: Value) {
    v.Null? || v.Arr? || v.Obj?
  }

  /** `Object.keys(v)` of an array or an object: the indices, or the member names. */
  function Keys(v: Value): (ks: seq<string>)
    requires v.Arr? || v.Obj?
    ensures v.Obj? ==> |ks| == |v.members| && forall i :: 0 <= i < |ks| ==> ks[i] == v.members[i].key
    ensures v.Arr? ==> |ks| == |v.items| && forall i :: 0 <= i < |ks| ==> ks[i] == DigitString(i)
  {
    if v.Obj? then seq(|v.members|, i requires 0 <= i < |v.members| => v.members[i].key)
    else seq(|v.items|, i requires 0 <= i < |v.items| => DigitString(i))
  }

  /** `Object.entries(v)` of an array or an object. */
  function Entries(v: Value): (es: seq<Member>)
    requires v.Arr? || v.Obj?
    ensures |es| == |Keys(v)| && forall i :: 0 <= i < |es| ==> es[i].key == Keys(v)[i]
  {
    if v.Obj? then v.members
    else seq(|v.items|, i requires 0 <= i < |v.items| => Member(DigitString(i), v.items[i]))
  }

  function HexDigit(d: nat): char
    requires d < 16
  {
    if d < 10 then (48 + d) as char else (87 + d) as char
  }

  /** How QuoteJSONString writes one character. */
  function EscapeChar(c: char): string {
    if c == '"' then "\\\""
    else if c == '\\' then "\\\\"
    else if c == '\U{8}' then "\\b"
    else if c == '\t' then "\\t"
    else if c == '\n' then "\\n"
    else if c == '\U{C}' then "\\f"
    else if c == '\r' then "\\r"
    else if (c as int) < 0x20 then "\\u00" + [HexDigit(c as nat / 16), HexDigit(c as nat % 16)]
    else [c]
  }

  function Escape(s: string): string {
    if s == [] then "" else EscapeChar(s[0]) + Escape(s[1..])
  }

  /** QuoteJSONString */
  function Quote(s: string): string {
    "\"" + Escape(s) + "\""
  }

  /** `JSON.stringify(v, null, gap)` for a value nested at indentation `indent` (finite integers
      only: numbers are written in decimal). */
  function Stringify(v: Value, indent: string, gap: string): string
    decreases v
  {
    match v
    case Null => "null"
    case Bool(b) => if b then "true" else "false"
    case Num(n) => IntString(n)
    case Str(s) => Quote(s)
    case Arr(items) =>
      if items == [] then "[]"
      else
        var inner := indent + gap;
        var parts := seq(|items|, i requires 0 <= i < |items| => Stringify(items[i], inner, gap));
        Wrap("[", parts, "]", indent, inner, gap)
    case Obj(members) =>
      if members == [] then "{}"
      else
        var inner := indent + gap;
        var colon := if gap == "" then ":" else ": ";
        var parts := seq(|members|, i requires 0 <= i < |members| =>
          Quote(members[i].key) + colon + Stringify(members[i].value, inner, gap));
        Wrap("{", parts, "}", indent, inner, gap)
  }

  /** The text of a string starts and ends with a quote, and that of an array or an object with
      its brackets or braces; no value is written as empty text. */
  lemma StringifyDelimited(v: Value, indent: string, gap: string)
    ensures var r := Stringify(v, indent, gap);
      r != [] &&
      (v.Str? ==> r[0] == '"' && r[|r| - 1] == '"') &&
      (v.Arr? ==> r[0] == '[' && r[|r| - 1] == ']') &&
      (v.Obj? ==> r[0] == '{' && r[|r| - 1] == '}')
  {
  }

  /** QuoteJSONString writes a line feed as `\n`, so no escaped character is a line break. */
  lemma EscapeOneLine(s: string)
    ensures !Contains(Escape(s), '\n')
  {
    if s != [] {
      var e := EscapeChar(s[0]);
      ContainsIndex(e, '\n');
      EscapeOneLine(s[1..]);
      ContainsAppend(e, Escape(s[1..]), '\n');
    }
  }

  /** `JSON.stringify` without a gap writes no line break: strings escape theirs and the
      containers are laid out on one line. */
  lemma {:induction false} CompactOneLine(v: Value, indent: string)
    ensures !Contains(Stringify(v, indent, ""), '\n')
    decreases v
  {
    match v
    case Null => ContainsIndex("null", '\n');
    case Bool(b) => ContainsIndex("true", '\n'); ContainsIndex("false", '\n');
    case Num(n) => ContainsIndex(IntString(n), '\n');
    case Str(str) => QuoteOneLine(str);
    case Arr(items) =>
      if items != [] {
        var inner := indent + "";
        var parts := seq(|items|, i requires 0 <= i < |items| => Stringify(items[i], inner, ""));
        forall i | 0 <= i < |parts| ensures !Contains(parts[i], '\n') {
          CompactOneLine(items[i], inner);
        }
        BracketsOneLine("[", parts, "]", indent, inner);
        assert Stringify(v, indent, "") == Wrap("[", parts, "]", indent, inner, "");
      }
    case Obj(members) =>
      if members != [] {
        var inner := indent + "";
        var parts := seq(|members|, i requires 0 <= i < |members| =>
          Quote(members[i].key) + ":" + Stringify(members[i].value, inner, ""));
        forall i | 0 <= i < |parts| ensures !Contains(parts[i], '\n') {
          CompactOneLine(members[i].value, inner);
          QuoteOneLine(members[i].key);
          ContainsIndex(":", '\n');
          ContainsAppend(Quote(members[i].key), ":", '\n');
          ContainsAppend(Quote(members[i].key) + ":", Stringify(members[i].value, inner, ""), '\n');
        }
        BracketsOneLine("{", parts, "}", indent, inner);
        assert Stringify(v, indent, "") == Wrap("{", parts, "}", indent, inner, "");
      }
  }

  lemma QuoteOneLine(s: string)
    ensures !Contains(Quote(s), '\n')
  {
    EscapeOneLine(s);
    ContainsIndex("\"", '\n');
    ContainsAppend("\"", Escape(s), '\n');
    ContainsAppend("\"" + Escape(s), "\"", '\n');
  }

  lemma BracketsOneLine(open: string, parts: seq<string>, close: string, indent: string, inner: string)
    requires open == "[" || open == "{"
    requires close == "]" || close == "}"
    requires forall i :: 0 <= i < |parts| ==> !Contains(parts[i], '\n')
    ensures !Contains(Wrap(open, parts, close, indent, inner, ""), '\n')
  {
    ContainsIndex(",", '\n');
    JoinKeepsOut(parts, ",", '\n');
    ContainsIndex(open, '\n');
    ContainsIndex(close, '\n');
    ContainsAppend(open, Join(parts, ","), '\n');
    ContainsAppend(open + Join(parts, ","), close, '\n');
  }

  /** The layout SerializeJSONObject and SerializeJSONArray share for a non-empty container. */
  function Wrap(open: string, parts: seq<string>, close: string, indent: string, inner: string, gap: string): string {
    if gap == "" then open + Join(parts, ",") + close
    else open + "\n" + inner + Join(parts, ",\n" + inner) + "\n" + indent + close
  }

  /** `JSON.stringify(v)` */
  function Compact(v: Value): string {
    Stringify(v, "", "")
  }

  /** `JSON.stringify(v, null, 2)` */
  function Pretty(v: Value): string {
    Stringify(v, "", "  ")
  }

  /** `String(v)`, as a template literal prints a value. */
  function Show(v: Value): string
    decreases v
  {
    match v
    case Null => "null"
    case Bool(b) => if b then "true" else "false"
    case Num(n) => IntString(n)
    case Str(s) => s
    case Arr(items) =>
      Join(seq(|items|, i requires 0 <= i < |items| => if items[i].Null? then "" else Show(items[i])), ",")
    case Obj(_) => "[object Object]"
  }

  /** `s.replace(/\n/g, '\n  ')`: every line after the first indented by two spaces. */
  function IndentLines(s: string): (r: string)
    ensures !Contains(s, '\n') ==> r == s
  {
    if s == [] then ""
    else
      var r := (if s[0] == '\n' then "\n  " else [s[0]]) + IndentLines(s[1..]);
      assert !Contains(s, '\n') ==> r == s by {
        if !Contains(s, '\n') {
          assert CharAt(s, 0) != '\n';
          ContainsSlice(s, 1, |s|, '\n');
          assert s[1..] == s[1..|s|];
        }
      }
      r
  }

  /** The regex `/"([^"]+)":/` at p: the end of the match (the group is s[p + 1..end - 2]). */
  function QuotedKeyAt(s: string, p: nat): (r: Option<nat>)
    ensures r.Some? ==> p + 4 <= r.value <= |s| && s[p] == '"' && s[r.value - 2] == '"' && s[r.value - 1] == ':'
    ensures r.Some? ==> forall i :: p < i < r.value - 2 ==> s[i] != '"'
  {
    if p < |s| && s[p] == '"' then
      // `[^"]+` is followed by `"`, so giving characters back cannot help: only the full run fits.
      var q := p + 1 + Run(s, p + 1, c => c != '"');
      if q > p + 1 && q + 1 < |s| && s[q] == '"' && s[q + 1] == ':' then Some(q + 2) else None
    else None
  }

  function QuotedKeyAts(s: string): nat -> Option<nat> {
    (p: nat) => QuotedKeyAt(s, p)
  }

  /** The template `$1:` for the match s[p..e]. */
  function Unquoted(s: string): (nat, nat) -> string {
    (p: nat, e: nat) => if p + 4 <= e <= |s| then Substitute("$1:", s[p..e], s[..p], s[e..], [s[p + 1..e - 2]]) else ""
  }

  /** The global replace of `/"([^"]+)":/g` by `$1:`, from position `from` on. */
  function UnquoteFrom(s: string, from: nat): (r: string)
    requires from <= |s|
    ensures |r| <= |s| - from
  {
    assert forall p: nat, e: nat :: p + 4 <= e <= |s| ==> Unquoted(s)(p, e) == s[p + 1..e - 2] + ":" by {
      forall p: nat, e: nat | p + 4 <= e <= |s| ensures Unquoted(s)(p, e) == s[p + 1..e - 2] + ":" {
        SubstituteFirstGroup(":", s[p..e], s[..p], s[e..], [s[p + 1..e - 2]]);
      }
    }
    ReplaceAllShrinks(s, from, QuotedKeyAts(s), Unquoted(s));
    ReplaceAll(s, from, QuotedKeyAts(s), Unquoted(s))
  }

  /** `JSON.stringify(styles, null, 2).replace(/"([^"]+)":/g, '$1:')`: the quotes dropped from every
      `"key":` the scan meets (UnquoteStep); a text without quotes is left as it is. */
  function UnquoteKeys(s: string): (r: string)
    ensures |r| <= |s|
    ensures !Contains(s, '"') ==> r == s
  {
    assert !Contains(s, '"') ==> UnquoteFrom(s, 0) == s by {
      if !Contains(s, '"') {
        ContainsIndex(s, '"');
        UnquoteRest(s, 0);
        assert s[0..] == s;
      }
    }
    UnquoteFrom(s, 0)
  }

  /** The first `"key":` from `from` on is at p: the text before it is kept, the key loses its
      quotes and keeps its colon, and the scan goes on after the colon. */
  lemma UnquoteStep(s: string, from: nat, p: nat)
    requires from <= p <= |s| && QuotedKeyAt(s, p).Some?
    requires forall q: nat :: from <= q < p ==> QuotedKeyAt(s, q).None?
    ensures var e := QuotedKeyAt(s, p).value;
      UnquoteFrom(s, from) == s[from..p] + s[p + 1..e - 2] + ":" + UnquoteFrom(s, e)
  {
    var e := QuotedKeyAt(s, p).value;
    var at, repl := QuotedKeyAts(s), Unquoted(s);
    assert at(p) == Some(e);
    UnquotedAt(s, p, e);
    QuotedKeysNonEmpty(s);
    ReplaceAllFirst(s, from, at, repl, p);
    assert UnquoteFrom(s, from) == ReplaceAll(s, from, at, repl);
    assert UnquoteFrom(s, e) == ReplaceAll(s, e, at, repl);
  }

  lemma QuotedKeysNonEmpty(s: string)
    ensures NonEmptyMatches(s, QuotedKeyAts(s))
  {
  }

  /** The template `$1:` applied to the match s[p..e] gives the key without its quotes. */
  lemma UnquotedAt(s: string, p: nat, e: nat)
    requires p + 4 <= e <= |s|
    ensures Unquoted(s)(p, e) == s[p + 1..e - 2] + ":"
  {
    SubstituteFirstGroup(":", s[p..e], s[..p], s[e..], [s[p + 1..e - 2]]);
  }

  /** With no quote from `from` on, the rest of the text is kept. */
  lemma UnquoteRest(s: string, from: nat)
    requires from <= |s|
    requires forall q :: from <= q < |s| ==> s[q] != '"'
    ensures UnquoteFrom(s, from) == s[from..]
  {
    ReplaceAllNoMatch(s, from, QuotedKeyAts(s), Unquoted(s));
  }

  /** A text with a single quoted key: the key loses its quotes and everything else is kept. */
  lemma UnquoteOneKey(a: string, k: string, b: string)
    requires k != [] && !Contains(a, '"') && !Contains(k, '"') && !Contains(b, '"')
    ensures UnquoteKeys(a + "\"" + k + "\":" + b) == a + k + ":" + b
  {
    var s := a + "\"" + k + "\":" + b;
    var p, e := |a|, |a| + |k| + 3;
    OneKeyAt(a, k, b);
    OneKeyParts(a, k, b);
    SingleKey(s, p, e, a, k, b);
  }

  /** A text whose only `"key":` is at p, with no quote after it: the text a before it, its key k
      and the text b after it. */
  lemma SingleKey(s: string, p: nat, e: nat, a: string, k: string, b: string)
    requires p <= |s| && QuotedKeyAt(s, p) == Some(e)
    requires forall q: nat :: q < p ==> QuotedKeyAt(s, q).None?
    requires forall i :: e <= i < |s| ==> s[i] != '"'
    requires s[0..p] == a && s[p + 1..e - 2] == k && s[e..] == b
    ensures UnquoteKeys(s) == a + k + ":" + b
  {
    UnquoteStep(s, 0, p);
    UnquoteRest(s, e);
  }

  lemma OneKeyParts(a: string, k: string, b: string)
    requires !Contains(b, '"')
    ensures var s, p, e := a + "\"" + k + "\":" + b, |a|, |a| + |k| + 3;
      s[0..p] == a && s[p + 1..e - 2] == k && s[e..] == b && forall i :: e <= i < |s| ==> s[i] != '"'
  {
    ContainsIndex(b, '"');
    var s, p, e := a + "\"" + k + "\":" + b, |a|, |a| + |k| + 3;
    assert forall i :: e <= i < |s| ==> s[i] == b[i - e];
  }

  /** Where the single quoted key of such a text is matched. */
  lemma OneKeyAt(a: string, k: string, b: string)
    requires k != [] && !Contains(a, '"') && !Contains(k, '"')
    ensures var s := a + "\"" + k + "\":" + b;
      QuotedKeyAt(s, |a|) == Some(|a| + |k| + 3) && forall r: nat :: r < |a| ==> QuotedKeyAt(s, r).None?
  {
    ContainsIndex(a, '"');
    ContainsIndex(k, '"');
    var s := a + "\"" + k + "\":" + b;
    var p, q := |a|, |a| + 1 + |k|;
    assert forall i :: 0 <= i < p ==> s[i] == a[i];
    assert forall i :: p < i < q ==> s[i] == k[i - p - 1];
    assert s[p] == '"' && s[q] == '"' && s[q + 1] == ':';
    assert Run(s, p + 1, c => c != '"') == |k|;
  }
}
