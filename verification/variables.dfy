/** The foundations and media-query tools (src/tools/variables.ts): add, update and read the CSS
    variables of a theme's foundations module, add and list the entries of its media-query
    module. */
module Variables {
  import opened Text
  import opened Json
  import opened Types
  import opened Validators
  import opened Store
  import opened ConfigTools
  import opened ComponentScan
  import opened VariableScan

  // ---------------------------------------------------------------- theme selection

  /** The two modules of a theme these tools edit. */
  datatype Part = FoundationsModule | MediaQueriesModule

  function PartRef(t: Theme, part: Part): Option<ModuleRef> {
    match part
    case FoundationsModule => t.foundations
    case MediaQueriesModule => t.mediaQueries
  }

  /** `theme.foundations?.path` (or `theme.mediaQueries?.path`) is truthy. */
  predicate HasPart(t: Theme, part: Part) {
    PartRef(t, part).Some? && Truthy(PartRef(t, part).value.path)
  }

  /** The name the module's declaration carries, as a template literal prints it. */
  function PartName(t: Theme, part: Part): string
    requires HasPart(t, part)
  {
    Shown(PartRef(t, part).value.name)
  }

  const NoFoundationsTail := "\" does not have foundations configured"
  const NoMediaQueriesTail := "\" does not have mediaQueries configured"

  function NotConfigured(t: Theme, part: Part): string {
    "Theme \"" + Shown(t.name) + (if part == FoundationsModule then NoFoundationsTail else NoMediaQueriesTail)
  }

  /** The steps addCSSVariable, getCSSVariables, addMediaQuery and listMediaQueries share: the
      configuration, the theme (by name, or the first) and the module's path. */
  function SelectPart(stored: Option<Config>, themeName: Option<string>, part: Part): (r: Selection)
    ensures stored.None? ==> r == NotSelected(ConfigMissing)
    ensures r.Selected? ==> stored.Some? && ChooseTheme(stored.value, themeName) == Chosen(r.theme)
    ensures r.Selected? ==> HasPart(r.theme, part) && r.path == PartRef(r.theme, part).value.path.value && r.path != ""
    ensures stored.Some? && !ChooseTheme(stored.value, themeName).Chosen? ==>
      r.error == ChooseTheme(stored.value, themeName).error && (r.Threw? <==> ChooseTheme(stored.value, themeName).Threw?)
    ensures stored.Some? && ChooseTheme(stored.value, themeName).Chosen? && !HasPart(ChooseTheme(stored.value, themeName).theme, part) ==>
      r == NotSelected(NotConfigured(ChooseTheme(stored.value, themeName).theme, part))
  {
    match GetConfig(stored)
    case Failure(e) => NotSelected(e)
    case Success(_, _) =>
      match ChooseTheme(stored.value, themeName)
      case Threw(e) => Selection.Threw(e)
      case Refused(e) => NotSelected(e)
      case Chosen(t) =>
        if HasPart(t, part) then Selected(t, PartRef(t, part).value.path.value) else NotSelected(NotConfigured(t, part))
  }

  const FoundationsNotConfigured := "Foundations configuration not found"

  /** updateCSSVariable's selection: a theme that is not found and one without a foundations
      path are both refused as "Foundations configuration not found". */
  function UpdateSelection(stored: Option<Config>, themeName: Option<string>): (r: Selection)
    ensures r.Selected? <==> SelectPart(stored, themeName, FoundationsModule).Selected?
    ensures r.Selected? ==> r == SelectPart(stored, themeName, FoundationsModule)
    ensures r.Threw? <==> SelectPart(stored, themeName, FoundationsModule).Threw?
    ensures r.NotSelected? ==> r.error == (if stored.None? then ConfigMissing else FoundationsNotConfigured)
  {
    match GetConfig(stored)
    case Failure(e) => NotSelected(e)
    case Success(_, _) =>
      match ChooseTheme(stored.value, themeName)
      case Threw(e) => Selection.Threw(e)
      case Refused(_) => NotSelected(FoundationsNotConfigured)
      case Chosen(t) =>
        if HasPart(t, FoundationsModule) then Selected(t, t.foundations.value.path.value) else NotSelected(FoundationsNotConfigured)
  }

  // ---------------------------------------------------------------- CSS variables

  /** `JSON.stringify(value)` */
  function ValueJson(v: CssValue): string {
    Compact(CssJson(v))
  }

  /** The data addCSSVariable and updateCSSVariable return. */
  datatype Variable = Variable(category: string, name: string, value: CssValue, themeName: Option<string>, path: string, cssVariable: string)

  /** `--${category}-${name}` */
  function CssVariableName(category: string, name: string): string {
    "--" + category + "-" + name
  }

  const VariableHead := "Variable \""
  const CssVariableHead := "CSS variable \""

  function Qualified(category: string, name: string): string {
    category + "." + name
  }

  // ---------------------------------------------------------------- addCSSVariable

  const AddVariableContext := "Error adding CSS variable: "
  const VariableExistsTail := "\" already exists. Use updateCSSVariable to modify it."
  const VariableAddedTail := "\" added successfully to theme \""

  function VariableExists(category: string, name: string): string {
    VariableHead + Qualified(category, name) + VariableExistsTail
  }

  function VariableAdded(category: string, name: string, t: Theme): string {
    CssVariableHead + Qualified(category, name) + VariableAddedTail + Shown(t.name) + "\""
  }

  /** `${category}: {\n    ${entry}\n  }` */
  function NewCategory(category: string, entry: string): string {
    category + ": {\n    " + entry + "\n  }"
  }

  /** The whole module written for a blank file, or when no foundations declaration is found. */
  function FreshFoundations(f: string, category: string, entry: string): string {
    "export const " + f + " = {\n  " + NewCategory(category, entry) + "\n};\n"
  }

  /** The edit addCSSVariable makes to the foundations text `s` (declared as `f`): None when the
      category block found already has the name as a key. */
  function AddedFoundations(s: string, f: string, category: string, entry: string, name: string): Option<string> {
    if Trim(s) == "" then Some(FreshFoundations(f, category, entry))
    else match FindCategory(s, category)
      case Some(b) =>
        if HasKey(Body(s, b), name) then None else Some(AddToCategory(s, b, category, entry))
      case None =>
        match FindBracketed(s, f, '{', '}')
        case Some(m) => Some(AppendInside(s, m, AggregateEntries(Inner(s, m), NewCategory(category, entry)), '}'))
        case None => Some(FreshFoundations(f, category, entry))
  }

  /** A blank module, and one without a block for the category or the foundations declaration,
      is replaced by the fresh module; the edit is refused exactly when the category's block
      already has the name as a key. */
  lemma FoundationsCases(s: string, f: string, category: string, entry: string, name: string)
    ensures var r := AddedFoundations(s, f, category, entry, name);
      Trim(s) == "" ==> r == Some(FreshFoundations(f, category, entry))
    ensures var r := AddedFoundations(s, f, category, entry, name);
      r.None? <==> Trim(s) != "" && FindCategory(s, category).Some? && HasKey(Body(s, FindCategory(s, category).value), name)
    ensures var r := AddedFoundations(s, f, category, entry, name);
      Trim(s) != "" && FindCategory(s, category).None? && FindBracketed(s, f, '{', '}').None? ==> r == Some(FreshFoundations(f, category, entry))
  {
  }

  /** A category block holds a `$` only if the category or the entry does. */
  lemma NewCategoryLiteral(category: string, entry: string)
    requires !Contains(category, '$') && !Contains(entry, '$')
    ensures !Contains(NewCategory(category, entry), '$')
  {
    var open, close := ": {\n    ", "\n  }";
    ContainsIndex(open, '$');
    ContainsIndex(close, '$');
    ContainsAppend(category, open, '$');
    ContainsAppend(category + open, entry, '$');
    ContainsAppend(category + open + entry, close, '$');
  }

  /** A module with no block for the category but with the foundations declaration: the new
      block is appended to the declaration's object after its trimmed entries, and the text up to
      the object's opening brace and after the declaration is kept. */
  lemma NewCategoryInFoundations(s: string, f: string, category: string, entry: string, name: string, m: Bracketed)
    requires Trim(s) != "" && FindCategory(s, category).None? && FindBracketed(s, f, '{', '}') == Some(m)
    requires !Contains(s, '$') && !Contains(category, '$') && !Contains(entry, '$')
    ensures var inner := Inner(s, m);
      AddedFoundations(s, f, category, entry, name)
        == Some(s[..m.open + 1] + (if Trim(inner) != "" then Trim(inner) + "," else "") + "\n  " + NewCategory(category, entry) + "\n};" + s[m.end..])
  {
    NewCategoryBranch(s, f, category, entry, name, m);
    AppendCategory(s, m, category, entry);
  }

  lemma NewCategoryBranch(s: string, f: string, category: string, entry: string, name: string, m: Bracketed)
    requires Trim(s) != "" && FindCategory(s, category).None? && FindBracketed(s, f, '{', '}') == Some(m)
    ensures m.start <= m.open < m.close < m.end <= |s|
    ensures AddedFoundations(s, f, category, entry, name) == Some(AppendInside(s, m, AggregateEntries(Inner(s, m), NewCategory(category, entry)), '}'))
  {
  }

  lemma AppendCategory(s: string, m: Bracketed, category: string, entry: string)
    requires m.start <= m.open < m.close < m.end <= |s|
    requires !Contains(s, '$') && !Contains(category, '$') && !Contains(entry, '$')
    ensures var inner := Inner(s, m);
      AppendInside(s, m, AggregateEntries(inner, NewCategory(category, entry)), '}')
        == s[..m.open + 1] + (if Trim(inner) != "" then Trim(inner) + "," else "") + "\n  " + NewCategory(category, entry) + "\n};" + s[m.end..]
  {
    var inner := Inner(s, m);
    var block := NewCategory(category, entry);
    ContainsSlice(s, m.open + 1, m.close, '$');
    NewCategoryLiteral(category, entry);
    EntriesLiteral(inner, block);
    AppendInsideInPlace(s, m, AggregateEntries(inner, block), '}');
    var p := if Trim(inner) != "" then Trim(inner) + "," else "";
    EntriesThenItem(inner, block);
    Regroup(s[..m.open + 1], AggregateEntries(inner, block), p, "\n  ", block, '}', s[m.end..]);
    ClosingLiteral(s[..m.open + 1] + p + "\n  " + block, s[m.end..]);
  }

  /** A module whose block for the category lacks the name: the block is rewritten with the
      entry after its trimmed body, and the text before and after the block is kept. */
  lemma EntryInCategory(s: string, f: string, category: string, entry: string, name: string, b: Block)
    requires Trim(s) != "" && FindCategory(s, category) == Some(b) && !HasKey(Body(s, b), name)
    requires !Contains(s, '$') && !Contains(category, '$') && !Contains(entry, '$')
    ensures b.open < b.close < |s|
    ensures AddedFoundations(s, f, category, entry, name)
      == Some(s[..b.start] + category + ": {" + CategoryEntries(Body(s, b), entry) + "\n  }" + s[b.close + 1..])
  {
    ExistingCategoryBranch(s, f, category, entry, name, b);
    AddToCategoryShape(s, b, category, entry);
  }

  lemma AddToCategoryShape(s: string, b: Block, category: string, entry: string)
    requires b.start <= b.open < b.close < |s|
    requires !Contains(s, '$') && !Contains(category, '$') && !Contains(entry, '$')
    ensures AddToCategory(s, b, category, entry)
      == s[..b.start] + category + ": {" + CategoryEntries(Body(s, b), entry) + "\n  }" + s[b.close + 1..]
  {
    ContainsSlice(s, b.open + 1, b.close, '$');
    assert Body(s, b) == s[b.open + 1..b.close];
    CategoryBlockLiteral(category, Body(s, b), entry);
    AddToCategoryInPlace(s, b, category, entry);
  }

  lemma ExistingCategoryBranch(s: string, f: string, category: string, entry: string, name: string, b: Block)
    requires Trim(s) != "" && FindCategory(s, category) == Some(b) && !HasKey(Body(s, b), name)
    ensures b.start <= b.open < b.close < |s|
    ensures AddedFoundations(s, f, category, entry, name) == Some(AddToCategory(s, b, category, entry))
  {
  }

  /** A rewritten category block holds a `$` only if the category, the old body or the entry
      does. */
  lemma CategoryBlockLiteral(category: string, body: string, entry: string)
    requires !Contains(category, '$') && !Contains(body, '$') && !Contains(entry, '$')
    ensures !Contains(CategoryBlock(category, body, entry), '$')
  {
    var entries := CategoryEntries(body, entry);
    TrimKeepsOut(body, '$');
    var sep := if Trim(body) != "" then ",\n    " else "\n    ";
    var lead := if Trim(body) != "" then Trim(body) else "";
    assert entries == lead + sep + entry;
    ContainsIndex(sep, '$');
    ContainsIndex("", '$');
    ContainsAppend(lead, sep, '$');
    ContainsAppend(lead + sep, entry, '$');
    var open, close := ": {", "\n  }";
    ContainsIndex(open, '$');
    ContainsIndex(close, '$');
    ContainsAppend(category, open, '$');
    ContainsAppend(category + open, entries, '$');
    ContainsAppend(category + open + entries, close, '$');
  }

  /** The entries AppendInside writes: the old ones trimmed and followed by a comma, if any, then
      the new item on a line of its own. */
  lemma EntriesThenItem(inner: string, item: string)
    ensures AggregateEntries(inner, item) == (if Trim(inner) != "" then Trim(inner) + "," else "") + "\n  " + item
  {
  }

  lemma Regroup(a: string, u: string, b: string, c: string, d: string, close: char, rest: string)
    requires u == b + c + d
    ensures a + u + "\n" + [close] + ";" + rest == a + b + c + d + "\n" + [close] + ";" + rest
  {
  }

  lemma ClosingLiteral(x: string, rest: string)
    ensures x + "\n" + ['}'] + ";" + rest == x + "\n};" + rest
    ensures x + "\n" + [']'] + ";" + rest == x + "\n];" + rest
  {
    assert "\n" + ['}'] + ";" == "\n};";
    assert "\n" + [']'] + ";" == "\n];";
  }

  /** addCSSVariable once the theme and its foundations path are chosen: the edit of the module's
      text (empty when the file is missing), or the refusal of a name its category already has. */
  function AddVariableTo(files: map<string, string>, theme: Theme, path: string, category: string, name: string, value: CssValue): Outcome<Variable>
    requires HasPart(theme, FoundationsModule)
  {
    match AddedFoundations(ReadOrEmpty(files, path), PartName(theme, FoundationsModule), category, Entry(name, ValueJson(value)), name)
    case None => Refuse(VariableExists(category, name))
    case Some(text) => Write(path, text, Some(Variable(category, name, value, theme.name, path, CssVariableName(category, name))), VariableAdded(category, name, theme))
  }

  /** The edit is refused, with the duplicate message, exactly when the module exists and already
      has the variable; a missing module becomes the fresh one. */
  lemma AddVariableToCases(files: map<string, string>, theme: Theme, path: string, category: string, name: string, value: CssValue)
    requires HasPart(theme, FoundationsModule)
    ensures var o := AddVariableTo(files, theme, path, category, name, value);
      o.Refuse? <==> path in files && AddedFoundations(files[path], PartName(theme, FoundationsModule), category, Entry(name, ValueJson(value)), name).None?
    ensures var o := AddVariableTo(files, theme, path, category, name, value);
      o.Refuse? ==> o.error == VariableExists(category, name)
    ensures var o := AddVariableTo(files, theme, path, category, name, value);
      path !in files ==> o.Write? && o.text == FreshFoundations(PartName(theme, FoundationsModule), category, Entry(name, ValueJson(value)))
  {
    assert Trim("") == "";
  }

  /** A write goes to the given path and carries the variable record and the success message. */
  lemma AddVariableToWritten(files: map<string, string>, theme: Theme, path: string, category: string, name: string, value: CssValue)
    requires HasPart(theme, FoundationsModule)
    ensures var o := AddVariableTo(files, theme, path, category, name, value);
      o.Write? ==> o == Write(path, o.text, Some(Variable(category, name, value, theme.name, path, CssVariableName(category, name))), VariableAdded(category, name, theme))
  {
  }

  /** The checks of addCSSVariable in order: the variable, the configuration, the theme, its
      foundations path; then the edit. */
  function AddVariableOutcome(stored: Option<Config>, files: map<string, string>, category: string, name: string, value: CssValue, themeName: Option<string>): (o: Outcome<Variable>)
    ensures !ValidateCSSVariable(category, name, value).valid ==> o == Refuse(ErrorText(ValidateCSSVariable(category, name, value)))
    ensures var sel := SelectPart(stored, themeName, FoundationsModule);
      ValidateCSSVariable(category, name, value).valid && sel.NotSelected? ==> o == Refuse(sel.error)
    ensures var sel := SelectPart(stored, themeName, FoundationsModule);
      ValidateCSSVariable(category, name, value).valid && sel.Threw? ==> o == Refuse(AddVariableContext + sel.error)
    ensures o.Write? ==> SelectPart(stored, themeName, FoundationsModule).Selected? && o.path == SelectPart(stored, themeName, FoundationsModule).path
    ensures var sel := SelectPart(stored, themeName, FoundationsModule);
      ValidateCSSVariable(category, name, value).valid && sel.Selected? ==> o == AddVariableTo(files, sel.theme, sel.path, category, name, value)
  {
    var verdict := ValidateCSSVariable(category, name, value);
    if !verdict.valid then Refuse(ErrorText(verdict))
    else match SelectPart(stored, themeName, FoundationsModule)
      case NotSelected(e) => Refuse(e)
      case Threw(e) => Refuse(AddVariableContext + e)
      case Selected(theme, path) =>
        AddVariableToCases(files, theme, path, category, name, value);
        AddVariableToWritten(files, theme, path, category, name, value);
        AddVariableTo(files, theme, path, category, name, value)
  }

  /** The successive reassignments of the foundations text in addCSSVariable. */
  method EditFoundations(s: string, f: string, category: string, entry: string, name: string) returns (edited: Option<string>)
    ensures edited == AddedFoundations(s, f, category, entry, name)
  {
    var content := s;
    if Trim(content) == "" {
      content := FreshFoundations(f, category, entry);
    } else {
      var categoryMatch := FindCategory(content, category);
      if categoryMatch.Some? {
        if HasKey(Body(content, categoryMatch.value), name) {
          return None;
        }
        content := AddToCategory(content, categoryMatch.value, category, entry);
      } else {
        var objectMatch := FindBracketed(content, f, '{', '}');
        if objectMatch.Some? {
          var updated := AggregateEntries(Inner(content, objectMatch.value), NewCategory(category, entry));
          content := AppendInside(content, objectMatch.value, updated, '}');
        } else {
          content := FreshFoundations(f, category, entry);
        }
      }
    }
    edited := Some(content);
  }

  /** addCSSVariable after the theme is chosen: read the module, edit it, write it back. */
  method AddVariableIn(ws: Workspace, theme: Theme, path: string, category: string, name: string, value: CssValue) returns (r: Response<Variable>)
    requires HasPart(theme, FoundationsModule)
    modifies ws
    ensures ws.config == old(ws.config)
    ensures r == Respond(AddVariableTo(old(ws.files), theme, path, category, name, value))
    ensures ws.files == Apply(old(ws.files), AddVariableTo(old(ws.files), theme, path, category, name, value))
  {
    var edited := EditFoundations(ReadOrEmpty(ws.files, path), PartName(theme, FoundationsModule), category, Entry(name, ValueJson(value)), name);
    if edited.None? {
      assert AddVariableTo(ws.files, theme, path, category, name, value) == Refuse(VariableExists(category, name));
      return Failure(VariableExists(category, name));
    }
    var content := edited.value;
    r := Success(Some(Variable(category, name, value, theme.name, path, CssVariableName(category, name))), VariableAdded(category, name, theme));
    assert AddVariableTo(ws.files, theme, path, category, name, value) == Write(path, content, r.data, r.message);
    ApplyWrite(ws.files, path, content, r.data, r.message);
    ws.files := ws.files[path := content];
  }

  /** addCSSVariable: the outcome's response, and its text written to the foundations module. */
  method AddCSSVariable(ws: Workspace, category: string, name: string, value: CssValue, themeName: Option<string>) returns (r: Response<Variable>)
    modifies ws
    ensures ws.config == old(ws.config)
    ensures r == Respond(AddVariableOutcome(old(ws.config), old(ws.files), category, name, value, themeName))
    ensures ws.files == Apply(old(ws.files), AddVariableOutcome(old(ws.config), old(ws.files), category, name, value, themeName))
  {
    var validation := ValidateCSSVariable(category, name, value);
    if !validation.valid {
      return Failure(ErrorText(validation));
    }
    var selection := SelectPart(ws.config, themeName, FoundationsModule);
    if !selection.Selected? {
      return Failure(Caught(AddVariableContext, selection));
    }
    assert AddVariableOutcome(ws.config, ws.files, category, name, value, themeName)
      == AddVariableTo(ws.files, selection.theme, selection.path, category, name, value);
    r := AddVariableIn(ws, selection.theme, selection.path, category, name, value);
  }

  // ---------------------------------------------------------------- updateCSSVariable

  const UpdateVariableContext := "Error updating CSS variable: "
  const FoundationsFileMissingHead := "Foundations file not found: "
  const VariableNotFoundTail := "\" not found. Use addCSSVariable to create it."
  const VariableUpdatedTail := "\" updated successfully in theme \""

  function VariableNotFound(category: string, name: string): string {
    VariableHead + Qualified(category, name) + VariableNotFoundTail
  }

  function VariableUpdated(category: string, name: string, t: Theme): string {
    CssVariableHead + Qualified(category, name) + VariableUpdatedTail + Shown(t.name) + "\""
  }

  /** The checks of updateCSSVariable in order (the variable, the configuration, the theme and its
      foundations path, the file, the variable regex), then the replacement of the value. */
  function UpdateVariableOutcome(stored: Option<Config>, files: map<string, string>, category: string, name: string, value: CssValue, themeName: Option<string>): (o: Outcome<Variable>)
    ensures !ValidateCSSVariable(category, name, value).valid ==> o == Refuse(ErrorText(ValidateCSSVariable(category, name, value)))
    ensures var sel := UpdateSelection(stored, themeName);
      ValidateCSSVariable(category, name, value).valid && !sel.Selected? ==> o == Refuse(Caught(UpdateVariableContext, sel))
    ensures var sel := UpdateSelection(stored, themeName);
      ValidateCSSVariable(category, name, value).valid && sel.Selected? && sel.path !in files ==> o == Refuse(FoundationsFileMissingHead + sel.path)
    ensures var sel := UpdateSelection(stored, themeName);
      ValidateCSSVariable(category, name, value).valid && sel.Selected? && sel.path in files && FindValue(files[sel.path], category, name).None? ==>
        o == Refuse(VariableNotFound(category, name))
    ensures o.Write? <==> (ValidateCSSVariable(category, name, value).valid && UpdateSelection(stored, themeName).Selected?
      && UpdateSelection(stored, themeName).path in files && FindValue(files[UpdateSelection(stored, themeName).path], category, name).Some?)
    ensures o.Write? ==> var sel := UpdateSelection(stored, themeName);
      o.path == sel.path && o.text == ReplaceValue(files[sel.path], FindValue(files[sel.path], category, name).value, ValueJson(value))
      && o.data == Some(Variable(category, name, value, sel.theme.name, sel.path, CssVariableName(category, name)))
  {
    var verdict := ValidateCSSVariable(category, name, value);
    if !verdict.valid then Refuse(ErrorText(verdict))
    else match UpdateSelection(stored, themeName)
      case NotSelected(e) => Refuse(e)
      case Threw(e) => Refuse(UpdateVariableContext + e)
      case Selected(theme, path) =>
        if path !in files then Refuse(FoundationsFileMissingHead + path)
        else match FindValue(files[path], category, name)
          case None => Refuse(VariableNotFound(category, name))
          case Some(m) =>
            Write(path, ReplaceValue(files[path], m, ValueJson(value)),
              Some(Variable(category, name, value, theme.name, path, CssVariableName(category, name))), VariableUpdated(category, name, theme))
  }

  /** updateCSSVariable: the outcome's response, and its text written to the foundations module. */
  method UpdateCSSVariable(ws: Workspace, category: string, name: string, value: CssValue, themeName: Option<string>) returns (r: Response<Variable>)
    modifies ws
    ensures ws.config == old(ws.config)
    ensures r == Respond(UpdateVariableOutcome(old(ws.config), old(ws.files), category, name, value, themeName))
    ensures ws.files == Apply(old(ws.files), UpdateVariableOutcome(old(ws.config), old(ws.files), category, name, value, themeName))
  {
    ghost var o := UpdateVariableOutcome(ws.config, ws.files, category, name, value, themeName);
    var validation := ValidateCSSVariable(category, name, value);
    if !validation.valid {
      return Failure(ErrorText(validation));
    }
    var selection := UpdateSelection(ws.config, themeName);
    if !selection.Selected? {
      assert o == Refuse(Caught(UpdateVariableContext, selection));
      return Failure(Caught(UpdateVariableContext, selection));
    }
    var theme, path := selection.theme, selection.path;
    if path !in ws.files {
      return Failure(FoundationsFileMissingHead + path);
    }
    var content := ws.files[path];
    var found := FindValue(content, category, name);
    if found.None? {
      return Failure(VariableNotFound(category, name));
    }
    content := ReplaceValue(content, found.value, ValueJson(value));
    r := Success(Some(Variable(category, name, value, theme.name, path, CssVariableName(category, name))), VariableUpdated(category, name, theme));
    assert o == Write(path, content, r.data, r.message);
    ApplyWrite(ws.files, path, content, r.data, r.message);
    ws.files := ws.files[path := content];
  }

  // ---------------------------------------------------------------- getCSSVariables

  /** What getCSSVariables returns: an empty object, or the declaration found. */
  datatype Foundations = NoVariables | Loaded(themeName: Option<string>, path: string, content: string)

  const GetVariablesContext := "Error getting CSS variables: "
  const FoundationsFileMissing := "Foundations file not found. No variables defined yet."
  const NoVariablesFound := "No variables found"
  const LoadedFromHead := "Foundations loaded from theme \""

  function LoadedFrom(t: Theme): string {
    LoadedFromHead + Shown(t.name) + "\""
  }

  /** The selection, the file check, and the declaration regex (the same regex as the component
      tools' update, with the foundations name): what is returned is the text of the match. */
  function GetCSSVariables(stored: Option<Config>, files: map<string, string>, themeName: Option<string>): (r: Response<Foundations>)
    ensures var sel := SelectPart(stored, themeName, FoundationsModule);
      !sel.Selected? ==> r == Failure(Caught(GetVariablesContext, sel))
    ensures var sel := SelectPart(stored, themeName, FoundationsModule);
      sel.Selected? && sel.path !in files ==> r == Success(Some(NoVariables), FoundationsFileMissing)
    ensures var sel := SelectPart(stored, themeName, FoundationsModule);
      sel.Selected? && sel.path in files ==>
        var found := DeclarationMatch(files[sel.path], PartName(sel.theme, FoundationsModule));
        (found.None? ==> r == Success(Some(NoVariables), NoVariablesFound))
        && (found.Some? ==> r == Success(Some(Loaded(sel.theme.name, sel.path, found.value)), LoadedFrom(sel.theme)))
  {
    match SelectPart(stored, themeName, FoundationsModule)
    case NotSelected(e) => Failure(e)
    case Threw(e) => Failure(GetVariablesContext + e)
    case Selected(theme, path) =>
      if path !in files then Success(Some(NoVariables), FoundationsFileMissing)
      else
        match DeclarationMatch(files[path], PartName(theme, FoundationsModule))
        case None => Success(Some(NoVariables), NoVariablesFound)
        case Some(c) => Success(Some(Loaded(theme.name, path, c)), LoadedFrom(theme))
  }

  // ---------------------------------------------------------------- addMediaQuery

  /** The data addMediaQuery returns. */
  datatype MediaQuery = MediaQuery(name: string, mediaType: string, values: seq<(string, string)>, themeName: Option<string>, path: string)

  /** `{ name, type, values }` */
  function MediaObject(name: string, mediaType: string, values: seq<(string, string)>): Value {
    Obj([Member("name", Str(name)), Member("type", Str(mediaType)),
      Member("values", Obj(seq(|values|, i requires 0 <= i < |values| => Member(values[i].0, Str(values[i].1)))))])
  }

  /** `JSON.stringify(mediaQueryObject, null, 2).replace(/\n/g, '\n  ')` */
  function MediaEntry(name: string, mediaType: string, values: seq<(string, string)>): string {
    IndentLines(Pretty(MediaObject(name, mediaType, values)))
  }

  /** The whole module written for a blank file, or when no array declaration is found. */
  function FreshMediaQueries(m: string, entry: string): string {
    "export const " + m + " = [\n  " + entry + "\n];\n"
  }

  const AddMediaContext := "Error adding media query: "
  const MediaHead := "Media query \""
  const MediaExistsTail := "\" already exists"
  const MediaAddedTail := "\" added successfully to theme \""

  function MediaExists(name: string): string {
    MediaHead + name + MediaExistsTail
  }

  function MediaAdded(name: string, t: Theme): string {
    MediaHead + name + MediaAddedTail + Shown(t.name) + "\""
  }

  /** The duplicate check: `name: 'N'` or `name: "N"` occurs in the text. */
  predicate Mentions(s: string, name: string) {
    Includes(s, "name: '" + name + "'") || Includes(s, "name: \"" + name + "\"")
  }

  /** The edit addMediaQuery makes to the media-query text `s` (declared as `m`): None when the
      duplicate check fires. */
  function AddedMediaQueries(s: string, m: string, entry: string, name: string): Option<string> {
    if Trim(s) == "" then Some(FreshMediaQueries(m, entry))
    else if Mentions(s, name) then None
    else match FindBracketed(s, m, '[', ']')
      case Some(b) => Some(AppendInside(s, b, AggregateEntries(Inner(s, b), entry), ']'))
      case None => Some(FreshMediaQueries(m, entry))
  }

  /** A blank module, and one without the array declaration, is replaced by the fresh module; the
      edit is refused exactly when the duplicate check finds the name in a non-blank module. */
  lemma MediaCases(s: string, m: string, entry: string, name: string)
    ensures var r := AddedMediaQueries(s, m, entry, name);
      Trim(s) == "" ==> r == Some(FreshMediaQueries(m, entry))
    ensures var r := AddedMediaQueries(s, m, entry, name);
      r.None? <==> Trim(s) != "" && Mentions(s, name)
    ensures var r := AddedMediaQueries(s, m, entry, name);
      Trim(s) != "" && !Mentions(s, name) && FindBracketed(s, m, '[', ']').None? ==> r == Some(FreshMediaQueries(m, entry))
  {
  }

  /** A module without the query's name but with the array declaration: the entry is appended to
      the array after its trimmed items, and the text up to the opening bracket and after the
      declaration is kept. */
  lemma EntryInMediaArray(s: string, m: string, entry: string, name: string, b: Bracketed)
    requires Trim(s) != "" && !Mentions(s, name) && FindBracketed(s, m, '[', ']') == Some(b)
    requires !Contains(s, '$') && !Contains(entry, '$')
    ensures var inner := Inner(s, b);
      AddedMediaQueries(s, m, entry, name)
        == Some(s[..b.open + 1] + (if Trim(inner) != "" then Trim(inner) + "," else "") + "\n  " + entry + "\n];" + s[b.end..])
  {
    MediaArrayBranch(s, m, entry, name, b);
    AppendMediaEntry(s, b, entry);
  }

  lemma MediaArrayBranch(s: string, m: string, entry: string, name: string, b: Bracketed)
    requires Trim(s) != "" && !Mentions(s, name) && FindBracketed(s, m, '[', ']') == Some(b)
    ensures b.start <= b.open < b.close < b.end <= |s|
    ensures AddedMediaQueries(s, m, entry, name) == Some(AppendInside(s, b, AggregateEntries(Inner(s, b), entry), ']'))
  {
  }

  lemma AppendMediaEntry(s: string, b: Bracketed, entry: string)
    requires b.start <= b.open < b.close < b.end <= |s|
    requires !Contains(s, '$') && !Contains(entry, '$')
    ensures var inner := Inner(s, b);
      AppendInside(s, b, AggregateEntries(inner, entry), ']')
        == s[..b.open + 1] + (if Trim(inner) != "" then Trim(inner) + "," else "") + "\n  " + entry + "\n];" + s[b.end..]
  {
    var inner := Inner(s, b);
    ContainsSlice(s, b.open + 1, b.close, '$');
    EntriesLiteral(inner, entry);
    AppendInsideInPlace(s, b, AggregateEntries(inner, entry), ']');
    var p := if Trim(inner) != "" then Trim(inner) + "," else "";
    EntriesThenItem(inner, entry);
    Regroup(s[..b.open + 1], AggregateEntries(inner, entry), p, "\n  ", entry, ']', s[b.end..]);
    ClosingLiteral(s[..b.open + 1] + p + "\n  " + entry, s[b.end..]);
  }

  /** addMediaQuery once the theme and its mediaQueries path are chosen: the edit of the module's
      text (empty when the file is missing), or the refusal the duplicate check makes. */
  function AddMediaTo(files: map<string, string>, theme: Theme, path: string, name: string, mediaType: string, values: seq<(string, string)>): Outcome<MediaQuery>
    requires HasPart(theme, MediaQueriesModule)
  {
    match AddedMediaQueries(ReadOrEmpty(files, path), PartName(theme, MediaQueriesModule), MediaEntry(name, mediaType, values), name)
    case None => Refuse(MediaExists(name))
    case Some(text) => Write(path, text, Some(MediaQuery(name, mediaType, values, theme.name, path)), MediaAdded(name, theme))
  }

  /** The edit is refused, with the duplicate message, exactly when the module exists, is not blank
      and mentions the name; a missing module becomes the fresh one. */
  lemma AddMediaToCases(files: map<string, string>, theme: Theme, path: string, name: string, mediaType: string, values: seq<(string, string)>)
    requires HasPart(theme, MediaQueriesModule)
    ensures var o := AddMediaTo(files, theme, path, name, mediaType, values);
      o.Refuse? <==> path in files && Trim(files[path]) != "" && Mentions(files[path], name)
    ensures var o := AddMediaTo(files, theme, path, name, mediaType, values);
      o.Refuse? ==> o.error == MediaExists(name)
    ensures var o := AddMediaTo(files, theme, path, name, mediaType, values);
      path !in files ==> o.Write? && o.text == FreshMediaQueries(PartName(theme, MediaQueriesModule), MediaEntry(name, mediaType, values))
  {
    assert Trim("") == "";
  }

  /** A write goes to the given path and carries the query record and the success message. */
  lemma AddMediaToWritten(files: map<string, string>, theme: Theme, path: string, name: string, mediaType: string, values: seq<(string, string)>)
    requires HasPart(theme, MediaQueriesModule)
    ensures var o := AddMediaTo(files, theme, path, name, mediaType, values);
      o.Write? ==> o == Write(path, o.text, Some(MediaQuery(name, mediaType, values, theme.name, path)), MediaAdded(name, theme))
  {
  }

  /** The checks of addMediaQuery in order: the query, the configuration, the theme, its
      mediaQueries path; then the edit. */
  function AddMediaOutcome(stored: Option<Config>, files: map<string, string>, name: string, mediaType: string, values: seq<(string, string)>, themeName: Option<string>): (o: Outcome<MediaQuery>)
    ensures MediaErrors(name, mediaType, values) != [] ==> o == Refuse(Join(MediaErrors(name, mediaType, values), ", "))
    ensures var sel := SelectPart(stored, themeName, MediaQueriesModule);
      MediaErrors(name, mediaType, values) == [] && sel.NotSelected? ==> o == Refuse(sel.error)
    ensures var sel := SelectPart(stored, themeName, MediaQueriesModule);
      MediaErrors(name, mediaType, values) == [] && sel.Threw? ==> o == Refuse(AddMediaContext + sel.error)
    ensures o.Write? ==> SelectPart(stored, themeName, MediaQueriesModule).Selected? && o.path == SelectPart(stored, themeName, MediaQueriesModule).path
    ensures var sel := SelectPart(stored, themeName, MediaQueriesModule);
      MediaErrors(name, mediaType, values) == [] && sel.Selected? ==> o == AddMediaTo(files, sel.theme, sel.path, name, mediaType, values)
  {
    var errors := MediaErrors(name, mediaType, values);
    if errors != [] then Refuse(Join(errors, ", "))
    else match SelectPart(stored, themeName, MediaQueriesModule)
      case NotSelected(e) => Refuse(e)
      case Threw(e) => Refuse(AddMediaContext + e)
      case Selected(theme, path) =>
        AddMediaToCases(files, theme, path, name, mediaType, values);
        AddMediaToWritten(files, theme, path, name, mediaType, values);
        AddMediaTo(files, theme, path, name, mediaType, values)
  }

  /** The successive reassignments of the media-query text in addMediaQuery. */
  method EditMediaQueries(s: string, m: string, entry: string, name: string) returns (edited: Option<string>)
    ensures edited == AddedMediaQueries(s, m, entry, name)
  {
    var content := s;
    if Trim(content) == "" {
      content := FreshMediaQueries(m, entry);
    } else {
      if Mentions(content, name) {
        return None;
      }
      var arrayMatch := FindBracketed(content, m, '[', ']');
      if arrayMatch.Some? {
        var updated := AggregateEntries(Inner(content, arrayMatch.value), entry);
        content := AppendInside(content, arrayMatch.value, updated, ']');
      } else {
        content := FreshMediaQueries(m, entry);
      }
    }
    edited := Some(content);
  }

  /** addMediaQuery after the theme is chosen: read the module, edit it, write it back. */
  method AddMediaIn(ws: Workspace, theme: Theme, path: string, name: string, mediaType: string, values: seq<(string, string)>) returns (r: Response<MediaQuery>)
    requires HasPart(theme, MediaQueriesModule)
    modifies ws
    ensures ws.config == old(ws.config)
    ensures r == Respond(AddMediaTo(old(ws.files), theme, path, name, mediaType, values))
    ensures ws.files == Apply(old(ws.files), AddMediaTo(old(ws.files), theme, path, name, mediaType, values))
  {
    var edited := EditMediaQueries(ReadOrEmpty(ws.files, path), PartName(theme, MediaQueriesModule), MediaEntry(name, mediaType, values), name);
    if edited.None? {
      return Failure(MediaExists(name));
    }
    var content := edited.value;
    r := Success(Some(MediaQuery(name, mediaType, values, theme.name, path)), MediaAdded(name, theme));
    ApplyWrite(ws.files, path, content, r.data, r.message);
    ws.files := ws.files[path := content];
  }

  /** addMediaQuery: the outcome's response, and its text written to the media-query module. */
  method AddMediaQuery(ws: Workspace, name: string, mediaType: string, values: seq<(string, string)>, themeName: Option<string>) returns (r: Response<MediaQuery>)
    modifies ws
    ensures ws.config == old(ws.config)
    ensures r == Respond(AddMediaOutcome(old(ws.config), old(ws.files), name, mediaType, values, themeName))
    ensures ws.files == Apply(old(ws.files), AddMediaOutcome(old(ws.config), old(ws.files), name, mediaType, values, themeName))
  {
    var validation := ValidateMediaQuery(name, mediaType, values);
    if !validation.valid {
      return Failure(ErrorText(validation));
    }
    var selection := SelectPart(ws.config, themeName, MediaQueriesModule);
    if !selection.Selected? {
      return Failure(Caught(AddMediaContext, selection));
    }
    r := AddMediaIn(ws, selection.theme, selection.path, name, mediaType, values);
  }

  // ---------------------------------------------------------------- listMediaQueries

  const ListMediaContext := "Error listing media queries: "
  const MediaFileMissing := "Media queries file not found. No media queries defined yet."

  function MediaListedIn(n: nat, t: Theme): string {
    "Found " + IntString(n) + " media query(ies) in theme \"" + Shown(t.name) + "\""
  }

  /** What listMediaQueries returns: every name the name regex meets, in text order; a missing
      module is an empty list. */
  function MediaListOutcome(stored: Option<Config>, files: map<string, string>, themeName: Option<string>): (r: Response<seq<string>>)
    ensures var sel := SelectPart(stored, themeName, MediaQueriesModule);
      r.Success? <==> sel.Selected?
    ensures var sel := SelectPart(stored, themeName, MediaQueriesModule);
      !sel.Selected? ==> r == Failure(Caught(ListMediaContext, sel))
    ensures var sel := SelectPart(stored, themeName, MediaQueriesModule);
      sel.Selected? && sel.path !in files ==> r == Success(Some([]), MediaFileMissing)
    ensures var sel := SelectPart(stored, themeName, MediaQueriesModule);
      sel.Selected? && sel.path in files ==> r.data == Some(Named(files[sel.path], 0))
  {
    match SelectPart(stored, themeName, MediaQueriesModule)
    case NotSelected(e) => Failure(e)
    case Threw(e) => Failure(ListMediaContext + e)
    case Selected(theme, path) =>
      if path !in files then Success(Some([]), MediaFileMissing)
      else
        var names := Named(files[path], 0);
        Success(Some(names), MediaListedIn(|names|, theme))
  }

  /** One step of the `exec` loop: the names collected so far, followed by those the loop has yet
      to meet, are all the names. */
  lemma NamedStep(s: string, from: nat, collected: seq<string>)
    requires NextNamed(s, from).Some?
    requires collected + Named(s, from) == Named(s, 0)
    ensures collected + [NextNamed(s, from).value.name] + Named(s, NextNamed(s, from).value.end) == Named(s, 0)
  {
    var d := NextNamed(s, from).value;
    assert Named(s, from) == [d.name] + Named(s, d.end);
    AppendAssociates(collected, [d.name], Named(s, d.end));
  }

  /** listMediaQueries: the `exec` loop over the module, proved to collect MediaListOutcome's
      names. */
  method ListMediaQueries(ws: Workspace, themeName: Option<string>) returns (r: Response<seq<string>>)
    ensures r == MediaListOutcome(ws.config, ws.files, themeName)
  {
    var selection := SelectPart(ws.config, themeName, MediaQueriesModule);
    if !selection.Selected? {
      return Failure(Caught(ListMediaContext, selection));
    }
    var theme, path := selection.theme, selection.path;
    if path !in ws.files {
      return Success(Some([]), MediaFileMissing);
    }
    var content := ws.files[path];
    var names: seq<string> := [];
    var lastIndex: nat := 0;
    var m := NextNamed(content, lastIndex);
    while m.Some?
      invariant lastIndex <= |content|
      invariant m == NextNamed(content, lastIndex)
      invariant names + Named(content, lastIndex) == Named(content, 0)
      decreases |content| - lastIndex
    {
      NamedStep(content, lastIndex, names);
      names := names + [m.value.name];
      lastIndex := m.value.end;
      m := NextNamed(content, lastIndex);
    }
    assert Named(content, lastIndex) == [];
    assert names + [] == names;
    r := Success(Some(names), MediaListedIn(|names|, theme));
  }
}
