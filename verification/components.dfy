/** The component tools (src/tools/components.ts): get, create, update, delete and list the
    style declarations of a theme module. */
module Components {
  import opened Text
  import opened Json
  import opened Types
  import opened Validators
  import opened Store
  import opened ConfigTools
  import opened Search
  import opened ComponentScan

  // ---------------------------------------------------------------- theme selection

  /** `theme.theme?.path` is truthy: the theme names a module file. */
  predicate HasThemeFile(t: Theme) {
    t.theme.Some? && Truthy(t.theme.value.path)
  }

  const NoThemeConfigurationTail := "\" does not have a theme configuration"
  const ThemeFileMissingHead := "Theme file not found: "

  function NoThemeConfiguration(t: Theme): string {
    "Theme \"" + Shown(t.name) + NoThemeConfigurationTail
  }

  /** The steps get, create and list share: the configuration, the theme (by name, or the
      first), and the `theme.theme?.path` check. */
  function SelectThemeFile(stored: Option<Config>, themeName: Option<string>): (r: Selection)
    ensures stored.None? ==> r == NotSelected(ConfigMissing)
    ensures r.Selected? ==> stored.Some? && ChooseTheme(stored.value, themeName) == Chosen(r.theme)
    ensures r.Selected? ==> HasThemeFile(r.theme) && r.path == r.theme.theme.value.path.value && r.path != ""
    ensures stored.Some? && !ChooseTheme(stored.value, themeName).Chosen? ==>
      r.error == ChooseTheme(stored.value, themeName).error && (r.Threw? <==> ChooseTheme(stored.value, themeName).Threw?)
    ensures stored.Some? && ChooseTheme(stored.value, themeName).Chosen? ==>
      (r.NotSelected? <==> !HasThemeFile(ChooseTheme(stored.value, themeName).theme))
  {
    match GetConfig(stored)
    case Failure(e) => NotSelected(e)
    case Success(_, _) =>
      match ChooseTheme(stored.value, themeName)
      case Threw(e) => Selection.Threw(e)
      case Refused(e) => NotSelected(e)
      case Chosen(t) =>
        if HasThemeFile(t) then Selected(t, t.theme.value.path.value) else NotSelected(NoThemeConfiguration(t))
  }

  /** Selecting again by the chosen theme's own name (as createComponentStyle does through
      getComponentStyle) finds the same theme: a truthy name was found first under that name,
      and the default choice is the first theme, which comes first under any name. */
  lemma ReselectByName(themes: seq<Theme>, themeName: Option<string>)
    requires ResolveTheme(themes, themeName).Resolved?
    ensures ResolveTheme(themes, themes[ResolveTheme(themes, themeName).index].name) == ResolveTheme(themes, themeName)
  {
    var i := ResolveTheme(themes, themeName).index;
    var name := themes[i].name;
    if Truthy(name) {
      match FindTheme(themes, name.value)
      case None =>
      case Some(j) =>
        assert !(j < i) && !(i < j);
    }
  }

  /** The same selection, made through SelectThemeFile. */
  lemma ReselectThemeFile(stored: Option<Config>, themeName: Option<string>)
    requires SelectThemeFile(stored, themeName).Selected?
    ensures SelectThemeFile(stored, SelectThemeFile(stored, themeName).theme.name) == SelectThemeFile(stored, themeName)
  {
    ReselectByName(stored.value.themes.value, themeName);
  }

  // ---------------------------------------------------------------- getComponentStyle

  datatype Found = Found(componentName: string, themeName: Option<string>, content: string, path: string)

  const GetContext := "Error getting component style: "
  const ComponentHead := "Component \""
  const InThemeHead := "\" not found in theme \""
  const FoundInThemeHead := "\" found in theme \""

  function ComponentNotInTheme(name: string, t: Theme): string {
    ComponentHead + name + InThemeHead + Shown(t.name) + "\""
  }

  function ComponentFoundIn(name: string, t: Theme): string {
    ComponentHead + name + FoundInThemeHead + Shown(t.name) + "\""
  }

  /** The name check, the theme selection, the file check and the lookup regex, in that order.
      What is found is the whole match: a declaration starting with `export`. */
  function GetComponentStyle(stored: Option<Config>, files: map<string, string>, name: string, themeName: Option<string>): (r: Response<Found>)
    ensures !ValidateComponentName(name).valid ==> r == Failure(ErrorText(ValidateComponentName(name)))
    ensures var sel := SelectThemeFile(stored, themeName);
      ValidateComponentName(name).valid && !sel.Selected? ==> r == Failure(Caught(GetContext, sel))
    ensures var sel := SelectThemeFile(stored, themeName);
      ValidateComponentName(name).valid && sel.Selected? && sel.path !in files ==> r == Failure(ThemeFileMissingHead + sel.path)
    ensures var sel := SelectThemeFile(stored, themeName);
      r.Success? <==> ValidateComponentName(name).valid && sel.Selected? && sel.path in files && FindComponent(files[sel.path], name).Some?
    ensures var sel := SelectThemeFile(stored, themeName);
      r.Success? ==> r.data.Some? && r.data.value.componentName == name && r.data.value.themeName == sel.theme.name && r.data.value.path == sel.path
    ensures var sel := SelectThemeFile(stored, themeName);
      r.Success? ==> var m := FindComponent(files[sel.path], name).value; r.data.value.content == files[sel.path][m.start..m.end]
    ensures r.Success? ==> LitAt(r.data.value.content, 0, "export", true)
  {
    var nameVerdict := ValidateComponentName(name);
    if !nameVerdict.valid then Failure(ErrorText(nameVerdict))
    else match SelectThemeFile(stored, themeName)
      case NotSelected(e) => Failure(e)
      case Threw(e) => Failure(GetContext + e)
      case Selected(theme, path) =>
        if path !in files then Failure(ThemeFileMissingHead + path)
        else
          var s := files[path];
          match FindComponent(s, name)
          case None => Failure(ComponentNotInTheme(name, theme))
          case Some(m) =>
            LitAtSlice(s, m.start, "export", true, m.start, m.end);
            Success(Some(Found(name, theme.name, s[m.start..m.end], path)), ComponentFoundIn(name, theme))
  }

  /** The lookup ignores the case of the name's ASCII letters: `button` finds what `BUTTON` finds,
      at the same place. */
  lemma GetIgnoresCase(stored: Option<Config>, files: map<string, string>, name: string, themeName: Option<string>)
    ensures GetComponentStyle(stored, files, Upper(name), themeName).Success? == GetComponentStyle(stored, files, name, themeName).Success?
    ensures GetComponentStyle(stored, files, name, themeName).Success? ==>
      GetComponentStyle(stored, files, Upper(name), themeName).data.value.content == GetComponentStyle(stored, files, name, themeName).data.value.content
  {
    NameVerdictIgnoresCase(name);
    var sel := SelectThemeFile(stored, themeName);
    if sel.Selected? && sel.path in files {
      FindComponentIgnoresCase(files[sel.path], name);
    }
  }

  /** The data create and update return. */
  datatype Saved = Saved(componentName: string, themeName: Option<string>, path: string, styles: Value)

  /** `JSON.stringify(styles, null, 2).replace(/"([^"]+)":/g, '$1:')`: the styles as an object
      literal with unquoted keys. */
  function StylesText(styles: Value): (t: string)
    ensures |t| <= |Pretty(styles)|
  {
    UnquoteKeys(Pretty(styles))
  }

  // ---------------------------------------------------------------- createComponentStyle

  const CreateContext := "Error creating component style: "
  const AlreadyExistsTail := "\" already exists. Use updateComponentStyle to modify it."
  const CreatedTail := "\" created successfully in theme \""

  function AlreadyExists(name: string): string {
    ComponentHead + name + AlreadyExistsTail
  }

  function CreatedIn(name: string, t: Theme): string {
    ComponentHead + name + CreatedTail + Shown(t.name) + "\""
  }

  /** `\nexport const NAME = STYLES;\n` */
  function Declaration(name: string, stylesText: string): string {
    "\nexport const " + name + " = " + stylesText + ";\n"
  }

  /** The module text create writes: the declaration added, then registered with the aggregate
      export `agg`. */
  function CreatedText(content: string, name: string, styles: Value, agg: string): string {
    AddToAggregate(CreatedBase(content, name, styles), agg, name)
  }

  /** The module text with the declaration appended, or the declaration alone when the module
      is blank. */
  function CreatedBase(content: string, name: string, styles: Value): (base: string)
    ensures Trim(content) != "" ==> base == content + Declaration(name, StylesText(styles))
    ensures Trim(content) == "" ==> base == Declaration(name, StylesText(styles))
  {
    var decl := Declaration(name, StylesText(styles));
    if Trim(content) == "" then decl else content + decl
  }

  /** The checks of createComponentStyle in order (name, styles, configuration, theme, module
      path, existing component), then the write. The existence check is getComponentStyle for
      the selected theme's own name. */
  function CreateOutcome(stored: Option<Config>, files: map<string, string>, name: string, styles: Value, themeName: Option<string>): (o: Outcome<Saved>)
    ensures !ValidateComponentName(name).valid ==> o == Refuse(ErrorText(ValidateComponentName(name)))
    ensures ValidateComponentName(name).valid && !StylesVerdict(styles).valid ==> o == Refuse(ErrorText(StylesVerdict(styles)))
    ensures var sel := SelectThemeFile(stored, themeName);
      ValidateComponentName(name).valid && StylesVerdict(styles).valid && sel.NotSelected? ==> o == Refuse(sel.error)
    ensures var sel := SelectThemeFile(stored, themeName);
      ValidateComponentName(name).valid && StylesVerdict(styles).valid && sel.Threw? ==> o == Refuse(CreateContext + sel.error)
    ensures o.Write? ==> ValidateComponentName(name).valid && StylesVerdict(styles).valid
    ensures o.Write? ==> var sel := SelectThemeFile(stored, themeName);
      sel.Selected? && o.path == sel.path && o.data == Some(Saved(name, sel.theme.name, sel.path, styles))
    ensures o.Write? ==> var sel := SelectThemeFile(stored, themeName);
      o.text == CreatedText(ReadOrEmpty(files, sel.path), name, styles, Shown(sel.theme.theme.value.name))
  {
    var nameVerdict := ValidateComponentName(name);
    if !nameVerdict.valid then Refuse(ErrorText(nameVerdict))
    else
      var stylesVerdict := StylesVerdict(styles);
      if !stylesVerdict.valid then Refuse(ErrorText(stylesVerdict))
      else match SelectThemeFile(stored, themeName)
        case NotSelected(e) => Refuse(e)
        case Threw(e) => Refuse(CreateContext + e)
        case Selected(theme, path) =>
          if GetComponentStyle(stored, files, name, theme.name).Success? then Refuse(AlreadyExists(name))
          else
            var text := CreatedText(ReadOrEmpty(files, path), name, styles, Shown(theme.theme.value.name));
            Write(path, text, Some(Saved(name, theme.name, path, styles)), CreatedIn(name, theme))
  }

  /** createComponentStyle refuses as a duplicate exactly when the lookup regex finds the name
      in the module of the theme it selected: the existence check, made by that theme's name,
      reads the same module. */
  lemma CreateRefusesExisting(stored: Option<Config>, files: map<string, string>, name: string, styles: Value, themeName: Option<string>)
    requires ValidateComponentName(name).valid && StylesVerdict(styles).valid
    requires SelectThemeFile(stored, themeName).Selected?
    ensures var sel := SelectThemeFile(stored, themeName);
      CreateOutcome(stored, files, name, styles, themeName) == Refuse(AlreadyExists(name))
      <==> sel.path in files && FindComponent(files[sel.path], name).Some?
    ensures CreateOutcome(stored, files, name, styles, themeName).Refuse? ==>
      CreateOutcome(stored, files, name, styles, themeName) == Refuse(AlreadyExists(name))
  {
    var sel := SelectThemeFile(stored, themeName);
    ReselectThemeFile(stored, themeName);
  }

  /** Where create puts the component: with no flat declaration in the text, the declaration and
      a new aggregate export are appended; otherwise the first flat declaration (whatever name it
      declares) is rewritten and the text before and after it is kept. */
  lemma CreatedTextShape(content: string, name: string, styles: Value, agg: string)
    ensures var base := CreatedBase(content, name, styles);
      FindAggregate(base).None? ==> CreatedText(content, name, styles, agg) == base + AggregateDeclaration(agg, name)
    ensures var base := CreatedBase(content, name, styles);
      FindAggregate(base).Some? ==> KeepsOutside(base, FindAggregate(base).value, CreatedText(content, name, styles, agg))
  {
    AddToAggregateKeepsOutside(CreatedBase(content, name, styles), agg, name);
  }

  lemma CreateWrites(stored: Option<Config>, files: map<string, string>, name: string, styles: Value, themeName: Option<string>)
    requires ValidateComponentName(name).valid && StylesVerdict(styles).valid
    requires SelectThemeFile(stored, themeName).Selected?
    requires GetComponentStyle(stored, files, name, SelectThemeFile(stored, themeName).theme.name).Failure?
    ensures var sel := SelectThemeFile(stored, themeName);
      CreateOutcome(stored, files, name, styles, themeName)
      == Write(sel.path, CreatedText(ReadOrEmpty(files, sel.path), name, styles, Shown(sel.theme.theme.value.name)), Some(Saved(name, sel.theme.name, sel.path, styles)), CreatedIn(name, sel.theme))
  {
  }

  /** createComponentStyle: the outcome's response, and its text written to the theme module. */
  method CreateComponentStyle(ws: Workspace, name: string, styles: Value, themeName: Option<string>) returns (r: Response<Saved>)
    modifies ws
    ensures ws.config == old(ws.config)
    ensures r == Respond(CreateOutcome(old(ws.config), old(ws.files), name, styles, themeName))
    ensures ws.files == Apply(old(ws.files), CreateOutcome(old(ws.config), old(ws.files), name, styles, themeName))
  {
    ghost var o := CreateOutcome(ws.config, ws.files, name, styles, themeName);
    var nameValidation := ValidateComponentName(name);
    if !nameValidation.valid {
      assert o == Refuse(ErrorText(nameValidation));
      return Failure(ErrorText(nameValidation));
    }
    var stylesValidation := ValidateComponentStyles(styles);
    if !stylesValidation.valid {
      assert o == Refuse(ErrorText(stylesValidation));
      return Failure(ErrorText(stylesValidation));
    }
    var selection := SelectThemeFile(ws.config, themeName);
    if !selection.Selected? {
      assert o == Refuse(Caught(CreateContext, selection));
      return Failure(Caught(CreateContext, selection));
    }
    var theme, path := selection.theme, selection.path;
    var existing := GetComponentStyle(ws.config, ws.files, name, theme.name);
    if existing.Success? {
      assert o == Refuse(AlreadyExists(name));
      return Failure(AlreadyExists(name));
    }
    var content := CreatedText(ReadOrEmpty(ws.files, path), name, styles, Shown(theme.theme.value.name));
    r := Success(Some(Saved(name, theme.name, path, styles)), CreatedIn(name, theme));
    CreateWrites(ws.config, ws.files, name, styles, themeName);
    ApplyWrite(ws.files, path, content, r.data, r.message);
    ws.files := ws.files[path := content];
  }

  // ---------------------------------------------------------------- updateComponentStyle

  const UpdateContext := "Error updating component style: "
  const ThemeConfigurationNotFound := "Theme configuration not found"
  const NotFoundUseCreateTail := "\" not found. Use createComponentStyle to create it."
  const NoDeclarationHead := "Could not find component declaration for \""
  const UpdatedTail := "\" updated successfully in theme \""

  function NotFoundUseCreate(name: string): string {
    ComponentHead + name + NotFoundUseCreateTail
  }

  function NoDeclaration(name: string): string {
    NoDeclarationHead + name + "\""
  }

  function UpdatedIn(name: string, t: Theme): string {
    ComponentHead + name + UpdatedTail + Shown(t.name) + "\""
  }

  /** What `readModuleFile` throws for a missing file, before the file system's own detail. */
  function ReadFailure(path: string): string {
    "Error: Error reading file " + path + ": "
  }

  /** The selection update and delete repeat after their existence check: both refusals of a
      theme read "Theme configuration not found". */
  function Reselect(stored: Option<Config>, themeName: Option<string>): (r: Selection)
    ensures r.Selected? <==> SelectThemeFile(stored, themeName).Selected?
    ensures r.Selected? ==> r == SelectThemeFile(stored, themeName)
  {
    match GetConfig(stored)
    case Failure(e) => NotSelected(e)
    case Success(_, _) =>
      match ChooseTheme(stored.value, themeName)
      case Threw(e) => Selection.Threw(e)
      case Refused(_) => NotSelected(ThemeConfigurationNotFound)
      case Chosen(t) =>
        if HasThemeFile(t) then Selected(t, t.theme.value.path.value) else NotSelected(ThemeConfigurationNotFound)
  }

  /** After a successful lookup the repeated selection picks the theme the lookup used, whose
      module exists and is the one the lookup read. */
  lemma ReselectAfterLookup(stored: Option<Config>, files: map<string, string>, name: string, themeName: Option<string>)
    requires GetComponentStyle(stored, files, name, themeName).Success?
    ensures var sel := Reselect(stored, themeName);
      sel.Selected? && sel.path in files && sel.path == GetComponentStyle(stored, files, name, themeName).data.value.path
      && sel.theme.name == GetComponentStyle(stored, files, name, themeName).data.value.themeName
  {
  }

  /** The checks of updateComponentStyle in order (name, styles, existing component, then the
      repeated selection and the read), then the regex replace. */
  function UpdateOutcome(stored: Option<Config>, files: map<string, string>, name: string, styles: Value, themeName: Option<string>): (o: Outcome<Saved>)
    ensures !ValidateComponentName(name).valid ==> o == Refuse(ErrorText(ValidateComponentName(name)))
    ensures ValidateComponentName(name).valid && !StylesVerdict(styles).valid ==> o == Refuse(ErrorText(StylesVerdict(styles)))
    ensures ValidateComponentName(name).valid && StylesVerdict(styles).valid && GetComponentStyle(stored, files, name, themeName).Failure? ==>
      o == Refuse(NotFoundUseCreate(name))
    ensures o.Write? ==> GetComponentStyle(stored, files, name, themeName).Success? && StylesVerdict(styles).valid
    ensures o.Write? ==> var found := GetComponentStyle(stored, files, name, themeName).data.value;
      o.path == found.path && o.path in files && o.data == Some(Saved(name, found.themeName, found.path, styles))
    ensures o.Write? ==> ReplaceDeclaration(files[o.path], name, StylesText(styles)) == Some(o.text)
  {
    var nameVerdict := ValidateComponentName(name);
    if !nameVerdict.valid then Refuse(ErrorText(nameVerdict))
    else
      var stylesVerdict := StylesVerdict(styles);
      if !stylesVerdict.valid then Refuse(ErrorText(stylesVerdict))
      else if GetComponentStyle(stored, files, name, themeName).Failure? then Refuse(NotFoundUseCreate(name))
      else match Reselect(stored, themeName)
        case NotSelected(e) => Refuse(e)
        case Threw(e) => Refuse(UpdateContext + e)
        case Selected(theme, path) =>
          if path !in files then Refuse(UpdateContext + ReadFailure(path))
          else match ReplaceDeclaration(files[path], name, StylesText(styles))
            case None => Refuse(NoDeclaration(name))
            case Some(text) => Write(path, text, Some(Saved(name, theme.name, path, styles)), UpdatedIn(name, theme))
  }

  /** Once the existence check has passed, the repeated selection and the read cannot fail: the
      only refusal left is a declaration the update regex does not match. */
  lemma UpdateAfterLookup(stored: Option<Config>, files: map<string, string>, name: string, styles: Value, themeName: Option<string>)
    requires ValidateComponentName(name).valid && StylesVerdict(styles).valid
    requires GetComponentStyle(stored, files, name, themeName).Success?
    ensures var path := GetComponentStyle(stored, files, name, themeName).data.value.path;
      UpdateOutcome(stored, files, name, styles, themeName).Refuse? <==> ReplaceDeclaration(files[path], name, StylesText(styles)).None?
    ensures UpdateOutcome(stored, files, name, styles, themeName).Refuse? ==>
      UpdateOutcome(stored, files, name, styles, themeName) == Refuse(NoDeclaration(name))
  {
  }

  /** When the update regex matches, update writes the replaced text back to the module the
      repeated selection names. */
  lemma UpdateWrites(stored: Option<Config>, files: map<string, string>, name: string, styles: Value, themeName: Option<string>)
    requires ValidateComponentName(name).valid && StylesVerdict(styles).valid
    requires GetComponentStyle(stored, files, name, themeName).Success?
    requires var sel := Reselect(stored, themeName);
      sel.Selected? && sel.path in files && ReplaceDeclaration(files[sel.path], name, StylesText(styles)).Some?
    ensures var sel := Reselect(stored, themeName);
      UpdateOutcome(stored, files, name, styles, themeName)
      == Write(sel.path, ReplaceDeclaration(files[sel.path], name, StylesText(styles)).value,
               Some(Saved(name, sel.theme.name, sel.path, styles)), UpdatedIn(name, sel.theme))
  {
  }

  /** updateComponentStyle: the outcome's response, and its text written to the theme module. */
  method UpdateComponentStyle(ws: Workspace, name: string, styles: Value, themeName: Option<string>) returns (r: Response<Saved>)
    modifies ws
    ensures ws.config == old(ws.config)
    ensures r == Respond(UpdateOutcome(old(ws.config), old(ws.files), name, styles, themeName))
    ensures ws.files == Apply(old(ws.files), UpdateOutcome(old(ws.config), old(ws.files), name, styles, themeName))
  {
    ghost var o := UpdateOutcome(ws.config, ws.files, name, styles, themeName);
    var nameValidation := ValidateComponentName(name);
    if !nameValidation.valid {
      assert o == Refuse(ErrorText(nameValidation));
      return Failure(ErrorText(nameValidation));
    }
    var stylesValidation := ValidateComponentStyles(styles);
    if !stylesValidation.valid {
      assert o == Refuse(ErrorText(stylesValidation));
      return Failure(ErrorText(stylesValidation));
    }
    var existing := GetComponentStyle(ws.config, ws.files, name, themeName);
    if !existing.Success? {
      assert o == Refuse(NotFoundUseCreate(name));
      return Failure(NotFoundUseCreate(name));
    }
    // The source selects the theme and reads its module again here; the lookup above has just
    // made the same selection and read the same module, so neither can fail.
    ReselectAfterLookup(ws.config, ws.files, name, themeName);
    var selection := Reselect(ws.config, themeName);
    var theme, path := selection.theme, selection.path;
    var replaced := ReplaceDeclaration(ws.files[path], name, StylesText(styles));
    if replaced.None? {
      UpdateAfterLookup(ws.config, ws.files, name, styles, themeName);
      return Failure(NoDeclaration(name));
    }
    r := Success(Some(Saved(name, theme.name, path, styles)), UpdatedIn(name, theme));
    UpdateWrites(ws.config, ws.files, name, styles, themeName);
    ApplyWrite(ws.files, path, replaced.value, r.data, r.message);
    ws.files := ws.files[path := replaced.value];
  }

  // ---------------------------------------------------------------- deleteComponentStyle

  const DeleteContext := "Error deleting component style: "
  const DeletedTail := "\" deleted successfully from theme \""

  function ComponentNotFound(name: string): string {
    ComponentHead + name + "\" not found"
  }

  function DeletedFrom(name: string, t: Theme): string {
    ComponentHead + name + DeletedTail + Shown(t.name) + "\""
  }

  /** The checks of deleteComponentStyle in order (name, existing component, then the repeated
      selection and the read), then the removals. The success carries no data. */
  function DeleteOutcome(stored: Option<Config>, files: map<string, string>, name: string, themeName: Option<string>): (o: Outcome<Found>)
    ensures !ValidateComponentName(name).valid ==> o == Refuse(ErrorText(ValidateComponentName(name)))
    ensures ValidateComponentName(name).valid && GetComponentStyle(stored, files, name, themeName).Failure? ==>
      o == Refuse(ComponentNotFound(name))
    ensures o.Write? ==> ValidateComponentName(name).valid && GetComponentStyle(stored, files, name, themeName).Success?
    ensures o.Write? ==> o.path == GetComponentStyle(stored, files, name, themeName).data.value.path && o.path in files
    ensures o.Write? ==> name != "" && o.text == DeleteText(files[o.path], name) && o.data.None?
  {
    var nameVerdict := ValidateComponentName(name);
    if !nameVerdict.valid then Refuse(ErrorText(nameVerdict))
    else if GetComponentStyle(stored, files, name, themeName).Failure? then Refuse(ComponentNotFound(name))
    else match Reselect(stored, themeName)
      case NotSelected(e) => Refuse(e)
      case Threw(e) => Refuse(DeleteContext + e)
      case Selected(theme, path) =>
        if path !in files then Refuse(DeleteContext + ReadFailure(path))
        else Write(path, DeleteText(files[path], name), None, DeletedFrom(name, theme))
  }

  /** Delete writes exactly when the lookup finds the component, and never lengthens the module. */
  lemma DeleteShrinks(stored: Option<Config>, files: map<string, string>, name: string, themeName: Option<string>)
    requires ValidateComponentName(name).valid
    ensures DeleteOutcome(stored, files, name, themeName).Write? <==> GetComponentStyle(stored, files, name, themeName).Success?
    ensures var o := DeleteOutcome(stored, files, name, themeName);
      o.Write? ==> |o.text| <= |files[o.path]|
  {
  }

  /** deleteComponentStyle: the outcome's response, and its text written to the theme module. */
  method DeleteComponentStyle(ws: Workspace, name: string, themeName: Option<string>) returns (r: Response<Found>)
    modifies ws
    ensures ws.config == old(ws.config)
    ensures r == Respond(DeleteOutcome(old(ws.config), old(ws.files), name, themeName))
    ensures ws.files == Apply(old(ws.files), DeleteOutcome(old(ws.config), old(ws.files), name, themeName))
  {
    ghost var o := DeleteOutcome(ws.config, ws.files, name, themeName);
    var nameValidation := ValidateComponentName(name);
    if !nameValidation.valid {
      assert o == Refuse(ErrorText(nameValidation));
      return Failure(ErrorText(nameValidation));
    }
    var existing := GetComponentStyle(ws.config, ws.files, name, themeName);
    if !existing.Success? {
      assert o == Refuse(ComponentNotFound(name));
      return Failure(ComponentNotFound(name));
    }
    // As in update, the repeated selection and read cannot fail after the lookup.
    ReselectAfterLookup(ws.config, ws.files, name, themeName);
    var selection := Reselect(ws.config, themeName);
    var theme, path := selection.theme, selection.path;
    var content := ws.files[path];
    content := StripDeclarations(content, name);
    content := RemoveName(content, name);
    content := CleanCommas(content);
    r := Success(None, DeletedFrom(name, theme));
    assert o == Write(path, content, r.data, r.message);
    ApplyWrite(ws.files, path, content, r.data, r.message);
    ws.files := ws.files[path := content];
  }

  // ---------------------------------------------------------------- listComponents

  const ListContext := "Error listing components: "
  const NoComponentsYetTail := ". No components defined yet."

  function ListedIn(n: nat, t: Theme): string {
    "Found " + IntString(n) + " component(s) in theme \"" + Shown(t.name) + "\""
  }

  /** What listComponents returns: every name the list regex meets, in text order, except the
      aggregate export's own; a missing module is an empty list. */
  function ListOutcome(stored: Option<Config>, files: map<string, string>, themeName: Option<string>): (r: Response<seq<string>>)
    ensures var sel := SelectThemeFile(stored, themeName);
      r.Success? <==> sel.Selected?
    ensures var sel := SelectThemeFile(stored, themeName);
      !sel.Selected? ==> r == Failure(Caught(ListContext, sel))
    ensures var sel := SelectThemeFile(stored, themeName);
      sel.Selected? && sel.path !in files ==> r == Success(Some([]), ThemeFileMissingHead + sel.path + NoComponentsYetTail)
    ensures var sel := SelectThemeFile(stored, themeName);
      sel.Selected? && sel.path in files ==>
        r.data.Some? && forall n :: n in r.data.value <==> n in Declared(files[sel.path], 0) && Some(n) != sel.theme.theme.value.name
    ensures r.Success? ==> forall n :: n in r.data.value ==> IsIdentifier(n)
  {
    match SelectThemeFile(stored, themeName)
    case NotSelected(e) => Failure(e)
    case Threw(e) => Failure(ListContext + e)
    case Selected(theme, path) =>
      if path !in files then Success(Some([]), ThemeFileMissingHead + path + NoComponentsYetTail)
      else
        var names := Without(Declared(files[path], 0), theme.theme.value.name);
        Success(Some(names), ListedIn(|names|, theme))
  }

  /** One step of the `exec` loop: the next name found, kept unless it is the aggregate's. */
  lemma WithoutStep(s: string, from: nat, agg: Option<string>)
    requires NextListed(s, from).Some?
    ensures var d := NextListed(s, from).value;
      Without(Declared(s, from), agg) == (if Some(d.name) != agg then [d.name] else []) + Without(Declared(s, d.end), agg)
  {
    var d := NextListed(s, from).value;
    var names := Declared(s, from);
    assert names == [d.name] + Declared(s, d.end);
    assert names[1..] == Declared(s, d.end);
  }

  /** The loop's invariant survives one step: the names collected so far, followed by those the
      loop has yet to meet, are all the names. */
  lemma CollectStep(s: string, from: nat, agg: Option<string>, collected: seq<string>)
    requires NextListed(s, from).Some?
    requires collected + Without(Declared(s, from), agg) == Without(Declared(s, 0), agg)
    ensures var d := NextListed(s, from).value;
      (if Some(d.name) != agg then collected + [d.name] else collected) + Without(Declared(s, d.end), agg)
      == Without(Declared(s, 0), agg)
  {
    var d := NextListed(s, from).value;
    var kept := if Some(d.name) != agg then [d.name] else [];
    var rest := Without(Declared(s, d.end), agg);
    WithoutStep(s, from, agg);
    assert Without(Declared(s, from), agg) == kept + rest;
    AppendAssociates(collected, kept, rest);
    assert (if Some(d.name) != agg then collected + [d.name] else collected) == collected + kept;
  }

  /** listComponents: the `exec` loop over the module, proved to collect ListOutcome's names. */
  method ListComponents(ws: Workspace, themeName: Option<string>) returns (r: Response<seq<string>>)
    ensures r == ListOutcome(ws.config, ws.files, themeName)
  {
    var selection := SelectThemeFile(ws.config, themeName);
    if !selection.Selected? {
      return Failure(Caught(ListContext, selection));
    }
    var theme, path := selection.theme, selection.path;
    if path !in ws.files {
      return Success(Some([]), ThemeFileMissingHead + path + NoComponentsYetTail);
    }
    var content := ws.files[path];
    var agg := theme.theme.value.name;
    var components: seq<string> := [];
    var lastIndex: nat := 0;
    var m := NextListed(content, lastIndex);
    while m.Some?
      invariant lastIndex <= |content|
      invariant m == NextListed(content, lastIndex)
      invariant components + Without(Declared(content, lastIndex), agg) == Without(Declared(content, 0), agg)
      decreases |content| - lastIndex
    {
      CollectStep(content, lastIndex, agg, components);
      var componentName := m.value.name;
      if Some(componentName) != agg {
        components := components + [componentName];
      }
      lastIndex := m.value.end;
      m := NextListed(content, lastIndex);
    }
    assert Declared(content, lastIndex) == [];
    assert components + [] == components;
    r := Success(Some(components), ListedIn(|components|, theme));
  }
}
