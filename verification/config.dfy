/** The configuration tools (src/tools/config.ts) and the theme selection every other tool
    repeats. */
module ConfigTools {
  import opened Text
  import opened Json
  import opened Types
  import opened Validators
  import opened Store

  // ---------------------------------------------------------------- theme selection

  /** `themes.find(t => t.name === name)`, as the index of the theme found. */
  function FindTheme(themes: seq<Theme>, name: string): (r: Option<nat>)
    ensures r.Some? ==> r.value < |themes| && themes[r.value].name == Some(name)
    ensures r.Some? ==> forall j :: 0 <= j < r.value ==> themes[j].name != Some(name)
    ensures r.None? <==> forall j :: 0 <= j < |themes| ==> themes[j].name != Some(name)
  {
    if themes == [] then None
    else if themes[0].name == Some(name) then Some(0)
    else match FindTheme(themes[1..], name)
      case None => None
      case Some(i) => Some(i + 1)
  }

  datatype Resolution = Resolved(index: nat) | Unresolved(error: string)

  const NoThemesConfigured := "No themes configured"

  function ThemeNotFound(name: string): string {
    "Theme \"" + name + "\" not found"
  }

  /** `themeName ? themes.find(t => t.name === themeName) : themes[0]`, with the two refusals:
      a given name is looked up exactly, with no fallback to the first theme. */
  function ResolveTheme(themes: seq<Theme>, themeName: Option<string>): (r: Resolution)
    ensures r.Resolved? ==> r.index < |themes|
    ensures Truthy(themeName) && r.Resolved? ==>
      themes[r.index].name == themeName && forall j :: 0 <= j < r.index ==> themes[j].name != themeName
    ensures Truthy(themeName) ==>
      (r.Unresolved? <==> forall j :: 0 <= j < |themes| ==> themes[j].name != themeName)
    ensures Truthy(themeName) && r.Unresolved? ==> r.error == ThemeNotFound(themeName.value)
    ensures !Truthy(themeName) ==> (r.Resolved? <==> |themes| > 0) && (r.Resolved? ==> r.index == 0)
    ensures !Truthy(themeName) && r.Unresolved? ==> r.error == NoThemesConfigured
  {
    if Truthy(themeName) then
      match FindTheme(themes, themeName.value)
      case None => Unresolved(ThemeNotFound(themeName.value))
      case Some(i) => Resolved(i)
    else if |themes| > 0 then Resolved(0)
    else Unresolved(NoThemesConfigured)
  }

  /** The two refusals of theme selection never read alike. */
  lemma SelectionMessagesDiffer(name: string)
    ensures ThemeNotFound(name) != NoThemesConfigured
  {
    assert ThemeNotFound(name)[0] == 'T' && NoThemesConfigured[0] == 'N';
  }

  /** What a tool makes of theme selection: the theme, a refusal it returns, or the TypeError
      the selection throws when the document has no `themes` list (which the tool's `catch`
      reports after its own prefix). */
  datatype Choice = Chosen(theme: Theme) | Refused(error: string) | Threw(error: string)

  function ChooseTheme(c: Config, themeName: Option<string>): (r: Choice)
    ensures r.Threw? <==> c.themes.None?
    ensures r.Threw? ==> r.error == ReadingUndefined(if Truthy(themeName) then "find" else "0")
    ensures c.themes.Some? ==> (r.Chosen? <==> ResolveTheme(c.themes.value, themeName).Resolved?)
    ensures r.Chosen? ==> r.theme == c.themes.value[ResolveTheme(c.themes.value, themeName).index]
    ensures r.Refused? ==> r.error == ResolveTheme(c.themes.value, themeName).error
  {
    if c.themes.None? then Choice.Threw(ReadingUndefined(if Truthy(themeName) then "find" else "0"))
    else match ResolveTheme(c.themes.value, themeName)
      case Unresolved(e) => Refused(e)
      case Resolved(i) => Chosen(c.themes.value[i])
  }

  /** The theme a tool works on and its module's path, the error the tool returns, or the error
      thrown during the selection, which the tool's `catch` reports after its own prefix. */
  datatype Selection = Selected(theme: Theme, path: string) | NotSelected(error: string) | Threw(error: string)

  /** The error a tool returns when the selection failed: a thrown one after the tool's prefix. */
  function Caught(context: string, sel: Selection): string
    requires !sel.Selected?
  {
    if sel.Threw? then context + sel.error else sel.error
  }

  // ---------------------------------------------------------------- getConfig

  const ConfigMissing := "bernova.config.json not found in the current directory"
  const ConfigLoaded := "Configuration loaded successfully"

  /** The stored document, or the not-found error when there is none. */
  function GetConfig(stored: Option<Config>): (r: Response<Config>)
    ensures r.Success? <==> stored.Some?
    ensures r.Success? ==> r.data == stored
    ensures r.Failure? ==> r.error == ConfigMissing
  {
    if stored.None? then Failure(ConfigMissing) else Success(stored, ConfigLoaded)
  }

  // ---------------------------------------------------------------- updateConfig

  /** `{ ...existing, ...update, themes: update.themes || existing.themes }` */
  function Merge(existing: Config, update: Config): (c: Config)
    ensures c.themes == if update.themes.Some? then update.themes else existing.themes
    ensures c.settings.Keys == existing.settings.Keys + update.settings.Keys
    ensures forall k :: k in update.settings ==> c.settings[k] == update.settings[k]
    ensures forall k :: k in existing.settings && k !in update.settings ==> c.settings[k] == existing.settings[k]
  {
    Config(if update.themes.Some? then update.themes else existing.themes, existing.settings + update.settings)
  }

  /** Merging the same update twice is merging it once, and an empty update changes nothing. */
  lemma MergeIdempotent(existing: Config, update: Config)
    ensures Merge(Merge(existing, update), update) == Merge(existing, update)
    ensures Merge(existing, Config(None, map[])) == existing
  {
    var once := Merge(existing, update);
    assert Merge(once, update).settings == once.settings;
    assert Merge(existing, Config(None, map[])).settings == existing.settings;
  }

  /** The document updateConfig validates and writes. */
  function FinalConfig(stored: Option<Config>, update: Config, merge: bool): (c: Config)
    ensures merge && stored.Some? ==> c == Merge(stored.value, update)
    ensures !(merge && stored.Some?) ==> c == update
  {
    if merge && stored.Some? then Merge(stored.value, update) else update
  }

  /** A partial update without `themes` keeps the stored themes. */
  lemma UpdateKeepsStoredThemes(stored: Config, update: Config)
    requires update.themes.None?
    ensures FinalConfig(Some(stored), update, true).themes == stored.themes
    ensures ConfigErrors(FinalConfig(Some(stored), update, true)) == [] <==> ConfigErrors(Config(stored.themes, map[])) == []
  {
  }

  const InvalidConfig := "Invalid configuration: "
  const ConfigUpdated := "Configuration updated successfully"

  /** Merge (or replace), validate, and write only a valid document. */
  method UpdateConfig(ws: Workspace, update: Config, merge: bool) returns (r: Response<Config>)
    modifies ws
    ensures ws.files == old(ws.files)
    ensures r.Success? <==> ConfigErrors(FinalConfig(old(ws.config), update, merge)) == []
    ensures r.Success? ==> ws.config == Some(FinalConfig(old(ws.config), update, merge)) && r.data == ws.config
    ensures r.Failure? ==> ws.config == old(ws.config)
    ensures r.Failure? ==> r.error == InvalidConfig + Join(ConfigErrors(FinalConfig(old(ws.config), update, merge)), ", ")
  {
    var finalConfig: Config;
    if merge && ws.config.Some? {
      var existing := ws.config.value;
      finalConfig := Merge(existing, update);
    } else {
      finalConfig := update;
    }
    var validation := ValidateBernovaConfig(finalConfig);
    if !validation.valid {
      return Failure(InvalidConfig + ErrorText(validation));
    }
    ws.config := Some(finalConfig);
    r := Success(Some(finalConfig), ConfigUpdated);
  }

  // ---------------------------------------------------------------- createConfig

  const ConfigExists := "bernova.config.json already exists. Use updateConfig to modify it."

  function Ref(name: string, path: string): ModuleRef {
    ModuleRef(Some(name), Some(path))
  }

  function DesignPath(themeName: string, file: string): string {
    "./src/design/" + themeName + "/" + file
  }

  function StylesPath(themeName: string): string {
    "./src/styles/" + themeName
  }

  function Field(key: string, value: Value): Member {
    Member(key, value)
  }

  /** The document createConfig writes for `themeName`. */
  function DefaultConfig(themeName: string): (c: Config)
    ensures c.themes.Some? && |c.themes.value| == 1
    ensures c.themes.value[0].name == Some(themeName)
    ensures c.themes.value[0].theme == Some(Ref("BERNOVA_STYLES", DesignPath(themeName, "theme.ts")))
    ensures c.themes.value[0].foundations == Some(Ref("FOUNDATIONS", DesignPath(themeName, "foundations.ts")))
    ensures c.themes.value[0].globalStyles == Some(Ref("GLOBAL_STYLES", DesignPath(themeName, "globalStyles.ts")))
    ensures c.themes.value[0].mediaQueries == Some(Ref("MEDIA_QUERIES", DesignPath(themeName, "mediaQueries.ts")))
  {
    var tools := StylesPath(themeName) + "/tools";
    var theme := Theme(
      Some(themeName),
      Some(Ref("BERNOVA_STYLES", DesignPath(themeName, "theme.ts"))),
      Some(Ref("FOUNDATIONS", DesignPath(themeName, "foundations.ts"))),
      Some(Ref("GLOBAL_STYLES", DesignPath(themeName, "globalStyles.ts"))),
      Some(Ref("MEDIA_QUERIES", DesignPath(themeName, "mediaQueries.ts"))),
      map[
        "minified" := Bool(false),
        "resetCss" := Bool(true),
        "stylesPath" := Str(StylesPath(themeName)),
        "bvTools" := Obj([
          Field("path", Str(tools)),
          Field("declarationHelp", Bool(true)),
          Field("cssVariables", Bool(true)),
          Field("cssClassNames", Bool(true)),
          Field("cssMediaQueries", Bool(true)),
          Field("cssGlobalStyles", Bool(true)),
          Field("availableComponents", Bool(true))]),
        "typesTools" := Obj([
          Field("stylesTypes", Obj([Field("name", Str("stylesTypes")), Field("path", Str("./src/styles/types"))])),
          Field("componentsTypes", Obj([Field("name", Str("componentsTypes")), Field("path", Str(tools))]))]),
        "fonts" := Obj([
          Field("google", Arr([Obj([Field("name", Str("Roboto")), Field("weights", Arr([Str("400"), Str("700")]))])]))])
      ]);
    Config(Some([theme]), map[
      "provider" := Obj([
        Field("name", Str("BernovaStyledProvider")),
        Field("path", Str("./src/styles/provider")),
        Field("declarationHelp", Bool(true))])
    ])
  }

  /** The default document passes validation exactly when the theme name is not empty; with a
      non-empty name the document's only theme is the one selected by that name and by default. */
  lemma DefaultConfigSelfConsistent(themeName: string)
    ensures ConfigErrors(DefaultConfig(themeName)) == [] <==> themeName != ""
    ensures ResolveTheme(DefaultConfig(themeName).themes.value, None) == Resolved(0)
    ensures themeName != "" ==> ResolveTheme(DefaultConfig(themeName).themes.value, Some(themeName)) == Resolved(0)
  {
    var t := DefaultConfig(themeName).themes.value[0];
    assert Truthy(t.theme.value.name) && Truthy(t.theme.value.path) by {
      assert t.theme.value.path.value[0] == '.';
    }
    assert Truthy(t.foundations.value.path) by {
      assert t.foundations.value.path.value[0] == '.';
    }
  }

  /** `themeName` defaults to `'default'` only when it is not given at all. */
  function DefaultThemeName(themeName: Option<string>): string {
    if themeName.Some? then themeName.value else "default"
  }

  /** Refuse when the document exists; otherwise write the default document. */
  method CreateConfig(ws: Workspace, themeName: Option<string>) returns (r: Response<Config>)
    modifies ws
    ensures ws.files == old(ws.files)
    ensures old(ws.config).Some? ==> r == Failure(ConfigExists) && ws.config == old(ws.config)
    ensures old(ws.config).None? ==> r.Success? && ws.config == Some(DefaultConfig(DefaultThemeName(themeName))) && r.data == ws.config
  {
    if ws.config.Some? {
      return Failure(ConfigExists);
    }
    var name := DefaultThemeName(themeName);
    var defaultConfig := DefaultConfig(name);
    ws.config := Some(defaultConfig);
    r := Success(Some(defaultConfig), "Configuration created successfully with theme \"" + name + "\"");
  }

  // ---------------------------------------------------------------- getTheme, listThemes

  /** The first theme named exactly `themeName` (here the empty name is looked up too). */
  function GetTheme(stored: Option<Config>, themeName: string): (r: Response<Theme>)
    ensures stored.None? ==> r == Failure(ConfigMissing)
    ensures r.Success? ==> stored.Some? && stored.value.themes.Some? && FindTheme(stored.value.themes.value, themeName).Some?
    ensures r.Success? ==> r.data == Some(stored.value.themes.value[FindTheme(stored.value.themes.value, themeName).value])
    ensures stored.Some? && stored.value.themes.Some? && FindTheme(stored.value.themes.value, themeName).None? ==>
      r == Failure(ThemeNotFound(themeName))
  {
    match GetConfig(stored)
    case Failure(e) => Failure(e)
    case Success(_, _) =>
      var c := stored.value;
      if c.themes.None? then Failure("Error getting theme: " + ReadingUndefined("find"))
      else match FindTheme(c.themes.value, themeName)
        case None => Failure(ThemeNotFound(themeName))
        case Some(i) => Success(Some(c.themes.value[i]), "Theme \"" + themeName + "\" found")
  }

  /** `themes.map(t => t.name)`: one entry per theme, in document order. */
  function ListThemes(stored: Option<Config>): (r: Response<seq<Option<string>>>)
    ensures stored.None? ==> r == Failure(ConfigMissing)
    ensures r.Success? ==> stored.Some? && stored.value.themes.Some? && r.data.Some?
    ensures r.Success? ==> |r.data.value| == |stored.value.themes.value|
    ensures r.Success? ==> forall i :: 0 <= i < |r.data.value| ==> r.data.value[i] == stored.value.themes.value[i].name
  {
    match GetConfig(stored)
    case Failure(e) => Failure(e)
    case Success(_, _) =>
      var c := stored.value;
      if c.themes.None? then Failure("Error listing themes: " + ReadingUndefined("map"))
      else
        var names := seq(|c.themes.value|, i requires 0 <= i < |c.themes.value| => c.themes.value[i].name);
        Success(Some(names), "Found " + IntString(|names|) + " theme(s)")
  }

  /** Every name listThemes reports selects, through getTheme, a theme of that name. */
  lemma ListedThemesAreFound(stored: Option<Config>, i: nat)
    requires ListThemes(stored).Success? && i < |ListThemes(stored).data.value|
    requires ListThemes(stored).data.value[i].Some?
    ensures GetTheme(stored, ListThemes(stored).data.value[i].value).Success?
    ensures GetTheme(stored, ListThemes(stored).data.value[i].value).data.value.name == ListThemes(stored).data.value[i]
  {
    var themes := stored.value.themes.value;
    var name := themes[i].name.value;
    assert themes[i].name == Some(name);
    assert FindTheme(themes, name).Some?;
  }
}
