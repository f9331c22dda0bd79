/** The input validators (src/utils/validators.ts). Each returns `{ valid, errors?, warnings? }`
    built from the messages it accumulated, in the order it met them. */
module Validators {
  import opened Text
  import opened Json
  import opened Types

  // ---------------------------------------------------------------- validateComponentName

  const NameEmpty := "Component name cannot be empty"
  const NameFormat := "Component name should be in UPPER_CASE format (e.g., BUTTON, CARD_HEADER)"
  const NameUnderscore := "Component name cannot start with underscore (reserved for nested elements)"
  const NameDollar := "Component name cannot start with $ (reserved for special features)"

  /** `/^[A-Z][A-Z0-9_]*$/i`: under the `i` flag both classes admit lower-case letters too. */
  predicate UpperSnakeCase(name: string) {
    |name| > 0 && IsLetter(name[0]) && forall i :: 1 <= i < |name| ==> IsWordChar(name[i])
  }

  /** A blank name, or one starting with `_` or `$`, is an error; the format rule only warns. */
  function ValidateComponentName(name: string): (r: ValidationResult)
    ensures WellFormed(r)
    ensures r.valid <==> !IsBlank(name) && !StartsWith(name, '_') && !StartsWith(name, '$')
    ensures IsBlank(name) ==> r.errors == Some([NameEmpty])
    ensures StartsWith(name, '_') ==> r.errors == Some([NameUnderscore])
    ensures StartsWith(name, '$') ==> r.errors == Some([NameDollar])
    ensures r.warnings.None? <==> UpperSnakeCase(name)
    ensures r.warnings.Some? ==> r.warnings.value == [NameFormat]
  {
    NameChecksExclusive(name);
    assert [] + [NameEmpty] == [NameEmpty] && [] + [NameUnderscore] == [NameUnderscore] && [] + [NameDollar] == [NameDollar];
    var errors := Push(Push(Push([], IsBlank(name), NameEmpty), StartsWith(name, '_'), NameUnderscore), StartsWith(name, '$'), NameDollar);
    Verdict(errors, Push([], !UpperSnakeCase(name), NameFormat))
  }

  /** At most one of the three error checks of validateComponentName fires. */
  lemma NameChecksExclusive(name: string)
    ensures IsBlank(name) ==> !StartsWith(name, '_') && !StartsWith(name, '$')
    ensures !(StartsWith(name, '_') && StartsWith(name, '$'))
  {
    if |name| > 0 && IsBlank(name) {
      assert IsSpace(name[0]);
    }
  }

  /** The verdict on a name does not depend on the case of its ASCII letters: `button` is as
      acceptable as `BUTTON`, with no warning. */
  lemma NameVerdictIgnoresCase(name: string)
    ensures ValidateComponentName(Upper(name)) == ValidateComponentName(name)
  {
    var u := Upper(name);
    assert IsBlank(u) <==> IsBlank(name) by {
      forall i | 0 <= i < |name| ensures IsSpace(u[i]) <==> IsSpace(name[i]) {
        assert u[i] == UpperChar(name[i]);
      }
    }
    assert UpperSnakeCase(u) <==> UpperSnakeCase(name) by {
      forall i | 0 <= i < |name| ensures IsWordChar(u[i]) <==> IsWordChar(name[i]) {
        assert u[i] == UpperChar(name[i]);
      }
    }
  }

  lemma LowerCaseNameAccepted()
    ensures ValidateComponentName("button") == ValidationResult(true, None, None)
    ensures ValidateComponentName("BUTTON") == ValidationResult(true, None, None)
  {
    assert UpperSnakeCase("BUTTON");
    assert UpperSnakeCase("button");
    assert !IsBlank("button") by { assert !IsSpace("button"[0]); }
    assert !IsBlank("BUTTON") by { assert !IsSpace("BUTTON"[0]); }
  }

  // ---------------------------------------------------------------- validateCSSProperties

  const PropertiesNotObject := "CSS properties must be an object"

  /** `typeof v === 'object' && v !== null` */
  predicate IsObject(v: Value) {
    v.Arr? || v.Obj?
  }

  /** Keys the hyphen rule ignores: special features, nested elements, upper-case keys. */
  predicate SkippedKey(key: string) {
    StartsWith(key, '$') || StartsWith(key, '_') || key == Upper(key)
  }

  predicate HyphenatedProperty(key: string) {
    !SkippedKey(key) && Contains(key, '-')
  }

  const HyphenAdvice := "\" should use underscores instead of hyphens (e.g., \"background_color\" instead of \"background-color\")"

  function HyphenWarning(key: string): string {
    "Property \"" + key + HyphenAdvice
  }

  /** Anything that is not a non-null object is rejected with one error; any object is valid and
      draws one warning per hyphenated key. */
  method ValidateCSSProperties(properties: Value) returns (r: ValidationResult)
    ensures !IsObject(properties) ==> r == ValidationResult(false, Some([PropertiesNotObject]), None)
    ensures IsObject(properties) ==> r == Verdict([], Flagged(Keys(properties), HyphenatedProperty, HyphenWarning))
  {
    if !IsObject(properties) {
      return ValidationResult(false, Some([PropertiesNotObject]), None);
    }
    var warnings: seq<string> := [];
    var keys := Keys(properties);
    var i := 0;
    while i < |keys|
      invariant 0 <= i <= |keys|
      invariant warnings == Flagged(keys[..i], HyphenatedProperty, HyphenWarning)
    {
      var key := keys[i];
      FlaggedStep(keys, i, HyphenatedProperty, HyphenWarning);
      if SkippedKey(key) {
        // special features, nested elements and upper-case keys are not checked
      } else if Contains(key, '-') {
        warnings := warnings + [HyphenWarning(key)];
      }
      i := i + 1;
    }
    assert keys[..i] == keys;
    r := Verdict([], warnings);
  }

  // ---------------------------------------------------------------- validateComponentStyles

  const StylesNotObject := "Component styles must be an object"

  /** The special features whose value must be a non-null object. */
  const ObjectFeatures: set<string> := {"$pseudoClasses", "$pseudoElements", "$attributes", "$mediaQueries", "$foreign"}

  const AdvancedSelectorKey := "$advancedSelector"
  const DynamicValuesKey := "$dynamicValues"
  const MustBeObject := " must be an object"
  const AdvancedSelectorNotArray := "$advancedSelector must be an array"
  const DynamicValuesNotArray := "$dynamicValues must be an array"

  predicate DollarString(v: Value) {
    v.Str? && StartsWith(v.s, '$')
  }

  const DynamicValueAdvice := "\" must be a string starting with $"

  function DynamicValueError(v: Value): string {
    "Dynamic value \"" + Show(v) + DynamicValueAdvice
  }

  predicate BadDynamicValue(v: Value) {
    !DollarString(v)
  }

  /** The loop over the entries of `$dynamicValues`, pushing one error per bad entry. */
  method CheckDynamicValues(errors: seq<string>, values: seq<Value>) returns (e: seq<string>)
    ensures e == errors + Flagged(values, BadDynamicValue, DynamicValueError)
  {
    e := errors;
    var j := 0;
    while j < |values|
      invariant 0 <= j <= |values|
      invariant e == errors + Flagged(values[..j], BadDynamicValue, DynamicValueError)
    {
      FlaggedStep(values, j, BadDynamicValue, DynamicValueError);
      if !DollarString(values[j]) {
        e := e + [DynamicValueError(values[j])];
      }
      j := j + 1;
    }
    assert values[..j] == values;
  }

  /** The shape each special feature must have; every other key is unconstrained. */
  predicate FeatureShapeOk(key: string, value: Value) {
    (key in ObjectFeatures ==> IsObject(value))
    && (key == AdvancedSelectorKey ==> value.Arr?)
    && (key == DynamicValuesKey ==> value.Arr? && forall i :: 0 <= i < |value.items| ==> DollarString(value.items[i]))
  }

  /** The errors one entry of the styles object pushes after `errors`. */
  function EntryErrors(errors: seq<string>, key: string, value: Value): (e: seq<string>)
    ensures e == [] <==> errors == [] && FeatureShapeOk(key, value)
  {
    if key in ObjectFeatures then Push(errors, !IsObject(value), key + MustBeObject)
    else if key == AdvancedSelectorKey then Push(errors, !value.Arr?, AdvancedSelectorNotArray)
    else if key == DynamicValuesKey then
      if value.Arr? then errors + Flagged(value.items, BadDynamicValue, DynamicValueError) else errors + [DynamicValuesNotArray]
    else errors
  }

  /** The errors of all entries, in entry order, after `errors`. */
  function StyleErrors(errors: seq<string>, entries: seq<Member>): (e: seq<string>)
    ensures e == [] <==> errors == [] && forall i :: 0 <= i < |entries| ==> FeatureShapeOk(entries[i].key, entries[i].value)
  {
    if entries == [] then errors
    else
      var last := entries[|entries| - 1];
      EntryErrors(StyleErrors(errors, entries[..|entries| - 1]), last.key, last.value)
  }

  /** The checks the loop over the entries of the styles object makes on one entry. */
  method CheckEntry(errors: seq<string>, key: string, value: Value) returns (e: seq<string>)
    ensures e == EntryErrors(errors, key, value)
  {
    e := errors;
    if key in ObjectFeatures {
      if !IsObject(value) {
        e := e + [key + MustBeObject];
      }
    } else if key == AdvancedSelectorKey {
      if !value.Arr? {
        e := e + [AdvancedSelectorNotArray];
      }
    } else if key == DynamicValuesKey {
      if !value.Arr? {
        e := e + [DynamicValuesNotArray];
      } else {
        e := CheckDynamicValues(e, value.items);
      }
    }
  }

  /** The loop over the entries of the styles object. */
  method CheckEntries(entries: seq<Member>) returns (errors: seq<string>)
    ensures errors == StyleErrors([], entries)
  {
    errors := [];
    var i := 0;
    while i < |entries|
      invariant 0 <= i <= |entries|
      invariant errors == StyleErrors([], entries[..i])
    {
      ghost var upto := entries[..i + 1];
      assert upto[..i] == entries[..i] && upto[i] == entries[i];
      errors := CheckEntry(errors, entries[i].key, entries[i].value);
      i := i + 1;
    }
    assert entries[..i] == entries;
  }

  /** What validateComponentStyles returns: a non-object is rejected with one error; an object
      is valid exactly when its special features have their shapes, and carries the hyphen
      warnings of its keys. */
  function StylesVerdict(styles: Value): (r: ValidationResult)
    ensures WellFormed(r)
    ensures r.valid <==> IsObject(styles) && forall i :: 0 <= i < |Entries(styles)| ==> FeatureShapeOk(Entries(styles)[i].key, Entries(styles)[i].value)
    ensures !IsObject(styles) ==> r.errors == Some([StylesNotObject])
    ensures IsObject(styles) ==> ListOf(r.warnings) == Flagged(Keys(styles), HyphenatedProperty, HyphenWarning)
  {
    if !IsObject(styles) then ValidationResult(false, Some([StylesNotObject]), None)
    else Verdict(StyleErrors([], Entries(styles)), Flagged(Keys(styles), HyphenatedProperty, HyphenWarning))
  }

  /** The validator itself: the property check, then the loop over the entries. */
  method ValidateComponentStyles(styles: Value) returns (r: ValidationResult)
    ensures r == StylesVerdict(styles)
  {
    if !IsObject(styles) {
      return ValidationResult(false, Some([StylesNotObject]), None);
    }
    var css := ValidateCSSProperties(styles);
    // the property check of an object reports warnings only
    assert css.errors.None?;
    var errors := ListOf(css.errors);
    var warnings := ListOf(css.warnings);
    var entryErrors := CheckEntries(Entries(styles));
    errors := errors + entryErrors;
    assert errors == entryErrors;
    r := Verdict(errors, warnings);
  }

  // ---------------------------------------------------------------- validateBernovaConfig

  const ThemesMissing := "Configuration must have a \"themes\" array"
  const NoThemes := "At least one theme must be defined"

  /** `theme.name || i` */
  function ThemeLabel(t: Theme, i: nat): string {
    if Truthy(t.name) then t.name.value else IntString(i)
  }

  /** A module pointer, when present, must have a name and a path. */
  predicate CompleteRef(m: Option<ModuleRef>) {
    m.Some? ==> Truthy(m.value.name) && Truthy(m.value.path)
  }

  predicate ThemeOk(t: Theme) {
    Truthy(t.name) && CompleteRef(t.theme) && CompleteRef(t.foundations)
  }

  const NameRequired := " must have a \"name\" property"
  const RefRequired := " configuration must have \"name\" and \"path\""

  function NamelessTheme(i: nat): string {
    "Theme at index " + IntString(i) + NameRequired
  }

  function IncompleteRef(t: Theme, i: nat, field: string): string {
    "Theme \"" + ThemeLabel(t, i) + "\" " + field + RefRequired
  }

  /** The messages the checks of theme i push onto `errors`. */
  function ThemeErrors(errors: seq<string>, t: Theme, i: nat): (e: seq<string>)
    ensures e == [] <==> errors == [] && ThemeOk(t)
  {
    var e1 := Push(errors, !Truthy(t.name), NamelessTheme(i));
    var e2 := Push(e1, !CompleteRef(t.theme), IncompleteRef(t, i, "theme"));
    Push(e2, !CompleteRef(t.foundations), IncompleteRef(t, i, "foundations"))
  }

  /** The errors of every theme, in order, each labelled with its index, after `errors`. */
  function ThemesErrors(errors: seq<string>, themes: seq<Theme>): (e: seq<string>)
    ensures e == [] <==> errors == [] && forall i :: 0 <= i < |themes| ==> ThemeOk(themes[i])
  {
    if themes == [] then errors
    else ThemeErrors(ThemesErrors(errors, themes[..|themes| - 1]), themes[|themes| - 1], |themes| - 1)
  }

  /** The errors validateBernovaConfig reports: a missing `themes` list stops at one error. */
  function ConfigErrors(c: Config): (e: seq<string>)
    ensures c.themes.None? ==> e == [ThemesMissing]
    ensures e == [] <==> c.themes.Some? && |c.themes.value| > 0 && forall i :: 0 <= i < |c.themes.value| ==> ThemeOk(c.themes.value[i])
  {
    if c.themes.None? then [ThemesMissing]
    else ThemesErrors(Push([], |c.themes.value| == 0, NoThemes), c.themes.value)
  }

  /** The checks the loop over `themes` makes on theme i. */
  method CheckTheme(errors: seq<string>, theme: Theme, i: nat) returns (e: seq<string>)
    ensures e == ThemeErrors(errors, theme, i)
  {
    e := errors;
    if !Truthy(theme.name) {
      e := e + [NamelessTheme(i)];
    }
    if theme.theme.Some? && (!Truthy(theme.theme.value.name) || !Truthy(theme.theme.value.path)) {
      e := e + [IncompleteRef(theme, i, "theme")];
    }
    if theme.foundations.Some? && (!Truthy(theme.foundations.value.name) || !Truthy(theme.foundations.value.path)) {
      e := e + [IncompleteRef(theme, i, "foundations")];
    }
  }

  method ValidateBernovaConfig(c: Config) returns (r: ValidationResult)
    ensures r == Verdict(ConfigErrors(c), [])
  {
    if c.themes.None? {
      return ValidationResult(false, Some([ThemesMissing]), None);
    }
    var themes := c.themes.value;
    var errors: seq<string> := [];
    if |themes| == 0 {
      errors := errors + [NoThemes];
    }
    ghost var initial := errors;
    var i := 0;
    while i < |themes|
      invariant 0 <= i <= |themes|
      invariant errors == ThemesErrors(initial, themes[..i])
    {
      ghost var upto := themes[..i + 1];
      assert upto[..i] == themes[..i] && upto[i] == themes[i];
      assert ThemesErrors(initial, upto) == ThemeErrors(ThemesErrors(initial, themes[..i]), themes[i], i);
      errors := CheckTheme(errors, themes[i], i);
      i := i + 1;
    }
    assert themes[..i] == themes;
    assert errors == ConfigErrors(c);
    r := Verdict(errors, []);
  }

  // ---------------------------------------------------------------- validateCSSVariable

  const CategoryEmpty := "Variable category cannot be empty"
  const VariableNameEmpty := "Variable name cannot be empty"
  const ValueEmpty := "Variable value cannot be empty"
  const VariableHyphen := "Variable name should use underscores instead of hyphens"

  /** A blank category, name or string value is an error (numbers, 0 included, are accepted); a
      hyphen in the name only warns. */
  function ValidateCSSVariable(category: string, name: string, value: CssValue): (r: ValidationResult)
    ensures WellFormed(r)
    ensures r.valid <==> !IsBlank(category) && !IsBlank(name) && !(value.CssString? && IsBlank(value.s))
    ensures r.warnings.None? <==> !Contains(name, '-')
    ensures r.warnings.Some? ==> r.warnings.value == [VariableHyphen]
  {
    var errors := Push(Push(Push([], IsBlank(category), CategoryEmpty), IsBlank(name), VariableNameEmpty), value.CssString? && IsBlank(value.s), ValueEmpty);
    Verdict(errors, Push([], Contains(name, '-'), VariableHyphen))
  }

  // ---------------------------------------------------------------- validateMediaQuery

  const MediaNameEmpty := "Media query name cannot be empty"
  const MediaTypeEmpty := "Media query type cannot be empty (e.g., \"screen\", \"print\")"
  const MediaValuesEmpty := "Media query values must be a non-empty object"
  const StandardMediaProperties: seq<string> := ["min-width", "max-width", "min-height", "max-height", "orientation"]

  const MediaAdvice := "\" may not be standard. Common properties: "

  function MediaWarning(key: string): string {
    "Media query property \"" + key + MediaAdvice + Join(StandardMediaProperties, ", ")
  }

  predicate NonStandardMediaProperty(key: string) {
    key !in StandardMediaProperties
  }

  function MediaKeys(values: seq<(string, string)>): (ks: seq<string>)
    ensures |ks| == |values| && forall i :: 0 <= i < |values| ==> ks[i] == values[i].0
  {
    seq(|values|, i requires 0 <= i < |values| => values[i].0)
  }

  /** The errors validateMediaQuery reports. */
  function MediaErrors(name: string, mediaType: string, values: seq<(string, string)>): (e: seq<string>)
    ensures e == [] <==> !IsBlank(name) && !IsBlank(mediaType) && values != []
  {
    Push(Push(Push([], IsBlank(name), MediaNameEmpty), IsBlank(mediaType), MediaTypeEmpty), values == [], MediaValuesEmpty)
  }

  method ValidateMediaQuery(name: string, mediaType: string, values: seq<(string, string)>) returns (r: ValidationResult)
    ensures r == Verdict(MediaErrors(name, mediaType, values), Flagged(MediaKeys(values), NonStandardMediaProperty, MediaWarning))
  {
    var errors: seq<string> := [];
    var warnings: seq<string> := [];
    if IsBlank(name) {
      errors := errors + [MediaNameEmpty];
    }
    if IsBlank(mediaType) {
      errors := errors + [MediaTypeEmpty];
    }
    if |values| == 0 {
      errors := errors + [MediaValuesEmpty];
    }
    var keys := MediaKeys(values);
    var i := 0;
    while i < |keys|
      invariant 0 <= i <= |keys|
      invariant warnings == Flagged(keys[..i], NonStandardMediaProperty, MediaWarning)
    {
      FlaggedStep(keys, i, NonStandardMediaProperty, MediaWarning);
      if keys[i] !in StandardMediaProperties {
        warnings := warnings + [MediaWarning(keys[i])];
      }
      i := i + 1;
    }
    assert keys[..i] == keys;
    r := Verdict(errors, warnings);
  }
}
