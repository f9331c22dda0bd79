# bernova-mcp: a verified model of the theme-editing tools

bernova-mcp is a Model Context Protocol server that edits a Bernova design system on disk.
`bernova.config.json` lists the themes. Each theme points at up to three generated TypeScript
modules:

- the theme module, which holds one `export const NAME = {...};` per component plus an aggregate
  export that lists the component names;
- the foundations module, which holds one object of CSS variables grouped by category;
- the media-queries module, which holds one array of media-query objects.

The tools here edit these modules as text, with regular expressions, and never parse them.

This project models, in Dafny:

- the configuration tools (`getConfig`, `updateConfig`, `createConfig`, `getTheme`,
  `listThemes`) and the theme selection every tool repeats (module `ConfigTools`);
- the component tools (`getComponentStyle`, `createComponentStyle`, `updateComponentStyle`,
  `deleteComponentStyle`, `listComponents`) in module `Components`. Module `ComponentScan` holds
  their regular expressions, written out as scanners;
- the variable and media-query tools (`addCSSVariable`, `updateCSSVariable`, `getCSSVariables`,
  `addMediaQuery`, `listMediaQueries`) in module `Variables`, with their regular expressions in
  `VariableScan`;
- the six validators of `validators.ts` (module `Validators`);
- laws that relate several tool calls: adding then adding again, and what a module written by
  one tool lets the others find (module `VariableLaws` for the variable tools, module
  `ComponentLaws` for the component tools, worked through on small modules).

### How the model is built

- **Workspace.** The file system is a class `Store.Workspace` with two fields: the parsed
  configuration document (`config`, absent when the file does not exist) and a map from module
  path to module text (`files`).
- **Tools.** Each tool that writes is a method that `modifies` the workspace. Its result and the
  new `files` are given by an *outcome* function (`CreateOutcome`, `AddVariableOutcome`, ...).
  An outcome is either a refusal, which writes nothing, or the text written to one path.
  `Store.Respond` turns an outcome into the tool's response, and `Store.Apply` turns it into the
  new `files`.
- **Read-only tools.** These are functions. `listComponents` and `listMediaQueries` use an
  `exec` loop in the source, so they are methods with a `while` loop, proved to collect what
  `ListOutcome` / `MediaListOutcome` specify.
- **Regular expressions.** Each regular expression is a scanner function. `Search.FirstFrom`
  models a lazy quantifier or a leftmost match, and `Search.LastFrom` models a greedy quantifier
  that gives back characters.
  - The `i` flag is ASCII case folding.
  - `String.prototype.replace` substitutes `$$`, `$&`, `` $` ``, `$'` and `$n` in its template,
    as section 22.1.3.19.1 (GetSubstitution) of ECMA-262 prescribes (`Search.Substitute`).
- **JSON.** `JSON.stringify` is `Json.Stringify`, over a `Value` datatype whose numbers are
  integers.

### Behaviour of the code that callers may not expect

The model follows the code in each of these cases:

- **Case.** Component lookup, update and delete use the `i` flag, so `button` finds `BUTTON`
  (`ComponentScan.FindComponentIgnoresCase`, `Components.GetIgnoresCase`). The name validator
  also accepts lower case, so `button` gets no format warning
  (`Validators.LowerCaseNameAccepted`).
- **Aggregate.** `createComponentStyle` never checks whether the aggregate export already lists
  the name. It also rewrites the *first* flat declaration of the module, whatever its name
  (`ComponentScan.AddToAggregate`).
- **Deleting a name.** `deleteComponentStyle` removes the name wherever it occurs, with no word
  boundary: deleting `BUTTON` turns `BUTTON_GROUP` into `_GROUP`
  (`ComponentScan.RemoveNameIgnoresWordBoundaries`).
- **Flat components vanish.** The aggregate regex `[^}]*}` also matches a declaration whose
  styles are flat, and that includes the one create has just appended. Creating `BUTTON` with
  styles `{}` in a blank module therefore writes only the aggregate export
  `export const <theme> = {\n  BUTTON\n};`: the declaration itself is replaced
  (`ComponentLaws.FlatCreated`). Afterwards `getComponentStyle` fails, and a second create is
  written instead of being refused (`ComponentLaws.CreateTwiceNotRefused`). Styles with a nested
  object stop the aggregate regex at the inner `}`, so such a component survives, and a second
  create is refused (`ComponentLaws.CreateNestedTwiceRefused`).
- **Commas.** The comma clean-up is one left-to-right pass, and it is not idempotent: `,,,`
  becomes `,,` and then `,` (`ComponentScan.CleanCommasSinglePass`).
- **Media queries.**
  - The duplicate check looks for `name: 'N'` or `name: "N"`, and `listMediaQueries` looks for an
    unquoted `name:`. `JSON.stringify` writes the key as `"name":`, so, for names, types and
    values without colons, neither finds what `addMediaQuery` itself wrote.
  - As a result, adding the same query twice is not refused
    (`VariableLaws.AddMediaTwiceNotRefused`), and listing a module written by `addMediaQuery`
    gives no names (`VariableLaws.ListQuoted`).
- **Variables.** Adding the same variable twice to a blank foundations module is refused the
  second time, as intended (`VariableLaws.AddVariableTwiceRefused`).

## Model

| member | source | states |
|---|---|---|
| Text.Upper | src/tools/components.ts:71-74 | upper-casing keeps the length and folds each ASCII letter, which is what the `i` flag compares |
| Text.Trim | src/utils/validators.ts:36 | the trimmed text is empty exactly when the text is blank; otherwise it neither starts nor ends with white space |
| Text.TrimKeepsMiddle | src/utils/validators.ts:36 | the trimmed text is a slice of the text with only white space before and after it, so trim removes white space at the two ends and nothing else |
| Declarations.ConstHeader | src/tools/components.ts:72 | `export\s+const\s+` at a position: `export` is there, and the window where the name may start lies inside a whitespace run after `const` that ends at a non-space or the end of the text |
| Declarations.NameStart | src/tools/components.ts:72 | the greedy `\s+` before the name: a start exists only after a header, lies in its window, has the name and a succeeding rest there, and no later start in the window does; with none, no start in the window works |
| Declarations.AfterName | src/tools/variables.ts:283 | the whole declaration match succeeds exactly when a name start exists, and then with the outcome of the rest after the name |
| Declarations.LitAtUpper | src/tools/components.ts:73 | compared case-insensitively, a name and its upper-case form occur at the same places |
| Declarations.NameStartIgnoresCase | src/tools/components.ts:73 | with the `i` flag, the name and its upper-case form find the same start |
| Declarations.AfterNameIgnoresCase | src/tools/components.ts:381-384 | with the `i` flag, a declaration of a name and of its upper-case form match alike |
| Declarations.AssignOpen | src/tools/variables.ts:101 | `\s*=\s*` then the opening bracket: the bracket found is the given one, after the start, with an `=` between |
| Json.Keys | src/utils/validators.ts:72 | `Object.keys`: member keys in order for an object, the indices as digit strings for an array |
| Json.UnquoteKeys | src/tools/components.ts:175-176 | removing the quotes around keys never lengthens the text, and a text without quotes is left as it is |
| Json.UnquoteStep | src/tools/components.ts:175-176 | at the first `"key":` from the scan position, the text before it is kept, the key loses its two quotes and keeps its colon, and the scan goes on after the colon |
| Json.UnquoteRest | src/tools/components.ts:175-176 | with no quote left from the scan position, the rest of the text is kept |
| Json.UnquoteOneKey | src/tools/components.ts:175-176 | a text with a single quoted key loses exactly that key's two quotes |
| Json.StringifyDelimited | src/tools/variables.ts:376 | `JSON.stringify` never yields empty text: a string's text is in double quotes, an array's in brackets, an object's in braces |
| Json.CompactOneLine | src/tools/variables.ts:79 | `JSON.stringify` without an indent writes no newline, so a compact entry stays on one line |
| Types.Verdict | src/utils/validators.ts:52-56 | a result is valid exactly when there are no errors; empty error or warning lists become absent fields |
| Types.Flagged | src/utils/validators.ts:254-258 | one message per item that fails a check: no messages exactly when nothing fails, and every failing item's message is present |
| Types.Failing | src/utils/validators.ts:72-82 | the indices of the failing items: increasing, each one failing, and every failing item's index present |
| Types.FlaggedInOrder | src/utils/validators.ts:72-82 | the k-th message is the message of the k-th failing item, so the loop pushes one message per failing item, in item order, and nothing else |
| Types.FlaggedStep | src/utils/validators.ts:72-82 | one more loop step pushes the next item's message exactly when it fails |
| Validators.ValidateComponentName | src/utils/validators.ts:32-57 | valid exactly when the name is not blank and starts with neither `_` nor `$`, each with its own error; the format warning appears exactly when the case-insensitive upper-snake pattern fails |
| Validators.NameChecksExclusive | src/utils/validators.ts:36-50 | at most one of the three error checks fires, so an invalid name carries exactly one error |
| Validators.NameVerdictIgnoresCase | src/utils/validators.ts:40 | the verdict on a name and on its upper-case form are the same |
| Validators.LowerCaseNameAccepted | src/utils/validators.ts:40 | `button` is accepted without a warning, just like `BUTTON` |
| Validators.ValidateCSSProperties | src/utils/validators.ts:62-89 | a non-object is rejected with its one error; an object is valid, with one warning per hyphenated key that is not special, nested or upper case, in key order |
| Validators.CheckDynamicValues | src/utils/validators.ts:139-143 | the loop pushes one error per dynamic value that is not a string starting with `$`, in order |
| Validators.EntryErrors | src/utils/validators.ts:113-149 | an entry adds no error exactly when its value has the shape its special key demands |
| Validators.StyleErrors | src/utils/validators.ts:113-150 | no errors exactly when every entry has the shape its key demands |
| Validators.CheckEntry | src/utils/validators.ts:114-149 | one step of the entry loop pushes what EntryErrors specifies |
| Validators.CheckEntries | src/utils/validators.ts:113-150 | the loop over the styles' entries collects StyleErrors |
| Validators.StylesVerdict | src/utils/validators.ts:94-157 | valid exactly when the styles are an object whose every special feature is well shaped; a non-object gets its one error; the warnings are those of the property check |
| Validators.ValidateComponentStyles | src/utils/validators.ts:94-157 | the validator returns StylesVerdict |
| Validators.ThemeErrors | src/utils/validators.ts:182-194 | a theme adds no error exactly when it has a name and each module pointer it has is complete |
| Validators.ThemesErrors | src/utils/validators.ts:181-195 | no errors exactly when every theme is well formed |
| Validators.ConfigErrors | src/utils/validators.ts:162-202 | a missing `themes` list gives exactly its one error; no errors exactly when the list is non-empty and every theme is well formed |
| Validators.CheckTheme | src/utils/validators.ts:182-194 | one step of the theme loop pushes what ThemeErrors specifies |
| Validators.ValidateBernovaConfig | src/utils/validators.ts:162-202 | the validator's result is the verdict on ConfigErrors, with no warnings |
| Validators.ValidateCSSVariable | src/utils/validators.ts:207-232 | valid exactly when category and name are not blank and a string value is not blank (any number, 0 included, passes); a warning exactly when the name has a hyphen |
| Validators.MediaKeys | src/utils/validators.ts:254 | the keys of the breakpoint values, in order |
| Validators.MediaErrors | src/utils/validators.ts:241-251 | no errors exactly when name and type are not blank and the values are not empty |
| Validators.ValidateMediaQuery | src/utils/validators.ts:237-265 | the verdict on MediaErrors, with one warning per key outside the five standard properties |
| ConfigTools.FindTheme | src/tools/config.ts:188 | the index of the first theme with exactly that name, or none exactly when no theme has it |
| ConfigTools.ResolveTheme | src/tools/components.ts:38-49 | with a name, the first theme of that name or the not-found error; without one, the first theme or the no-themes error exactly when the list is empty |
| ConfigTools.SelectionMessagesDiffer | src/tools/components.ts:38-49 | the two refusals of theme selection never read alike |
| ConfigTools.ChooseTheme | src/tools/components.ts:38-49 | a document without `themes` throws the TypeError of `.find`/`[0]`; otherwise the theme ResolveTheme picks, or its refusal |
| ConfigTools.GetConfig | src/tools/config.ts:13-37 | succeeds exactly when the document exists, returning it; otherwise the not-found error |
| ConfigTools.Merge | src/tools/config.ts:51-62 | the update's `themes` win when present; the settings are the union, with the update's values winning |
| ConfigTools.MergeIdempotent | src/tools/config.ts:51-62 | merging the same update twice is merging it once, and an empty update changes nothing |
| ConfigTools.FinalConfig | src/tools/config.ts:51-62 | the document validated is the merge with the stored one when merging and one exists, otherwise the update itself |
| ConfigTools.UpdateKeepsStoredThemes | src/tools/config.ts:51-71 | a partial update without `themes` keeps the stored themes, so it is valid exactly when the stored themes are |
| ConfigTools.UpdateConfig | src/tools/config.ts:42-87 | succeeds exactly when the final document validates, and then stores and returns it; otherwise the stored document is unchanged and the error lists the validation errors; modules are never touched |
| ConfigTools.DefaultConfig | src/tools/config.ts:103-160 | one theme named as given, with its four module pointers at the `design/<theme>/...` paths |
| ConfigTools.DefaultConfigSelfConsistent | src/tools/config.ts:103-160 | the default document validates exactly when the theme name is not empty, and selection finds its theme with or without the name |
| ConfigTools.CreateConfig | src/tools/config.ts:92-175 | refuses when a document exists and changes nothing; otherwise stores the default document for the given name (or `default` when none is given) |
| ConfigTools.GetTheme | src/tools/config.ts:180-208 | the first theme with exactly that name, or the not-found error when there is none |
| ConfigTools.ListThemes | src/tools/config.ts:213-237 | one name per theme, in document order |
| ConfigTools.ListedThemesAreFound | src/tools/config.ts:188-224 | every name listThemes reports leads getTheme to a theme of that name |
| Components.SelectThemeFile | src/tools/components.ts:32-56 | the configuration, then the theme, then a non-empty theme-module path, in that order, each failure with its own error |
| Components.ReselectByName | src/tools/components.ts:158-164 | resolving again by the chosen theme's own name resolves the same theme |
| Components.ReselectThemeFile | src/tools/components.ts:158-164 | selecting again by the selected theme's name selects the same theme and path |
| Components.GetComponentStyle | src/tools/components.ts:17-101 | the name check, the selection, the file check and the lookup, in order; on success the content is the leftmost declaration of the name and starts with `export` |
| Components.GetIgnoresCase | src/tools/components.ts:71-83 | the lookup of a name and of its upper-case form succeed together and find the same declaration |
| Components.StylesText | src/tools/components.ts:175-176 | removing the key quotes never makes the styles text longer than the pretty JSON it comes from |
| ComponentLaws.EmptyStylesText | src/tools/components.ts:175-176 | empty styles are written as `{}` |
| ComponentLaws.IconStylesText | src/tools/components.ts:175-176 | styles with one nested, empty object are written over three lines, with the key's quotes removed |
| Components.CreatedBase | src/tools/components.ts:179-188 | the declaration is appended to a non-blank module and is the whole module of a blank one |
| Components.CreateOutcome | src/tools/components.ts:106-229 | a bad name, bad styles and a failed selection are refused, each with its own error; a write needs both validations to pass and goes to the selected theme module, with the created text of what was read there and the saved name, theme, path and styles |
| Components.CreateRefusesExisting | src/tools/components.ts:158-164 | once the checks pass, create is refused as a duplicate exactly when the lookup finds the name |
| Components.CreatedTextShape | src/tools/components.ts:191-208 | with no flat declaration the aggregate is appended; with one, the text outside it is kept |
| Components.CreateWrites | src/tools/components.ts:158-222 | when the lookup fails, create writes the created text to the selected module |
| Components.CreateComponentStyle | src/tools/components.ts:106-229 | returns the response of CreateOutcome and writes only what it says |
| Components.Reselect | src/tools/components.ts:274-283 | the repeated selection of update and delete succeeds exactly when SelectThemeFile does, with the same result |
| Components.ReselectAfterLookup | src/tools/components.ts:259-283 | after a successful lookup the repeated selection picks the module the lookup read |
| Components.UpdateOutcome | src/tools/components.ts:234-330 | refusals for a bad name, bad styles, a missing component; a write replaces the leftmost declaration's value by the styles text |
| Components.UpdateAfterLookup | src/tools/components.ts:259-309 | once the lookup succeeds, update is refused exactly when the update regex finds no `};`-terminated declaration, and then with the no-declaration error |
| Components.UpdateComponentStyle | src/tools/components.ts:234-330 | returns the response of UpdateOutcome and writes only what it says |
| Components.DeleteOutcome | src/tools/components.ts:335-414 | a bad name or a missing component is refused; a write replaces the module the lookup read by DeleteText of it |
| Components.DeleteShrinks | src/tools/components.ts:350-407 | delete writes exactly when the lookup finds the component, and never lengthens the module |
| ComponentLaws.BlankNoComponent | src/tools/components.ts:71-76 | the lookup finds no component in a blank module |
| ComponentLaws.FlatAggregate | src/tools/components.ts:191-192 | for a name of letters, digits and `_`, in a module holding one flat declaration of it, the aggregate regex matches that declaration |
| ComponentLaws.FlatCreated | src/tools/components.ts:191-204 | for a name and an aggregate name of letters, digits and `_`, registering the name in a module holding only its flat declaration replaces that declaration by the aggregate export |
| ComponentLaws.AggregateHidesName | src/tools/components.ts:71-76 | for a name and an aggregate name of letters, digits and `_`, where the aggregate name does not contain the name (ignoring case), the lookup regex finds no declaration of the name in an aggregate export that lists it |
| ComponentLaws.FlatFound | src/tools/components.ts:71-76 | for a name of letters, digits and `_`, the lookup regex finds a flat declaration of it |
| ComponentLaws.NestedCreated | src/tools/components.ts:191-208 | for a name of letters, digits and `_`, a declaration of it with a nested object is not matched by the aggregate regex, so the aggregate export is appended after it |
| ComponentLaws.NestedFound | src/tools/components.ts:71-76 | for a name and an aggregate name of letters, digits and `_`, the lookup finds a nested declaration followed by the aggregate export that lists it |
| ComponentLaws.FlatDeleted | src/tools/components.ts:380-399 | for a name of letters, digits and `_`, deleting the one flat declaration of it in a module leaves a single line break |
| ComponentLaws.BlankCreate | src/tools/components.ts:157-208 | create in a blank module writes the declaration, registered with the theme's aggregate, to the selected module |
| ComponentLaws.FlatFirstCreate | src/tools/components.ts:157-208 | for a name and a theme name of letters, digits and `_`, the first create of flat styles in a blank module writes the aggregate export alone |
| ComponentLaws.AfterFlatCreate | src/tools/components.ts:157-164 | for a name and a theme name of letters, digits and `_`, the theme name not containing the name, once the module holds that aggregate export alone, get fails and create writes again |
| ComponentLaws.CreateTwiceNotRefused | src/tools/components.ts:106-229 | flat styles, blank module: the first create writes only the aggregate export; get then fails and a second create writes instead of being refused |
| ComponentLaws.NestedFirstCreate | src/tools/components.ts:157-208 | for a name of letters, digits and `_`, the first create of nested styles in a blank module writes the declaration followed by the aggregate export |
| ComponentLaws.AfterNestedCreate | src/tools/components.ts:157-164 | for a name and a theme name of letters, digits and `_`, once the module holds that text, get finds the component and create refuses it as existing |
| ComponentLaws.CreateNestedTwiceRefused | src/tools/components.ts:106-229 | nested styles, blank module: the first create keeps the declaration; get then succeeds and the second create is refused as existing |
| ComponentLaws.DeleteOnly | src/tools/components.ts:335-402 | for a name of letters, digits and `_`, deleting the only (flat) declaration of it in a module writes a line break to the module |
| ComponentLaws.AfterDelete | src/tools/components.ts:349-356 | for a name of letters, digits and `_`, once the module holds a line break alone, get fails and delete is refused as not found |
| ComponentLaws.DeleteThenGet | src/tools/components.ts:335-414 | delete of the only declaration writes a line break; get then fails and a second delete is refused as not found |
| Components.DeleteComponentStyle | src/tools/components.ts:335-414 | returns the response of DeleteOutcome and writes only what it says |
| Components.ListOutcome | src/tools/components.ts:419-484 | succeeds exactly when the selection does; a missing module lists nothing; otherwise a name is listed exactly when the list regex declares it and it is not the aggregate's own name |
| Components.WithoutStep | src/tools/components.ts:465-470 | one loop step keeps the next name unless it is the aggregate's |
| Components.CollectStep | src/tools/components.ts:465-470 | the loop invariant survives a step: collected names followed by the rest are all the names |
| Components.ListComponents | src/tools/components.ts:419-484 | the `exec` loop returns exactly ListOutcome |
| ComponentScan.FindComponent | src/tools/components.ts:71-76 | the leftmost position where the lookup regex matches, or none exactly when it matches nowhere |
| ComponentScan.LookupAtIgnoresCase | src/tools/components.ts:71-74 | at every position the lookup regex matches a name and its upper-case form alike |
| ComponentScan.FindComponentIgnoresCase | src/tools/components.ts:71-76 | the leftmost match for a name and for its upper-case form are the same |
| ComponentScan.FindDeclaration | src/tools/components.ts:294-299 | the leftmost match of the update regex, or none exactly when it matches nowhere |
| ComponentScan.UpdateRest | src/tools/components.ts:294-297 | the lazy body stops at the first `};` after the opening brace |
| ComponentScan.DeclarationMatchShape | src/tools/components.ts:294-297 | the matched text starts with `export` (any case) and ends with the first `};` after the brace |
| ComponentScan.ReplaceDeclaration | src/tools/components.ts:299-303 | no replacement exactly when the regex does not match; otherwise the leftmost match rewritten by the template |
| ComponentScan.RewriteKeepsRest | src/tools/components.ts:300-303 | with no `$` in the styles, everything up to the opening brace and after the `};` is kept |
| ComponentScan.StripDeclarations | src/tools/components.ts:381-386 | removing declarations never lengthens the text, and changes nothing when none matches |
| ComponentScan.StripStep | src/tools/components.ts:381-386 | at the first match of the delete regex from the scan position, the text before it is kept and the match is dropped; the scan goes on after it |
| ComponentScan.StripRest | src/tools/components.ts:381-386 | with no match left, the rest of the text is kept |
| ComponentScan.StripKeepsPrefix | src/tools/components.ts:381-386 | everything before the first declaration of the name is kept at the front of the result |
| ComponentScan.NameEndFrom | src/tools/components.ts:389-392 | the greedy spaces before the name keep as many as still let the name follow |
| ComponentScan.RemoveName | src/tools/components.ts:389-394 | removing the name never lengthens the text, and a text where the reference regex matches nowhere is kept |
| ComponentScan.RemoveNameIgnoresWordBoundaries | src/tools/components.ts:389-394 | deleting `BUTTON` turns `BUTTON_GROUP` into `_GROUP` |
| ComponentScan.ReplacePairs | src/tools/components.ts:397-399 | one pass never lengthens the text and changes nothing when no pair occurs |
| ComponentScan.CleanCommas | src/tools/components.ts:397-399 | the clean-up never lengthens the text |
| ComponentScan.CleanCommasSinglePass | src/tools/components.ts:397-399 | the clean-up is not idempotent: `,,,` becomes `,,`, which becomes `,` |
| ComponentScan.DeleteText | src/tools/components.ts:381-399 | the text delete writes is never longer than the module |
| Search.ReplaceAllFirst | src/tools/components.ts:386-399 | a global replace keeps the text before the first match, puts the replacement in its place and goes on after it |
| Search.ReplaceAllNoMatch | src/tools/components.ts:386-399 | a global replace with no match from the scan position keeps the rest of the text |
| Search.SubstituteLiteral | src/tools/variables.ts:94-97 | a replacement text without `$` is inserted exactly as written |
| Search.SubstituteFirstGroup | src/tools/variables.ts:114-117 | the template `$1` followed by text without `$` gives the first capture group followed by that text |
| ComponentScan.AggregateTail | src/tools/components.ts:191 | the flat body runs from the brace to the first `}`, which `;` must follow |
| ComponentScan.FindAggregate | src/tools/components.ts:191-192 | the first flat declaration, or none exactly when there is none |
| ComponentScan.AddToAggregate | src/tools/components.ts:194-208 | with no flat declaration the aggregate declaration is appended; otherwise the first one is rewritten |
| ComponentScan.AddToAggregateKeepsOutside | src/tools/components.ts:194-204 | registering a name never changes the text outside the declaration it rewrites |
| ComponentScan.RewriteAggregateInPlace | src/tools/components.ts:201-204 | without `$`, the first flat declaration is replaced by the aggregate template literally |
| ComponentScan.AggregateLiteral | src/tools/components.ts:197-204 | the template holds a `$` only if the old entries, the aggregate name or the new name does |
| ComponentScan.NextListed | src/tools/components.ts:461-465 | the match at the leftmost position from the last index where the list regex matches, or none exactly when it matches nowhere from there; it ends after the last index and names an identifier |
| ComponentScan.Declared | src/tools/components.ts:461-470 | every name the loop meets is an identifier |
| ComponentScan.Without | src/tools/components.ts:467-469 | a name is kept exactly when it is not the aggregate's, and nothing is dropped when there is no aggregate name |
| VariableScan.FindCategory | src/tools/variables.ts:73-74 | the leftmost category block, or none exactly when the category regex matches nowhere |
| VariableScan.HasKey | src/tools/variables.ts:82-83 | true exactly when the name followed by a colon occurs in the block |
| VariableScan.CategoryEntries | src/tools/variables.ts:86-91 | the trimmed old entries and the new one after a comma, or only the new one when the block was blank |
| VariableScan.AddToCategoryInPlace | src/tools/variables.ts:94-97 | without `$`, the text before the block and after its closing brace is kept |
| VariableScan.FirstClose | src/tools/variables.ts:100-104 | the first closing bracket after the opening one |
| VariableScan.FindBracketed | src/tools/variables.ts:100-105 | the leftmost match of the declaration regex, or none exactly when it matches nowhere |
| VariableScan.AppendInsideInPlace | src/tools/variables.ts:114-117 | without `$`, the header and everything after the match are kept around the new contents |
| VariableScan.ValueAfterKey | src/tools/variables.ts:197-207 | the value runs from after the colon and spaces to the first `,`, newline or `}` |
| VariableScan.FindValue | src/tools/variables.ts:197-207 | the leftmost match of the variable regex, or none exactly when it matches nowhere |
| VariableScan.ReplaceValueInPlace | src/tools/variables.ts:209-212 | without `$`, only the old value's text is replaced |
| VariableScan.NamedAt | src/tools/variables.ts:478-484 | a match of the name regex starts with an unquoted `name:` and names a non-empty, quote-free name |
| VariableScan.NextNamed | src/tools/variables.ts:482 | the match at the leftmost position from the last index where the name regex matches, or none exactly when it matches nowhere from there; it ends after the last index and names a non-empty name |
| VariableScan.Named | src/tools/variables.ts:478-484 | the names the loop collects are non-empty |
| VariableScan.Includes | src/tools/variables.ts:379 | `includes` is true exactly when the text occurs somewhere |
| Variables.SelectPart | src/tools/variables.ts:40-58 | the configuration, the theme and a non-empty foundations or media-queries path, in order, each failure with its own error |
| Variables.UpdateSelection | src/tools/variables.ts:170-183 | updateCSSVariable's selection succeeds or throws exactly when SelectPart does; its refusals collapse to the configuration error or the foundations error |
| Variables.EditFoundations | src/tools/variables.ts:69-120 | the successive reassignments compute AddedFoundations |
| Variables.FoundationsCases | src/tools/variables.ts:68-121 | a blank module, and a module with neither a block for the category nor the foundations declaration, becomes the fresh module; the edit is refused exactly when the module is not blank and the category's block already has the name as a key |
| Variables.EntryInCategory | src/tools/variables.ts:76-97 | when the category's block lacks the name and no `$` occurs, the block becomes `category: {`, its trimmed entries, a comma when there were any, the new entry and `\n  }`; the text before and after the block is kept |
| Variables.NewCategoryInFoundations | src/tools/variables.ts:98-117 | when no block for the category exists but the declaration does and no `$` occurs, the new block goes after the object's trimmed entries, a comma when there were any, and the object closes with `\n};`; the text up to the opening brace and after the declaration is kept |
| Variables.AddVariableToCases | src/tools/variables.ts:61-123 | refused, with the already-exists error, exactly when the module file exists and its edit is refused; a missing file is written as the fresh module |
| Variables.AddVariableToWritten | src/tools/variables.ts:125-139 | a write goes to the foundations path and carries the variable record, with its `--category-name` CSS name, and the success message |
| Variables.AddVariableOutcome | src/tools/variables.ts:23-139 | an invalid variable is refused with its joined errors; then the selection's refusal, or its thrown error after the `Error adding CSS variable: ` prefix; once validation and selection pass, the outcome is AddVariableTo's for the selected theme and path, so the duplicate refusal and the written text are those of AddVariableToCases and AddVariableToWritten; a write only ever goes to the selected foundations path |
| Variables.AddVariableIn | src/tools/variables.ts:61-139 | read, edit and write: the response and the files follow AddVariableTo |
| Variables.AddCSSVariable | src/tools/variables.ts:17-146 | returns the response of AddVariableOutcome and writes only what it says |
| Variables.UpdateVariableOutcome | src/tools/variables.ts:151-235 | refusals for a bad variable, selection, a missing file or a missing variable, each with its own error; writes exactly when all checks pass, replacing the leftmost match's value by the new value's JSON |
| Variables.UpdateCSSVariable | src/tools/variables.ts:151-235 | returns the response of UpdateVariableOutcome and writes only what it says |
| Variables.GetCSSVariables | src/tools/variables.ts:240-311 | selection errors are returned; a missing file or an unmatched declaration gives an empty object; otherwise the text of the leftmost foundations declaration |
| Variables.EditMediaQueries | src/tools/variables.ts:368-407 | the successive reassignments compute AddedMediaQueries |
| Variables.MediaCases | src/tools/variables.ts:374-408 | a blank module, and a module without the array declaration, becomes the fresh module; the edit is refused exactly when the module is not blank and mentions `name: '…'` or `name: "…"` |
| Variables.EntryInMediaArray | src/tools/variables.ts:386-404 | when the name is not mentioned, the declaration exists and no `$` occurs, the entry goes after the array's trimmed items, a comma when there were any, and the array closes with `\n];`; the text up to the opening bracket and after the declaration is kept |
| Variables.AddMediaToCases | src/tools/variables.ts:359-409 | refused, with the already-exists error, exactly when the module file exists, is not blank and mentions the name; a missing file is written as the fresh module |
| Variables.AddMediaToWritten | src/tools/variables.ts:411-424 | a write goes to the media-queries path and carries the query record and the success message |
| Variables.AddMediaOutcome | src/tools/variables.ts:322-424 | a query with validation errors is refused with them joined; then the selection's refusal, or its thrown error after the `Error adding media query: ` prefix; once validation and selection pass, the outcome is AddMediaTo's for the selected theme and path, so the duplicate refusal and the written text are those of AddMediaToCases and AddMediaToWritten; a write only ever goes to the selected media-queries path |
| Variables.AddMediaIn | src/tools/variables.ts:360-424 | read, edit and write: the response and the files follow AddMediaTo |
| Variables.AddMediaQuery | src/tools/variables.ts:316-431 | returns the response of AddMediaOutcome and writes only what it says |
| Variables.MediaListOutcome | src/tools/variables.ts:436-497 | succeeds exactly when the selection does; a missing module lists nothing; otherwise the names the name regex meets, in text order |
| Variables.NamedStep | src/tools/variables.ts:482-484 | the loop invariant survives a step |
| Variables.ListMediaQueries | src/tools/variables.ts:436-497 | the `exec` loop returns exactly MediaListOutcome |
| VariableLaws.StringifyQuoted | src/tools/variables.ts:376 | JSON.stringify of a value without colons in its strings writes a colon only right after a closing quote |
| VariableLaws.QuotedNotNamed | src/tools/variables.ts:379-384 | in such a text the duplicate check finds no name and the name regex lists nothing |
| VariableLaws.FreshMediaQuoted | src/tools/variables.ts:375-376 | the fresh media-query module of a colon-free query has all its colons after quotes |
| VariableLaws.AddMediaToBlank | src/tools/variables.ts:375-376 | addMediaQuery on a blank module writes the fresh module |
| VariableLaws.AddMediaToQuoted | src/tools/variables.ts:379-384 | on a module whose colons all follow quotes, addMediaQuery is never refused as a duplicate |
| VariableLaws.ListQuoted | src/tools/variables.ts:478-490 | on such a module listMediaQueries returns no names |
| VariableLaws.AddMediaTwiceNotRefused | src/tools/variables.ts:375-384 | after addMediaQuery writes a blank module, the same query is added again and the list is empty |
| VariableLaws.FreshKnows | src/tools/variables.ts:69-97 | the fresh foundations module has the category block, the key and the value of the variable written |
| VariableLaws.AddVariableToBlank | src/tools/variables.ts:69-70 | addCSSVariable on a blank module writes the fresh module |
| VariableLaws.AddVariableToBlankKnows | src/tools/variables.ts:69-139 | under FreshKnows' hypotheses (a module name without colons, a plain category, a name without `}`), the module addCSSVariable writes over a blank one knows the variable |
| VariableLaws.AddVariableToKnown | src/tools/variables.ts:73-92 | addCSSVariable refuses a variable the module already knows |
| VariableLaws.UpdateKnown | src/tools/variables.ts:187-212 | updateCSSVariable writes a variable the module knows |
| VariableLaws.AddVariableTwiceRefused | src/tools/variables.ts:69-97 | adding a variable to a blank module and adding it again: the second add is refused as existing, and an update after the add writes |

## Left out

- `src/index.ts` (the tool dispatch table), `src/tools/compile.ts` (the external compiler) and
  `src/utils/file-system.ts` are not part of this model. Reading and writing are the
  workspace's map, and `resolveConfigPath` is the identity on the configured path.
- `async`/`await`, `console.warn` and the zod schemas declared at the top of `validators.ts`
  are left out. The zod schemas are never used by the validators.
- The exact text of file-system errors is left out. A failed read is modelled by the prefix the
  tool adds, without the system's own detail.
- JSON parse errors of the configuration file are left out. The document is held already
  parsed, and a missing document is `None`.
- Numbers are integers. Floating-point values and their JSON formatting are left out.
- Record keys keep the order in which they are given. JavaScript's reordering of
  integer-like keys is left out.
- The `Configuration must be an object` check of `validateBernovaConfig` is left out. The
  document is typed, so it is always an object.
- Arguments of a JSON type other than the declared one are left out. Strings, numbers and
  breakpoint records are typed, so the following paths are not modelled:
  - the `value === undefined || value === null` test of `validateCSSVariable`;
  - a missing `name` in `validateCSSVariable`, where `name.includes` throws;
  - `validateMediaQuery` with `values` that is not an object. For `null` or `undefined` the
    error is pushed and then `Object.keys(values)` throws, which `addMediaQuery` reports as
    `Error adding media query: ` and the TypeError. For a string, one warning is added per
    character index.
- Text.Trim: its own contract states the empty case and the ends. That the result is the text
  with white space removed at both ends and nothing else is stated by Text.TrimKeepsMiddle.
- Types.Flagged: its own contract states the empty case and that every failing item's message is
  present. That the messages are exactly those of the failing items, in item order, is stated by
  Types.FlaggedInOrder.
- Text.Upper: case folding covers ASCII letters only, not the full Unicode case mapping of the
  `i` flag or of `toUpperCase`.
- Validators.ValidateCSSProperties: the `key === key.toUpperCase()` test is modelled with ASCII
  upper-casing. A key whose only lower-case letters are non-ASCII and that holds a hyphen, such as
  `é-X` or `ß-X`, differs from its `toUpperCase` and is warned about by `validateCSSProperties`,
  but the model reads it as already upper case and skips it.
- Validators.StylesVerdict: its warnings are those of ValidateCSSProperties, so the gap described
  on the ValidateCSSProperties line applies.
- Validators.ValidateComponentStyles: returns StylesVerdict, so the gap described on the
  ValidateCSSProperties line applies.
- ComponentScan.FindComponent: names are matched literally. A name containing regular-expression
  metacharacters is not interpreted as a pattern. The same holds for every scanner that
  interpolates a name or category.
- Components.UpdateOutcome: the second theme check of update and delete, after the existence
  check, is modelled by Components.Reselect with both of its refusals. It can never fail once
  the lookup has succeeded, which Components.ReselectAfterLookup proves.
- VariableLaws.FreshKnows: proved only for a module name without colons, a category without
  colons that does not end in white space, and a variable name without `}`.
- VariableLaws.AddVariableTwiceRefused: the same hypotheses as FreshKnows apply. Other
  categories and names can make the category regex stop early.
- VariableLaws.AddMediaTwiceNotRefused: proved for query names, types and breakpoint values
  without colons. A colon inside a string could place `name:` text in the module.
- Json.UnquoteKeys: its own contract states the length bound and that a quote-free text is kept.
  The effect of each match is stated by Json.UnquoteStep and Json.UnquoteRest.
- Components.StylesText: its own contract states only the length bound. The key-quote removal
  is stated by Json.UnquoteStep and Json.UnquoteOneKey, and two styles texts are worked out in
  full (ComponentLaws.EmptyStylesText, ComponentLaws.IconStylesText).
- ComponentScan.RemoveName: its own contract states the length bound and that a text without
  the name is kept. The effect of each match is stated generically by Search.ReplaceAllFirst.
- ComponentScan.ReplacePairs: the same holds as for RemoveName.
- ComponentScan.CleanCommas: only the length bound is stated. Each of its three passes is a
  ReplacePairs.
- ComponentScan.DeleteText: only the length bound is stated for every module. Its full effect is
  worked out for a module holding one flat declaration (ComponentLaws.FlatDeleted).
- ComponentLaws.CreateTwiceNotRefused: proved for a blank module, and for a component name and
  aggregate name made of letters, digits and `_` where the aggregate name does not contain the
  component name. Other modules are not worked through.
- ComponentLaws.CreateNestedTwiceRefused: proved for a blank module and the one nested styles
  value `{ _icon: {} }`, with the same restriction on names.
- ComponentLaws.DeleteThenGet: proved for a module holding one flat declaration of the name.
- ComponentLaws.FlatAggregate: proved only for a name made of letters, digits and `_`. The aggregate regex reads the declared
  name as `\w+`, so a name the validator accepts with a warning, such as `A-B`, is not matched.
- ComponentLaws.FlatCreated: proved only for a component name and an aggregate name made of
  letters, digits and `_`. For other names the aggregate regex does not match the declaration.
- ComponentLaws.AggregateHidesName: proved only for a component name and an aggregate name made
  of letters, digits and `_`, where the aggregate name does not contain the component name
  ignoring case. The lookup does find the aggregate declaration itself when the two names are
  equal ignoring case.
- ComponentLaws.FlatFound: proved only for a name made of letters, digits and `_`.
- ComponentLaws.NestedCreated: proved only for a name made of letters, digits and `_`.
- ComponentLaws.NestedFound: proved only for a component name and an aggregate name made of
  letters, digits and `_`.
- ComponentLaws.FlatDeleted: proved only for a name made of letters, digits and `_`.
- ComponentLaws.FlatFirstCreate: proved only for a component name and a theme name made of
  letters, digits and `_`, and a blank module.
- ComponentLaws.AfterFlatCreate: proved only for a component name and a theme name made of
  letters, digits and `_`, where the theme name does not contain the component name ignoring case.
- ComponentLaws.NestedFirstCreate: proved only for a name made of letters, digits and `_` and a blank module.
- ComponentLaws.AfterNestedCreate: proved only for a component name and a theme name made of
  letters, digits and `_`.
- ComponentLaws.DeleteOnly: proved only for a name made of letters, digits and `_` and a module holding one flat declaration.
- ComponentLaws.AfterDelete: proved only for a name made of letters, digits and `_`.
- VariableLaws.AddVariableToBlankKnows: proved only under the hypotheses of FreshKnows: a
  foundations module name without colons, a plain category and a variable name without `}`.
- Variables.EntryInCategory: the literal result is stated only when neither the module, the
  category nor the entry holds a `$`. With a `$`, `replace` expands its substitution patterns;
  AddedFoundations models them through Search.Substitute, but no closed form is stated.
- Variables.NewCategoryInFoundations: the same restriction to text without `$` applies.
- Variables.EntryInMediaArray: the same restriction to text without `$` applies.
