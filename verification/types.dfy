/** The shapes of the Bernova configuration document, of a validator's verdict and of a tool's
    response (src/types/bernova.types.ts). */
module Types {
  import opened Text
  import opened Json

  /** A `{ name, path }` pointer to a generated module; either part may be missing. */
  datatype ModuleRef = ModuleRef(name: Option<string>, path: Option<string>)

  /** One entry of `themes`. The fields the tools never inspect (prefix, minified, stylesPath,
      resetCss, fonts, bvTools, typesTools, foreignThemes) are kept as JSON values. */
  datatype Theme = Theme(
    name: Option<string>,
    theme: Option<ModuleRef>,
    foundations: Option<ModuleRef>,
    globalStyles: Option<ModuleRef>,
    mediaQueries: Option<ModuleRef>,
    settings: map<string, Value>)

  /** The configuration document; `settings` holds provider, tsconfigPath and compilerOptions. */
  datatype Config = Config(themes: Option<seq<Theme>>, settings: map<string, Value>)

  /** A CSS variable's value: `string | number` (numbers are integers in this model). */
  datatype CssValue = CssString(s: string) | CssNumber(n: int)

  /** The value as a JSON value, for `JSON.stringify`. */
  function CssJson(v: CssValue): Value {
    match v
    case CssString(s) => Str(s)
    case CssNumber(n) => Num(n)
  }

  /** A JavaScript string property is truthy when it is present and not empty. */
  predicate Truthy(o: Option<string>) {
    o.Some? && o.value != ""
  }

  /** How a template literal prints an optional string: a missing one prints as `undefined`. */
  function Shown(o: Option<string>): string {
    if o.Some? then o.value else "undefined"
  }

  /** `{ valid, errors?, warnings? }` */
  datatype ValidationResult = ValidationResult(valid: bool, errors: Option<seq<string>>, warnings: Option<seq<string>>)

  /** The shape every validator returns: `valid` exactly when there are no errors, and a list is
      absent exactly when it would be empty. */
  predicate WellFormed(r: ValidationResult) {
    (r.valid <==> r.errors.None?)
    && (r.errors.Some? ==> r.errors.value != [])
    && (r.warnings.Some? ==> r.warnings.value != [])
  }

  /** The record a validator builds from its accumulated `errors` and `warnings`. */
  function Verdict(errors: seq<string>, warnings: seq<string>): (r: ValidationResult)
    ensures WellFormed(r)
    ensures r.valid <==> errors == []
    ensures r.errors == if errors == [] then None else Some(errors)
    ensures r.warnings == if warnings == [] then None else Some(warnings)
  {
    ValidationResult(errors == [], if errors == [] then None else Some(errors), if warnings == [] then None else Some(warnings))
  }

  /** `if (c) list.push(m)`: the accumulated messages after one check. */
  function Push(list: seq<string>, c: bool, m: string): (r: seq<string>)
    ensures r == [] <==> list == [] && !c
    ensures |r| <= |list| + 1
  {
    if c then list + [m] else list
  }

  /** The indices of the items of `xs` that fail, in increasing order. */
  function Failing<T>(xs: seq<T>, fails: T -> bool): (ix: seq<nat>)
    ensures forall k :: 0 <= k < |ix| ==> ix[k] < |xs| && fails(xs[ix[k]])
    ensures forall k, l :: 0 <= k < l < |ix| ==> ix[k] < ix[l]
    ensures forall i :: 0 <= i < |xs| && fails(xs[i]) ==> i in ix
  {
    if xs == [] then []
    else
      var init := xs[..|xs| - 1];
      assert forall i :: 0 <= i < |init| ==> init[i] == xs[i];
      if fails(xs[|xs| - 1]) then Failing(init, fails) + [|xs| - 1] else Failing(init, fails)
  }

  /** The messages a loop pushes when it checks every item of `xs` in turn: one `message(x)` for
      each item `x` that `fails`, in item order, and nothing else. */
  function Flagged<T>(xs: seq<T>, fails: T -> bool, message: T -> string): (w: seq<string>)
    ensures |w| <= |xs|
    ensures w == [] <==> forall i :: 0 <= i < |xs| ==> !fails(xs[i])
    ensures forall i :: 0 <= i < |xs| && fails(xs[i]) ==> message(xs[i]) in w
  {
    if xs == [] then []
    else
      var init := xs[..|xs| - 1];
      assert forall i :: 0 <= i < |init| ==> init[i] == xs[i];
      Push(Flagged(init, fails, message), fails(xs[|xs| - 1]), message(xs[|xs| - 1]))
  }

  /** The messages are exactly those of the failing items, one each, in item order. */
  lemma {:induction false} FlaggedInOrder<T>(xs: seq<T>, fails: T -> bool, message: T -> string)
    ensures var w, ix := Flagged(xs, fails, message), Failing(xs, fails);
      |w| == |ix| && forall k :: 0 <= k < |w| ==> w[k] == message(xs[ix[k]])
  {
    if xs != [] {
      var init := xs[..|xs| - 1];
      FlaggedInOrder(init, fails, message);
      MessagesOfPrefix(xs, Flagged(init, fails, message), Failing(init, fails), message);
      LastUnfolds(xs, fails, message);
      MessagesStep(xs, Flagged(init, fails, message), Failing(init, fails), Flagged(xs, fails, message), Failing(xs, fails), message, fails(xs[|xs| - 1]));
    }
  }

  /** `w` holds, one for one, the messages of the items of `xs` that `ix` points at. */
  predicate MessagesOf<T>(w: seq<string>, ix: seq<nat>, xs: seq<T>, message: T -> string) {
    |w| == |ix| && forall k :: 0 <= k < |w| ==> ix[k] < |xs| && w[k] == message(xs[ix[k]])
  }

  /** Messages of items of all but the last item are messages of items of the whole list. */
  lemma MessagesOfPrefix<T>(xs: seq<T>, w: seq<string>, ix: seq<nat>, message: T -> string)
    requires xs != []
    requires |w| == |ix| && forall k :: 0 <= k < |ix| ==> ix[k] < |xs| - 1
    requires forall k :: 0 <= k < |w| ==> w[k] == message(xs[..|xs| - 1][ix[k]])
    ensures MessagesOf(w, ix, xs, message)
  {
  }

  /** One more item checked keeps the messages paired with the items they flag. */
  lemma MessagesStep<T>(xs: seq<T>, w0: seq<string>, ix0: seq<nat>, w: seq<string>, ix: seq<nat>, message: T -> string, c: bool)
    requires xs != [] && MessagesOf(w0, ix0, xs, message)
    requires w == Push(w0, c, message(xs[|xs| - 1]))
    requires ix == if c then ix0 + [|xs| - 1] else ix0
    ensures MessagesOf(w, ix, xs, message)
  {
    if c {
      MessagesAppend(w0, ix0, xs, message, |xs| - 1);
    }
  }

  /** Flagged and Failing of a non-empty list, in terms of all but its last item. */
  lemma LastUnfolds<T>(xs: seq<T>, fails: T -> bool, message: T -> string)
    requires xs != []
    ensures var init, last := xs[..|xs| - 1], |xs| - 1;
      Flagged(xs, fails, message) == Push(Flagged(init, fails, message), fails(xs[last]), message(xs[last]))
      && Failing(xs, fails) == if fails(xs[last]) then Failing(init, fails) + [last] else Failing(init, fails)
  {
  }

  lemma MessagesAppend<T>(w: seq<string>, ix: seq<nat>, xs: seq<T>, message: T -> string, i: nat)
    requires MessagesOf(w, ix, xs, message) && i < |xs|
    ensures MessagesOf(w + [message(xs[i])], ix + [i], xs, message)
  {
    var w', ix' := w + [message(xs[i])], ix + [i];
    forall k | 0 <= k < |w'| ensures ix'[k] < |xs| && w'[k] == message(xs[ix'[k]]) {
      if k < |w| {
        assert w'[k] == w[k] && ix'[k] == ix[k];
      }
    }
  }

  /** One more item checked: its message, if it fails, goes after those of the items before. */
  lemma FlaggedStep<T>(xs: seq<T>, i: nat, fails: T -> bool, message: T -> string)
    requires i < |xs|
    ensures Flagged(xs[..i + 1], fails, message) == Push(Flagged(xs[..i], fails, message), fails(xs[i]), message(xs[i]))
  {
    assert xs[..i + 1][..i] == xs[..i];
  }

  /** The list an optional field holds, empty when the field is absent. */
  function ListOf(o: Option<seq<string>>): seq<string> {
    match o
    case None => []
    case Some(l) => l
  }

  /** `validation.errors?.join(', ')`: the error text a tool returns for a failed validation. */
  function ErrorText(r: ValidationResult): string {
    Join(ListOf(r.errors), ", ")
  }

  /** `{ success, data?, error?, message? }`: a success with optional data and a message, or a
      failure with an error text. */
  datatype Response<T> = Success(data: Option<T>, message: string) | Failure(error: string)

  /** Node's text for reading a property of `undefined`, which a tool's `catch` wraps into its
      own error message. */
  function ReadingUndefined(prop: string): string {
    "TypeError: Cannot read properties of undefined (reading '" + prop + "')"
  }
}
