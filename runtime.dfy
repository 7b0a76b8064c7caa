/** The values the DotWeb interpreter passes around: JavaScript values held in a
    scope, the outcome of a `{...}` expression, and the errors a compile can
    throw. Evaluating an expression is host JavaScript
    (`Function("scope", "with(scope){return ...}")`), so it enters the model as
    a parameter of type `Evaluator`. */
module Runtime {
  import opened JsText

  /** The JavaScript values that reach a scope or a rendered page: strings,
      numbers (integers up to 2^53 - 1 exactly; other numeric literals are
      kept as written),
      booleans, arrays of strings (a rendered `slot`), `undefined`, `null`, and
      any other host value together with its `String()` form. */
  datatype Value =
    | Str(s: string)
    | Num(n: int)
    | NonInteger(literal: string)
    | Bool(b: bool)
    | Strs(items: seq<string>)
    | Undefined
    | Null
    | Host(shown: string)

  /** A scope object: property name to value. */
  type Scope = map<string, Value>

  /** `String(v)` */
  function Show(v: Value): string
  {
    match v
    case Str(s) => s
    case Num(n) => DecimalString(n)
    case NonInteger(literal) => literal
    case Bool(b) => if b then "true" else "false"
    case Strs(items) => Join(items, ",")
    case Undefined => "undefined"
    case Null => "null"
    case Host(shown) => shown
  }

  /** `scope[name] ?? ""`: the property, unless it is missing, `undefined` or `null`. */
  function LookupOrEmpty(scope: Scope, name: string): (v: Value)
    ensures name in scope && !scope[name].Undefined? && !scope[name].Null? ==> v == scope[name]
    ensures name !in scope || scope[name].Undefined? || scope[name].Null? ==> v == Str("")
  {
    if name in scope && !scope[name].Undefined? && !scope[name].Null? then scope[name] else Str("")
  }

  /** What running an expression against a scope gives: a value, or a thrown
      error with its message. */
  datatype EvalResult = Returned(value: Value) | Raised(message: string)

  /** Host evaluation of the expression text against a scope. */
  type Evaluator = (string, Scope) -> EvalResult

  /** `expr.replace(/\$([a-zA-Z0-9_]+)/g, '$1')`: drops each `$` that is directly
      followed by a name character. */
  function StripDollars(expr: string): (r: string)
    ensures |r| <= |expr|
    ensures '$' !in expr ==> r == expr
  {
    if expr == [] then []
    else if |expr| >= 2 && expr[0] == '$' && IsWordChar(expr[1]) then StripDollars(expr[1..])
    else [expr[0]] + StripDollars(expr[1..])
  }

  predicate IsName(s: string) {
    |s| >= 1 && forall i :: 0 <= i < |s| ==> IsWordChar(s[i])
  }

  /** `$name` becomes `name`, so `{ $title }` and `{ title }` evaluate alike. */
  lemma StripDollarsOfReference(name: string)
    requires IsName(name)
    ensures StripDollars("$" + name) == name
  {
    assert ("$" + name)[1..] == name;
    assert '$' !in name;
  }

  /** Only `$` signs are ever removed: dropping every `$` from the input and
      from the output gives the same text. */
  function WithoutDollars(s: string): (r: string)
    ensures '$' !in r
  {
    if s == [] then [] else (if s[0] == '$' then [] else [s[0]]) + WithoutDollars(s[1..])
  }

  lemma {:induction false} StripDollarsKeepsOtherText(expr: string)
    ensures WithoutDollars(StripDollars(expr)) == WithoutDollars(expr)
  {
    if expr != [] {
      StripDollarsKeepsOtherText(expr[1..]);
      if !(|expr| >= 2 && expr[0] == '$' && IsWordChar(expr[1])) {
        assert ([expr[0]] + StripDollars(expr[1..]))[1..] == StripDollars(expr[1..]);
      }
    }
  }

  /** The evaluator for the one expression form whose meaning needs no host
      JavaScript: a bare property name, looked up in the scope with `with`
      semantics; a missing name raises a `ReferenceError`. */
  function NameLookup(expr: string, scope: Scope): (r: EvalResult)
    ensures Trim(expr) in scope ==> r == Returned(scope[Trim(expr)])
    ensures Trim(expr) !in scope ==> r.Raised?
  {
    var name := Trim(expr);
    if name in scope then Returned(scope[name]) else Raised(name + " is not defined")
  }

  /** The errors a compile can end with. The first six are the strings that
      `parseProp` throws; the others are errors raised by the host: calling
      `join` on a `slot` that is not an array, reading `charAt` of an undefined
      component name, and running out of call stack. */
  datatype Error =
    | InvalidPropSyntax(line: string)
    | BlockOnlyForComponent(key: string)
    | BlockRequired(key: string)
    | InvalidBoolean(key: string)
    | MissingValue(key: string)
    | PropExpression(key: string, message: string)
    | SlotNotJoinable
    | UnnamedClass
    | TooDeep

  /** The text of a thrown string, or the name of the host error class. */
  function Message(e: Error): string
  {
    match e
    case InvalidPropSyntax(line) => "Invalid prop syntax: " + line
    case BlockOnlyForComponent(key) => "Block input allowed only for <Component> prop: " + key
    case BlockRequired(key) => "Block required for <Component> prop: " + key
    case InvalidBoolean(key) => "Invalid boolean value for " + key
    case MissingValue(key) => "Prop " + key + " requires a value"
    case PropExpression(key, message) => "Expression error in prop " + key + ": " + message
    case SlotNotJoinable => "TypeError"
    case UnnamedClass => "TypeError"
    case TooDeep => "RangeError"
  }

  datatype Result<T> = Ok(value: T) | Err(error: Error)
}
