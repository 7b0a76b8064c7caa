/** `text(val, scope)`: the text of a line that is neither a directive, a
    component nor an element. A line wrapped in braces is one expression, a
    line with braces inside has each `{expr}` group replaced, a `$name` line
    reads the scope, and anything else is the trimmed line. */
module TextExpr {
  import opened JsText
  import opened Runtime

  /** `String(<expression value>)`, with `$name` references turned into plain
      names first; a raised error gives the empty string (the host only logs it). */
  function Evaluated(expr: string, scope: Scope, eval: Evaluator): (r: string)
    ensures eval(StripDollars(expr), scope).Raised? ==> r == ""
    ensures eval(StripDollars(expr), scope).Returned? ==> r == Show(eval(StripDollars(expr), scope).value)
  {
    match eval(StripDollars(expr), scope)
    case Returned(v) => Show(v)
    case Raised(_) => ""
  }

  /** `s.replace(/\{([^}]+)\}/g, ...)`: from left to right, a `{` whose next `}`
      comes at least two characters later opens a group that ends there; the
      whole group is replaced by its evaluated text. */
  function Interpolate(s: string, scope: Scope, eval: Evaluator): string
    decreases |s|
  {
    if s == [] then []
    else if s[0] == '{' && IndexOf(s[1..], '}') >= 1 then
      var j := IndexOf(s[1..], '}');
      Evaluated(s[1..j + 1], scope, eval) + Interpolate(s[j + 2..], scope, eval)
    else [s[0]] + Interpolate(s[1..], scope, eval)
  }

  /** Text without a closing brace is left as it is. */
  lemma {:induction false} InterpolateNoGroups(s: string, scope: Scope, eval: Evaluator)
    requires '}' !in s
    ensures Interpolate(s, scope, eval) == s
  {
    if s != [] {
      assert '}' !in s[1..];
      InterpolateNoGroups(s[1..], scope, eval);
    }
  }

  /** Text before the first `{` is copied; the first group `{expr}` is replaced
      by the value of `expr`, and the rest is interpolated on its own. */
  lemma InterpolateGroup(a: string, expr: string, b: string, scope: Scope, eval: Evaluator)
    requires '{' !in a && expr != [] && '}' !in expr
    ensures Interpolate(a + "{" + expr + "}" + b, scope, eval) == a + Evaluated(expr, scope, eval) + Interpolate(b, scope, eval)
  {
    var g := "{" + expr + "}" + b;
    assert a + "{" + expr + "}" + b == a + g;
    PrefixCopied(a, g, scope, eval);
    GroupFirst(expr, b, scope, eval);
    ConcatAssociative(a, Evaluated(expr, scope, eval), Interpolate(b, scope, eval));
  }

  /** Text without an opening brace is copied unchanged. */
  lemma {:induction false} PrefixCopied(a: string, g: string, scope: Scope, eval: Evaluator)
    requires '{' !in a
    ensures Interpolate(a + g, scope, eval) == a + Interpolate(g, scope, eval)
    decreases |a|
  {
    if a == [] {
      assert a + g == g;
    } else {
      var s := a + g;
      assert s[0] == a[0] && s[1..] == a[1..] + g;
      CopyFirst(s, scope, eval);
      PrefixCopied(a[1..], g, scope, eval);
      ConcatAssociative([a[0]], a[1..], Interpolate(g, scope, eval));
      assert [a[0]] + a[1..] == a;
    }
  }

  lemma CopyFirst(s: string, scope: Scope, eval: Evaluator)
    requires s != [] && s[0] != '{'
    ensures Interpolate(s, scope, eval) == [s[0]] + Interpolate(s[1..], scope, eval)
  {
  }

  lemma GroupFirst(expr: string, b: string, scope: Scope, eval: Evaluator)
    requires expr != [] && '}' !in expr
    ensures Interpolate("{" + expr + "}" + b, scope, eval) == Evaluated(expr, scope, eval) + Interpolate(b, scope, eval)
  {
    var s := "{" + expr + "}" + b;
    GroupSlices(s, expr, b);
    ReplaceFirst(s, |expr|, scope, eval);
  }

  lemma GroupSlices(s: string, expr: string, b: string)
    requires s == "{" + expr + "}" + b && '}' !in expr
    ensures s != [] && s[0] == '{' && IndexOf(s[1..], '}') == |expr|
    ensures s[1..|expr| + 1] == expr && s[|expr| + 2..] == b
  {
    var t := expr + "}" + b;
    assert s[1..] == t;
    assert t[..|expr|] == expr;
    IndexOfAt(t, '}', |expr|);
  }

  lemma ReplaceFirst(s: string, j: nat, scope: Scope, eval: Evaluator)
    requires s != [] && s[0] == '{' && IndexOf(s[1..], '}') == j >= 1
    ensures Interpolate(s, scope, eval) == Evaluated(s[1..j + 1], scope, eval) + Interpolate(s[j + 2..], scope, eval)
  {
  }

  /** `text(val, scope)`. Only the `$name` form can return a value that is not a
      string; the caller turns it into text. */
  function Text(val: string, scope: Scope, eval: Evaluator): (r: Value)
    ensures !r.Str? ==> Trim(val) != [] && Trim(val)[0] == '$' && r == LookupOrEmpty(scope, Trim(val)[1..])
  {
    TrimmedText(Trim(val), scope, eval)
  }

  /** The four forms of `text`, on the trimmed line: `startsWith("{")` and
      `endsWith("}")`, `includes("{")`, `startsWith("$")`, anything else. */
  function TrimmedText(v: string, scope: Scope, eval: Evaluator): (r: Value)
    ensures !r.Str? ==> v != [] && v[0] == '$' && r == LookupOrEmpty(scope, v[1..])
  {
    if v != [] && v[0] == '{' && v[|v| - 1] == '}' then Str(Evaluated(Unwrap(v), scope, eval))
    else if '{' in v then Str(Interpolate(v, scope, eval))
    else if v != [] && v[0] == '$' then LookupOrEmpty(scope, v[1..])
    else Str(v)
  }

  /** A line that is already trimmed is read as it is. */
  lemma TextOfTrimmed(v: string, scope: Scope, eval: Evaluator)
    requires v == [] || (!IsSpace(v[0]) && !IsSpace(v[|v| - 1]))
    ensures Text(v, scope, eval) == TrimmedText(v, scope, eval)
  {
    TrimUntouched(v);
  }

  /** Text without braces or a leading `$` comes back trimmed and otherwise unchanged. */
  lemma PlainText(val: string, scope: Scope, eval: Evaluator)
    requires '{' !in Trim(val) && (Trim(val) == [] || Trim(val)[0] != '$')
    ensures Text(val, scope, eval) == Str(Trim(val))
  {
  }

  /** A bare `$name` reads the scope, giving `""` for a missing, `undefined` or
      `null` property. */
  lemma Reference(name: string, scope: Scope, eval: Evaluator)
    requires '{' !in name
    requires name == [] || !IsSpace(name[|name| - 1])
    ensures Text("$" + name, scope, eval) == LookupOrEmpty(scope, name)
  {
    var v := "$" + name;
    assert v[1..] == name;
    DollarTextOf(name, scope, eval);
    DollarText(v, scope, eval);
  }

  lemma DollarTextOf(name: string, scope: Scope, eval: Evaluator)
    requires name == [] || !IsSpace(name[|name| - 1])
    ensures Text("$" + name, scope, eval) == TrimmedText("$" + name, scope, eval)
  {
    var v := "$" + name;
    assert v[0] == '$' && v[|v| - 1] == if name == [] then '$' else name[|name| - 1];
    TextOfTrimmed(v, scope, eval);
  }

  lemma DollarText(v: string, scope: Scope, eval: Evaluator)
    requires v != [] && v[0] == '$' && '{' !in v
    ensures TrimmedText(v, scope, eval) == LookupOrEmpty(scope, v[1..])
  {
  }

  /** A line wrapped in braces is one expression: its value as text, or `""` when
      it raises. */
  lemma WholeExpression(expr: string, scope: Scope, eval: Evaluator)
    ensures var r := eval(StripDollars(expr), scope);
      Text("{" + expr + "}", scope, eval) == Str(if r.Returned? then Show(r.value) else "")
  {
    BracedText(expr, scope, eval);
  }

  lemma BracedText(expr: string, scope: Scope, eval: Evaluator)
    ensures Text("{" + expr + "}", scope, eval) == Str(Evaluated(expr, scope, eval))
  {
    var v := "{" + expr + "}";
    assert v[0] == '{' && v[|v| - 1] == '}';
    assert v[1..|v| - 1] == expr;
    TextOfTrimmed(v, scope, eval);
    BracedTrimmed(v, scope, eval);
  }

  lemma BracedTrimmed(v: string, scope: Scope, eval: Evaluator)
    requires v != [] && v[0] == '{' && v[|v| - 1] == '}'
    ensures TrimmedText(v, scope, eval) == Str(Evaluated(Unwrap(v), scope, eval))
  {
  }

  /** With the name-lookup evaluator, `{ $title }` shows the scope's `title`, and a
      missing name gives `""`. */
  lemma BracedReference(name: string, scope: Scope)
    requires IsName(name)
    ensures name in scope ==> Text("{ $" + name + " }", scope, NameLookup) == Str(Show(scope[name]))
    ensures name !in scope ==> Text("{ $" + name + " }", scope, NameLookup) == Str("")
  {
    var expr := " $" + name + " ";
    assert "{" + expr + "}" == "{ $" + name + " }";
    BracedText(expr, scope, NameLookup);
    SpacedReference(name);
    SpacedLookup(name, scope);
  }

  /** Spaces around a name do not change what it looks up. */
  lemma SpacedLookup(name: string, scope: Scope)
    requires IsName(name)
    ensures name in scope ==> NameLookup(" " + name + " ", scope) == Returned(scope[name])
    ensures name !in scope ==> NameLookup(" " + name + " ", scope).Raised?
  {
    assert IsWordChar(name[0]) && IsWordChar(name[|name| - 1]);
    TrimSpaced(name);
  }

  lemma SpacedReference(name: string)
    requires IsName(name)
    ensures StripDollars(" $" + name + " ") == " " + name + " "
  {
    StripDollarsOfReference(name);
    assert (" $" + name)[1..] == "$" + name;
    assert StripDollars(" $" + name) == " " + name;
    StripDollarsSpaces(" $" + name, " ");
  }

  /** Whether `StripDollars` drops the first character of `s`. */
  predicate DollarAt(s: string) {
    |s| >= 2 && s[0] == '$' && IsWordChar(s[1])
  }

  /** Text that starts with neither `$` nor a name character does not change
      whether a `$` is dropped just before it. */
  lemma DollarAtConcat(a: string, b: string)
    requires a != [] && '$' !in b && (b == [] || !IsWordChar(b[0]))
    ensures (a + b)[0] == a[0] && (a + b)[1..] == a[1..] + b
    ensures DollarAt(a + b) == DollarAt(a)
  {
    assert (a + b)[1..] == a[1..] + b;
    if |a| == 1 && b != [] {
      assert (a + b)[1] == b[0];
    }
  }

  lemma {:induction false} StripDollarsSpaces(a: string, b: string)
    requires '$' !in b && (b == [] || !IsWordChar(b[0]))
    ensures StripDollars(a + b) == StripDollars(a) + b
    decreases |a|
  {
    if a == [] {
      assert a + b == b;
    } else {
      DollarAtConcat(a, b);
      StripDollarsSpaces(a[1..], b);
      if !DollarAt(a) {
        ConcatAssociative([a[0]], StripDollars(a[1..]), b);
      }
    }
  }
}
