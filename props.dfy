/** `parseProp`: the typed prop lines `*key<type> value` of a component use, and
    the first pass of `useComponent`, which sorts the children of the use into
    inline props, block props and slot content. */
module Props {
  import opened JsText
  import opened IndentParser
  import opened Runtime

  /** Length of the longest prefix made of name characters `[a-zA-Z0-9_]`. */
  function WordRun(s: string): (n: nat)
    ensures n <= |s|
    ensures forall i :: 0 <= i < n ==> IsWordChar(s[i])
    ensures n == |s| || !IsWordChar(s[n])
  {
    if s != [] && IsWordChar(s[0]) then 1 + WordRun(s[1..]) else 0
  }

  /** Length of the longest prefix of `\s` characters. */
  function SpaceRun(s: string): (n: nat)
    ensures n <= |s|
    ensures forall i :: 0 <= i < n ==> IsSpace(s[i])
    ensures n == |s| || !IsSpace(s[n])
  {
    if s != [] && IsSpace(s[0]) then 1 + SpaceRun(s[1..]) else 0
  }

  /** Length of the longest prefix that `.` matches (no line terminator). */
  function LineRun(s: string): (n: nat)
    ensures n <= |s|
    ensures forall i :: 0 <= i < n ==> !IsLineTerminator(s[i])
    ensures n == |s| || IsLineTerminator(s[n])
  {
    if s != [] && !IsLineTerminator(s[0]) then 1 + LineRun(s[1..]) else 0
  }

  /** Where `(.+)` starts after `\s+` has backtracked: the largest `q <= w` with
      a character that `.` matches at `q`. */
  function Backtrack(rest: string, q: nat): (r: Option<nat>)
    ensures r.Some? ==> 1 <= r.value <= q && r.value < |rest| && !IsLineTerminator(rest[r.value])
    ensures r.None? ==> forall j :: 1 <= j <= q && j < |rest| ==> IsLineTerminator(rest[j])
  {
    if q == 0 then None
    else if q < |rest| && !IsLineTerminator(rest[q]) then Some(q)
    else Backtrack(rest, q - 1)
  }

  /** The captures of `/^([a-zA-Z0-9_]+)(?:<([a-zA-Z0-9_]+)>)?(?:\s+(.+))?/`:
      the key, the type (`"any"` when absent) and the inline value. */
  datatype PropHead = PropHead(key: string, typ: string, inline: Option<string>)

  /** The optional `(?:\s+(.+))?` group on what follows the key and type. */
  function InlineGroup(rest: string): (inline: Option<string>)
    ensures inline.Some? ==> inline.value != []
  {
    match Backtrack(rest, SpaceRun(rest))
    case None => None
    case Some(q) =>
      var n := LineRun(rest[q..]);
      Some(rest[q..q + n])
  }

  function MatchPropHead(raw: string): (m: Option<PropHead>)
    ensures m.None? <==> raw == [] || !IsWordChar(raw[0])
    ensures m.Some? ==> IsName(m.value.key) && StartsWith(raw, m.value.key)
  {
    var k := WordRun(raw);
    if k == 0 then None
    else
      var key := raw[..k];
      var after := raw[k..];
      var t := if after != [] && after[0] == '<' then WordRun(after[1..]) else 0;
      var typed := t > 0 && t + 1 < |after| && after[t + 1] == '>';
      var typ := if typed then after[1..t + 1] else "any";
      var rest := if typed then after[t + 2..] else after;
      Some(PropHead(key, typ, InlineGroup(rest)))
  }

  /** The result of `parseProp`: `{ key, value, isBlock }`. A block prop keeps
      its whole node. */
  datatype Parsed = InlineProp(key: string, value: Value) | BlockProp(key: string, node: Tree)

  /** `value.replace(/^"|"$/g, "")`: one leading and one trailing `"` removed. */
  function StripQuotes(v: string): (r: string)
  {
    var a := if StartsWith(v, "\"") then v[1..] else v;
    if EndsWith(a, "\"") then a[..|a| - 1] else a
  }

  lemma StripQuotesOfQuoted(s: string)
    ensures StripQuotes("\"" + s + "\"") == s
  {
    var v := "\"" + s + "\"";
    assert v[1..] == s + "\"";
    assert (s + "\"")[..|s|] == s;
  }

  lemma StripQuotesOfPlain(s: string)
    requires s == [] || (s[0] != '"' && s[|s| - 1] != '"')
    ensures StripQuotes(s) == s
  {
  }

  /** The largest integer a JavaScript number holds exactly, 2^53 - 1. */
  const MaxSafe: int := 9007199254740991

  /** `Number(value)`: integer literals within the exact range of a double
      become numbers; any other text is kept as the literal it was. */
  function NumberValue(v: string): Value
  {
    match IntegerLiteral(v)
    case Some(n) => if Safe(n) then Num(n) else NonInteger(v)
    case None => NonInteger(v)
  }

  predicate Safe(n: int) {
    -MaxSafe <= n <= MaxSafe
  }

  /** An integer literal beyond 2^53 - 1 is not turned into a number. */
  lemma LargeIntegerKept(n: int)
    requires !Safe(n)
    ensures NumberValue(DecimalString(n)) == NonInteger(DecimalString(n))
  {
    IntegerLiteralRoundTrip(n);
  }

  /** The declared types `parseProp` treats specially; any other name,
      including the default `any`, leaves the value a string. */
  datatype PropType = StringType | NumberType | BooleanType | ComponentType | OtherType

  function TypeOf(typ: string): (t: PropType)
    ensures t == StringType <==> typ == "string"
    ensures t == NumberType <==> typ == "number"
    ensures t == BooleanType <==> typ == "boolean"
    ensures t == ComponentType <==> typ == "Component"
  {
    if typ == "string" then StringType
    else if typ == "number" then NumberType
    else if typ == "boolean" then BooleanType
    else if typ == "Component" then ComponentType
    else OtherType
  }

  /** The single-line branch of `parseProp`, on the trimmed inline value. */
  function InlineValue(key: string, t: PropType, v: string, parentScope: Scope, eval: Evaluator): (r: Result<Parsed>)
    ensures r.Ok? ==> r.value.InlineProp? && r.value.key == key
  {
    if StartsWith(v, "{") && EndsWith(v, "}") then
      match eval(StripDollars(Unwrap(v)), parentScope)
      case Returned(x) => Ok(InlineProp(key, x))
      case Raised(message) => Err(PropExpression(key, message))
    else
      match t
      case StringType => Ok(InlineProp(key, Str(StripQuotes(v))))
      case NumberType => Ok(InlineProp(key, NumberValue(v)))
      case BooleanType =>
        if v != "true" && v != "false" then Err(InvalidBoolean(key)) else Ok(InlineProp(key, Bool(v == "true")))
      case ComponentType => Err(BlockRequired(key))
      case OtherType => Ok(InlineProp(key, Str(v)))
  }

  /** The text after the `*`, trimmed. */
  function RawOf(c: Tree): string
  {
    Trim(Tail(c.value))
  }

  /** `parseProp(c, parentScope)`. `{...}` values are evaluated against the
      scope of the caller of the component. */
  function ParseProp(c: Tree, parentScope: Scope, eval: Evaluator): (r: Result<Parsed>)
    ensures r.Ok? ==> IsName(r.value.key)
    ensures r.Ok? && r.value.BlockProp? ==> r.value.node == c
  {
    match MatchPropHead(RawOf(c))
    case None => Err(InvalidPropSyntax(c.value))
    case Some(head) =>
      if |c.children| > 0 then
        if TypeOf(head.typ) != ComponentType then Err(BlockOnlyForComponent(head.key)) else Ok(BlockProp(head.key, c))
      else if head.inline.Some? then InlineValue(head.key, TypeOf(head.typ), Trim(head.inline.value), parentScope, eval)
      else Err(MissingValue(head.key))
  }

  /** A prop line whose text after `*` does not start with a name character is
      rejected. */
  lemma InvalidSyntax(c: Tree, parentScope: Scope, eval: Evaluator)
    requires RawOf(c) == [] || !IsWordChar(RawOf(c)[0])
    ensures ParseProp(c, parentScope, eval) == Err(InvalidPropSyntax(c.value))
  {
  }

  /** A prop with children throws unless its type is `Component`, and then it
      is a block prop carrying its own node. */
  lemma BlockProps(c: Tree, parentScope: Scope, eval: Evaluator, head: PropHead)
    requires MatchPropHead(RawOf(c)) == Some(head) && |c.children| > 0
    ensures head.typ != "Component" ==> ParseProp(c, parentScope, eval) == Err(BlockOnlyForComponent(head.key))
    ensures head.typ == "Component" ==> ParseProp(c, parentScope, eval) == Ok(BlockProp(head.key, c))
  {
  }

  /** A prop with neither an inline value nor children throws. */
  lemma ValueRequired(c: Tree, parentScope: Scope, eval: Evaluator, head: PropHead)
    requires MatchPropHead(RawOf(c)) == Some(head) && |c.children| == 0 && head.inline.None?
    ensures ParseProp(c, parentScope, eval) == Err(MissingValue(head.key))
  {
  }

  /** The inline value as `parseProp` sees it. */
  predicate InlineIs(c: Tree, head: PropHead, v: string)
  {
    MatchPropHead(RawOf(c)) == Some(head) && |c.children| == 0 && head.inline.Some? && Trim(head.inline.value) == v
  }

  lemma ParseInline(c: Tree, parentScope: Scope, eval: Evaluator, head: PropHead, v: string)
    requires InlineIs(c, head, v)
    ensures ParseProp(c, parentScope, eval) == InlineValue(head.key, TypeOf(head.typ), v, parentScope, eval)
  {
  }

  /** A `Component` prop given only an inline value that is not `{...}` throws. */
  lemma ComponentNeedsBlock(c: Tree, parentScope: Scope, eval: Evaluator, head: PropHead, v: string)
    requires InlineIs(c, head, v) && head.typ == "Component" && !(StartsWith(v, "{") && EndsWith(v, "}"))
    ensures ParseProp(c, parentScope, eval) == Err(BlockRequired(head.key))
  {
    ParseInline(c, parentScope, eval, head, v);
  }

  /** A `boolean` prop accepts exactly the literals `true` and `false`. */
  lemma BooleanLiterals(c: Tree, parentScope: Scope, eval: Evaluator, head: PropHead, v: string)
    requires InlineIs(c, head, v) && head.typ == "boolean" && !(StartsWith(v, "{") && EndsWith(v, "}"))
    ensures ParseProp(c, parentScope, eval).Ok? <==> v == "true" || v == "false"
    ensures ParseProp(c, parentScope, eval).Ok? ==> ParseProp(c, parentScope, eval).value == InlineProp(head.key, Bool(v == "true"))
    ensures ParseProp(c, parentScope, eval).Err? ==> ParseProp(c, parentScope, eval).error == InvalidBoolean(head.key)
  {
    ParseInline(c, parentScope, eval, head, v);
  }

  /** A `string` prop written in quotes loses exactly those quotes. */
  lemma QuotedString(c: Tree, parentScope: Scope, eval: Evaluator, head: PropHead, s: string)
    requires InlineIs(c, head, "\"" + s + "\"") && head.typ == "string"
    ensures ParseProp(c, parentScope, eval) == Ok(InlineProp(head.key, Str(s)))
  {
    StripQuotesOfQuoted(s);
    var v := "\"" + s + "\"";
    ParseInline(c, parentScope, eval, head, v);
    assert v[0] == '"';
    assert !(StartsWith(v, "{") && EndsWith(v, "}"));
  }

  /** A `number` prop written as an integer that a double holds exactly gets
      that integer. */
  lemma IntegerNumber(c: Tree, parentScope: Scope, eval: Evaluator, head: PropHead, n: int)
    requires InlineIs(c, head, DecimalString(n)) && head.typ == "number"
    requires Safe(n)
    ensures ParseProp(c, parentScope, eval) == Ok(InlineProp(head.key, Num(n)))
  {
    var v := DecimalString(n);
    ParseInline(c, parentScope, eval, head, v);
    DecimalNotExpression(n);
    SafeIntegerValue(n);
  }

  lemma SafeIntegerValue(n: int)
    requires Safe(n)
    ensures NumberValue(DecimalString(n)) == Num(n)
  {
    IntegerLiteralRoundTrip(n);
  }

  lemma DecimalNotExpression(n: int)
    ensures !StartsWith(DecimalString(n), "{")
  {
    var v := DecimalString(n);
    if n < 0 {
      assert v[0] == '-';
    } else {
      assert IsDigit(Digits(n)[0]);
    }
  }

  /** A `{...}` value is whatever the expression gives in the caller's scope,
      whatever the declared type; an error in it aborts with the key. */
  lemma ExpressionValue(c: Tree, parentScope: Scope, eval: Evaluator, head: PropHead, v: string)
    requires InlineIs(c, head, v) && StartsWith(v, "{") && EndsWith(v, "}")
    ensures eval(StripDollars(Unwrap(v)), parentScope).Returned? ==>
      ParseProp(c, parentScope, eval) == Ok(InlineProp(head.key, eval(StripDollars(Unwrap(v)), parentScope).value))
    ensures eval(StripDollars(Unwrap(v)), parentScope).Raised? ==>
      ParseProp(c, parentScope, eval) == Err(PropExpression(head.key, eval(StripDollars(Unwrap(v)), parentScope).message))
  {
    ParseInline(c, parentScope, eval, head, v);
  }

  /* ---------------- the prop grammar, read forwards ---------------- */

  lemma {:induction false} WordRunOf(a: string, b: string)
    requires forall i :: 0 <= i < |a| ==> IsWordChar(a[i])
    requires b == [] || !IsWordChar(b[0])
    ensures WordRun(a + b) == |a|
  {
    if a != [] {
      assert (a + b)[1..] == a[1..] + b;
      WordRunOf(a[1..], b);
    } else {
      assert a + b == b;
    }
  }

  lemma {:induction false} LineRunOf(v: string)
    requires forall i :: 0 <= i < |v| ==> !IsLineTerminator(v[i])
    ensures LineRun(v) == |v|
  {
    if v != [] {
      LineRunOf(v[1..]);
    }
  }

  /** The inline group of ` value` is `value`. */
  lemma InlineGroupOf(v: string)
    requires v != [] && !IsSpace(v[0])
    requires forall i :: 0 <= i < |v| ==> !IsLineTerminator(v[i])
    ensures InlineGroup(" " + v) == Some(v)
  {
    var rest := " " + v;
    assert rest[1..] == v;
    assert SpaceRun(rest) == 1 by {
      assert SpaceRun(rest[1..]) == 0;
    }
    LineRunOf(v);
    assert rest[1..1 + |v|] == v;
  }

  /** After the key, `<type> value` gives the type and leaves ` value`. */
  lemma TypeGroupOf(typ: string, v: string)
    requires IsName(typ)
    ensures var after := "<" + typ + "> " + v;
      && after != [] && after[0] == '<'
      && WordRun(after[1..]) == |typ|
      && |typ| + 1 < |after| && after[|typ| + 1] == '>'
      && after[1..|typ| + 1] == typ
      && after[|typ| + 2..] == " " + v
  {
    var after := "<" + typ + "> " + v;
    assert after[1..] == typ + ("> " + v);
    WordRunOf(typ, "> " + v);
  }

  lemma MatchTyped(raw: string, k: nat, t: nat, key: string, typ: string, inline: Option<string>)
    requires 0 < k <= |raw| && WordRun(raw) == k
    requires raw[k..] != [] && raw[k..][0] == '<'
    requires 0 < t && WordRun(raw[k..][1..]) == t && t + 1 < |raw[k..]| && raw[k..][t + 1] == '>'
    requires raw[..k] == key && raw[k..][1..t + 1] == typ && InlineGroup(raw[k..][t + 2..]) == inline
    ensures MatchPropHead(raw) == Some(PropHead(key, typ, inline))
  {
  }

  /** The line `key<type> value` parses into exactly its three parts. */
  lemma TypedPropLine(key: string, typ: string, v: string)
    requires IsName(key) && IsName(typ)
    requires v != [] && !IsSpace(v[0])
    requires forall i :: 0 <= i < |v| ==> !IsLineTerminator(v[i])
    ensures MatchPropHead(key + "<" + typ + "> " + v) == Some(PropHead(key, typ, Some(v)))
  {
    RegroupAfterHead(key, "<", typ, "> ", v);
    TypedAfterKey(key, "<" + typ + "> " + v, typ, v);
  }

  lemma TypedAfterKey(key: string, after: string, typ: string, v: string)
    requires IsName(key) && IsName(typ) && after == "<" + typ + "> " + v
    requires v != [] && !IsSpace(v[0])
    requires forall i :: 0 <= i < |v| ==> !IsLineTerminator(v[i])
    ensures MatchPropHead(key + after) == Some(PropHead(key, typ, Some(v)))
  {
    var raw := key + after;
    WordRunOf(key, after);
    assert raw[..|key|] == key && raw[|key|..] == after;
    TypeGroupOf(typ, v);
    InlineGroupOf(v);
    MatchTyped(raw, |key|, |typ|, key, typ, Some(v));
  }

  /** The line `key value` parses with type `any`. */
  lemma UntypedPropLine(key: string, v: string)
    requires IsName(key)
    requires v != [] && !IsSpace(v[0])
    requires forall i :: 0 <= i < |v| ==> !IsLineTerminator(v[i])
    ensures MatchPropHead(key + " " + v) == Some(PropHead(key, "any", Some(v)))
  {
    var raw := key + (" " + v);
    assert key + " " + v == raw;
    WordRunOf(key, " " + v);
    assert raw[..|key|] == key;
    assert raw[|key|..] == " " + v;
    InlineGroupOf(v);
  }

  /* ---------------- the first pass of useComponent ---------------- */

  /** `props`, `blockProps` (in insertion order) and `slotNodes` of one use. */
  datatype Invocation = Invocation(props: Scope, blocks: seq<(string, Tree)>, slotNodes: seq<Tree>)

  function Keys(blocks: seq<(string, Tree)>): (ks: seq<string>)
    ensures |ks| == |blocks| && forall i :: 0 <= i < |blocks| ==> ks[i] == blocks[i].0
  {
    if blocks == [] then [] else [blocks[0].0] + Keys(blocks[1..])
  }

  /** `blockProps[key] = node`: a new key goes last, an existing key keeps its
      place and gets the new node. */
  function Upsert(blocks: seq<(string, Tree)>, key: string, node: Tree): (r: seq<(string, Tree)>)
    ensures (key, node) in r
    ensures forall i :: 0 <= i < |r| && r[i].0 != key ==> r[i] in blocks
    ensures forall p :: p in blocks && p.0 != key ==> p in r
  {
    if blocks == [] then [(key, node)]
    else if blocks[0].0 == key then [(key, node)] + blocks[1..]
    else
      var tail := Upsert(blocks[1..], key, node);
      assert forall i :: 1 <= i < |blocks| ==> blocks[1..][i - 1] == blocks[i];
      [blocks[0]] + tail
  }

  /** The keys keep their order; a new key goes last. */
  lemma {:induction false} UpsertKeys(blocks: seq<(string, Tree)>, key: string, node: Tree)
    ensures key in Keys(blocks) ==> Keys(Upsert(blocks, key, node)) == Keys(blocks)
    ensures key !in Keys(blocks) ==> Keys(Upsert(blocks, key, node)) == Keys(blocks) + [key]
  {
    if blocks != [] {
      var r := Upsert(blocks, key, node);
      assert Keys(blocks) == [blocks[0].0] + Keys(blocks[1..]);
      if blocks[0].0 == key {
        assert Keys(r) == [key] + Keys(blocks[1..]);
      } else {
        var tail := Upsert(blocks[1..], key, node);
        UpsertKeys(blocks[1..], key, node);
        assert Keys(r) == [blocks[0].0] + Keys(tail);
      }
    }
  }

  /** Appending keeps every key at most once. */
  lemma UpsertKeepsKeysUnique(blocks: seq<(string, Tree)>, key: string, node: Tree)
    requires NoRepeats(Keys(blocks))
    ensures NoRepeats(Keys(Upsert(blocks, key, node)))
  {
    UpsertKeys(blocks, key, node);
  }

  predicate NoRepeats(ks: seq<string>) {
    forall i, j :: 0 <= i < j < |ks| ==> ks[i] != ks[j]
  }

  /** The `forEach` of the first pass, over the children seen so far. */
  function Partition(children: seq<Tree>, parentScope: Scope, eval: Evaluator): (r: Result<Invocation>)
    ensures r.Ok? ==> NoRepeats(Keys(r.value.blocks))
  {
    if children == [] then Ok(Invocation(map[], [], []))
    else
      match Partition(children[..|children| - 1], parentScope, eval)
      case Err(e) => Err(e)
      case Ok(inv) =>
        AddChildUnique(inv, children[|children| - 1], parentScope, eval);
        AddChild(inv, children[|children| - 1], parentScope, eval)
  }

  /** One turn of the first pass: a prop line sets an inline prop or a block
      prop, or throws; any other child joins the slot content. */
  function AddChild(inv: Invocation, c: Tree, parentScope: Scope, eval: Evaluator): Result<Invocation>
  {
    if StartsWith(c.value, "*") then AddParsed(inv, ParseProp(c, parentScope, eval))
    else Ok(inv.(slotNodes := inv.slotNodes + [c]))
  }

  /** A parsed prop line: an inline prop overrides, a block prop is upserted,
      an error is thrown on. */
  function AddParsed(inv: Invocation, parsed: Result<Parsed>): Result<Invocation>
  {
    match parsed
    case Err(e) => Err(e)
    case Ok(InlineProp(key, value)) => Ok(inv.(props := inv.props[key := value]))
    case Ok(BlockProp(key, node)) => Ok(inv.(blocks := Upsert(inv.blocks, key, node)))
  }

  /** A turn of the first pass keeps every block key at most once. */
  lemma AddChildUnique(inv: Invocation, c: Tree, parentScope: Scope, eval: Evaluator)
    requires NoRepeats(Keys(inv.blocks))
    ensures AddChild(inv, c, parentScope, eval).Ok? ==> NoRepeats(Keys(AddChild(inv, c, parentScope, eval).value.blocks))
  {
    if StartsWith(c.value, "*") {
      var p := ParseProp(c, parentScope, eval);
      if p.Ok? && p.value.BlockProp? {
        UpsertKeepsKeysUnique(inv.blocks, p.value.key, p.value.node);
      }
    }
  }

  /** The children that are not prop lines, in order: the slot content of a
      component use, the page content of `ViewPort`. */
  function NonPropChildren(children: seq<Tree>): (r: seq<Tree>)
    ensures |r| <= |children|
    ensures forall i :: 0 <= i < |r| ==> r[i] in children && !StartsWith(r[i].value, "*")
    ensures forall i :: 0 <= i < |children| && !StartsWith(children[i].value, "*") ==> children[i] in r
  {
    if children == [] then []
    else
      var init := children[..|children| - 1];
      var last := children[|children| - 1];
      var before := NonPropChildren(init);
      assert forall i :: 0 <= i < |init| ==> init[i] == children[i];
      assert forall t :: t in init ==> t in children;
      before + (if StartsWith(last.value, "*") then [] else [last])
  }

  /** The filter keeps order: the non-prop children of two runs of children
      are those of the first run, then those of the second. */
  lemma {:induction false} NonPropChildrenAppend(a: seq<Tree>, b: seq<Tree>)
    ensures NonPropChildren(a + b) == NonPropChildren(a) + NonPropChildren(b)
    decreases |b|
  {
    if b == [] {
      assert a + b == a;
    } else {
      var init := b[..|b| - 1];
      var last := b[|b| - 1];
      assert (a + b)[..|a + b| - 1] == a + init;
      assert (a + b)[|a + b| - 1] == last;
      NonPropChildrenAppend(a, init);
      var tail: seq<Tree> := if StartsWith(last.value, "*") then [] else [last];
      ConcatAssociative(NonPropChildren(a), NonPropChildren(init), tail);
    }
  }

  /** A child that is not a prop line, or a prop line that parses. */
  predicate PropParses(c: Tree, parentScope: Scope, eval: Evaluator) {
    StartsWith(c.value, "*") ==> ParseProp(c, parentScope, eval).Ok?
  }

  /** The first pass succeeds exactly when every prop line parses. */
  lemma {:induction false} PartitionSucceeds(children: seq<Tree>, parentScope: Scope, eval: Evaluator)
    ensures Partition(children, parentScope, eval).Ok?
      <==> forall i :: 0 <= i < |children| ==> PropParses(children[i], parentScope, eval)
  {
    if children != [] {
      PartitionSucceeds(children[..|children| - 1], parentScope, eval);
      PartitionStep(children, parentScope, eval);
      AllParseStep(children, parentScope, eval);
    }
  }

  lemma AllParseStep(children: seq<Tree>, parentScope: Scope, eval: Evaluator)
    requires children != []
    ensures var init := children[..|children| - 1];
      (forall i :: 0 <= i < |children| ==> PropParses(children[i], parentScope, eval)) <==>
        ((forall i :: 0 <= i < |init| ==> PropParses(init[i], parentScope, eval))
         && PropParses(children[|children| - 1], parentScope, eval))
  {
    var init := children[..|children| - 1];
    if forall i :: 0 <= i < |children| ==> PropParses(children[i], parentScope, eval) {
      forall i | 0 <= i < |init|
        ensures PropParses(init[i], parentScope, eval)
      {
        assert init[i] == children[i];
      }
    }
    if forall i :: 0 <= i < |init| ==> PropParses(init[i], parentScope, eval) {
      forall i | 0 <= i < |children| - 1
        ensures PropParses(children[i], parentScope, eval)
      {
        assert init[i] == children[i];
      }
    }
  }

  /** The pass over all children succeeds when the pass over all but the last
      does and the last one, if it is a prop line, parses. */
  lemma PartitionStep(children: seq<Tree>, parentScope: Scope, eval: Evaluator)
    requires children != []
    ensures var last := children[|children| - 1];
      Partition(children, parentScope, eval).Ok? <==>
        (Partition(children[..|children| - 1], parentScope, eval).Ok? && PropParses(last, parentScope, eval))
  {
  }

  /** When it succeeds, the slot content is every child that is not a prop
      line, in order. */
  lemma {:induction false} PartitionSlots(children: seq<Tree>, parentScope: Scope, eval: Evaluator)
    requires Partition(children, parentScope, eval).Ok?
    ensures Partition(children, parentScope, eval).value.slotNodes == NonPropChildren(children)
  {
    if children != [] {
      PartitionSlots(children[..|children| - 1], parentScope, eval);
    }
  }

  /** What the first pass reads from one child: its parsed prop, if it is a
      prop line that parses. */
  function LineOf(c: Tree, parentScope: Scope, eval: Evaluator): Option<Parsed>
  {
    if StartsWith(c.value, "*") && ParseProp(c, parentScope, eval).Ok? then Some(ParseProp(c, parentScope, eval).value) else None
  }

  /** `LineOf` of every child, in order. */
  function Lines(children: seq<Tree>, parentScope: Scope, eval: Evaluator): (lines: seq<Option<Parsed>>)
    ensures |lines| == |children|
    ensures forall i :: 0 <= i < |children| ==> lines[i] == LineOf(children[i], parentScope, eval)
  {
    if children == [] then []
    else Lines(children[..|children| - 1], parentScope, eval) + [LineOf(children[|children| - 1], parentScope, eval)]
  }

  /** Line `line` sets the inline prop `k`. */
  predicate SetsProp(line: Option<Parsed>, k: string) {
    line.Some? && line.value.InlineProp? && line.value.key == k
  }

  /** Line `line` gives the block prop `k`. */
  predicate GivesBlock(line: Option<Parsed>, k: string) {
    line.Some? && line.value.BlockProp? && line.value.key == k
  }

  /** The inline props the lines set, later lines overriding earlier ones. */
  function PropsOf(lines: seq<Option<Parsed>>): Scope
  {
    if lines == [] then map[] else SetProp(PropsOf(lines[..|lines| - 1]), lines[|lines| - 1])
  }

  /** `props` after one more line. */
  function SetProp(props: Scope, line: Option<Parsed>): Scope
  {
    match line
    case Some(InlineProp(k, v)) => props[k := v]
    case _ => props
  }

  /** The block props the lines give, in the order `Upsert` keeps. */
  function BlocksOf(lines: seq<Option<Parsed>>): seq<(string, Tree)>
  {
    if lines == [] then [] else AddBlock(BlocksOf(lines[..|lines| - 1]), lines[|lines| - 1])
  }

  /** `blocks` after one more line. */
  function AddBlock(blocks: seq<(string, Tree)>, line: Option<Parsed>): seq<(string, Tree)>
  {
    match line
    case Some(BlockProp(k, node)) => Upsert(blocks, k, node)
    case _ => blocks
  }

  /** A successful first pass holds the inline props its lines set. */
  lemma {:induction false} PartitionPropsFold(children: seq<Tree>, parentScope: Scope, eval: Evaluator)
    requires Partition(children, parentScope, eval).Ok?
    ensures Partition(children, parentScope, eval).value.props == PropsOf(Lines(children, parentScope, eval))
  {
    if children != [] {
      PartitionPropsFold(children[..|children| - 1], parentScope, eval);
      PartitionPropsStep(children, parentScope, eval);
      LinesInit(children, parentScope, eval);
    }
  }

  /** One more child changes the inline props as its line says. */
  lemma PartitionPropsStep(children: seq<Tree>, parentScope: Scope, eval: Evaluator)
    requires children != [] && Partition(children, parentScope, eval).Ok?
    ensures Partition(children[..|children| - 1], parentScope, eval).Ok?
    ensures Partition(children, parentScope, eval).value.props
      == SetProp(Partition(children[..|children| - 1], parentScope, eval).value.props,
                 LineOf(children[|children| - 1], parentScope, eval))
  {
    AddChildProps(Partition(children[..|children| - 1], parentScope, eval).value, children[|children| - 1], parentScope, eval);
  }

  /** A turn of the first pass that succeeds sets the props the child's line gives. */
  lemma AddChildProps(inv: Invocation, c: Tree, parentScope: Scope, eval: Evaluator)
    requires AddChild(inv, c, parentScope, eval).Ok?
    ensures AddChild(inv, c, parentScope, eval).value.props == SetProp(inv.props, LineOf(c, parentScope, eval))
  {
    var parsed := ParseProp(c, parentScope, eval);
    if StartsWith(c.value, "*") {
      assert AddChild(inv, c, parentScope, eval) == AddParsed(inv, parsed);
      assert LineOf(c, parentScope, eval) == Some(parsed.value);
      AddParsedLine(inv, parsed);
    } else {
      assert LineOf(c, parentScope, eval) == None;
    }
  }

  /** A turn of the first pass that succeeds sets the block props the child's line gives. */
  lemma AddChildBlocks(inv: Invocation, c: Tree, parentScope: Scope, eval: Evaluator)
    requires AddChild(inv, c, parentScope, eval).Ok?
    ensures AddChild(inv, c, parentScope, eval).value.blocks == AddBlock(inv.blocks, LineOf(c, parentScope, eval))
  {
    var parsed := ParseProp(c, parentScope, eval);
    if StartsWith(c.value, "*") {
      assert AddChild(inv, c, parentScope, eval) == AddParsed(inv, parsed);
      assert LineOf(c, parentScope, eval) == Some(parsed.value);
      AddParsedLine(inv, parsed);
    } else {
      assert LineOf(c, parentScope, eval) == None;
    }
  }

  lemma AddParsedLine(inv: Invocation, parsed: Result<Parsed>)
    requires parsed.Ok?
    ensures AddParsed(inv, parsed).Ok?
    ensures AddParsed(inv, parsed).value.props == SetProp(inv.props, Some(parsed.value))
    ensures AddParsed(inv, parsed).value.blocks == AddBlock(inv.blocks, Some(parsed.value))
  {
  }

  /** A successful first pass holds the block props its lines give. */
  lemma {:induction false} PartitionBlocksFold(children: seq<Tree>, parentScope: Scope, eval: Evaluator)
    requires Partition(children, parentScope, eval).Ok?
    ensures Partition(children, parentScope, eval).value.blocks == BlocksOf(Lines(children, parentScope, eval))
  {
    if children != [] {
      PartitionBlocksFold(children[..|children| - 1], parentScope, eval);
      PartitionBlocksStep(children, parentScope, eval);
      LinesInit(children, parentScope, eval);
    }
  }

  /** One more child changes the block props as its line says. */
  lemma PartitionBlocksStep(children: seq<Tree>, parentScope: Scope, eval: Evaluator)
    requires children != [] && Partition(children, parentScope, eval).Ok?
    ensures Partition(children[..|children| - 1], parentScope, eval).Ok?
    ensures Partition(children, parentScope, eval).value.blocks
      == AddBlock(Partition(children[..|children| - 1], parentScope, eval).value.blocks,
                  LineOf(children[|children| - 1], parentScope, eval))
  {
    AddChildBlocks(Partition(children[..|children| - 1], parentScope, eval).value, children[|children| - 1], parentScope, eval);
  }

  lemma LinesInit(children: seq<Tree>, parentScope: Scope, eval: Evaluator)
    requires children != []
    ensures var lines := Lines(children, parentScope, eval);
      && lines[..|lines| - 1] == Lines(children[..|children| - 1], parentScope, eval)
      && lines[|lines| - 1] == LineOf(children[|children| - 1], parentScope, eval)
  {
  }

  /** The keys the lines set are exactly the keys of the inline lines. */
  lemma {:induction false} PropsOfKeys(lines: seq<Option<Parsed>>)
    ensures forall k :: k in PropsOf(lines) <==> exists i :: 0 <= i < |lines| && SetsProp(lines[i], k)
  {
    if lines != [] {
      var init := lines[..|lines| - 1];
      PropsOfKeys(init);
      assert forall i :: 0 <= i < |init| ==> init[i] == lines[i];
      forall k
        ensures k in PropsOf(lines) <==> exists i :: 0 <= i < |lines| && SetsProp(lines[i], k)
      {
        if SetsProp(lines[|lines| - 1], k) {
          assert k in PropsOf(lines);
        } else if exists i :: 0 <= i < |lines| && SetsProp(lines[i], k) {
          var i :| 0 <= i < |lines| && SetsProp(lines[i], k);
          assert SetsProp(init[i], k);
        }
      }
    }
  }

  /** An inline prop holds the value of the last line that sets it. */
  lemma {:induction false} PropsOfLastWins(lines: seq<Option<Parsed>>, i: nat)
    requires i < |lines| && lines[i].Some? && lines[i].value.InlineProp?
    requires forall j :: i < j < |lines| ==> !SetsProp(lines[j], lines[i].value.key)
    ensures lines[i].value.key in PropsOf(lines) && PropsOf(lines)[lines[i].value.key] == lines[i].value.value
    decreases |lines|
  {
    var k := lines[i].value.key;
    if i < |lines| - 1 {
      var init := lines[..|lines| - 1];
      assert !SetsProp(lines[|lines| - 1], k);
      PropsOfLastWins(init, i);
    }
  }

  /** The block keys are exactly the keys of the block lines. */
  lemma BlocksOfKeys(lines: seq<Option<Parsed>>)
    ensures forall k :: k in Keys(BlocksOf(lines)) <==> exists i :: 0 <= i < |lines| && GivesBlock(lines[i], k)
  {
    forall k
      ensures k in Keys(BlocksOf(lines)) <==> exists i :: 0 <= i < |lines| && GivesBlock(lines[i], k)
    {
      BlocksOfKey(lines, k);
    }
  }

  /** `k` is a block key exactly when some line gives it. */
  lemma {:induction false} BlocksOfKey(lines: seq<Option<Parsed>>, k: string)
    ensures k in Keys(BlocksOf(lines)) <==> exists i :: 0 <= i < |lines| && GivesBlock(lines[i], k)
    decreases |lines|
  {
    if lines != [] {
      BlocksOfKey(lines[..|lines| - 1], k);
      BlocksOfKeyStep(lines, k);
      GivesBlockSnoc(lines, lines[..|lines| - 1], k);
    }
  }

  /** The last line adds its key to the block keys of the lines before it. */
  lemma BlocksOfKeyStep(lines: seq<Option<Parsed>>, k: string)
    requires lines != []
    ensures k in Keys(BlocksOf(lines))
      <==> k in Keys(BlocksOf(lines[..|lines| - 1])) || GivesBlock(lines[|lines| - 1], k)
  {
    var last := lines[|lines| - 1];
    if last.Some? && last.value.BlockProp? {
      UpsertKeys(BlocksOf(lines[..|lines| - 1]), last.value.key, last.value.node);
    }
  }

  /** Some line gives `k` exactly when the last one or an earlier one does. */
  lemma GivesBlockSnoc(lines: seq<Option<Parsed>>, init: seq<Option<Parsed>>, k: string)
    requires lines != [] && init == lines[..|lines| - 1]
    ensures (exists i :: 0 <= i < |lines| && GivesBlock(lines[i], k))
      <==> (exists i :: 0 <= i < |init| && GivesBlock(init[i], k)) || GivesBlock(lines[|lines| - 1], k)
  {
    if exists i :: 0 <= i < |init| && GivesBlock(init[i], k) {
      var i :| 0 <= i < |init| && GivesBlock(init[i], k);
      assert GivesBlock(lines[i], k);
    }
  }

  /** A block key is paired with the node of the last line that gives it. */
  lemma {:induction false} BlocksOfLastWins(lines: seq<Option<Parsed>>, i: nat)
    requires i < |lines| && lines[i].Some? && lines[i].value.BlockProp?
    requires forall j :: i < j < |lines| ==> !GivesBlock(lines[j], lines[i].value.key)
    ensures (lines[i].value.key, lines[i].value.node) in BlocksOf(lines)
    decreases |lines|
  {
    if i < |lines| - 1 {
      var init := lines[..|lines| - 1];
      assert !GivesBlock(lines[|lines| - 1], lines[i].value.key);
      BlocksOfLastWins(init, i);
    }
  }

  /** When the first pass succeeds, the inline props are exactly the keys of
      the inline prop lines, each holding the value of the last line setting it;
      the block props are exactly the keys of the block prop lines, each paired
      with the last line giving it. */
  lemma PartitionContents(children: seq<Tree>, parentScope: Scope, eval: Evaluator)
    requires Partition(children, parentScope, eval).Ok?
    ensures var inv := Partition(children, parentScope, eval).value;
      var lines := Lines(children, parentScope, eval);
      && (forall k :: k in inv.props <==> exists i :: 0 <= i < |lines| && SetsProp(lines[i], k))
      && (forall i :: 0 <= i < |lines| && lines[i].Some? && lines[i].value.InlineProp?
            && (forall j :: i < j < |lines| ==> !SetsProp(lines[j], lines[i].value.key))
            ==> lines[i].value.key in inv.props && inv.props[lines[i].value.key] == lines[i].value.value)
      && (forall k :: k in Keys(inv.blocks) <==> exists i :: 0 <= i < |lines| && GivesBlock(lines[i], k))
      && (forall i :: 0 <= i < |lines| && lines[i].Some? && lines[i].value.BlockProp?
            && (forall j :: i < j < |lines| ==> !GivesBlock(lines[j], lines[i].value.key))
            ==> (lines[i].value.key, lines[i].value.node) in inv.blocks)
  {
    var lines := Lines(children, parentScope, eval);
    PartitionPropsFold(children, parentScope, eval);
    PartitionBlocksFold(children, parentScope, eval);
    PropsOfKeys(lines);
    BlocksOfKeys(lines);
    forall i | 0 <= i < |lines| && lines[i].Some? && lines[i].value.InlineProp?
        && (forall j :: i < j < |lines| ==> !SetsProp(lines[j], lines[i].value.key))
      ensures lines[i].value.key in PropsOf(lines) && PropsOf(lines)[lines[i].value.key] == lines[i].value.value
    {
      PropsOfLastWins(lines, i);
    }
    forall i | 0 <= i < |lines| && lines[i].Some? && lines[i].value.BlockProp?
        && (forall j :: i < j < |lines| ==> !GivesBlock(lines[j], lines[i].value.key))
      ensures (lines[i].value.key, lines[i].value.node) in BlocksOf(lines)
    {
      BlocksOfLastWins(lines, i);
    }
  }

  /** The same pass written as the loop of the source: props, block props and
      slot nodes filled child by child, stopping at the first prop that throws. */
  method CollectProps(children: seq<Tree>, parentScope: Scope, eval: Evaluator) returns (r: Result<Invocation>)
    ensures r == Partition(children, parentScope, eval)
  {
    var props: Scope := map[];
    var blocks: seq<(string, Tree)> := [];
    var slotNodes: seq<Tree> := [];
    for i := 0 to |children|
      invariant Partition(children[..i], parentScope, eval) == Ok(Invocation(props, blocks, slotNodes))
    {
      var c := children[i];
      assert children[..i + 1][..i] == children[..i];
      if StartsWith(c.value, "*") {
        var parsed := ParseProp(c, parentScope, eval);
        if parsed.Err? {
          r := Err(parsed.error);
          PartitionStops(children, i + 1, parentScope, eval);
          return;
        }
        match parsed.value
        case InlineProp(key, value) =>
          props := props[key := value];
        case BlockProp(key, node) =>
          blocks := Upsert(blocks, key, node);
      } else {
        slotNodes := slotNodes + [c];
      }
    }
    assert children[..|children|] == children;
    r := Ok(Invocation(props, blocks, slotNodes));
  }

  /** Once a prefix of the children throws, the whole pass throws the same error. */
  lemma {:induction false} PartitionStops(children: seq<Tree>, n: nat, parentScope: Scope, eval: Evaluator)
    requires n <= |children| && Partition(children[..n], parentScope, eval).Err?
    ensures Partition(children, parentScope, eval) == Partition(children[..n], parentScope, eval)
    decreases |children| - n
  {
    if n < |children| {
      assert children[..n + 1][..n] == children[..n];
      PartitionStops(children, n + 1, parentScope, eval);
    } else {
      assert children[..n] == children;
    }
  }
}
