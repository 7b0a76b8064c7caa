# DotWeb, modelled in Dafny

DotWeb compiles an indentation-based page language to one HTML document.
`parseIndentTree` turns the program text into a tree, where every line hangs
under the nearest earlier line that is indented less. A `DotWeb` object then
walks that tree. Along the way it keeps three accumulators: the registered
components, the set of collected CSS lines, and the generated component
classes (scripts). Each line is one of seven kinds:

- `$component NAME` defines a component (`*struct`, `*style`, `*class` parts).
- `$slot` inserts the slot content of the current use.
- `ViewPort` renders a full page from its `*prop` lines.
- `*...` is a prop line and renders nothing.
- A registered name is a component use. Its `*key<type> value` props and
  `Component` block props are parsed, and its structure is rendered in the
  resulting scope inside `<div data-component="NAME">`.
- A line starting with a lower-case letter is an element (`tag.class#id[k=v] text`).
- Anything else is text, which may be a `{expression}`, contain `{...}`
  groups, or be a `$name` reference.

`run` joins the renders of the top-level lines. It wraps them in a default
page unless they already start with `<!DOCTYPE html>`.

The model follows the one source file, `dotweb.js`:

- `IndentParser` and `IndentShape`: the parser. A method keeps the explicit
  stack and fills the child lists in place. It is proved equal to a
  declarative tree, where each line's parent is the nearest earlier
  shallower line. That tree is then proved to keep every non-blank line
  once, in order, and deeper than its parent.
- `Registry`: component definitions and the style and script accumulators.
  The style set is a sequence without duplicates in insertion order, as a
  JavaScript `Set` is.
- `Props`: prop lines and the first pass of `useComponent`.
- `Elements`: element heads.
- `TextExpr`: text and `{...}` expressions.
- `Document`: the two page templates.
- `Render`: `node` and the renderers it dispatches to. They are total
  functions that thread a `State` (the three accumulators) and return
  `Done(value, state)` or `Thrown(error, state)`, because a throw keeps the
  changes made before it. A fuel bound stands for the call stack.
- `RenderLaws`: what rendering promises.
- `Interpreter`: the `DotWeb` class. Its fields are the accumulators, and its
  `Component` and `Run` methods update them in place. Each method is proved
  to leave exactly the state, and return exactly the value or error, that the
  functional model gives.

`{...}` expressions are host JavaScript (`Function` with `with(scope)`), so the
evaluator is a parameter: any function from expression text and scope to a
value or a raised message. `Runtime.NameLookup` is one such evaluator, a bare
name lookup, used for a worked example.

## Model

| member | source | states |
|---|---|---|
| IndentParser.ExpandTabs | dotweb.js:5 | the result holds no tab, and text without tabs comes back unchanged |
| IndentParser.ExpandTabsAppend | dotweb.js:5 | the replacement is global: expanding a concatenation expands each part on its own |
| IndentParser.ExpandTab | dotweb.js:5 | each tab, wherever it stands, becomes exactly two spaces and the text around it is expanded alone |
| IndentParser.LeadingSpaces | dotweb.js:10 | the count is exactly the run of leading spaces: all counted characters are spaces and the next one is not |
| IndentParser.Parent | dotweb.js:14-15 | a line's parent is the nearest earlier line (or the root, indent -1) indented less than it; every line in between is indented at least as much |
| IndentParser.ParentUnique | dotweb.js:14-15 | that description fixes the parent uniquely |
| IndentParser.CloseDeeper | dotweb.js:14 | popping leaves a prefix of the stack whose top is the new line's parent, and pushing the line keeps every stack entry the parent of the next |
| IndentParser.AddLine | dotweb.js:9-17 | one iteration keeps the child lists and the stack invariant for the lines read so far |
| IndentParser.GrowIsBuild | dotweb.js:15 | the tree read off the child lists filled in place is the declarative tree |
| IndentParser.BuildTree | dotweb.js:6-18 | the stack algorithm builds the declarative tree in which every line hangs under its parent |
| IndentParser.ParseIndentTree | dotweb.js:4-19 | the result is that tree for the tab-expanded, blank-filtered lines, with root value "root" and indent -1 |
| IndentShape.OutlineOfTree | dotweb.js:4-19 | the pre-order listing of the parsed tree is exactly the non-blank lines, trimmed, with their indents, in source order: none lost, duplicated or reordered |
| IndentShape.TreeWellIndented | dotweb.js:14-16 | every child is indented deeper than its parent |
| IndentShape.KidsInsideBlock | dotweb.js:14-16 | a line's children all lie in its indented block, which ends at the first later line indented no deeper than it |
| IndentShape.KidsInSorted | dotweb.js:15 | children are listed in source order |
| IndentShape.ToLinesAppend | dotweb.js:5 | reading lines distributes over concatenated text, so each physical line is read on its own |
| JsText.Trim | dotweb.js:11 | the result is a slice of the text with only white space before and after it, has no leading or trailing white space itself, and is empty exactly when the text is all white space |
| JsText.TrimIdempotent | dotweb.js:338 | trimming trimmed text changes nothing |
| JsText.IndexOf | dotweb.js:281 | -1 exactly when the character is absent; otherwise its first position |
| JsText.Split | dotweb.js:131 | at least one part; two or more exactly when the separator occurs; no part holds the separator |
| JsText.JoinSplit | dotweb.js:131 | joining the parts of a split with the separator gives the text back |
| JsText.SplitJoin | dotweb.js:312 | splitting a join of separator-free parts gives the parts back |
| JsText.Capitalize | dotweb.js:159 | same length; the first character is upper-cased, every later one unchanged |
| JsText.UpperAscii | dotweb.js:159 | a lower-case ASCII letter becomes the matching upper-case letter; any other character is unchanged |
| JsText.IntegerLiteralRoundTrip | dotweb.js:263-264 | `Number` of an integer's decimal text is that integer |
| Runtime.LookupOrEmpty | dotweb.js:365 | the scope's property, unless it is missing, `undefined` or `null`, when it is "" |
| Runtime.StripDollars | dotweb.js:343 | never longer than its input; text without `$` is unchanged |
| Runtime.StripDollarsOfReference | dotweb.js:343 | `$name` becomes `name` |
| Runtime.StripDollarsKeepsOtherText | dotweb.js:343 | only `$` signs are ever removed |
| Registry.AddStyle | dotweb.js:144 | `Set.add`: the line is present afterwards, the earlier lines keep their order as a prefix, at most one line is added, and nothing else is |
| Registry.AddStyleIdempotent | dotweb.js:148 | adding a line twice is adding it once |
| Registry.AddStyles | dotweb.js:148 | the earlier styles stay as a prefix, and the set holds exactly the old lines and the added ones |
| Registry.NameOf | dotweb.js:131 | a definition has a name exactly when its line has a space, and the name has no space |
| Registry.NameOfWords | dotweb.js:131 | the name is the second space-separated word: `w n rest` with `rest` empty or starting with a space names `n` |
| Registry.LastOf | dotweb.js:134-138 | none exactly when no child fills the part, otherwise the last child that fills it |
| Registry.InlineStyleNeverAdded | dotweb.js:149-154 | a child classified as `*style` is exactly `*style`, so the single-line branch never adds a line |
| Registry.StyleLines | dotweb.js:144-154 | the lines a definition adds are its `/* Styles for NAME */` comment, then every line under a block `*style` in order, or else the inline style when it is non-empty |
| Registry.ClassCode | dotweb.js:159-181 | the generated class starts with `class NAMEComponent {` and ends with the instantiation hook |
| Registry.Define | dotweb.js:130-187 | defining only extends the styles and scripts |
| Registry.DefineReplaces | dotweb.js:140 | the name maps to the new definition; every other entry is unchanged |
| Registry.DefineRendersEmpty | dotweb.js:158-186 | a definition renders as "", and throws exactly when it has a `*class` part and no name |
| Registry.DefineScripts | dotweb.js:158-184 | exactly one script is appended when a definition with a `*class` part succeeds, none otherwise |
| Registry.DefineStyles | dotweb.js:143-155 | without `*style` the styles are unchanged; with one, the new set holds exactly the old lines and the definition's style lines, among them the comment and every line of the block |
| Props.MatchPropHead | dotweb.js:234-235 | there is no match exactly when the text is empty or does not start with a name character; the key is a name and a prefix of the text |
| Props.TypedPropLine | dotweb.js:234-236 | `key<type> value` is read as that key, type and value |
| Props.UntypedPropLine | dotweb.js:234-236 | `key value` is read with type `any` |
| Props.TypeOf | dotweb.js:240-269 | the four special types are recognised by their exact names |
| Props.ParseProp | dotweb.js:232-277 | a parsed key is a name, and a block prop carries its own node |
| Props.InvalidSyntax | dotweb.js:235 | a line without a name after `*` throws `Invalid prop syntax` |
| Props.BlockProps | dotweb.js:239-247 | a prop with children is a block prop when typed `Component`, and throws otherwise |
| Props.ValueRequired | dotweb.js:276 | a childless prop without a value throws `requires a value` |
| Props.ParseInline | dotweb.js:249-274 | a childless prop with a value is parsed from its trimmed value and declared type |
| Props.ComponentNeedsBlock | dotweb.js:269-270 | an inline `Component` prop that is not an expression throws `Block required` |
| Props.BooleanLiterals | dotweb.js:265-268 | a `boolean` prop succeeds exactly for `true` and `false`, with that value, and throws `Invalid boolean value` otherwise |
| Props.QuotedString | dotweb.js:261-262 | a quoted `string` value loses its quotes |
| Props.StripQuotesOfQuoted | dotweb.js:262 | one leading and one trailing quote are removed |
| Props.IntegerNumber | dotweb.js:263-264 | a `number` prop written as an integer within 2^53 - 1 of zero holds that integer |
| Props.LargeIntegerKept | dotweb.js:263-264 | an integer literal beyond 2^53 - 1 is not read as that integer (it is kept as its text) |
| Props.ExpressionValue | dotweb.js:254-260 | a `{...}` value is the expression's value in the caller's scope, and an error raised there becomes `Expression error in prop` |
| Props.Upsert | dotweb.js:203 | the key now holds the new block node, every entry with another key is kept, and no entry with another key is added |
| Props.UpsertKeys | dotweb.js:203 | assigning an existing key keeps the key order; a new key is appended |
| Props.UpsertKeepsKeysUnique | dotweb.js:203 | block-prop keys stay unique |
| Props.Partition | dotweb.js:199-210 | the first pass yields unique block-prop keys |
| Props.Lines | dotweb.js:199-201 | one entry per child: the parsed prop of a prop line that parses, nothing for any other child |
| Props.PartitionPropsFold | dotweb.js:199-210 | a successful pass holds the inline props its lines set, later lines overriding earlier ones |
| Props.PartitionBlocksFold | dotweb.js:199-210 | a successful pass holds the block props its lines give, assigned in order |
| Props.PropsOfKeys | dotweb.js:205 | a key is an inline prop exactly when some line sets it |
| Props.PropsOfLastWins | dotweb.js:205 | an inline prop holds the value of the last line that sets it |
| Props.BlocksOfKeys | dotweb.js:203 | a key is a block prop exactly when some line gives it |
| Props.BlocksOfLastWins | dotweb.js:203 | a block key is paired with the node of the last line that gives it |
| Props.PartitionContents | dotweb.js:199-210 | after a successful pass, `props` holds exactly the keys of the inline prop lines, each with the value of the last such line, and `blockProps` exactly the keys of the block prop lines, each with the last such node |
| Props.PartitionSucceeds | dotweb.js:199-210 | the first pass succeeds exactly when every prop child parses |
| Props.PartitionSlots | dotweb.js:207-209 | the slot nodes are the non-prop children, in order |
| Props.NonPropChildren | dotweb.js:97-99 | every child kept is a child that is not a `*` line, and every such child is kept |
| Props.NonPropChildrenAppend | dotweb.js:97-99 | the filter keeps order: the children of two runs are those of the first, then those of the second |
| Props.PartitionStops | dotweb.js:201 | the first prop that throws ends the pass with its error |
| Props.CollectProps | dotweb.js:194-210 | the `forEach` loop computes the first pass |
| Elements.SplitHead | dotweb.js:281-290 | without a space the whole line is the tag; otherwise tag, one space and rest make up the line, and the tag has no space |
| Elements.BracketGroup | dotweb.js:325 | no `[` gives no group, and a group is never empty |
| Elements.BracketGroupOf | dotweb.js:325 | the lazy match ends at the first `]` |
| Elements.AttrTextOf | dotweb.js:328-329 | `k=v` becomes ` k="v"` |
| Elements.ElementHead | dotweb.js:306-334 | the tag is a prefix of the head token and never holds `#`, and holds `.` only when a `#` cut it; there are attributes exactly when the token has a `.`, a `#` or a bracket group |
| Elements.ClassHead | dotweb.js:311-315 | `t.c1.c2...` is the tag `t` with ` class="c1 c2 ..."` |
| Elements.IdHead | dotweb.js:318-322 | `t#i` is the tag `t` with ` id="i"` |
| Elements.ClassThenId | dotweb.js:311-322 | in `t.c#i` the `#` cut wins: the tag is `t.c`, and the class text runs to the end of the token, ` class="c#i" id="i"` |
| Elements.BracketHead | dotweb.js:324-331 | `t[k=v]` gives ` k="v"`, and with no `.` or `#` the tag keeps the brackets |
| Elements.PlainTag | dotweb.js:306-334 | a head without `.`, `#` or `[` is a bare tag |
| Elements.ParseElement | dotweb.js:306-334 | the method that appends attribute text computes that head |
| Elements.AppendAttrs | dotweb.js:327-330 | the loop appends each `k="v"` in order |
| Elements.ElementMarkup | dotweb.js:303 | the markup is the start tag with the attributes, then exactly the inline text followed by the children, then the end tag |
| TextExpr.Evaluated | dotweb.js:342-348 | the expression's value as text, or "" when it raises |
| TextExpr.Text | dotweb.js:337-369 | only a `$name` line yields something other than a string, and then it is the scope lookup |
| TextExpr.PlainText | dotweb.js:368 | text without braces or a leading `$` comes back trimmed |
| TextExpr.Reference | dotweb.js:363-366 | `$name` reads the scope, giving "" for missing, `undefined` or `null` |
| TextExpr.WholeExpression | dotweb.js:340-349 | a line in braces is one expression: its value as text, or "" when it raises |
| TextExpr.BracedReference | dotweb.js:340-344 | with name lookup, `{ $title }` shows `title`, or "" when it is missing |
| TextExpr.InterpolateNoGroups | dotweb.js:351-360 | text without `}` is unchanged by interpolation |
| TextExpr.InterpolateGroup | dotweb.js:352-360 | text before the first group is kept, the group becomes its expression's value, and the rest is interpolated |
| Document.StyleBlock | dotweb.js:44 | empty exactly when there are no styles, otherwise one `<style>` element |
| Document.ScriptBlock | dotweb.js:48 | empty exactly when there are no scripts, otherwise one `<script>` element |
| Document.WrapInViewPort | dotweb.js:37-51 | the default page is the doctype and the fixed head (lang `en`, charset, viewport, title `DotWeb App`), then the style block of the collected styles, then the body with the content and the script block |
| Document.PageTail | dotweb.js:45-50 | the head closes, the body opens with the content, and the script block of the collected scripts follows it |
| Document.UnquoteQuoted | dotweb.js:91-95 | a value in double or single quotes loses them |
| Document.ViewPortProps | dotweb.js:85-101 | every prop line's key is set |
| Document.ViewPortPropsKeys | dotweb.js:85-101 | a key is set exactly when some prop line names it |
| Document.ViewPortPropsLastWins | dotweb.js:97 | the last prop line naming a key gives its value |
| Document.PropOr | dotweb.js:106-109 | a set, non-empty prop is used, otherwise the default |
| Document.ViewPortPage | dotweb.js:105-122 | the `ViewPort` page is the doctype and the head built from the props, then the optional metadata and style-sheet links, then the style block, the script links and the body with the content and the script block |
| Document.ViewPortTop | dotweb.js:106-110 | the head opens with the `lang` tag and holds the `charset` and `title` tags |
| Document.ViewPortValues | dotweb.js:105-122 | the page starts with the doctype and `<html lang="...">` of the `lang` prop (`en` by default), holds the `charset` and `title` tags of those props or their defaults, and ends with the body holding the content and the collected scripts |
| Document.FileTagList | dotweb.js:114 | one tag per listed file, each loading that file, trimmed |
| Render.KindOf | dotweb.js:53-76 | each kind holds exactly when its test passes and every earlier test fails, in the order of `node`: `$component` prefix, `$slot`, built-in name, `*` prefix, registered name, lower-case first letter, anything else |
| Render.SlotText | dotweb.js:58 | the slot throws exactly when it is set to something other than an array, `undefined` or `null` |
| Render.ComponentDiv | dotweb.js:228 | the markup is `<div data-component="NAME">`, exactly the content, then `</div>` |
| Render.RenderNode | dotweb.js:53-76 | rendering only extends styles and scripts, and a `ViewPort` line renders a page |
| Render.RenderAll | dotweb.js:33 | one render per node, and styles and scripts only grow |
| Render.Builtin | dotweb.js:79-125 | `ViewPort` renders a page, and styles and scripts only grow |
| RenderLaws.ViewPortWraps | dotweb.js:79-122 | a `ViewPort` line renders its non-prop children in the caller's scope and gives the page of its `*` props around their joined renders, with the styles and scripts as those renders left them |
| Render.UseComponent | dotweb.js:190-229 | styles and scripts only grow |
| Render.Compile | dotweb.js:32-35 | styles and scripts only grow over a whole run |
| Render.Finish | dotweb.js:34 | a result that is already a page is kept; anything else is wrapped in the default page |
| RenderLaws.DirectiveRendersEmpty | dotweb.js:66 | a prop line renders "" and changes nothing |
| RenderLaws.DefinitionLine | dotweb.js:55 | a definition line renders "" (or throws) and stores its definition |
| RenderLaws.UseWithoutStructure | dotweb.js:192 | a component without `*struct` renders "" and changes nothing |
| RenderLaws.UseWraps | dotweb.js:190-229 | a successful use partitions its children, builds the component's scope and renders the structure's children in it; the output is the `data-component` div around exactly those renders, joined |
| RenderLaws.ElementWraps | dotweb.js:280-304 | an element renders as its start tag, then exactly its inline text (the rest of the line, interpolated, or nothing) and the joined renders of its children, then its end tag |
| RenderLaws.BlocksScope | dotweb.js:219-222 | block props add exactly their keys, each holding a string, and keep every other key |
| RenderLaws.BlocksLastWins | dotweb.js:219-222 | the last block with a key leaves in it the joined render of its children, rendered in the scope and state the blocks before it left |
| RenderLaws.InvocationScope | dotweb.js:212-222 | the structure's scope holds exactly the inline props, `slot` and the block props, with `slot` rendered in the inline props' scope |
| RenderLaws.InvocationBlocks | dotweb.js:212-222 | in that scope, the last block prop with a key holds the joined render of its children, rendered after the inline props, `slot` and the earlier block props |
| RenderLaws.RunIsPage | dotweb.js:34 | `run` always returns a page |
| RenderLaws.ViewPortNotWrapped | dotweb.js:34 | a program that starts with `ViewPort` is returned unwrapped |
| RenderLaws.RenderAllSnoc | dotweb.js:33 | rendering a list and then one more node is rendering the longer list |
| RenderLaws.RenderAllStops | dotweb.js:33 | a throw ends the list: later nodes are not rendered |
| Interpreter.DotWeb.constructor | dotweb.js:25-30 | a fresh compiler has no components, styles or scripts, and `ViewPort` as its only built-in |
| Interpreter.DotWeb.WrapInViewPort | dotweb.js:37-51 | the object's default page is the doctype and fixed head, then the style block of its styles, then the body with the content and the script block of its scripts |
| Interpreter.DotWeb.Component | dotweb.js:130-187 | the fields end up as the definition leaves them, and the method returns "" or throws as the definition does |
| Interpreter.DotWeb.Run | dotweb.js:32-35 | the fields end up as the whole run leaves them, and the method returns the run's page or its error |
| Interpreter.DotWeb.RenderTopLevel | dotweb.js:33 | the loop over the top-level nodes leaves the fields and the parts as rendering the list does, stopping at the first throw |
| Interpreter.TopLevelStep | dotweb.js:33 | one more top-level node either throws, ending the list, or adds its render to the parts |
| Interpreter.Classify | dotweb.js:134-138 | each part is the last child that fills it |
| Interpreter.AddStyleLines | dotweb.js:143-154 | the `add` calls produce the style set of the definition's lines |
| Interpreter.AddBlockLines | dotweb.js:146-148 | the comment, then each block line, are added in order |
| Interpreter.AddSingleLine | dotweb.js:149-154 | the comment, then the inline style when it is non-empty, are added |
| Interpreter.DefinitionScript | dotweb.js:158-184 | an unnamed class throws; a named one appends its class text |
| Interpreter.BuildClass | dotweb.js:159-181 | the appends build the class text |
| Interpreter.AppendMember | dotweb.js:163-173 | a constructor, a method or a plain line is appended in its form |
| Interpreter.AppendBody | dotweb.js:165 | body lines are appended four spaces in, in order |

## Left out

- The evaluator of `{...}` expressions is a parameter. Host `Function`/`with` semantics, and any side effects an expression has, are not modelled.
- Props.IntegerNumber: holds only within 2^53 - 1 of zero. Beyond that `Number` rounds to the nearest double, and `String` of it prints that double (from 10^21 on, in exponent form). The model keeps such a literal as its text instead.
- Props.NumberValue: any literal that is not an integer is kept as its text. NaN, floating point, hexadecimal and exponent forms, and `Number("")` being 0, are not modelled.
- Render.KindOf: a component is looked up by key only. Keys inherited from `Object.prototype` (for example `toString`), which JavaScript also finds, are not modelled.
- Runtime.LookupOrEmpty: the same gap. `$toString` finds the inherited function in JavaScript, and is "" here. The prop maps of Props.Partition and the scope of a use are plain maps too: a `__proto__` key, which JavaScript treats as the prototype, is an ordinary key here.
- Props.Upsert: block props keep first-insertion order. JavaScript's `Object.keys` lists integer-like keys first, which is not modelled.
- JsText.Capitalize: only ASCII letters are upper-cased, and strings are sequences of code points rather than UTF-16 units.
- Render.RenderNode: the depth of nested renders is bounded by fuel. Running out (`TooDeep`) stands for the host's stack overflow, for example on a component that uses itself. No lemma states that more fuel gives the same result, so `Run` with too little fuel can report `TooDeep` for a program that the host renders to a page.
- Render.ComponentScope: `slot` holds the renders of the slot nodes as strings. The host keeps the values `node` returned. The two agree wherever `slot` is joined or printed, and differ only for a `{...}` expression that computes with its items (such as `{slot[0] + 1}`).
- `console.warn` on an expression error is left out; only the "" it leaves in the page is modelled.
- I/O: reading the program, writing the page and everything in `main.js` are not part of this model.
- The generated component classes are kept as text; running them in a browser is not modelled.
- Interpreter.BuildClass: the closing brace and instantiation hook are appended as one piece, where the source uses six appends; the text is the same.
- Interpreter.DotWeb.Component: the three fields are assigned after their new values are computed, not one by one as the source does. The state left behind, also on a throw, is the same.
- `node`, `builtin`, `useComponent`, `element` and `text` are state-threading functions of the `Render` module, not methods of the class; `Run` executes them and stores the state they return.
- Render.SlotText: any `slot` value that is not an array, `undefined` or `null` throws. A host object with its own `join` method is not modelled.
