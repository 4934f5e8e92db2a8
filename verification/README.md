# Discord colored-text generator: a Dafny model of its styling core

The generator is a single React component. The user selects text in an
editable area and presses a style button. The selection is replaced by a
styled span. The copy button then walks the editor's nodes and turns them
into ANSI escape-coded text inside an `ansi` code fence, for a chat client
that renders the 16-colour ANSI subset.

This project models the three parts of that component that are pure logic:

- **The code table** (`registry.dfy`, module `Registry`). The 16 colour codes
  (30-37 foreground, 40-47 background) each map to a hex colour and a
  display name. Codes `1` and `4` map to the bare strings `Bold` and
  `Underline`. A string that is not one of the table's own keys reads as `None` (JavaScript's `undefined`).
- **The style-button handler** (`selection.dfy`, module `Selection`). This
  covers the blank-selection guard, which uses the full `String.prototype.trim`
  white-space set. It also covers the choice of inline style from the code's
  leading character, and the span that replaces the selection. DOM range
  mutation is abstracted: the handler returns an `Edit`, either `NoOp` or
  `Insert(style, span)`.
- **The encoder** (`encoder.dfy`, module `Encoder`). The editor content is an
  inductive tree `Node = Text(s) | Break | Styled(code, children)`. Every
  HTML element other than `<br>` is `Styled`. Its `code` is the number read
  from the part of its class name between the first and second `-`. The
  code is `None` (JavaScript's `NaN`, for which every comparison is false)
  when the class name has no `-`, or when that part is neither blank nor a
  number. A blank part, as in `ansi-` or `a--b`, reads as 0. `EncodeNode`/`EncodeNodes`
  thread an explicit `seq<State>` stack in the same way as the source:
  - derive the new state from the top of the stack;
  - push it;
  - emit `ESC[st;fg-or-bg m`;
  - encode the children;
  - pop;
  - emit `ESC[0m`;
  - re-open the restored parent's foreground and background when they are
    not the unset value 2.

  `Export` wraps the body in the fence.

Supporting modules:

- `decimal.dfy` (`Decimal`): prints numbers the way the template literals
  do, and reads digit strings back.
- `sgr.dfy` (`Sgr`): the SELECT GRAPHIC RENDITION sequences of section
  8.3.117 of ECMA-48. It also defines `Strip`, the text a terminal shows
  once every control sequence is removed.
- `encoder_laws.dfy` (`EncoderLaws`): a stack-free reference renderer
  (`Render`/`RenderAll`, which pass the enclosing state down the tree) and
  the laws proved about the encoder.
- `pipeline.dfy` (`CopyPipeline`): from a button press to the copied text.

The encoder is a Dafny function, so encoding the same tree twice gives the
same text by definition. No separate lemma states that.

Two facts about the program shape the model:

- The program has no run-based document and no state diffing. Each
  opening sequence has exactly two parameters: the `st` slot, then the
  foreground or the background, with 2 as the "unset" value.
- Indexing the table with a numeral that is not one of its keys yields
  `undefined` and does not throw. Only reading `.color` from it throws, in the foreground and
  background branches of the handler. This is modelled as
  `Selection.ColorOf` returning `Failure`.

`Registry.Lookup`, `Encoder.Open`, `Encoder.Reopen`, `Encoder.Body` and
`Encoder.Export` are plain definitions. Their properties are stated by the
lemmas in the table below:

- `Lookup`: `Registry.LookupDomain`, `Registry.KeyShapes` and `Registry.AttributeEntries`.
- `Open`: `EncoderLaws.StyledElement` and `EncoderLaws.TopLevelStyled`.
- `Reopen`: `EncoderLaws.ReopenOnlySetColours`.
- `Body` and `Export`: `EncoderLaws.BodyKeepsVisibleText` and `EncoderLaws.ExportUnfences`.

## Model

| member | source | states |
|---|---|---|
| Registry.LookupDomain | color-text-generator/src/App.jsx:11-35 | every code 30-37 and 40-47 has an entry with a colour; a numeral has an entry exactly when it is such a code, 1 or 4 |
| Registry.AttributeEntries | color-text-generator/src/App.jsx:33-34 | `1` and `4` map to the bare names `Bold` and `Underline`, which carry no colour |
| Registry.KeysAreNumerals | color-text-generator/src/App.jsx:11-35 | every key of the table is the decimal numeral of a number, so the class-name code and the button code name the same entry |
| Registry.KeyShapes | color-text-generator/src/App.jsx:11-35 | the keys are exactly `1`, `4` and two-digit numerals starting with 3 or 4 whose second digit is at most 7 |
| Decimal.Dec | color-text-generator/src/App.jsx:115 | a number is printed as a non-empty string of digits with no leading zero |
| Decimal.ParseDec | color-text-generator/src/App.jsx:107 | reading a printed number back as digits gives the number (print/parse round trip) |
| Decimal.DecInjective | color-text-generator/src/App.jsx:115 | distinct codes print as distinct numerals |
| Selection.Trim | color-text-generator/src/App.jsx:55 | the trimmed selection is empty exactly when every character is JavaScript white space or a line terminator |
| Selection.TrimStart | color-text-generator/src/App.jsx:55 | removes exactly the leading white space: the result is a suffix, everything dropped is white space, and the result starts with non-space |
| Selection.TrimEnd | color-text-generator/src/App.jsx:55 | removes exactly the trailing white space: the result is a prefix, everything dropped is white space, and the result ends with non-space |
| Selection.ColorOfDomain | color-text-generator/src/App.jsx:71-73 | reading `.color` for a numeral throws exactly when the number is not 30-37, 40-47, 1 or 4 |
| Selection.ColorOfBareNames | color-text-generator/src/App.jsx:33-34 | among the table's own keys and all other strings the model admits, the colour read is undefined exactly for `1` and `4`, whose entries are bare names |
| Selection.ApplyStyle | color-text-generator/src/App.jsx:55-84 | a blank selection is a no-op and only a blank selection is; the handler fails exactly when the classification throws; otherwise it inserts a span holding the selected text, with no class name |
| Selection.ClassifyOutcomes | color-text-generator/src/App.jsx:70-78 | as written, the Bold button gets bold, and classification throws exactly for a code that starts with `3` or `4` and is not in the table |
| Selection.UnderlineUnreachable | color-text-generator/src/App.jsx:70-78 | no code ever reaches the underline branch; code `4` is routed to the background branch with an undefined colour |
| Selection.ClassifyPalette | color-text-generator/src/App.jsx:70-73 | for the 16 colour codes the prefix test picks foreground for 3x and background for 4x, with the table's colour |
| Selection.ClassifyIntendedMatchesEncoder | color-text-generator/src/App.jsx:70-112 | corrected classification: every table code gets a style whose category matches the encoder's numeric ranges, with `1` bold and `4` underline |
| Selection.ApplyStyleTagged | color-text-generator/src/App.jsx:55-84 | corrected handler: no-op exactly on a blank selection, fails exactly on an unknown code, and otherwise tags the span with the code, whose numeral is the button code |
| Encoder.Derive | color-text-generator/src/App.jsx:108-112 | the new scope copies the parent and replaces only `st` (code below 30), `fg` (30-39) or `bg` (40 and above); a missing code changes nothing |
| Encoder.EncodeNode | color-text-generator/src/App.jsx:107-120 | a styled node pushes once and pops once, so the stack after a node equals the stack before it |
| Encoder.EncodeNodes | color-text-generator/src/App.jsx:96-123 | encoding a list of siblings leaves the shared stack exactly as it found it |
| Encoder.Unfence | color-text-generator/src/App.jsx:126 | a text is read as a fenced block only if it is the opening fence, a body and the closing fence |
| EncoderLaws.EncodeNodesMatchRender | color-text-generator/src/App.jsx:96-123 | the stack encoder equals the stack-free reference renderer run under the top of the stack |
| EncoderLaws.EncodeNodeMatchesRender | color-text-generator/src/App.jsx:107-120 | one node, stack encoder against reference renderer |
| EncoderLaws.StackBelowTopIrrelevant | color-text-generator/src/App.jsx:108-120 | two stacks with the same top give the same output; only the top is ever read |
| EncoderLaws.EncodeNodesAppend | color-text-generator/src/App.jsx:98-121 | siblings see the same parent state: encoding a concatenation is the concatenation of the encodings |
| EncoderLaws.LeafContributions | color-text-generator/src/App.jsx:99-106 | a text node contributes exactly its text and a line break exactly a newline |
| EncoderLaws.StyledElement | color-text-generator/src/App.jsx:107-120 | a styled node emits `ESC[st;x m` in terms of the parent and the code, then its children under the derived state, then `ESC[0m`, then the parent's set colours |
| EncoderLaws.ReopenOnlySetColours | color-text-generator/src/App.jsx:119-120 | after a reset nothing is re-opened exactly when the parent's fg and bg are both unset; otherwise only the set ones are re-opened, the foreground before the background |
| EncoderLaws.TopLevelStyled | color-text-generator/src/App.jsx:108-125 | at top level the unset style contributes 2 to the opening sequence and nothing follows the reset |
| EncoderLaws.UnstyledTree | color-text-generator/src/App.jsx:99-106 | a tree without styled nodes encodes to its plain text, which has no escape character when the text has none |
| EncoderLaws.BodyKeepsVisibleText | color-text-generator/src/App.jsx:96-125 | when no text node contains ESC, every control sequence in the body is complete, and removing them gives back exactly the editor's visible text |
| EncoderLaws.ExportUnfences | color-text-generator/src/App.jsx:125-126 | unfencing the export gives back the body; an empty editor exports "```ansi\n\n```" |
| CopyPipeline.SpanInContext | color-text-generator/src/App.jsx:96-116 | a span with one text child, placed anywhere among top-level nodes, is encoded as its opening sequence, its text and a reset, between the unchanged encodings of the nodes before and after it |
| CopyPipeline.AppliedStyleLostOnExport | color-text-generator/src/App.jsx:67-116 | as written, a successfully applied span at any top-level position exports as `ESC[2;2m` text `ESC[0m` between the encodings of its neighbours, whatever the code: the applied style is lost |
| CopyPipeline.AppliedStyleReachesExport | color-text-generator/src/App.jsx:67-116 | with the span tagged by its code, at any top-level position, the span is opened with that code's numeral in the attribute or colour slot and 2 in the other |

## Findings

| source | as written | input that shows it | evidently intended | confidence | as-written member | corrected member |
|---|---|---|---|---|---|---|
| color-text-generator/src/App.jsx:72-77 | the background test `startsWith('4')` comes before the underline test, so code `4` sets `backgroundColor` to the `color` of the bare string `Underline`, which is undefined | the Line button, code `4`, on any non-blank selection | code `4` sets `textDecoration: underline` | high; not executed | Selection.UnderlineUnreachable | Selection.ClassifyIntendedMatchesEncoder |
| color-text-generator/src/App.jsx:67-107 | the handler styles the new span inline and never gives it a class name, while the encoder reads the code from the class name, so the code is `NaN` and the span exports as `ESC[2;2m` | select `Hi`, press Red (code `31`), copy: the body is `ESC[2;2m` `Hi` `ESC[0m` | the span carries its code (for example class `ansi-31`) and exports as `ESC[2;31m` `Hi` `ESC[0m` | medium (the fix could be on either side); not executed | CopyPipeline.AppliedStyleLostOnExport | CopyPipeline.AppliedStyleReachesExport |

## Left out

- `sanitizeHTML` (App.jsx:43-49): a regular-expression heuristic on markup with no stated contract.
- DOM range mutation (App.jsx:60-61, 83-90): `deleteContents`, `insertNode`, `removeAllRanges` and where the span lands in the tree are browser behaviour. The handler's effect is modelled as the `Edit` it would insert.
- Selection.ApplyStyle: the span holds the selection's text only (`textContent`), so styling nested inside the selected range is discarded. The model records the span but does not model the editor tree it lands in.
- The `styledSegments` list (App.jsx:87), tooltips (App.jsx:135-147), button layout, the Reset All button, `useEffect` initialisation and all rendering: UI state with no bearing on the exported text.
- `navigator.clipboard`, `alert` and `console.log`: I/O.
- Class-name parsing (App.jsx:107) is abstracted to `Option<nat>`. The code is never negative, because the part after a `-` split cannot start with `-`. Fractional, exponent, hexadecimal and `Infinity` forms that JavaScript's unary `+` also accepts are not modelled.
- Decimal.Dec: prints every number as plain digits. JavaScript switches to exponent notation from 10^21, which no class name in practice reaches.
- Comment and other non-element, non-text nodes: the source reads `className` of such a node, gets `undefined` and throws on `split`. The tree datatype has no such node.
- SVG elements: their `className` is an `SVGAnimatedString`, which has no `split`, so the copy throws at App.jsx:107 when pasted markup has left one in the editor (the sanitiser at App.jsx:43-49 removes only `script`, `iframe` and `on*` attributes). The tree datatype models HTML elements only; this error path is not modelled.
- Registry.Lookup: only the table's own keys are modelled. In JavaScript, indexing the object literal also finds names inherited from `Object.prototype` (`constructor`, `toString`, `__proto__`, ...), whose `.color` is `undefined` without throwing. The handler never reads `.color` for them, because it does so only for codes starting with `3` or `4`, and no inherited name starts with a digit. Selection.ColorOf and Selection.ColorOfBareNames are therefore stated for the table's own keys only.
- A run-based document, run splitting and merging, a state-diffing encoder and a style-to-code decoder: the program has none of them.
