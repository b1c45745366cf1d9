# bnf-to-railroad: the `Diagrams` core in Dafny

`bnf-to-railroad` turns a BNF grammar into one SVG image of railroad
diagrams, one diagram per rule, stacked top to bottom. Its core is the
`Diagrams` class of `diagrams.py`. This project models that class and
proves properties about it:

- `_preprocess_grammar` removes the comments from the grammar text.
- `_process_rule` translates a rule's right-hand side from the parse tree
  into railroad primitives, linking rule references through a link table.
- The constructor turns every rule of the parse into a diagram and keeps
  the rendered SVG of each.
- `get_svg` stacks the rendered diagrams into one document.

Files:

- `wrappers.dfy` (module `Wrappers`): `Option` and `Result`.
- `preprocess.dfy` (module `Preprocess`): the two comment substitutions.
  Each is written as the left-to-right scan Python's `re.sub` performs for
  its pattern, and each is proved equal to a declarative reference
  definition.
  - Line comments: the pattern is `(#+|!!)[^\n]+\n`. The reference
    definition, `StripByLines`, works line by line. A match starts at a `#`
    with at least one more character before the newline, or at `!!` with at
    least one more character before the newline. It removes everything from
    there through the newline.
  - Block comment: the pattern is `/\*{3}.+\*{3}/` in DOTALL mode. The `.+`
    is greedy. A single cut is made, from the first `/***` through the last
    `***/` of the whole text. That `***/` must start at least five
    characters after the `/***`. Any text between two separate block
    comments goes too. Each block comment is not removed on its own, as a
    non-greedy reading of the pattern would suggest. The model follows the
    code.
  - The whole preprocessing step is not idempotent, so it is not described
    that way here. `PreprocessNotIdempotent` shows a text that a second
    pass still changes.
- `builder.dfy` (module `Builder`):
  - the parse tree (`Tree`) and the railroad primitives (`Prim`);
  - `str.strip('"')`;
  - the translation `Build`, with one case per node tag.
- `diagrams.dfy` (module `Render`):
  - the class `Diagrams`, with fields `links` and `diagrams`;
  - its constructor, as the static method `Create`, which can fail like
    the Python constructor can raise;
  - `GetSvg`;
  - the stacking functions and lemmas `GetSvg` is specified by.

Two foreign libraries are parameters of `Create`:

- `parse` maps the preprocessed grammar text to the list of rules of the
  parse, or to a parse failure.
- `render` maps a `Diagram` to a `Fragment`: what `get_svg` reads from the
  rendered SVG. That is the `height` and `width` of its opening tag (or
  `None` when they cannot be read) and the content inside the `<svg>`
  element.

## Model

| member | source | states |
|---|---|---|
| Preprocess.StripLineCommentsByLines | diagrams.py:34 | Scanning with `(#+\|!!)[^\n]+\n` gives the line-by-line reference. Each newline-terminated line is cut at its first `#` or `!!` that has one more character before the newline, and loses that newline. Other lines and an unterminated last line are kept. |
| Preprocess.StripLineCommentsSplits | diagrams.py:34 | Line-comment removal never crosses a newline. The result for a text that is empty or ends with a newline, followed by more text, is the two results concatenated. |
| Preprocess.CommentRemovedWithNewline | diagrams.py:34 | A `#` or `!!` at which the first comment of its line starts is removed with the rest of its line and the newline, wherever in the line it starts. The text before it stays. |
| Preprocess.LoneHashKept | diagrams.py:34 | A `#` that ends a line holding no comment is kept, newline included. |
| Preprocess.UnterminatedLineKept | diagrams.py:34 | A last line with no newline is kept whole, even when it holds a marker. |
| Preprocess.StripLineComments | diagrams.py:34 | The substitution never lengthens the text. |
| Preprocess.BlockCommentEnd | diagrams.py:36 | A block-comment match starting at `i` ends at least 9 characters later and within the text. |
| Preprocess.BlockScanCuts | diagrams.py:36 | When the last `***/` starts at least five characters after the first `/***`, the result is the text before that `/***` followed by the text after that `***/`. |
| Preprocess.BlockScanKeeps | diagrams.py:36 | Where no match starts, the text is unchanged. |
| Preprocess.StripBlockCommentFrom | diagrams.py:36 | The block-comment scan from index `i` on: where a match starts it skips to the match's end, otherwise it keeps one character. What it keeps is never longer than the rest of the text. It is specified by `BlockScanCuts`, `BlockScanKeeps` and `StripBlockCommentIsRemoveBlock`. |
| Preprocess.StripBlockComment | diagrams.py:36 | The substitution `re.sub(r"/\*{3}.+\*{3}/", "", s, flags=re.DOTALL)` never lengthens the text. `StripBlockCommentIsRemoveBlock` shows it is exactly the single cut `RemoveBlock`. |
| Preprocess.StripBlockCommentIsRemoveBlock | diagrams.py:36 | The greedy DOTALL substitution equals the reference: one cut from the first `/***` through the last `***/`, when that starts at least five characters later. Otherwise the text is unchanged. |
| Preprocess.TextBetweenBlockCommentsRemoved | diagrams.py:36 | Text between two separate block comments is removed with them. |
| Preprocess.EmptyBlockCommentKept | diagrams.py:36 | `/****/`, which has no character between its delimiters, is kept. |
| Preprocess.PreprocessGrammar | diagrams.py:32-36 | `_preprocess_grammar`: line comments are removed first, then the block comment, and the result is never longer than the grammar text. `PreprocessGrammarByReference` and `PreprocessNotIdempotent` say what it computes. |
| Preprocess.PreprocessGrammarByReference | diagrams.py:32-36 | Preprocessing is the line-by-line comment cut followed by the block-comment cut. |
| Preprocess.PreprocessNotIdempotent | diagrams.py:32-36 | Preprocessing `!#a\n!b\n` gives `!!b\n`, and preprocessing that again gives the empty text. |
| Builder.StripQuotes | diagrams.py:56 | The label neither starts nor ends with `"`. |
| Builder.LeadingQuotesPrefix | diagrams.py:56 | What is left after the leading quotes is a suffix of the text, and everything before it is `"`. |
| Builder.TrailingQuotesSuffix | diagrams.py:56 | What is left before the trailing quotes is a prefix of the text, and everything after it is `"`. |
| Builder.StripQuotesIsSlice | diagrams.py:56 | The label is a slice of the token text, and everything before and after that slice is `"`. |
| Builder.StripQuotesUnique | diagrams.py:56 | Take any runs of `"` around a core that neither starts nor ends with `"`. Stripping gives exactly that core. |
| Builder.FormOf | diagrams.py:39-57 | The tag test chain: exactly the seven known tags (`alternatives`, `alternative`, `grouping`, `optional`, `oneormore`, `text`, `ruleid`) select a branch, and every other tag reaches the `ValueError` of line 64. `FormsOfTags` gives the branch of each tag. |
| Builder.Reference | diagrams.py:57-63 | A rule reference is a `NonTerminal` named and titled by the rule's name. It has an href exactly when the name is a key of the link table, and then the href is the table's entry. |
| Builder.Build | diagrams.py:38-65 | `_process_rule`: only a rule node with a known tag translates, and its tag decides the kind of primitive (choice, sequence, optional, one-or-more, terminal or reference). Each case is specified by `AlternativesBecomeChoice`, `AlternativeBecomesSequence`, `WrapperWrapsFirstChild`, `TextBecomesTerminal`, `RuleIdBecomesReference`, `LeafWithoutTokenFails` and `OtherTagFails`. The whole translation is specified by `BuildSucceedsIffAccepted`, `BuildDecorates` and `LinksOnlyDecorate`. |
| Builder.FormsOfTags | diagrams.py:39-65 | Each tag selects its branch: `alternatives`; `alternative` and `grouping`; `optional`; `oneormore`; `text`; `ruleid`. Every other tag selects none. |
| Builder.BuildAll | diagrams.py:40-42 | The append loop over the children succeeds exactly when every child does. Its result has one element per child, in order, each the child's translation. Otherwise the error is that of the first child that fails. |
| Builder.AlternativesBecomeChoice | diagrams.py:39-43 | An `alternatives` node with k children becomes `Choice` with index 0 and exactly k branches. Branch i is child i's translation. Otherwise it fails with the first failing child's error. |
| Builder.AlternativeBecomesSequence | diagrams.py:44-48 | `alternative` and `grouping` become a `Sequence` of the same length. Item i is child i's translation. Otherwise they fail with the first failing child's error. |
| Builder.WrapperWrapsFirstChild | diagrams.py:49-54 | `optional` and `oneormore` wrap the translation of `children[0]` only. Further children change nothing. Without children they fail. |
| Builder.TextBecomesTerminal | diagrams.py:55-56 | A `text` node becomes `Terminal` of its token's text stripped of `"`. The label starts and ends with no `"`. |
| Builder.RuleIdBecomesReference | diagrams.py:57-63 | A `ruleid` with name n becomes `NonTerminal(n, title=n)`. It has an href exactly when n is a key of the link table, and that href is `links[n]`. |
| Builder.LeafWithoutTokenFails | diagrams.py:55-58 | A `text` or `ruleid` node whose first child is missing or is not a token fails. |
| Builder.OtherTagFails | diagrams.py:64-65 | Any other tag fails with that tag (`Non-matching`). |
| Builder.BuildSucceedsIffAccepted | diagrams.py:38-65 | The translation succeeds exactly on the trees `Accepted` describes, whatever the link table. |
| Builder.BuildDecorates | diagrams.py:55-63 | In every successful translation, each rule reference is titled by its own name and linked as the table says. No terminal label starts or ends with `"`. |
| Builder.LinksOnlyDecorate | diagrams.py:57-63 | The link table only adds hrefs. Where the translation succeeds with it, it also succeeds without it and produces the same primitives with the links removed. |
| Builder.QuotedCharBuilds | diagrams.py:55-56 | A quoted one-character literal becomes the terminal of that character. |
| Builder.ChoiceExample | diagrams.py:39-56 | A right-hand side shaped `alternatives[alternative[text "a"], alternative[text "b", text "c"]]` becomes `Choice(0, Sequence("a"), Sequence("b", "c"))`. |
| Render.RuleDiagram | diagrams.py:75-86 | A rule yields a diagram exactly when it unpacks into lhs and rhs, the lhs has one child whose first child is an `ID` token, the rhs has one child, and that child translates. The diagram starts with the rule's name and holds the translation. A shape error comes before any translation error. |
| Render.Diagrams.Empty | diagrams.py:71-72 | The new object has no diagrams and keeps the link table. |
| Render.Diagrams.Create | diagrams.py:67-91 | The constructor fails with a parse failure when the preprocessed text does not parse. Otherwise it behaves as `FromRules` on the rules of the parse. |
| Render.Diagrams.FromRules | diagrams.py:71-91 | The rule loop succeeds exactly when every rule yields a diagram. The new object keeps the link table and holds `Renderings` of the rules: one rendered diagram per rule, in rule order. Otherwise the error is that of the first failing rule. |
| Render.Renderings | diagrams.py:74-91 | There is one rendered diagram per rule, and element i is the rendering of rule i's diagram. |
| Render.RenderingsStep | diagrams.py:91 | Each loop step appends the rendering of the next rule's diagram. |
| Render.FailureAt | diagrams.py:74-86 | A rule that yields no diagram, after rules that all do, is the first failure, and the constructor cannot succeed. |
| Render.Diagrams.GetSvg | diagrams.py:93-120 | Stacking succeeds exactly when every rendered diagram has a readable size; otherwise it fails at the first one without. The document is the maximum width, the sum of heights, and `Stacked` of the diagrams. |
| Render.StackedAtOffsets | diagrams.py:97-102 | There is one group per diagram, in order, and group i is diagram i's content translated by the heights of diagrams 0..i-1. |
| Render.OffsetInPrefix | diagrams.py:101 | A diagram's offset depends only on the diagrams above it. |
| Render.NotAllSized | diagrams.py:104-108 | One diagram without a readable size makes stacking fail. |
| Render.TotalHeight | diagrams.py:108 | The summed height is never negative. |
| Render.PrefixStep | diagrams.py:108-112 | Each loop step adds the diagram's height to the running height and raises the running maximum width to its width when it is larger. |
| Render.MaxWidthIsMaximum | diagrams.py:109-112 | The output width is at least every diagram's width and equals one of them. It is 0 when there are no diagrams. |
| Render.TotalHeightSplits | diagrams.py:108 | Heights add up across any split of the diagram list. |
| Render.OffsetsTile | diagrams.py:101 | The first diagram sits at offset 0, and each next one right below the previous one. The last one ends at the total height. |
| Render.StackedWithoutOverlap | diagrams.py:101 | A diagram above another ends no lower than the other starts, and every diagram starts within the total height. |

## Left out

- Parsing with Lark and the grammar file it reads (diagrams.py:18-19, 68-69) are not modelled. The parser is the parameter `parse` of `Create`, which maps the preprocessed text to the rules of the parse. A parse error is `ParseFailed`.
- The railroad library's rendering (`Diagram.writeSvg`, diagrams.py:88-91) is the parameter `render`. The library's own checks on the primitives it is given are not modelled.
- Builder.Build: an `alternatives` node with no children yields `Choice(0)` with no branches. The railroad library's `Choice` refuses that with an assertion of its own; the model does not, because that check lives in the library.
- The style sheet read at import time (diagrams.py:23-28) is file input and is left out.
- Render.Diagrams.GetSvg: the SVG text itself is left out: `SVG_PATTERN.format`, `cleandoc`, the `translate(0, …)` markup and the joining newlines (diagrams.py:21, 101, 115-120). The result keeps the width, the height and the groups with their offsets and contents.
- Render.Diagrams.GetSvg: the regular expressions that read a rendered diagram are abstracted into `Fragment` (diagrams.py:98-107). These are the regex that takes the content out of the `<svg>` element and the one that reads `height` and `width`. `Fragment` has the content and the size, with `None` where the match fails or `float` refuses the text. Which of several `height=` attributes the greedy `.+` picks is not modelled.
- Render.Diagrams.GetSvg: floating-point rounding is not modelled, because dimensions are exact non-negative reals. The difference between the integer `0` and a float when printing `max_width` is not modelled either.
- Render.Diagrams.Create: the Python exceptions are merged into three errors. Tuple unpacking, failed `assert`s and attribute errors in the rule checks are all `MalformedRule`. Errors raised while translating are `BuildFailed`. Running Python with `-O`, which drops the `assert`s, is not modelled.
- Builder.Build: Python's `ValueError("Non-matching:", tag)` is `NonMatching(tag)`. The `AttributeError` and `IndexError` raised on a token where a node is expected, on a missing child, or on a node where a token is expected are all `Malformed`.
- Builder.ChoiceExample: the tree it starts from is only the shape assumed for the right-hand side `"a" | "b" "c"`. The tree Lark builds for a text depends on the grammar file `bnf-grammar.bnf`, which is not part of this model.
- The command-line front end (`cli.py`) is not modelled: option handling, JSON link files, file output and the `check` diff.
