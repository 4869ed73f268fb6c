# Full-Stack Learning App: a verified model of its renderer and navigation

This project models, in Dafny, the behavioural core of the Full-Stack Learning Hub,
an Angular application that shows AI-generated lessons about programming skills:

- **`simpleMarkdownParser`** (`src/components/skill-detail/markdown.component.ts`):
  the hand-written Markdown-to-HTML renderer. It runs in three passes:
  1. Fenced code blocks are extracted: each is trimmed, HTML-escaped and wrapped, and a `{{CODE_BLOCK_n}}` placeholder takes its place.
  2. A line loop classifies each line (blank, placeholder, heading, bullet item, numbered item, paragraph) and drives a two-flag list state machine.
  3. The placeholders are restored.

  `processInlineFormatting` applies four global regex replacements (bold, italic, inline code, link) to list items and paragraphs.
- **The skill-detail quiz state** (`skill-detail.component.ts`): choosing and revealing quiz options, the CSS class each option is shown with, and opening or closing a resource topic whose details arrive asynchronously.
- **The root navigation** (`app.component.ts`): the selected skill and learning path, and the back and home actions.
- **The learning-path page's skill list** (`learning-path.component.ts`): the catalogue filtered by the path's names and ordered by the path.

## How the model is built

- JavaScript string semantics are written out:
  - `trim` and `\s` use the ECMAScript white-space and line-terminator set (`JsString.WhitespaceChars`).
  - `\d` and `\w` are ASCII.
  - `split('\n')` always yields at least one piece.
  - `${n}` and `parseInt` become `Decimal` and `DecimalValue`.

  Each regex is a deterministic matcher:
  - a lazy `.*?` stops at the first closer;
  - `.` does not match a line terminator;
  - a global `replace` scans left to right, resuming after each match;
  - fence extraction takes the earliest match each time, as `String.prototype.replace` does.
- `CodeBlocks.Extract`, `LineProcessor.Steps` and `CodeBlocks.Restore` are the three passes as functions. The methods `CodeBlocks.ExtractCodeBlocks`, `LineProcessor.ProcessLine`, `LineProcessor.ProcessLines` and `Markdown.SimpleMarkdownParser` run them as the source does, with the `html` accumulator, the `inList`/`listType` flags and the growing `codeBlocks` list. Their loops are proved equal to those functions.
- The three passes are also connected end to end. `Markdown.RenderDocument` takes a document whose lines are either prose or fenced code blocks, each on its own line. It states that the renderer turns every prose line into a paragraph and every fence into its own code block, at its own place in document order. `Markdown.RenderFenceBetweenProse` is that statement for a single fence between two lines of text.
- The line pass is stated over a stream of `Chunk`s (tags, headings, items, paragraphs, placeholders) that `Html` renders. The list-balance property is proved on that stream. It cannot be stated on the HTML string, because paragraph and heading text is not escaped: a literal `<ul>` typed by the author passes through unchanged.
- The line pass takes the inline formatter as a parameter (`inline: string -> string`). The renderer instantiates it with `InlineFormat.ProcessInlineFormatting`. This keeps the per-line proofs independent of the four regex passes.
- Three behaviours of the code may be unexpected; the model follows the code in each:
  - The fence regex is not anchored to the start of a line, so a fence can start mid-line.
  - A placeholder whose index has no stored block is restored as the text `undefined`, since indexing past the end of `codeBlocks` gives `undefined`. It is not kept as literal placeholder text.
  - `'` is escaped as the numeric reference `&#039;`.
- `selectTopic` is `async`. It is modelled as two methods: `SelectTopic` for the part before its `await`, and `ReceiveTopicDetail` for the part after it, with the service's result as a parameter. Other calls can run between the two, which is what makes the source's "still selected?" check meaningful (`SkillDetail.StaleTopicResult`). A consequence of the code as written shows there: a stale result still clears `loadingType`, while the newer topic's fetch is outstanding.
- `Array.prototype.sort` is stable, and the comparator is a consistent key difference. Its result is therefore the stable sort by key, modelled as insertion sort (`LearningPathView.Sort`).

## Model

| member | source | states |
|---|---|---|
| JsString.LeadingWhitespace | src/components/skill-detail/markdown.component.ts:19 | the count of leading characters `trim` removes: all of them are white space, and the next one is not |
| JsString.TrailingWhitespace | src/components/skill-detail/markdown.component.ts:19 | the count of trailing characters `trim` removes, with the same two conditions |
| JsString.Trim | src/components/skill-detail/markdown.component.ts:34 | `String.prototype.trim`; it has no contract of its own, and TrimSpec, TrimInfix, TrimEnds, TrimEmpty and TrimUnchanged state what it gives |
| JsString.TrimSpec | src/components/skill-detail/markdown.component.ts:34 | `trim` gives the infix between the leading and trailing white space; the result neither starts nor ends with white space; it is empty iff the line is all white space |
| JsString.TrimInfix | src/components/skill-detail/markdown.component.ts:19 | the trimmed text is the slice of the input between the leading and trailing white space |
| JsString.TrimEnds | src/components/skill-detail/markdown.component.ts:19 | a non-empty trimmed text neither starts nor ends with a white-space character |
| JsString.TrimEmpty | src/components/skill-detail/markdown.component.ts:34 | `line.trim()` is falsy exactly when the line is white space only |
| JsString.TrimUnchanged | src/components/skill-detail/markdown.component.ts:47 | a text that neither starts nor ends with white space is its own trim |
| JsString.Split | src/components/skill-detail/markdown.component.ts:25 | `split('\n')` yields at least one piece, and no piece holds a newline |
| JsString.JoinSplit | src/components/skill-detail/markdown.component.ts:25 | joining the pieces with newlines gives back the text |
| JsString.SplitJoin | src/components/skill-detail/markdown.component.ts:25 | splitting a join of newline-free pieces gives back the pieces |
| JsString.SplitAppend | src/components/skill-detail/markdown.component.ts:25 | a newline-free piece followed by a newline becomes the first piece of the split |
| JsString.SplitNoNewline | src/components/skill-detail/markdown.component.ts:25 | a text without a newline splits into itself alone |
| JsString.DigitChar | src/components/skill-detail/markdown.component.ts:17 | each digit value maps to a `\d` character |
| JsString.DigitValue | src/components/skill-detail/markdown.component.ts:126 | the value of a `\d` character is below 10 and maps back to that character |
| JsString.Decimal | src/components/skill-detail/markdown.component.ts:17 | `${n}` is a non-empty run of digits, with a leading `0` only for zero |
| JsString.DecimalValue | src/components/skill-detail/markdown.component.ts:126 | `parseInt(index, 10)` on a run of ASCII digits; DecimalValueOfDecimal states that it reads `${n}` back as n |
| JsString.DecimalValueOfDecimal | src/components/skill-detail/markdown.component.ts:126 | parsing `${n}` back with `parseInt` gives `n`, so a placeholder indexes the block it was made for |
| JsString.DigitRun | src/components/skill-detail/markdown.component.ts:93 | the greedy `\d+` run: all digits, and it stops at the first non-digit |
| JsString.WordRun | src/components/skill-detail/markdown.component.ts:16 | the greedy `\w*` run: all word characters, and it stops at the first other character |
| HtmlEscape.ReplaceCharAppend | src/components/skill-detail/markdown.component.ts:10 | a single-character global replace distributes over concatenation |
| HtmlEscape.EscapeHtmlAppend | src/components/skill-detail/markdown.component.ts:9-10 | `escapeHtml` distributes over concatenation |
| HtmlEscape.ReplaceCharAbsent | src/components/skill-detail/markdown.component.ts:10 | a replace whose character does not occur changes nothing |
| HtmlEscape.ReplaceCharSingle | src/components/skill-detail/markdown.component.ts:10 | a replace on one character rewrites it exactly when it is the pattern |
| HtmlEscape.EscapeHtmlCharAt | src/components/skill-detail/markdown.component.ts:10 | a special character is rewritten by its own stage only; later stages leave its entity alone, and other characters pass through all five |
| HtmlEscape.StageStep | src/components/skill-detail/markdown.component.ts:10 | each stage of the chain takes one character from its value before that stage to its value after it |
| HtmlEscape.EscapeHtmlChar | src/components/skill-detail/markdown.component.ts:10 | one character through the chain gives its entry in the escape table |
| HtmlEscape.EscapeHtml | src/components/skill-detail/markdown.component.ts:9-10 | the five chained replaces; EscapeHtmlIsCharwise equates it with the per-character escape, and UnescapeEscapeHtml inverts it |
| HtmlEscape.EscapeHtmlIsCharwise | src/components/skill-detail/markdown.component.ts:9-10 | replacing `&` first, then `<`, `>`, `"` and `'`, escapes each character independently; no entity is escaped twice |
| HtmlEscape.EscapeHtmlNoMarkupChars | src/components/skill-detail/markdown.component.ts:9-10 | escaped text holds no `<`, `>`, `"` or `'` |
| HtmlEscape.EscapeNoMarkupChars | src/components/skill-detail/markdown.component.ts:9-10 | the per-character escape leaves none of those characters |
| HtmlEscape.NoMarkupCharsConcat | src/components/skill-detail/markdown.component.ts:10 | two texts without markup characters concatenate to one without them |
| HtmlEscape.UnescapeEscapeChar | src/components/skill-detail/markdown.component.ts:10 | decoding an escaped character in front of any text recovers the character |
| HtmlEscape.UnescapeEscapeHtml | src/components/skill-detail/markdown.component.ts:9-10 | decoding the five entities recovers the input of `escapeHtml` exactly |
| InlineFormat.BoldBody | src/components/skill-detail/markdown.component.ts:134 | the lazy body of `\*\*(.*?)\*\*` ends at the first `**` and crosses no line terminator |
| InlineFormat.ItalicBody | src/components/skill-detail/markdown.component.ts:136 | the lazy body of `\*(.*?)\*` ends at the first `*` and crosses no line terminator |
| InlineFormat.RunWithout | src/components/skill-detail/markdown.component.ts:138-140 | a greedy `[^c]+` run holds no `c` and stops at a `c` or at the end |
| InlineFormat.BoldAt | src/components/skill-detail/markdown.component.ts:134 | a bold match spans `**`, its captured group and `**`, and the group is one the regex can capture |
| InlineFormat.ItalicAt | src/components/skill-detail/markdown.component.ts:136 | an italic match spans `*`, its group and `*`, with a well-formed group |
| InlineFormat.InlineCodeAt | src/components/skill-detail/markdown.component.ts:138 | an inline-code match spans a backtick, a non-empty run without backticks, and a backtick |
| InlineFormat.LinkAt | src/components/skill-detail/markdown.component.ts:140 | a link match spans `[text](url)`, with text free of `]` and url free of `)` |
| InlineFormat.MatchAt | src/components/skill-detail/markdown.component.ts:134-140 | any match of a rule spans exactly its groups' shape and is well formed |
| InlineFormat.MatchStartsWithTrigger | src/components/skill-detail/markdown.component.ts:134-140 | each regex can only match at its own first character |
| InlineFormat.BoldBodyComplete | src/components/skill-detail/markdown.component.ts:134 | a bold body without a line terminator or an earlier `**` is found as captured |
| InlineFormat.ItalicBodyComplete | src/components/skill-detail/markdown.component.ts:136 | an italic body without a line terminator or `*` is found as captured |
| InlineFormat.RunWithoutComplete | src/components/skill-detail/markdown.component.ts:138-140 | a run without `c` is the whole run up to the next `c` |
| InlineFormat.MatchAtComplete | src/components/skill-detail/markdown.component.ts:134-140 | conversely, every well-formed construct at the head is matched, with exactly its groups |
| InlineFormat.BoldComplete | src/components/skill-detail/markdown.component.ts:134 | `**g**` is matched as bold with group `g` |
| InlineFormat.ItalicComplete | src/components/skill-detail/markdown.component.ts:136 | `*g*` is matched as italic with group `g` |
| InlineFormat.InlineCodeComplete | src/components/skill-detail/markdown.component.ts:138 | a backtick span is matched with its content as the group |
| InlineFormat.LinkComplete | src/components/skill-detail/markdown.component.ts:140 | `[a](u)` is matched as a link with groups `a` and `u` |
| InlineFormat.ReplaceAll | src/components/skill-detail/markdown.component.ts:134-140 | a global `replace` of one rule; ReplaceAllCopiesPlain, ReplaceAllSkipsUnmatched, ReplaceAllAtMatch and ReplaceAllPlainPrefix state each step of its scan |
| InlineFormat.ProcessInlineFormatting | src/components/skill-detail/markdown.component.ts:132-142 | bold, then italic, then inline code, then links; PlainTextUnchanged, BoldBeforeItalic, InlineCodeNotEscaped and LinkOpensInNewTab state what it gives |
| InlineFormat.ReplaceAllCopiesPlain | src/components/skill-detail/markdown.component.ts:134-140 | a character that cannot start a match is copied by the global replace |
| InlineFormat.ReplaceAllCopiesHead | src/components/skill-detail/markdown.component.ts:134-140 | the same, for the head of a concatenation |
| InlineFormat.ReplaceAllSkipsUnmatched | src/components/skill-detail/markdown.component.ts:134-140 | a trigger character at which the regex does not match (a lone `*`, an unclosed backtick or `[`) is copied, and the scan moves on by one character |
| InlineFormat.ReplaceAllPlainPrefix | src/components/skill-detail/markdown.component.ts:134-140 | a prefix without the rule's first character passes through unchanged |
| InlineFormat.ReplaceAllNoTrigger | src/components/skill-detail/markdown.component.ts:134-140 | a text without that character is left as it is |
| InlineFormat.ReplaceAllAtMatch | src/components/skill-detail/markdown.component.ts:134-140 | a construct at the head becomes its filled-in template, and the scan resumes after it |
| InlineFormat.ReplaceAllWhole | src/components/skill-detail/markdown.component.ts:134-140 | a text that is one construct becomes exactly its replacement |
| InlineFormat.PlainTextUnchanged | src/components/skill-detail/markdown.component.ts:132-142 | text without `*`, backtick or `[` is not changed by the inline formatting |
| InlineFormat.InlineCodeNotEscaped | src/components/skill-detail/markdown.component.ts:138 | an inline code span is wrapped in `<code class="inline-code">` with its content unescaped |
| InlineFormat.LinkOpensInNewTab | src/components/skill-detail/markdown.component.ts:140 | a link becomes an anchor with its URL and `target="_blank" rel="noopener noreferrer"` |
| InlineFormat.BoldBeforeItalic | src/components/skill-detail/markdown.component.ts:134-136 | because bold runs first, `**x**` becomes `<strong>x</strong>`, not two italic spans |
| CodeBlocks.FirstTicks | src/components/skill-detail/markdown.component.ts:16 | a bound: a non-negative result leaves room for three backticks; FirstTicksIsFirst states which position it is |
| CodeBlocks.FirstTicksIsFirst | src/components/skill-detail/markdown.component.ts:16 | that position has three backticks and none start earlier; -1 means none start anywhere |
| CodeBlocks.FenceFound | src/components/skill-detail/markdown.component.ts:16 | the tag and body the matcher isolates form a well-formed fence that spans the match |
| CodeBlocks.FenceAt | src/components/skill-detail/markdown.component.ts:16 | a fence match starts with a backtick and spans at least the seven fixed characters |
| CodeBlocks.FenceAtSound | src/components/skill-detail/markdown.component.ts:16 | a fence match spans exactly `` ``` `` tag newline body `` ``` ``, with a tag and body the regex can capture |
| CodeBlocks.FenceAtComplete | src/components/skill-detail/markdown.component.ts:16 | conversely, every well-formed fence at the head is matched with its own tag and body |
| CodeBlocks.FenceAtOf | src/components/skill-detail/markdown.component.ts:16 | the same, for a text given as backticks, tag, newline, body, closer and rest |
| CodeBlocks.TagRun | src/components/skill-detail/markdown.component.ts:16 | the greedy `\w*` tag stops at the newline that ends it |
| CodeBlocks.FirstTicksOf | src/components/skill-detail/markdown.component.ts:16 | the lazy body of a well-formed fence ends at its own closer |
| CodeBlocks.CodeBlockHtml | src/components/skill-detail/markdown.component.ts:17-20 | the HTML pushed for one fence; CodeBlockShowsTrimmedCode states its shape |
| CodeBlocks.CodeBlockShowsTrimmedCode | src/components/skill-detail/markdown.component.ts:18-20 | a block is `<pre><code class="language-L">` (L defaults to `plaintext`), then the escaped trimmed body, which holds no markup character, then `</code></pre>` |
| CodeBlocks.BlocksOf | src/components/skill-detail/markdown.component.ts:17-20 | `codeBlocks[i]` is the HTML of the i-th fence found |
| CodeBlocks.NextFence | src/components/skill-detail/markdown.component.ts:16 | a bound: a located fence lies inside the text; NextFenceIsFirst states that it is the earliest match |
| CodeBlocks.NextFenceIsFirst | src/components/skill-detail/markdown.component.ts:16 | the fence taken is a match, and no match starts earlier; with no result, none starts anywhere |
| CodeBlocks.Extract | src/components/skill-detail/markdown.component.ts:16-22 | phase 1 as a function; ExtractStep unfolds it, ExtractCodeBlocks runs it as the source does, and RestoreExtract and ExtractDoc state its result |
| CodeBlocks.Lookup | src/components/skill-detail/markdown.component.ts:126 | `codeBlocks[i]`, or the text `undefined` past the end; RestoreToken and Markdown.RenderStrayPlaceholder use it |
| CodeBlocks.Restore | src/components/skill-detail/markdown.component.ts:125-127 | phase 3 as a function; RestoreToken, RestoreCopies, RestorePlainPrefix, RestoreNoBrace and RestoreExtract state what it gives |
| CodeBlocks.TokenAt | src/components/skill-detail/markdown.component.ts:125 | a placeholder match starts with `{{CODE_BLOCK_` and lies inside the text |
| CodeBlocks.TokenAtToken | src/components/skill-detail/markdown.component.ts:125-126 | the placeholder written for block `n` is read back as index `n` |
| CodeBlocks.RestoreToken | src/components/skill-detail/markdown.component.ts:125-127 | a placeholder is replaced by its block (or `undefined`), and the rest is restored |
| CodeBlocks.RestoreCopies | src/components/skill-detail/markdown.component.ts:125 | a character that cannot start a placeholder is copied |
| CodeBlocks.MarkerNotAcross | src/components/skill-detail/markdown.component.ts:125 | a placeholder cannot straddle marker-free text and a following placeholder |
| CodeBlocks.RestorePlainPrefix | src/components/skill-detail/markdown.component.ts:125-127 | marker-free text before a placeholder, or at the end, passes through restoration |
| CodeBlocks.RestoreCopiesHead | src/components/skill-detail/markdown.component.ts:125-127 | the first character of such text is copied |
| CodeBlocks.RestoreExtract | src/components/skill-detail/markdown.component.ts:16-127 | extraction then restoration replaces each fence, left to right and without overlap, by the block stored at its index (reference `Splice`) |
| CodeBlocks.RestoreNoFence | src/components/skill-detail/markdown.component.ts:16-127 | the same for a text with no fence: nothing changes |
| CodeBlocks.ExtractStep | src/components/skill-detail/markdown.component.ts:16-22 | extraction keeps the text before the first fence, writes placeholder `n`, records the fence, and goes on after it with `n + 1` |
| CodeBlocks.SpliceStep | src/components/skill-detail/markdown.component.ts:16-22 | the reference replacement at the first fence |
| CodeBlocks.RestoreExtractStep | src/components/skill-detail/markdown.component.ts:16-127 | one fence of RestoreExtract |
| CodeBlocks.MarkerFreeParts | src/components/skill-detail/markdown.component.ts:16 | the text around a fence is as free of the marker as the whole text |
| CodeBlocks.RestoreBlock | src/components/skill-detail/markdown.component.ts:125-127 | marker-free text, then placeholder `n`: the text is kept, and block `n` is looked up |
| CodeBlocks.RestoreExtracted | src/components/skill-detail/markdown.component.ts:16-127 | with placeholders numbered from 0 and the list pass 1 built, each fence becomes its own code block |
| CodeBlocks.NextFenceAfterPlain | src/components/skill-detail/markdown.component.ts:16 | no fence starts inside a prefix without a backtick: the earliest fence is that of the rest, shifted, and there is none when the rest has none |
| CodeBlocks.ExtractAfterPlain | src/components/skill-detail/markdown.component.ts:16-22 | phase 1 copies a prefix without a backtick unchanged, in front of what it makes of the rest |
| CodeBlocks.ExtractAfterPlainAt | src/components/skill-detail/markdown.component.ts:16-22 | the same, when the rest holds a fence |
| CodeBlocks.ExtractStepAt | src/components/skill-detail/markdown.component.ts:16-22 | one fence replaced by its placeholder, with the text before and after it given by name |
| CodeBlocks.ExtractAtFence | src/components/skill-detail/markdown.component.ts:16-22 | a well-formed fence at the head becomes placeholder `n`, its fence is recorded first, and numbering goes on from `n + 1` |
| CodeBlocks.RestoreNoBrace | src/components/skill-detail/markdown.component.ts:125-127 | text without `{` passes restoration unchanged |
| LineProcessor.ChunkHtml | src/components/skill-detail/markdown.component.ts:36-115 | the text each emitted piece appends; Html renders a stream of them, and HtmlAppend, HtmlSingle and EmitChunk state how |
| LineProcessor.HtmlAppend | src/components/skill-detail/markdown.component.ts:26-117 | the HTML of concatenated chunk streams is the concatenation of their HTML |
| LineProcessor.HtmlSingle | src/components/skill-detail/markdown.component.ts:26-117 | one chunk renders as its own HTML |
| LineProcessor.EmitChunk | src/components/skill-detail/markdown.component.ts:26-117 | appending a chunk appends its HTML to the accumulator |
| LineProcessor.OrderedMarker | src/components/skill-detail/markdown.component.ts:102 | the match of `^\d+\.\s+` is digits, a dot, and at least one white-space character, greedily |
| LineProcessor.NestAppend | src/components/skill-detail/markdown.component.ts:78-122 | reading chunks in two parts tracks the open list as reading them at once |
| LineProcessor.TrimKeepsHead | src/components/skill-detail/markdown.component.ts:42-52 | a line that starts with a non-space character keeps it at the head of its trim |
| LineProcessor.BlankHasNoPrefix | src/components/skill-detail/markdown.component.ts:34-68 | a blank line holds no heading prefix |
| LineProcessor.NotHeading | src/components/skill-detail/markdown.component.ts:52-68 | a line whose trim does not start with `#` is no heading |
| LineProcessor.HashHead | src/components/skill-detail/markdown.component.ts:42-68 | a heading line's trim starts with `#`, so it is not a placeholder line |
| LineProcessor.Emit | src/components/skill-detail/markdown.component.ts:31-116 | what one iteration appends, its cases tried in the order the source tries them; BlankLine, PlaceholderLine, HeadingThree, HeadingTwo, HeadingOne, BulletLine, OrderedLine and TextLine state each case |
| LineProcessor.Step | src/components/skill-detail/markdown.component.ts:31-116 | one iteration on the loop's variables; ProcessLine computes it as the source does |
| LineProcessor.Steps | src/components/skill-detail/markdown.component.ts:30-117 | the loop over all lines; ProcessLines computes it, and TraceNests and StepsFlat state what it gives |
| LineProcessor.Finish | src/components/skill-detail/markdown.component.ts:119-122 | the final close of a list still open; FinishBalanced states that the result is balanced |
| LineProcessor.BlankLine | src/components/skill-detail/markdown.component.ts:34-39 | a blank line outside a list emits `<br>` only if `html` is non-empty and does not end in `</p>`, `</h1>`, `</h2>` or `</h3>`; inside a list it emits nothing and the list stays open |
| LineProcessor.PlaceholderLine | src/components/skill-detail/markdown.component.ts:42-49 | a line whose trim starts with `{{CODE_BLOCK_` closes an open list and emits the trimmed line |
| LineProcessor.HeadingThree | src/components/skill-detail/markdown.component.ts:52-59 | `### ` on the untrimmed line closes the list and emits `<h3>` with the rest of the line, unformatted and unescaped |
| LineProcessor.HeadingTwo | src/components/skill-detail/markdown.component.ts:60-67 | `## ` likewise gives `<h2>` |
| LineProcessor.HeadingOne | src/components/skill-detail/markdown.component.ts:68-75 | `# ` likewise gives `<h1>` |
| LineProcessor.BulletLine | src/components/skill-detail/markdown.component.ts:78-90 | a `-`/`*` item opens `<ul>` outside a list, shares an open `<ul>`, or emits `</ol><ul>`; its content is the trimmed line after two characters, inline-formatted |
| LineProcessor.OrderedLine | src/components/skill-detail/markdown.component.ts:93-105 | an `N.` item opens `<ol>`, shares one, or emits `</ul><ol>`; its content follows the marker |
| LineProcessor.TextLine | src/components/skill-detail/markdown.component.ts:107-116 | other text closes an open list only if its trim does not start with `-`, `*` or a digit, and becomes `<p>` with the untrimmed line inline-formatted |
| LineProcessor.NestPlain | src/components/skill-detail/markdown.component.ts:42-75 | placeholders, headings and paragraphs leave the open list as it is |
| LineProcessor.NestCloseThen | src/components/skill-detail/markdown.component.ts:42-75 | closing the list and then a plain chunk leaves no list open |
| LineProcessor.NestItem | src/components/skill-detail/markdown.component.ts:78-105 | each of the three ways an item is emitted leaves its own kind of list open |
| LineProcessor.NestText | src/components/skill-detail/markdown.component.ts:107-116 | a text line leaves the list open unless it closed it |
| LineProcessor.EmitNests | src/components/skill-detail/markdown.component.ts:30-117 | every line moves the open list exactly as its emitted tags say, and an open list always has a kind |
| LineProcessor.TraceNests | src/components/skill-detail/markdown.component.ts:30-117 | after any prefix of the lines, `html` renders the chunks so far, which close everything they opened except the list the flags say is open |
| LineProcessor.FinishBalanced | src/components/skill-detail/markdown.component.ts:30-122 | after the final close, the output renders a balanced chunk list: every opened list is closed by its own tag, lists never nest, and items occur only inside a list |
| LineProcessor.HtmlOne | src/components/skill-detail/markdown.component.ts:44-47 | one emitted chunk appends its HTML |
| LineProcessor.HtmlTwo | src/components/skill-detail/markdown.component.ts:80-88 | two emitted chunks append their HTML in order |
| LineProcessor.HtmlToBullets | src/components/skill-detail/markdown.component.ts:84 | closing `<ol>` and opening `<ul>` is the one piece `</ol><ul>` |
| LineProcessor.HtmlToOrdered | src/components/skill-detail/markdown.component.ts:99 | closing `<ul>` and opening `<ol>` is `</ul><ol>` |
| LineProcessor.HtmlCloseThen | src/components/skill-detail/markdown.component.ts:43-47 | closing the open list and then emitting makes the HTML the source appends |
| LineProcessor.BlankLineCase | src/components/skill-detail/markdown.component.ts:34-39 | the blank-line branch gives the model's next state |
| LineProcessor.PlaceholderCase | src/components/skill-detail/markdown.component.ts:42-49 | the placeholder branch gives the model's next state |
| LineProcessor.HeadingCase | src/components/skill-detail/markdown.component.ts:52-75 | the three heading branches give the model's next state |
| LineProcessor.BulletItemCase | src/components/skill-detail/markdown.component.ts:78-90 | the bullet branch gives the model's next state |
| LineProcessor.OrderedItemCase | src/components/skill-detail/markdown.component.ts:93-105 | the numbered-item branch gives the model's next state |
| LineProcessor.TextLineCase | src/components/skill-detail/markdown.component.ts:107-116 | the close-and-paragraph branch gives the model's next state |
| LineProcessor.ProcessLine | src/components/skill-detail/markdown.component.ts:31-116 | one pass of the loop body, tested in source order, gives `Step` of the state |
| LineProcessor.ProcessLines | src/components/skill-detail/markdown.component.ts:30-117 | the `for` loop over the lines, with its `html`, `inList` and `listType` variables, ends in the state `Steps` gives for those lines |
| LineProcessor.PlaceholderOutsideList | src/components/skill-detail/markdown.component.ts:42-49 | outside a list, a line that is its own trim and starts with the marker is appended as it is, and no list is open after it |
| LineProcessor.ParagraphOutsideList | src/components/skill-detail/markdown.component.ts:107-116 | outside a list, a line starting with a letter is none of the special cases: it is appended as `<p>`, the formatted line, `</p>`, and no list is open after it |
| LineProcessor.LetterStartIsText | src/components/skill-detail/markdown.component.ts:34-106 | a line starting with a letter is not blank, not a placeholder, not a heading, not a bullet item and not a numbered item |
| LineProcessor.FlatStep | src/components/skill-detail/markdown.component.ts:31-116 | either kind of line, outside a list, appends its own output and opens no list |
| LineProcessor.StepsFlat | src/components/skill-detail/markdown.component.ts:30-117 | over lines that are each paragraph text starting with a letter or a lone placeholder, the loop never opens a list and `html` is the lines' outputs in order |
| CodeBlocks.ExtractLoopStep | src/components/skill-detail/markdown.component.ts:16-22 | one callback call: the text before the fence and its placeholder join the done part and the fence is recorded, and the overall extraction stays the same |
| CodeBlocks.BlocksOfSnoc | src/components/skill-detail/markdown.component.ts:20 | `codeBlocks.push` appends the new fence's HTML |
| CodeBlocks.ExtractInvInit | src/components/skill-detail/markdown.component.ts:12-16 | before the first fence, nothing is done and the rest is the whole input |
| CodeBlocks.ExtractInvStep | src/components/skill-detail/markdown.component.ts:16-22 | one callback call keeps the loop invariant: the pushed blocks are the HTML of the fences found, and the done part plus what the rest yields is the whole extraction |
| CodeBlocks.ExtractInvDone | src/components/skill-detail/markdown.component.ts:12-22 | once no fence is left, the done part followed by the rest is the extracted text, and the pushed blocks are those of all its fences |
| CodeBlocks.ExtractCodeBlocks | src/components/skill-detail/markdown.component.ts:12-22 | the replace with its pushing callback gives the extracted text and the list of block HTML, in order |
| Markdown.Render | src/components/skill-detail/markdown.component.ts:5-130 | the three passes as functions; SimpleMarkdownParser computes it as the source does, and RenderBalanced and RenderDocument state what it gives |
| Markdown.SimpleMarkdownParser | src/components/skill-detail/markdown.component.ts:5-130 | the parser gives `Render`, and empty input gives the empty string |
| Markdown.RenderBalanced | src/components/skill-detail/markdown.component.ts:25-127 | the output is a balanced chunk list rendered with the inline formatter, then restored |
| Markdown.NoFenceWithoutBacktick | src/components/skill-detail/markdown.component.ts:16 | a text without a backtick holds no fence |
| Markdown.TokenHasNoBacktick | src/components/skill-detail/markdown.component.ts:17 | a placeholder holds no backtick and no newline |
| Markdown.TrimToken | src/components/skill-detail/markdown.component.ts:47 | a placeholder is its own trim |
| Markdown.StepsSingle | src/components/skill-detail/markdown.component.ts:30 | a one-line input runs the loop body once from the initial state |
| Markdown.PlaceholderFirst | src/components/skill-detail/markdown.component.ts:42-49 | a placeholder as the first line is emitted as it is, with no list open |
| Markdown.PlaceholderAlone | src/components/skill-detail/markdown.component.ts:25-127 | a text that is one placeholder renders as the block at its index |
| Markdown.RenderSingleFence | src/components/skill-detail/markdown.component.ts:5-130 | a text that is exactly one fence renders as its code block: the body is trimmed and escaped, and never reaches the line pass or the inline formatter |
| Markdown.RenderStrayPlaceholder | src/components/skill-detail/markdown.component.ts:125-127 | a placeholder with no block behind it renders as `undefined` |
| Markdown.ExtractProse | src/components/skill-detail/markdown.component.ts:16-22 | a prose line alone holds no fence |
| Markdown.ExtractCode | src/components/skill-detail/markdown.component.ts:16-22 | a fence alone becomes placeholder `n` and is recorded |
| Markdown.ExtractProseHead | src/components/skill-detail/markdown.component.ts:16-22 | a prose line and its line break are copied in front of what phase 1 makes of the rest |
| Markdown.ExtractCodeHead | src/components/skill-detail/markdown.component.ts:16-22 | a fence at the head becomes placeholder `n`, then the line break, then what phase 1 makes of the rest with numbers from `n + 1` |
| Markdown.ExtractDoc | src/components/skill-detail/markdown.component.ts:16-22 | phase 1 on a document of prose lines and fences: the prose stays, the k-th fence becomes placeholder `n + k`, and the fences are recorded in document order |
| Markdown.TokenLine | src/components/skill-detail/markdown.component.ts:42-49 | a placeholder is a line of its own that the line pass emits as it is |
| Markdown.LinesFlat | src/components/skill-detail/markdown.component.ts:25-117 | each line after phase 1 is prose starting with a letter or a lone placeholder, and none holds a line break |
| Markdown.ProseOut | src/components/skill-detail/markdown.component.ts:114-115 | a prose line's paragraph is `<p>`, the line unchanged by inline formatting, `</p>`, and it holds no `{` |
| Markdown.RestoreProseHead | src/components/skill-detail/markdown.component.ts:125-127 | a paragraph in front of more output passes restoration unchanged |
| Markdown.RestoreTokenHead | src/components/skill-detail/markdown.component.ts:125-127 | a placeholder in front of more output becomes the block at its index |
| Markdown.BlocksAtCode | src/components/skill-detail/markdown.component.ts:17-20 | the block stored at a fence's index is that fence's HTML, and the later blocks are the later fences' |
| Markdown.RestoreDoc | src/components/skill-detail/markdown.component.ts:124-127 | on the line pass's output for a document, each placeholder becomes its own fence's block and the paragraphs pass through |
| Markdown.RenderDocument | src/components/skill-detail/markdown.component.ts:5-130 | a document of prose lines and fences, each on its own line, renders to each prose line as a paragraph and each fence, left to right, as its own code block in its own place |
| Markdown.RenderFenceBetweenProse | src/components/skill-detail/markdown.component.ts:5-130 | one fence between two prose lines renders as the first paragraph, the fence's code block, then the second paragraph |
| SkillDetail.SkillDetailComponent.constructor | src/components/skill-detail/skill-detail.component.ts:27-43 | the signals start empty: no quiz, nothing selected or revealed, nothing loading |
| SkillDetail.SkillDetailComponent.SelectOption | src/components/skill-detail/skill-detail.component.ts:148-151 | once the answer is shown nothing changes; otherwise only the selection becomes the option |
| SkillDetail.SkillDetailComponent.GetOptionClass | src/components/skill-detail/skill-detail.component.ts:153-170 | before the reveal: highlighted iff selected, else the idle class. After it: green iff the answer (chosen or not), red iff chosen and wrong, dimmed iff neither |
| SkillDetail.RevealedClassesUnique | src/components/skill-detail/skill-detail.component.ts:160-169 | after the reveal no two different options are both shown as correct, and no two both as wrong |
| SkillDetail.OneHighlighted | src/components/skill-detail/skill-detail.component.ts:154-157 | before the reveal at most one option is highlighted |
| SkillDetail.SkillDetailComponent.SelectTopicQuizOption | src/components/skill-detail/skill-detail.component.ts:172-175 | once the topic quiz is revealed nothing changes; otherwise only its selection is set |
| SkillDetail.SkillDetailComponent.TopicQuiz | src/components/skill-detail/skill-detail.component.ts:184 | `topicDetails()?.quiz`: the open topic's quiz, or none; GetTopicQuizOptionClass states each class in terms of it |
| SkillDetail.SkillDetailComponent.GetTopicQuizOptionClass | src/components/skill-detail/skill-detail.component.ts:177-197 | the same cases for the topic's quiz with its own classes, and the neutral class for every option once revealed with no quiz in the details |
| SkillDetail.SkillDetailComponent.SelectTopic | src/components/skill-detail/skill-detail.component.ts:87-100 | the open topic is closed and its details cleared with no fetch; another topic is opened with details, reveal flag and selection reset and `loadingType` = `topicDetail`, and a fetch starts |
| SkillDetail.SkillDetailComponent.ReceiveTopicDetail | src/components/skill-detail/skill-detail.component.ts:100-106 | the fetched details are stored only if that topic is still selected; `loadingType` is cleared either way |
| SkillDetail.StaleTopicResult | src/components/skill-detail/skill-detail.component.ts:87-106 | details fetched for a topic the user has since left are discarded |
| App.Back | src/app.component.ts:40-46 | back closes the skill if one is open, else the path, and does nothing at the dashboard |
| App.BackTwiceHome | src/app.component.ts:40-46 | two steps back from any navigation reach the dashboard |
| App.BackMoves | src/app.component.ts:40-46 | back changes the navigation exactly when it is not at the dashboard |
| App.AppComponent.constructor | src/app.component.ts:22-23 | the app starts at the dashboard |
| App.AppComponent.OnPathSelected | src/app.component.ts:26-29 | the path is opened and the skill closed |
| App.AppComponent.OnSkillSelectedFromDashboard | src/app.component.ts:31-34 | the path is closed and the skill opened |
| App.AppComponent.OnSkillSelectedFromPath | src/app.component.ts:36-38 | the skill is opened with the path unchanged, so back returns to the path |
| App.AppComponent.OnGoBack | src/app.component.ts:40-46 | the navigation after `onGoBack` is `Back` of the navigation before |
| App.AppComponent.NavigateHome | src/app.component.ts:48-51 | both fields are cleared |
| App.GoBackTwice | src/app.component.ts:40-46 | two presses of back from any state reach the dashboard |
| App.NavigateHomeTwice | src/app.component.ts:48-51 | `navigateHome` is idempotent |
| LearningPathView.IndexOf | src/components/learning-path/learning-path.component.ts:24 | `indexOf` is -1 iff the name is absent, else the first position holding it |
| LearningPathView.Filter | src/components/learning-path/learning-path.component.ts:22-23 | the filter keeps exactly the catalogue skills whose names the path lists, and is no longer than the catalogue |
| LearningPathView.Insert | src/components/learning-path/learning-path.component.ts:24 | inserting adds exactly the one element |
| LearningPathView.Sort | src/components/learning-path/learning-path.component.ts:24 | the sort is a permutation of its input |
| LearningPathView.SortedCons | src/components/learning-path/learning-path.component.ts:24 | a sorted list stays sorted with a smaller-or-equal key in front |
| LearningPathView.SortedTail | src/components/learning-path/learning-path.component.ts:24 | the tail of a sorted list is sorted, with keys no smaller than its head's |
| LearningPathView.InsertSorted | src/components/learning-path/learning-path.component.ts:24 | inserting into a sorted list keeps it sorted |
| LearningPathView.SortSorted | src/components/learning-path/learning-path.component.ts:24 | the sort's result is ordered by non-decreasing key |
| LearningPathView.WithKeyCons | src/components/learning-path/learning-path.component.ts:24 | the elements of one key of a list with a head |
| LearningPathView.InsertWithKey | src/components/learning-path/learning-path.component.ts:24 | an inserted element goes in front of the elements that share its key |
| LearningPathView.SortStable | src/components/learning-path/learning-path.component.ts:24 | the sort is stable: the elements of each key keep their order |
| LearningPathView.Skills | src/components/learning-path/learning-path.component.ts:19-25 | the `skills` computed signal: filter the catalogue by the path, then sort by position in the path; SkillsMembers, SkillsOrdered, SkillsPermutation and SkillsStable state what it gives |
| LearningPathView.SkillsMembers | src/components/learning-path/learning-path.component.ts:19-25 | a skill is shown iff it is in the catalogue and the path names it; names the catalogue lacks are skipped |
| LearningPathView.SkillsOrdered | src/components/learning-path/learning-path.component.ts:24 | the shown skills follow the order the path lists their names |
| LearningPathView.SkillsPermutation | src/components/learning-path/learning-path.component.ts:22-24 | the shown skills are a permutation of the filtered catalogue: nothing is added or duplicated, and there are at most as many as in the catalogue |
| LearningPathView.SkillsStable | src/components/learning-path/learning-path.component.ts:22-24 | skills at the same path position keep their catalogue order |

## Left out

- The `MarkdownModule` component (`effect`, `Renderer2`, `innerHTML`, styles): UI plumbing with no logic of its own.
- `gemini.service.ts`: network calls to an SDK whose code is not part of this model. The fetched topic details are a parameter of `ReceiveTopicDetail`.
- The other asynchronous skill-detail actions (`getExplanation`, `getQuiz`, `getCodeFeedback`, `validateCode` and the rest). They only set loading and error signals around service calls.
- `scrollToSection` and `performScroll` in `app.component.ts`: DOM, timers and pixel geometry.
- The dashboard and code-editor components, which only emit events. The skill catalogue `SKILLS_DATA` is not part of this model either: it is a parameter of `LearningPathView.Skills`.
- JavaScript regular expressions in general. Only the eight patterns the renderer uses are modelled, each as its own matcher.
- Lone UTF-16 surrogates cannot be represented. A Dafny `char` is a Unicode scalar value, so a character outside the Basic Multilingual Plane is one `char` where JavaScript counts two code units, and a lone surrogate, which a JavaScript string may hold, has no `char` at all. The renderer's behaviour does not depend on this: every literal prefix, index and character class it uses lies in the Basic Multilingual Plane, and none of them matches a surrogate. There is no Unicode normalisation or case folding, and the source uses none.
- Markdown.RenderDocument: stated end to end only for documents whose lines are fences or prose that starts with a letter and holds no `*`, backtick, `[` or `{`. Around headings, list items, blank lines or inline formatting, the fences are covered pass by pass (CodeBlocks.RestoreExtract, the per-case line lemmas, LineProcessor.FinishBalanced), not by one lemma over the whole renderer.
- SkillDetail.StaleTopicResult: shows one interleaving, two selections before one result. Arbitrary interleavings of concurrent `selectTopic` calls follow from the two phases' contracts but are not enumerated.
