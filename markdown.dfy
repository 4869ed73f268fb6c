/**
 * `simpleMarkdownParser`: fence extraction, the line loop, the final close
 * of an open list, and the restoration of the code blocks.
 */
module Markdown {
  import opened Wrappers
  import opened JsString
  import opened HtmlEscape
  import opened InlineFormat
  import opened CodeBlocks
  import opened LineProcessor

  /** The renderer's result, pass by pass. */
  function Render(markdown: string): string {
    if markdown == [] then []
    else
      var e := Extract(markdown, 0);
      var st := Steps(ProcessInlineFormatting, Split(e.processed));
      Restore(Finish(st), BlocksOf(e.fences))
  }

  /** Every chunk the line pass emits, the final close included. */
  function Chunks(markdown: string): seq<Chunk> {
    var lines := Split(Extract(markdown, 0).processed);
    Trace(ProcessInlineFormatting, lines) + FinalClose(Steps(ProcessInlineFormatting, lines))
  }

  // ---------------------------------------------------------------------------
  // The whole renderer

  /** `simpleMarkdownParser(markdown)`: empty input gives the empty string; otherwise the
      three passes run in order, the line loop over `processed.split('\n')`. */
  method SimpleMarkdownParser(markdown: string) returns (html: string)
    ensures html == Render(markdown)
    ensures markdown == [] ==> html == []
  {
    if markdown == [] {
      return "";
    }
    var processed, codeBlocks := ExtractCodeBlocks(markdown);
    var lines := Split(processed);
    var inList, listType;
    html, inList, listType := ProcessLines(ProcessInlineFormatting, lines);
    if inList {
      html := html + CloseTag(listType);
    }
    html := Restore(html, codeBlocks);
  }

  /** Before restoration the output is the rendering of a balanced chunk list: each list
      that is opened is closed by its own tag, at most one list is open at any time, items
      occur only inside a list, and a list still open at the end is closed. */
  lemma RenderBalanced(markdown: string)
    requires markdown != []
    ensures Render(markdown) == Restore(Html(ProcessInlineFormatting, Chunks(markdown)), BlocksOf(Extract(markdown, 0).fences))
    ensures Balanced(Chunks(markdown))
  {
    FinishBalanced(ProcessInlineFormatting, Split(Extract(markdown, 0).processed));
  }

  // ---------------------------------------------------------------------------
  // A text that is a single fence

  /** A string without a backtick holds no fence. */
  lemma {:induction false} NoFenceWithoutBacktick(s: string)
    requires '`' !in s
    ensures NextFence(s) == None
    decreases |s|
  {
    if s != [] {
      assert s[0] in s;
      assert forall c :: c in s[1..] ==> c in s;
      NoFenceWithoutBacktick(s[1..]);
    }
  }

  lemma TokenHasNoBacktick(n: nat)
    ensures '`' !in Token(n) && '\n' !in Token(n)
  {
    var d := Decimal(n);
    assert forall i :: 0 <= i < |d| ==> d[i] != '`' && d[i] != '\n';
    assert Token(n) == Marker + d + "}}";
  }

  /** A placeholder is not changed by `trim`: it starts with `{` and ends with `}`. */
  lemma TrimToken(n: nat)
    ensures Trim(Token(n)) == Token(n)
  {
    var t := Token(n);
    assert t[0] == '{' && t[|t| - 1] == '}';
    TrimUnchanged(t);
  }

  lemma StepsSingle(inline: string -> string, line: string)
    ensures Steps(inline, [line]) == Step(inline, Start, line)
  {
    assert [line][..0] == [];
  }

  /** A line that is a placeholder alone, at the start of the output. */
  lemma PlaceholderFirst(n: nat)
    ensures Step(ProcessInlineFormatting, Start, Token(n)) == ParserState(Token(n), false, NoType)
  {
    var t := Token(n);
    TrimToken(n);
    assert StartsWith(t, Marker) by {
      assert t == Marker + (Decimal(n) + "}}");
    }
    PlaceholderOutsideList(ProcessInlineFormatting, Start, t);
    EmptyAppend(t);
  }

  lemma EmptyAppend(t: string)
    ensures "" + t == t
  {
  }

  /** The text after pass 1 when that text is a placeholder alone: one line, a placeholder. */
  lemma PlaceholderAlone(n: nat, blocks: seq<string>)
    ensures var st := Steps(ProcessInlineFormatting, Split(Token(n)));
      Restore(Finish(st), blocks) == Lookup(blocks, n)
  {
    TokenHasNoBacktick(n);
    SplitNoNewline(Token(n));
    StepsSingle(ProcessInlineFormatting, Token(n));
    PlaceholderFirst(n);
    RestoreToken(n, [], blocks);
    assert Token(n) + [] == Token(n);
  }

  /** A text that is exactly one fence renders as exactly its code block: the body is
      trimmed and escaped, and never reaches the line pass or the inline formatter. */
  lemma RenderSingleFence(lang: string, body: string)
    requires WellFormedFence(lang, body)
    ensures Render(FenceText(lang, body)) == CodeBlockHtml(lang, body)
  {
    var s := FenceText(lang, body);
    FenceAtComplete(lang, body, []);
    assert s + [] == s;
    var f := Fence(|s|, lang, body);
    assert NextFence(s) == Some(Located(0, f));
    assert s[|s|..] == [];
    ExtractStep(s, 0, Located(0, f));
    assert Extract(s, 0) == Extraction(Token(0), [f]) by {
      assert s[..0] + Token(0) + [] == Token(0);
    }
    PlaceholderAlone(0, BlocksOf([f]));
  }

  /** A placeholder typed by the author with no matching fence restores to the text
      `undefined`, which is what indexing past the end of `codeBlocks` yields. */
  lemma RenderStrayPlaceholder()
    ensures Render(Token(0)) == "undefined"
  {
    TokenHasNoBacktick(0);
    NoFenceWithoutBacktick(Token(0));
    assert Extract(Token(0), 0) == Extraction(Token(0), []);
    PlaceholderAlone(0, []);
  }

  // ---------------------------------------------------------------------------
  // Documents of prose lines and fences

  /** A line of prose the renderer turns into a plain paragraph: it starts with a letter,
      and holds no line break and none of the characters that begin a fence, a placeholder
      or inline formatting. */
  predicate ProseLine(t: string) {
    LetterStart(t) && '\n' !in t && '`' !in t && '{' !in t && '*' !in t && '[' !in t
  }

  /** One part of a document: a line of prose, or a fenced code block. */
  datatype Part = Prose(text: string) | Code(lang: string, body: string)

  predicate WellFormedPart(part: Part) {
    match part
    case Prose(t) => ProseLine(t)
    case Code(lang, body) => WellFormedFence(lang, body)
  }

  predicate WellFormedDoc(doc: seq<Part>) {
    forall i :: 0 <= i < |doc| ==> WellFormedPart(doc[i])
  }

  function PartText(part: Part): string {
    match part
    case Prose(t) => t
    case Code(lang, body) => FenceText(lang, body)
  }

  /** The document's text: its parts, each on a line of its own. */
  function Source(doc: seq<Part>): (s: string)
    requires doc != []
    ensures StartsWith(s, PartText(doc[0]))
    decreases |doc|
  {
    if |doc| == 1 then PartText(doc[0]) else PartText(doc[0]) + "\n" + Source(doc[1..])
  }

  /** The lines after phase 1: a prose line stays, and the k-th fence becomes the
      placeholder `n + k`. */
  function Lines(doc: seq<Part>, n: nat): (r: seq<string>)
    ensures |r| == |doc|
    decreases |doc|
  {
    if doc == [] then []
    else match doc[0]
      case Prose(t) => [t] + Lines(doc[1..], n)
      case Code(_, _) => [Token(n)] + Lines(doc[1..], n + 1)
  }

  /** The document's fences, in order. */
  function Fences(doc: seq<Part>): seq<Fence>
    decreases |doc|
  {
    if doc == [] then []
    else match doc[0]
      case Prose(_) => Fences(doc[1..])
      case Code(lang, body) => [Fence(|FenceText(lang, body)|, lang, body)] + Fences(doc[1..])
  }

  function PartHtml(part: Part): string {
    match part
    case Prose(t) => "<p>" + t + "</p>"
    case Code(lang, body) => CodeBlockHtml(lang, body)
  }

  /** What a document is meant to render to: each prose line as a paragraph and each fence
      as its code block, in document order. */
  function Intended(doc: seq<Part>): string
    decreases |doc|
  {
    if doc == [] then [] else PartHtml(doc[0]) + Intended(doc[1..])
  }

  lemma WellFormedTail(doc: seq<Part>)
    requires doc != [] && WellFormedDoc(doc)
    ensures WellFormedPart(doc[0]) && WellFormedDoc(doc[1..])
  {
    assert forall i :: 0 <= i < |doc| - 1 ==> doc[1..][i] == doc[i + 1];
  }

  lemma JoinCons(x: string, rest: seq<string>)
    requires rest != []
    ensures Join([x] + rest) == x + "\n" + Join(rest)
  {
    assert ([x] + rest)[1..] == rest;
  }

  lemma NoTickBeforeBreak(t: string)
    requires '`' !in t
    ensures '`' !in t + "\n"
  {
    assert forall c :: c in t + "\n" ==> c in t || c == '\n';
  }

  /** Phase 1 on a prose line alone, and on a fence alone. */
  lemma ExtractProse(t: string, n: nat)
    requires ProseLine(t)
    ensures Extract(t, n) == Extraction(t, [])
  {
    NoFenceWithoutBacktick(t);
  }

  lemma ExtractCode(lang: string, body: string, n: nat)
    requires WellFormedFence(lang, body)
    ensures Extract(FenceText(lang, body), n) == Extraction(Token(n), [Fence(|FenceText(lang, body)|, lang, body)])
  {
    var f := FenceText(lang, body);
    ExtractAtFence(lang, body, [], n, Extraction([], []));
    assert f + [] == f;
    assert Token(n) + [] == Token(n);
  }

  /** Phase 1 on a prose line followed by more of the document, and on a fence followed by
      more of the document, given what phase 1 makes of the rest. */
  lemma ExtractProseHead(t: string, s: string, n: nat, e: Extraction)
    requires ProseLine(t) && Extract(s, n) == e
    ensures Extract(t + "\n" + s, n) == Extraction(t + "\n" + e.processed, e.fences)
  {
    NoTickBeforeBreak(t);
    ExtractAfterPlain(t + "\n", s, n);
  }

  lemma ExtractCodeHead(lang: string, body: string, s: string, n: nat, e: Extraction)
    requires WellFormedFence(lang, body) && Extract(s, n + 1) == e
    ensures Extract(FenceText(lang, body) + "\n" + s, n) ==
      Extraction(Token(n) + "\n" + e.processed, [Fence(|FenceText(lang, body)|, lang, body)] + e.fences)
  {
    ExtractAfterPlain("\n", s, n + 1);
    ExtractAtFence(lang, body, "\n" + s, n, Extraction("\n" + e.processed, e.fences));
    BreakAssoc(FenceText(lang, body), s);
    BreakAssoc(Token(n), e.processed);
  }

  lemma BreakAssoc(x: string, y: string)
    ensures x + "\n" + y == x + ("\n" + y)
  {
  }

  /** Phase 1 on a document: the prose lines stay, each fence becomes the next placeholder,
      and the fences are recorded in document order. */
  lemma {:induction false} ExtractDoc(doc: seq<Part>, n: nat)
    requires doc != [] && WellFormedDoc(doc)
    ensures Extract(Source(doc), n) == Extraction(Join(Lines(doc, n)), Fences(doc))
    decreases |doc|
  {
    WellFormedTail(doc);
    var rest := doc[1..];
    match doc[0]
    case Prose(t) =>
      if |doc| == 1 {
        ExtractProse(t, n);
      } else {
        ExtractDoc(rest, n);
        ExtractProseHead(t, Source(rest), n, Extract(Source(rest), n));
        JoinCons(t, Lines(rest, n));
      }
    case Code(lang, body) =>
      if |doc| == 1 {
        ExtractCode(lang, body, n);
      } else {
        ExtractDoc(rest, n + 1);
        ExtractCodeHead(lang, body, Source(rest), n, Extract(Source(rest), n + 1));
        JoinCons(Token(n), Lines(rest, n + 1));
      }
  }

  /** A placeholder line is a line of its own that the line pass emits as it is. */
  lemma TokenLine(n: nat)
    ensures FlatLine(Token(n)) && '\n' !in Token(n) && !LetterStart(Token(n))
  {
    TrimToken(n);
    TokenHasNoBacktick(n);
    assert Token(n) == Marker + (Decimal(n) + "}}");
  }

  /** Every line after phase 1 is prose starting with a letter or a lone placeholder, and
      none holds a line break. */
  lemma {:induction false} LinesFlat(doc: seq<Part>, n: nat)
    requires WellFormedDoc(doc)
    ensures forall i :: 0 <= i < |doc| ==> FlatLine(Lines(doc, n)[i]) && '\n' !in Lines(doc, n)[i]
    decreases |doc|
  {
    if doc != [] {
      WellFormedTail(doc);
      var m := if doc[0].Code? then n + 1 else n;
      LinesFlat(doc[1..], m);
      var x := Lines(doc, n)[0];
      assert Lines(doc, n) == [x] + Lines(doc[1..], m);
      if doc[0].Code? {
        TokenLine(n);
      }
    }
  }

  /** What the line pass and phase 3 make of a prose line's paragraph. */
  lemma ProseOut(t: string)
    requires ProseLine(t)
    ensures FlatOut(ProcessInlineFormatting, t) == "<p>" + t + "</p>" && '{' !in "<p>" + t + "</p>"
  {
    PlainTextUnchanged(t);
    assert forall c :: c in "<p>" + t + "</p>" ==> c in t || c in "<p>" || c in "</p>";
  }

  /** Phase 3 on the output of a prose line, and of a placeholder line, in front of more. */
  lemma RestoreProseHead(t: string, rest: seq<string>, blocks: seq<string>)
    requires ProseLine(t)
    ensures Restore(FlatHtml(ProcessInlineFormatting, [t] + rest), blocks) ==
      "<p>" + t + "</p>" + Restore(FlatHtml(ProcessInlineFormatting, rest), blocks)
  {
    assert ([t] + rest)[1..] == rest;
    ProseOut(t);
    RestoreNoBrace("<p>" + t + "</p>", FlatHtml(ProcessInlineFormatting, rest), blocks);
  }

  lemma RestoreTokenHead(n: nat, rest: seq<string>, blocks: seq<string>)
    ensures Restore(FlatHtml(ProcessInlineFormatting, [Token(n)] + rest), blocks) ==
      Lookup(blocks, n) + Restore(FlatHtml(ProcessInlineFormatting, rest), blocks)
  {
    assert ([Token(n)] + rest)[1..] == rest;
    TokenLine(n);
    RestoreToken(n, FlatHtml(ProcessInlineFormatting, rest), blocks);
  }

  /** The blocks recorded for a fence followed by more fences. */
  lemma BlocksAtCode(f: Fence, fences: seq<Fence>, n: nat, blocks: seq<string>)
    requires n <= |blocks| && blocks[n..] == BlocksOf([f] + fences)
    ensures n < |blocks| && Lookup(blocks, n) == CodeBlockHtml(f.lang, f.body)
    ensures blocks[n + 1..] == BlocksOf(fences)
  {
    assert ([f] + fences)[1..] == fences;
    assert blocks[n + 1..] == blocks[n..][1..];
  }

  /** Phase 3 on the line pass's output for a document: each placeholder gives back the
      block of its own fence, and the paragraphs pass through. */
  lemma {:induction false} RestoreDoc(doc: seq<Part>, n: nat, blocks: seq<string>)
    requires WellFormedDoc(doc) && n <= |blocks| && blocks[n..] == BlocksOf(Fences(doc))
    ensures Restore(FlatHtml(ProcessInlineFormatting, Lines(doc, n)), blocks) == Intended(doc)
    decreases |doc|
  {
    if doc != [] {
      WellFormedTail(doc);
      var rest := doc[1..];
      match doc[0]
      case Prose(t) =>
        RestoreDoc(rest, n, blocks);
        RestoreProseHead(t, Lines(rest, n), blocks);
      case Code(lang, body) =>
        BlocksAtCode(Fence(|FenceText(lang, body)|, lang, body), Fences(rest), n, blocks);
        RestoreDoc(rest, n + 1, blocks);
        RestoreTokenHead(n, Lines(rest, n + 1), blocks);
    }
  }

  /** A document of prose lines and fences, each on a line of its own, renders to each
      prose line as a paragraph and each fence, left to right, as its own code block in
      its own place: the placeholders pass the line loop whole and are restored in order. */
  lemma RenderDocument(doc: seq<Part>)
    requires doc != [] && WellFormedDoc(doc)
    ensures Render(Source(doc)) == Intended(doc)
  {
    WellFormedTail(doc);
    assert PartText(doc[0]) != [];
    ExtractDoc(doc, 0);
    var lines := Lines(doc, 0);
    LinesFlat(doc, 0);
    SplitJoin(lines);
    StepsFlat(ProcessInlineFormatting, lines);
    var blocks := BlocksOf(Fences(doc));
    assert blocks[0..] == blocks;
    RestoreDoc(doc, 0, blocks);
  }

  /** One fence on a line of its own between two prose lines. */
  lemma RenderFenceBetweenProse(a: string, lang: string, body: string, b: string)
    requires ProseLine(a) && ProseLine(b) && WellFormedFence(lang, body)
    ensures Render(a + "\n" + FenceText(lang, body) + "\n" + b) ==
      "<p>" + a + "</p>" + CodeBlockHtml(lang, body) + "<p>" + b + "</p>"
  {
    var doc := [Prose(a), Code(lang, body), Prose(b)];
    ThreeParts(a, lang, body, b);
    RenderDocument(doc);
  }

  lemma ThreeParts(a: string, lang: string, body: string, b: string)
    requires ProseLine(a) && ProseLine(b) && WellFormedFence(lang, body)
    ensures var doc := [Prose(a), Code(lang, body), Prose(b)];
      WellFormedDoc(doc) &&
      Source(doc) == a + "\n" + FenceText(lang, body) + "\n" + b &&
      Intended(doc) == "<p>" + a + "</p>" + CodeBlockHtml(lang, body) + "<p>" + b + "</p>"
  {
    var doc := [Prose(a), Code(lang, body), Prose(b)];
    assert WellFormedPart(doc[0]) && WellFormedPart(doc[1]) && WellFormedPart(doc[2]);
    ThreeSource(a, lang, body, b);
    ThreeIntended(a, lang, body, b);
  }

  lemma ThreeSource(a: string, lang: string, body: string, b: string)
    ensures Source([Prose(a), Code(lang, body), Prose(b)]) == a + "\n" + FenceText(lang, body) + "\n" + b
  {
    var doc, f := [Prose(a), Code(lang, body), Prose(b)], FenceText(lang, body);
    var d1 := [Code(lang, body), Prose(b)];
    assert doc[1..] == d1 && d1[1..] == [Prose(b)];
    assert Source(d1) == f + "\n" + b;
    BreakAssoc(a, f + "\n" + b);
  }

  lemma ThreeIntended(a: string, lang: string, body: string, b: string)
    ensures Intended([Prose(a), Code(lang, body), Prose(b)]) == "<p>" + a + "</p>" + CodeBlockHtml(lang, body) + "<p>" + b + "</p>"
  {
    var doc, pa, pb, c := [Prose(a), Code(lang, body), Prose(b)], "<p>" + a + "</p>", "<p>" + b + "</p>", CodeBlockHtml(lang, body);
    var d1, d2 := [Code(lang, body), Prose(b)], [Prose(b)];
    assert doc[1..] == d1 && d1[1..] == d2 && d2[1..] == [];
    assert Intended(d2) == pb + [] == pb;
    assert Intended(d1) == c + pb;
    assert Intended(doc) == pa + (c + pb);
    WrapAssoc(pa, c, b);
  }

  lemma WrapAssoc(x: string, y: string, b: string)
    ensures x + (y + ("<p>" + b + "</p>")) == x + y + "<p>" + b + "</p>"
  {
  }
}
