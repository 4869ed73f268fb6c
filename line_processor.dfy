/**
 * The second pass of `simpleMarkdownParser`: each line of the text (after the
 * fences have become placeholders) is classified and turned into HTML, driving
 * the two list flags `inList` and `listType`.
 *
 * What one line emits is given as a list of chunks (`Emit`), so that the list
 * tags can be told apart from paragraph text that happens to contain `<ul>`:
 * paragraph and heading text is not escaped. `Html` renders chunks to the
 * exact string the source appends.
 *
 * The pass is stated for any inline formatter `inline`; the renderer uses
 * `processInlineFormatting` (InlineFormat.ProcessInlineFormatting). Nothing
 * here depends on what the formatter does, only on where it is applied:
 * to list-item content and to paragraph lines, never to headings or
 * placeholders.
 */
module LineProcessor {
  import opened Wrappers
  import opened JsString
  import opened CodeBlocks

  /** `listType`: `''` until a list has been opened, then `'ul'` or `'ol'`. */
  datatype ListType = NoType | Ul | Ol

  /** One piece of emitted HTML. */
  datatype Chunk =
    | LineBreak
    | Placeholder(text: string)
    | Heading(level: nat, text: string)
    | OpenList(kind: ListType)
    | CloseList(kind: ListType)
    | Item(content: string)
    | Paragraph(text: string)

  /** `listType === 'ul' ? '</ul>' : '</ol>'` */
  function CloseTag(k: ListType): string {
    if k == Ul then "</ul>" else "</ol>"
  }

  function OpenTag(k: ListType): string {
    if k == Ul then "<ul>" else "<ol>"
  }

  function HeadingOpen(n: nat): string {
    if n == 3 then "<h3>" else if n == 2 then "<h2>" else "<h1>"
  }

  function HeadingClose(n: nat): string {
    if n == 3 then "</h3>" else if n == 2 then "</h2>" else "</h1>"
  }

  function ChunkHtml(inline: string -> string, c: Chunk): string {
    match c
    case LineBreak => "<br>"
    case Placeholder(t) => t
    case Heading(n, t) => HeadingOpen(n) + t + HeadingClose(n)
    case OpenList(k) => OpenTag(k)
    case CloseList(k) => CloseTag(k)
    case Item(t) => "<li>" + inline(t) + "</li>"
    case Paragraph(t) => "<p>" + inline(t) + "</p>"
  }

  function Html(inline: string -> string, cs: seq<Chunk>): string
    decreases |cs|
  {
    if cs == [] then [] else ChunkHtml(inline, cs[0]) + Html(inline, cs[1..])
  }

  lemma {:induction false} HtmlAppend(inline: string -> string, a: seq<Chunk>, b: seq<Chunk>)
    ensures Html(inline, a + b) == Html(inline, a) + Html(inline, b)
    decreases |a|
  {
    if a == [] {
      assert a + b == b;
    } else {
      assert (a + b)[1..] == a[1..] + b;
      HtmlAppend(inline, a[1..], b);
    }
  }

  lemma HtmlSingle(inline: string -> string, c: Chunk)
    ensures Html(inline, [c]) == ChunkHtml(inline, c)
  {
    assert [c][1..] == [];
  }

  /** Appending one chunk to what has been emitted so far appends its HTML. */
  lemma EmitChunk(inline: string -> string, html: string, out: seq<Chunk>, c: Chunk)
    ensures html + Html(inline, out + [c]) == html + Html(inline, out) + ChunkHtml(inline, c)
  {
    HtmlAppend(inline, out, [c]);
    HtmlSingle(inline, c);
  }

  /** `/^[-*]\s+/` on the trimmed line. */
  predicate IsBulletItem(t: string) {
    |t| >= 2 && (t[0] == '-' || t[0] == '*') && IsWhitespace(t[1])
  }

  /** Length of the match of `/^\d+\.\s+/` at the head of `t`, or 0 when it does not match. */
  function OrderedMarker(t: string): (n: nat)
    ensures n <= |t|
    ensures n > 0 ==> var d := DigitRun(t);
      1 <= d && d + 2 <= n && t[d] == '.' && WhitespacePrefix(t[d + 1..], n - d - 1) && (n < |t| ==> !IsWhitespace(t[n]))
  {
    var d := DigitRun(t);
    if 1 <= d && d + 1 < |t| && t[d] == '.' && IsWhitespace(t[d + 1]) then
      var w := LeadingWhitespace(t[d + 1..]);
      assert t[d + 1..d + 1 + w] == t[d + 1..][..w];
      d + 1 + w
    else 0
  }

  /** `/^[-*\d]/` on the trimmed line. */
  predicate StartsListLike(t: string) {
    t != [] && (t[0] == '-' || t[0] == '*' || IsDigit(t[0]))
  }

  /** The condition under which a blank line outside a list emits `<br>`. */
  predicate NeedsBreak(html: string) {
    html != [] && !EndsWith(html, "</p>") && !EndsWith(html, "</h3>") && !EndsWith(html, "</h2>") && !EndsWith(html, "</h1>")
  }

  /** What one line appends, and the list flags after it. */
  datatype Emission = Emission(out: seq<Chunk>, inList: bool, listType: ListType)

  /** The close tag emitted before a placeholder or heading when a list is open. */
  function CloseOpen(inList: bool, listType: ListType): seq<Chunk> {
    if inList then [CloseList(listType)] else []
  }

  /** One iteration of the line loop, in the order the source tests its cases. */
  function Emit(html: string, inList: bool, listType: ListType, line: string): Emission {
    var t := Trim(line);
    if t == [] && !inList then
      Emission(if NeedsBreak(html) then [LineBreak] else [], inList, listType)
    else if StartsWith(t, Marker) then
      Emission(CloseOpen(inList, listType) + [Placeholder(t)], false, listType)
    else if StartsWith(line, "### ") then
      Emission(CloseOpen(inList, listType) + [Heading(3, line[4..])], false, listType)
    else if StartsWith(line, "## ") then
      Emission(CloseOpen(inList, listType) + [Heading(2, line[3..])], false, listType)
    else if StartsWith(line, "# ") then
      Emission(CloseOpen(inList, listType) + [Heading(1, line[2..])], false, listType)
    else if IsBulletItem(t) then
      var open := if !inList then [OpenList(Ul)] else if listType != Ul then [CloseList(Ol), OpenList(Ul)] else [];
      Emission(open + [Item(t[2..])], true, Ul)
    else if OrderedMarker(t) > 0 then
      var open := if !inList then [OpenList(Ol)] else if listType != Ol then [CloseList(Ul), OpenList(Ol)] else [];
      Emission(open + [Item(t[OrderedMarker(t)..])], true, Ol)
    else
      var close := inList && t != [] && !StartsListLike(t);
      Emission((if close then [CloseList(listType)] else []) + (if t != [] then [Paragraph(line)] else []),
               inList && !close, listType)
  }

  /** The loop's variables: the `html` accumulator and the two list flags. */
  datatype ParserState = ParserState(html: string, inList: bool, listType: ListType)

  const Start: ParserState := ParserState("", false, NoType)

  function Step(inline: string -> string, st: ParserState, line: string): ParserState {
    var e := Emit(st.html, st.inList, st.listType, line);
    ParserState(st.html + Html(inline, e.out), e.inList, e.listType)
  }

  /** The state after the loop has run over `lines`. */
  function Steps(inline: string -> string, lines: seq<string>): ParserState
    decreases |lines|
  {
    if lines == [] then Start else Step(inline, Steps(inline, lines[..|lines| - 1]), lines[|lines| - 1])
  }

  /** Every chunk the loop emits over `lines`, in order. */
  function Trace(inline: string -> string, lines: seq<string>): seq<Chunk>
    decreases |lines|
  {
    if lines == [] then []
    else
      var st := Steps(inline, lines[..|lines| - 1]);
      Trace(inline, lines[..|lines| - 1]) + Emit(st.html, st.inList, st.listType, lines[|lines| - 1]).out
  }

  /** The close tag for a list still open after the last line. */
  function FinalClose(st: ParserState): seq<Chunk> {
    CloseOpen(st.inList, st.listType)
  }

  /** `html` after the final `if (inList)` close. */
  function Finish(st: ParserState): string {
    if st.inList then st.html + CloseTag(st.listType) else st.html
  }

  // ---------------------------------------------------------------------------
  // List balance

  function Open(inList: bool, listType: ListType): Option<ListType> {
    if inList then Some(listType) else None
  }

  /** Reading `cs` from a point where `open` is the open list (if any): the open list at
      the end, or None when a list tag or item is out of place (an open tag while a list
      is open, a close tag that is not the open list's, an item outside any list). */
  function Nest(open: Option<ListType>, cs: seq<Chunk>): Option<Option<ListType>>
    decreases |cs|
  {
    if cs == [] then Some(open)
    else
      match cs[0]
      case OpenList(k) => if open.None? && k != NoType then Nest(Some(k), cs[1..]) else None
      case CloseList(k) => if open == Some(k) then Nest(None, cs[1..]) else None
      case Item(_) => if open.Some? then Nest(open, cs[1..]) else None
      case _ => Nest(open, cs[1..])
  }

  /** Every list that is opened is closed by its own tag, lists never nest, items occur
      only inside a list, and no list is left open. */
  predicate Balanced(cs: seq<Chunk>) {
    Nest(None, cs) == Some(None)
  }

  lemma {:induction false} NestAppend(open: Option<ListType>, a: seq<Chunk>, b: seq<Chunk>)
    ensures Nest(open, a + b) == match Nest(open, a) case None => None case Some(o) => Nest(o, b)
    decreases |a|
  {
    if a == [] {
      assert a + b == b;
    } else {
      assert (a + b)[1..] == a[1..] + b;
      assert (a + b)[0] == a[0];
      match a[0]
      case OpenList(k) => if open.None? && k != NoType { NestAppend(Some(k), a[1..], b); }
      case CloseList(k) => if open == Some(k) { NestAppend(None, a[1..], b); }
      case Item(_) => if open.Some? { NestAppend(open, a[1..], b); }
      case LineBreak => NestAppend(open, a[1..], b);
      case Placeholder(_) => NestAppend(open, a[1..], b);
      case Heading(_, _) => NestAppend(open, a[1..], b);
      case Paragraph(_) => NestAppend(open, a[1..], b);
    }
  }

  // ---------------------------------------------------------------------------
  // What each kind of line emits

  /** None of the three heading prefixes, which are tested on the untrimmed line. */
  predicate NoHeadingPrefix(line: string) {
    !StartsWith(line, "# ") && !StartsWith(line, "## ") && !StartsWith(line, "### ")
  }

  /** A line whose first character is not white space keeps it as the first character of
      its trimmed form. */
  lemma TrimKeepsHead(line: string)
    requires line != [] && !IsWhitespace(line[0])
    ensures Trim(line) != [] && Trim(line)[0] == line[0]
  {
    TrimSpec(line);
    assert LeadingWhitespace(line) == 0;
    assert !AllWhitespace(line);
  }

  /** A line that trims to nothing holds no heading prefix. */
  lemma BlankHasNoPrefix(line: string)
    requires Trim(line) == []
    ensures NoHeadingPrefix(line)
  {
    TrimSpec(line);
    if line != [] {
      assert IsWhitespace(line[0]);
    }
  }

  /** A line whose trimmed form does not start with `#` holds no heading prefix. */
  lemma NotHeading(line: string)
    requires Trim(line) != [] && Trim(line)[0] != '#'
    ensures NoHeadingPrefix(line)
  {
    if line != [] && line[0] == '#' {
      TrimKeepsHead(line);
    }
  }

  lemma HashHead(line: string, p: string)
    requires p != [] && p[0] == '#' && StartsWith(line, p)
    ensures Trim(line) != [] && Trim(line)[0] == '#' && !StartsWith(Trim(line), Marker)
  {
    assert line[0] == p[0];
    TrimKeepsHead(line);
  }

  /** A blank or white-space-only line: outside a list it emits `<br>` exactly when the HTML
      so far is non-empty and does not end a paragraph or heading; inside a list it emits
      nothing and the list stays open. */
  lemma BlankLine(html: string, inList: bool, listType: ListType, line: string)
    requires Trim(line) == []
    ensures Emit(html, inList, listType, line) ==
      Emission(if !inList && NeedsBreak(html) then [LineBreak] else [], inList, listType)
  {
    BlankHasNoPrefix(line);
    assert OrderedMarker(Trim(line)) == 0;
  }

  /** A placeholder line (recognised by its trimmed prefix, not by an exact match) closes
      any open list and is emitted trimmed. */
  lemma PlaceholderLine(html: string, inList: bool, listType: ListType, line: string)
    requires StartsWith(Trim(line), Marker)
    ensures Emit(html, inList, listType, line) ==
      Emission(CloseOpen(inList, listType) + [Placeholder(Trim(line))], false, listType)
  {
    assert Trim(line) != [];
  }

  /** A placeholder that is its own trim, outside a list: it is appended as it is and
      no list is open after it. */
  lemma PlaceholderOutsideList(inline: string -> string, st: ParserState, t: string)
    requires !st.inList && StartsWith(t, Marker) && Trim(t) == t
    ensures Step(inline, st, t) == ParserState(st.html + t, false, st.listType)
  {
    PlaceholderLine(st.html, false, st.listType, t);
    assert CloseOpen(false, st.listType) + [Placeholder(t)] == [Placeholder(t)];
    HtmlOne(inline, st.html, Placeholder(t));
  }

  /** A `### ` line closes any open list and emits the rest of the line, neither trimmed,
      formatted nor escaped, as an `h3` heading. */
  lemma HeadingThree(html: string, inList: bool, listType: ListType, line: string)
    requires StartsWith(line, "### ")
    ensures Emit(html, inList, listType, line) ==
      Emission(CloseOpen(inList, listType) + [Heading(3, line[4..])], false, listType)
  {
    HashHead(line, "### ");
  }

  /** A `## ` line becomes an `h2` heading in the same way. */
  lemma HeadingTwo(html: string, inList: bool, listType: ListType, line: string)
    requires StartsWith(line, "## ")
    ensures Emit(html, inList, listType, line) ==
      Emission(CloseOpen(inList, listType) + [Heading(2, line[3..])], false, listType)
  {
    HashHead(line, "## ");
    assert line[2] == ' ';
  }

  /** A `# ` line becomes an `h1` heading in the same way. */
  lemma HeadingOne(html: string, inList: bool, listType: ListType, line: string)
    requires StartsWith(line, "# ")
    ensures Emit(html, inList, listType, line) ==
      Emission(CloseOpen(inList, listType) + [Heading(1, line[2..])], false, listType)
  {
    HashHead(line, "# ");
    assert line[1] == ' ';
  }

  /** A `-`/`*` item: the first opens a `<ul>`, further ones share it, and one that follows
      an ordered item emits `</ol><ul>`. Its content is the trimmed line after its first two
      characters. */
  lemma BulletLine(html: string, inList: bool, listType: ListType, line: string)
    requires IsBulletItem(Trim(line))
    ensures var e, t := Emit(html, inList, listType, line), Trim(line);
      e.inList && e.listType == Ul &&
      (!inList ==> e.out == [OpenList(Ul), Item(t[2..])]) &&
      (inList && listType == Ul ==> e.out == [Item(t[2..])]) &&
      (inList && listType != Ul ==> e.out == [CloseList(Ol), OpenList(Ul), Item(t[2..])])
  {
    NotHeading(line);
  }

  /** An `N. ` item behaves like a bullet item with `<ol>`; its content is what follows the
      number, the dot and all the white space after it. */
  lemma OrderedLine(html: string, inList: bool, listType: ListType, line: string)
    requires !IsBulletItem(Trim(line)) && OrderedMarker(Trim(line)) > 0
    ensures var e, t := Emit(html, inList, listType, line), Trim(line);
      var c := t[OrderedMarker(t)..];
      e.inList && e.listType == Ol &&
      (!inList ==> e.out == [OpenList(Ol), Item(c)]) &&
      (inList && listType == Ol ==> e.out == [Item(c)]) &&
      (inList && listType != Ol ==> e.out == [CloseList(Ul), OpenList(Ol), Item(c)])
  {
    assert IsDigit(Trim(line)[0]);
    NotHeading(line);
  }

  /** Any other non-blank line: an open list is closed only when the trimmed line does not
      start with `-`, `*` or a digit, and the untrimmed line becomes a paragraph. */
  lemma TextLine(html: string, inList: bool, listType: ListType, line: string)
    requires Trim(line) != [] && !StartsWith(Trim(line), Marker) && NoHeadingPrefix(line)
    requires !IsBulletItem(Trim(line)) && OrderedMarker(Trim(line)) == 0
    ensures var e := Emit(html, inList, listType, line);
      var closes := inList && !StartsListLike(Trim(line));
      e.out == (if closes then [CloseList(listType), Paragraph(line)] else [Paragraph(line)]) &&
      e.inList == (inList && !closes) && e.listType == listType
  {
  }

  // ---------------------------------------------------------------------------
  // List balance, line by line

  /** While a list is open its kind is `ul` or `ol`. */
  predicate Typed(inList: bool, listType: ListType) {
    inList ==> listType != NoType
  }

  /** A chunk that is neither a list tag nor an item. */
  predicate Plain(c: Chunk) {
    !c.OpenList? && !c.CloseList? && !c.Item?
  }

  lemma NestPlain(open: Option<ListType>, c: Chunk)
    requires Plain(c)
    ensures Nest(open, [c]) == Some(open)
  {
    assert [c][1..] == [];
  }

  /** Closing the open list (if any) and then a plain chunk leaves no list open. */
  lemma NestCloseThen(inList: bool, listType: ListType, c: Chunk)
    requires Plain(c)
    ensures Nest(Open(inList, listType), CloseOpen(inList, listType) + [c]) == Some(None)
  {
    if inList {
      assert CloseOpen(inList, listType) + [c] == [CloseList(listType), c];
      assert [CloseList(listType), c][1..] == [c];
    } else {
      assert CloseOpen(inList, listType) + [c] == [c];
    }
    NestPlain(None, c);
  }

  /** The three ways an item is emitted each leave its own kind of list open. */
  lemma NestItem(inList: bool, listType: ListType, kind: ListType, other: ListType, c: string, out: seq<Chunk>)
    requires Typed(inList, listType) && kind != NoType && other != NoType && kind != other
    requires !inList ==> out == [OpenList(kind), Item(c)]
    requires inList && listType == kind ==> out == [Item(c)]
    requires inList && listType != kind ==> out == [CloseList(other), OpenList(kind), Item(c)]
    ensures Nest(Open(inList, listType), out) == Some(Some(kind))
  {
    assert [Item(c)][1..] == [];
    assert Nest(Some(kind), [Item(c)]) == Some(Some(kind));
    assert [OpenList(kind), Item(c)][1..] == [Item(c)];
    assert Nest(None, [OpenList(kind), Item(c)]) == Some(Some(kind));
    if inList && listType != kind {
      assert listType == other;
      assert out[1..] == [OpenList(kind), Item(c)];
    }
  }

  lemma NestText(inList: bool, listType: ListType, closes: bool, line: string, out: seq<Chunk>)
    requires closes ==> inList
    requires out == if closes then [CloseList(listType), Paragraph(line)] else [Paragraph(line)]
    ensures Nest(Open(inList, listType), out) == Some(Open(inList && !closes, listType))
  {
    NestPlain(Open(inList && !closes, listType), Paragraph(line));
    if closes {
      assert out[1..] == [Paragraph(line)];
    }
  }

  /** One line moves the open list exactly as its emitted tags say, and keeps it typed. */
  lemma EmitNests(html: string, inList: bool, listType: ListType, line: string)
    requires Typed(inList, listType)
    ensures var e := Emit(html, inList, listType, line);
      Typed(e.inList, e.listType) && Nest(Open(inList, listType), e.out) == Some(Open(e.inList, e.listType))
  {
    var t := Trim(line);
    var o := Open(inList, listType);
    if t == [] {
      BlankLine(html, inList, listType, line);
      if !inList && NeedsBreak(html) { NestPlain(o, LineBreak); }
    } else if StartsWith(t, Marker) {
      PlaceholderLine(html, inList, listType, line);
      NestCloseThen(inList, listType, Placeholder(t));
    } else if StartsWith(line, "### ") {
      HeadingThree(html, inList, listType, line);
      NestCloseThen(inList, listType, Heading(3, line[4..]));
    } else if StartsWith(line, "## ") {
      HeadingTwo(html, inList, listType, line);
      NestCloseThen(inList, listType, Heading(2, line[3..]));
    } else if StartsWith(line, "# ") {
      HeadingOne(html, inList, listType, line);
      NestCloseThen(inList, listType, Heading(1, line[2..]));
    } else if IsBulletItem(t) {
      BulletLine(html, inList, listType, line);
      NestItem(inList, listType, Ul, Ol, t[2..], Emit(html, inList, listType, line).out);
    } else if OrderedMarker(t) > 0 {
      OrderedLine(html, inList, listType, line);
      NestItem(inList, listType, Ol, Ul, t[OrderedMarker(t)..], Emit(html, inList, listType, line).out);
    } else {
      TextLine(html, inList, listType, line);
      NestText(inList, listType, inList && !StartsListLike(t), line, Emit(html, inList, listType, line).out);
    }
  }

  /** After any prefix of the lines, the emitted chunks are the HTML so far and leave open
      exactly the list the flags record. */
  lemma {:induction false} TraceNests(inline: string -> string, lines: seq<string>)
    ensures Steps(inline, lines).html == Html(inline, Trace(inline, lines))
    ensures Typed(Steps(inline, lines).inList, Steps(inline, lines).listType)
    ensures Nest(None, Trace(inline, lines)) == Some(Open(Steps(inline, lines).inList, Steps(inline, lines).listType))
    decreases |lines|
  {
    if lines != [] {
      var prefix := lines[..|lines| - 1];
      var st := Steps(inline, prefix);
      var e := Emit(st.html, st.inList, st.listType, lines[|lines| - 1]);
      TraceNests(inline, prefix);
      HtmlAppend(inline, Trace(inline, prefix), e.out);
      NestAppend(None, Trace(inline, prefix), e.out);
      EmitNests(st.html, st.inList, st.listType, lines[|lines| - 1]);
    }
  }

  /** The HTML after the final close is the rendering of a balanced chunk list: at most one
      list is open at any time and a list still open after the last line is closed. */
  lemma FinishBalanced(inline: string -> string, lines: seq<string>)
    ensures var st := Steps(inline, lines);
      Finish(st) == Html(inline, Trace(inline, lines) + FinalClose(st)) && Balanced(Trace(inline, lines) + FinalClose(st))
  {
    var st := Steps(inline, lines);
    TraceNests(inline, lines);
    HtmlAppend(inline, Trace(inline, lines), FinalClose(st));
    NestAppend(None, Trace(inline, lines), FinalClose(st));
    if st.inList {
      HtmlSingle(inline, CloseList(st.listType));
      assert [CloseList(st.listType)][1..] == [];
    }
  }

  // ---------------------------------------------------------------------------
  // The loop body as the source writes it: one method per handled case, each
  // appending to `html` and setting the flags as the source does before `continue`.

  /** The HTML of one, two or three emitted chunks, associated the way the loop body
      appends them. */
  lemma HtmlOne(inline: string -> string, h: string, a: Chunk)
    ensures h + Html(inline, [a]) == h + ChunkHtml(inline, a)
  {
    HtmlSingle(inline, a);
  }

  lemma HtmlTwo(inline: string -> string, h: string, a: Chunk, b: Chunk)
    ensures h + Html(inline, [a, b]) == h + ChunkHtml(inline, a) + ChunkHtml(inline, b)
  {
    assert [a, b][1..] == [b];
    HtmlSingle(inline, b);
  }

  /** `html += '</ol><ul>'` appends the close and open tags at once. */
  lemma HtmlToBullets(inline: string -> string, c: Chunk)
    ensures Html(inline, [CloseList(Ol), OpenList(Ul), c]) == "</ol><ul>" + ChunkHtml(inline, c)
  {
    var cs := [CloseList(Ol), OpenList(Ul), c];
    assert cs[1..] == [OpenList(Ul), c] && cs[1..][1..] == [c];
    HtmlSingle(inline, c);
    AppendAssoc("</ol>", "<ul>", ChunkHtml(inline, c));
    SwitchTags();
  }

  /** `html += '</ul><ol>'` likewise. */
  lemma HtmlToOrdered(inline: string -> string, c: Chunk)
    ensures Html(inline, [CloseList(Ul), OpenList(Ol), c]) == "</ul><ol>" + ChunkHtml(inline, c)
  {
    var cs := [CloseList(Ul), OpenList(Ol), c];
    assert cs[1..] == [OpenList(Ol), c] && cs[1..][1..] == [c];
    HtmlSingle(inline, c);
    AppendAssoc("</ul>", "<ol>", ChunkHtml(inline, c));
    SwitchTags();
  }

  lemma SwitchTags()
    ensures "</ol>" + "<ul>" == "</ol><ul>" && "</ul>" + "<ol>" == "</ul><ol>"
  {
  }

  /** Concatenation is associative. */
  lemma AppendAssoc(h: string, a: string, x: string)
    ensures h + a + x == h + (a + x)
  {
  }

  method BlankLineCase(inline: string -> string, html0: string, inList0: bool, listType0: ListType, line: string)
    returns (html: string, inList: bool, listType: ListType)
    requires Trim(line) == [] && !inList0
    ensures ParserState(html, inList, listType) == Step(inline, ParserState(html0, inList0, listType0), line)
  {
    BlankLine(html0, inList0, listType0, line);
    html, inList, listType := html0, inList0, listType0;
    if html != [] && !EndsWith(html, "</p>") && !EndsWith(html, "</h3>") && !EndsWith(html, "</h2>") && !EndsWith(html, "</h1>") {
      HtmlOne(inline, html0, LineBreak);
      html := html + "<br>";
    } else {
      assert Html(inline, []) == [];
    }
  }

  /** Closing the open list (if any) and then emitting `c`, as the source appends them. */
  lemma HtmlCloseThen(inline: string -> string, h: string, inList: bool, listType: ListType, c: Chunk)
    ensures h + Html(inline, CloseOpen(inList, listType) + [c]) == (if inList then h + CloseTag(listType) else h) + ChunkHtml(inline, c)
  {
    if inList {
      assert CloseOpen(inList, listType) + [c] == [CloseList(listType), c];
      HtmlTwo(inline, h, CloseList(listType), c);
    } else {
      assert CloseOpen(inList, listType) + [c] == [c];
      HtmlOne(inline, h, c);
    }
  }

  /** A placeholder line: close an open list, then append the trimmed line. */
  method PlaceholderCase(inline: string -> string, html0: string, inList0: bool, listType0: ListType, line: string)
    returns (html: string, inList: bool, listType: ListType)
    requires StartsWith(Trim(line), Marker)
    ensures ParserState(html, inList, listType) == Step(inline, ParserState(html0, inList0, listType0), line)
  {
    html, inList, listType := html0, inList0, listType0;
    if inList {
      html := html + CloseTag(listType);
      inList := false;
    }
    html := html + Trim(line);
    PlaceholderLine(html0, inList0, listType0, line);
    HtmlCloseThen(inline, html0, inList0, listType0, Placeholder(Trim(line)));
  }

  /** A heading line: close an open list, then append the heading of the right level. */
  method HeadingCase(inline: string -> string, html0: string, inList0: bool, listType0: ListType, line: string)
    returns (html: string, inList: bool, listType: ListType)
    requires !NoHeadingPrefix(line)
    ensures ParserState(html, inList, listType) == Step(inline, ParserState(html0, inList0, listType0), line)
  {
    html, inList, listType := html0, inList0, listType0;
    if inList {
      html := html + CloseTag(listType);
      inList := false;
    }
    ghost var c: Chunk;
    if StartsWith(line, "### ") {
      HeadingThree(html0, inList0, listType0, line);
      c := Heading(3, line[4..]);
      html := html + ("<h3>" + line[4..] + "</h3>");
    } else if StartsWith(line, "## ") {
      HeadingTwo(html0, inList0, listType0, line);
      c := Heading(2, line[3..]);
      html := html + ("<h2>" + line[3..] + "</h2>");
    } else {
      HeadingOne(html0, inList0, listType0, line);
      c := Heading(1, line[2..]);
      html := html + ("<h1>" + line[2..] + "</h1>");
    }
    HtmlCloseThen(inline, html0, inList0, listType0, c);
  }

  /** A `-`/`*` item: open or switch the list as needed, then append `<li>`. */
  method BulletItemCase(inline: string -> string, html0: string, inList0: bool, listType0: ListType, line: string)
    returns (html: string, inList: bool, listType: ListType)
    requires IsBulletItem(Trim(line))
    ensures ParserState(html, inList, listType) == Step(inline, ParserState(html0, inList0, listType0), line)
  {
    BulletLine(html0, inList0, listType0, line);
    html, inList, listType := html0, inList0, listType0;
    if !inList {
      html := html + "<ul>";
      inList := true;
      listType := Ul;
    } else if listType != Ul {
      html := html + "</ol><ul>";
      listType := Ul;
    }
    var content := Trim(line)[2..];
    html := html + ("<li>" + inline(content) + "</li>");
    ghost var e := Emit(html0, inList0, listType0, line);
    if !inList0 {
      HtmlTwo(inline, html0, OpenList(Ul), Item(content));
      assert html == html0 + Html(inline, e.out);
    } else if listType0 == Ul {
      HtmlOne(inline, html0, Item(content));
      assert html == html0 + Html(inline, e.out);
    } else {
      HtmlToBullets(inline, Item(content));
      AppendAssoc(html0, "</ol><ul>", ChunkHtml(inline, Item(content)));
      assert html == html0 + Html(inline, e.out);
    }
  }

  /** An `N. ` item: open or switch the list as needed, then append `<li>`. */
  method OrderedItemCase(inline: string -> string, html0: string, inList0: bool, listType0: ListType, line: string)
    returns (html: string, inList: bool, listType: ListType)
    requires !IsBulletItem(Trim(line)) && OrderedMarker(Trim(line)) > 0
    ensures ParserState(html, inList, listType) == Step(inline, ParserState(html0, inList0, listType0), line)
  {
    OrderedLine(html0, inList0, listType0, line);
    html, inList, listType := html0, inList0, listType0;
    if !inList {
      html := html + "<ol>";
      inList := true;
      listType := Ol;
    } else if listType != Ol {
      html := html + "</ul><ol>";
      listType := Ol;
    }
    var t := Trim(line);
    var content := t[OrderedMarker(t)..];
    html := html + ("<li>" + inline(content) + "</li>");
    ghost var e := Emit(html0, inList0, listType0, line);
    if !inList0 {
      HtmlTwo(inline, html0, OpenList(Ol), Item(content));
      assert html == html0 + Html(inline, e.out);
    } else if listType0 == Ol {
      HtmlOne(inline, html0, Item(content));
      assert html == html0 + Html(inline, e.out);
    } else {
      HtmlToOrdered(inline, Item(content));
      AppendAssoc(html0, "</ul><ol>", ChunkHtml(inline, Item(content)));
      assert html == html0 + Html(inline, e.out);
    }
  }

  /** Any other line: close the list on plain text, then append a paragraph if non-blank. */
  method TextLineCase(inline: string -> string, html0: string, inList0: bool, listType0: ListType, line: string)
    returns (html: string, inList: bool, listType: ListType)
    requires Trim(line) != [] || inList0
    requires !StartsWith(Trim(line), Marker) && NoHeadingPrefix(line)
    requires !IsBulletItem(Trim(line)) && OrderedMarker(Trim(line)) == 0
    ensures ParserState(html, inList, listType) == Step(inline, ParserState(html0, inList0, listType0), line)
  {
    html, inList, listType := html0, inList0, listType0;
    var t := Trim(line);
    if t == [] {
      BlankLine(html0, inList0, listType0, line);
      assert Html(inline, []) == [];
      return;
    }
    ghost var closes := inList0 && !StartsListLike(t);
    if inList && t != [] && !StartsListLike(t) {
      html := html + CloseTag(listType);
      inList := false;
    }
    assert html == if closes then html0 + CloseTag(listType0) else html0;
    html := html + ("<p>" + inline(line) + "</p>");
    TextLine(html0, inList0, listType0, line);
    HtmlCloseThen(inline, html0, closes, listType0, Paragraph(line));
    assert Emit(html0, inList0, listType0, line).out == CloseOpen(closes, listType0) + [Paragraph(line)];
  }

  /** One pass of the `for` body, dispatching in the order the source tests its cases. */
  method ProcessLine(inline: string -> string, html0: string, inList0: bool, listType0: ListType, line: string)
    returns (html: string, inList: bool, listType: ListType)
    ensures ParserState(html, inList, listType) == Step(inline, ParserState(html0, inList0, listType0), line)
  {
    var t := Trim(line);
    if t == [] && !inList0 {
      html, inList, listType := BlankLineCase(inline, html0, inList0, listType0, line);
    } else if StartsWith(t, Marker) {
      html, inList, listType := PlaceholderCase(inline, html0, inList0, listType0, line);
    } else if StartsWith(line, "### ") || StartsWith(line, "## ") || StartsWith(line, "# ") {
      html, inList, listType := HeadingCase(inline, html0, inList0, listType0, line);
    } else if IsBulletItem(t) {
      html, inList, listType := BulletItemCase(inline, html0, inList0, listType0, line);
    } else if OrderedMarker(t) > 0 {
      html, inList, listType := OrderedItemCase(inline, html0, inList0, listType0, line);
    } else {
      html, inList, listType := TextLineCase(inline, html0, inList0, listType0, line);
    }
  }

  /** The `for` loop over `lines`, from the initial state. */
  method ProcessLines(inline: string -> string, lines: seq<string>) returns (html: string, inList: bool, listType: ListType)
    ensures ParserState(html, inList, listType) == Steps(inline, lines)
  {
    html, inList, listType := "", false, NoType;
    for i := 0 to |lines|
      invariant ParserState(html, inList, listType) == Steps(inline, lines[..i])
    {
      assert lines[..i + 1][..i] == lines[..i];
      html, inList, listType := ProcessLine(inline, html, inList, listType, lines[i]);
    }
    assert lines[..|lines|] == lines;
  }

  // ---------------------------------------------------------------------------
  // Lines that never open a list

  /** A line whose first character is an ASCII letter. */
  predicate LetterStart(line: string) {
    line != [] && ('a' <= line[0] <= 'z' || 'A' <= line[0] <= 'Z')
  }

  /** Outside a list, a line that starts with a letter is none of the special cases: it is
      appended as a paragraph of the formatted line, and no list is open after it. */
  lemma ParagraphOutsideList(inline: string -> string, st: ParserState, line: string)
    requires !st.inList && LetterStart(line)
    ensures Step(inline, st, line) == ParserState(st.html + ("<p>" + inline(line) + "</p>"), false, st.listType)
  {
    LetterStartIsText(line);
    var e := Emit(st.html, false, st.listType, line);
    TextLine(st.html, false, st.listType, line);
    assert e == Emission([Paragraph(line)], false, st.listType);
    ParagraphHtml(inline, st.html, line);
  }

  lemma ParagraphHtml(inline: string -> string, h: string, line: string)
    ensures h + Html(inline, [Paragraph(line)]) == h + ("<p>" + inline(line) + "</p>")
  {
    HtmlOne(inline, h, Paragraph(line));
  }

  /** A line starting with a letter is not blank, a placeholder, a heading or a list item. */
  lemma LetterStartIsText(line: string)
    requires LetterStart(line)
    ensures Trim(line) != [] && !StartsWith(Trim(line), Marker) && NoHeadingPrefix(line)
    ensures !IsBulletItem(Trim(line)) && OrderedMarker(Trim(line)) == 0
  {
    assert !IsWhitespace(line[0]);
    TrimKeepsHead(line);
    var t := Trim(line);
    assert Marker[0] == '{';
    NotHeading(line);
    assert DigitRun(t) == 0;
  }

  /** A line emitted outside any list and leaving none open: paragraph text starting with a
      letter, or a placeholder standing alone. */
  predicate FlatLine(line: string) {
    LetterStart(line) || (StartsWith(line, Marker) && Trim(line) == line)
  }

  /** What such a line appends. */
  function FlatOut(inline: string -> string, line: string): string {
    if LetterStart(line) then "<p>" + inline(line) + "</p>" else line
  }

  /** The outputs of such lines, in order. */
  function FlatHtml(inline: string -> string, lines: seq<string>): string
    decreases |lines|
  {
    if lines == [] then [] else FlatOut(inline, lines[0]) + FlatHtml(inline, lines[1..])
  }

  lemma {:induction false} FlatHtmlSnoc(inline: string -> string, lines: seq<string>, x: string)
    ensures FlatHtml(inline, lines + [x]) == FlatHtml(inline, lines) + FlatOut(inline, x)
    decreases |lines|
  {
    if lines == [] {
      assert [] + [x] == [x] && [x][1..] == [];
    } else {
      assert (lines + [x])[1..] == lines[1..] + [x];
      FlatHtmlSnoc(inline, lines[1..], x);
      AppendAssoc(FlatOut(inline, lines[0]), FlatHtml(inline, lines[1..]), FlatOut(inline, x));
    }
  }

  /** One such line, outside a list: its output is appended and no list is open after it. */
  lemma FlatStep(inline: string -> string, st: ParserState, line: string)
    requires !st.inList && FlatLine(line)
    ensures Step(inline, st, line) == ParserState(st.html + FlatOut(inline, line), false, st.listType)
  {
    if LetterStart(line) {
      ParagraphOutsideList(inline, st, line);
    } else {
      PlaceholderOutsideList(inline, st, line);
    }
  }

  /** Over lines that are each paragraph text or a lone placeholder, the loop never opens a
      list, and `html` is the lines' outputs one after the other. */
  lemma {:induction false} StepsFlat(inline: string -> string, lines: seq<string>)
    requires forall i :: 0 <= i < |lines| ==> FlatLine(lines[i])
    ensures Steps(inline, lines) == ParserState(FlatHtml(inline, lines), false, NoType)
    decreases |lines|
  {
    if lines != [] {
      var init, last := lines[..|lines| - 1], lines[|lines| - 1];
      forall i | 0 <= i < |init|
        ensures FlatLine(init[i])
      {
        assert init[i] == lines[i];
      }
      StepsFlat(inline, init);
      FlatStep(inline, Steps(inline, init), last);
      InitLast(lines);
      FlatHtmlSnoc(inline, init, last);
    }
  }

  lemma InitLast<T>(xs: seq<T>)
    requires xs != []
    ensures xs == xs[..|xs| - 1] + [xs[|xs| - 1]]
  {
  }
}
