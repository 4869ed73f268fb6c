/**
 * Fenced code blocks: the first and last phases of the renderer.
 *
 * Phase 1 replaces every match of "three backticks, a word-character language tag,
 * a newline, a lazy body, three backticks" by a placeholder `{{CODE_BLOCK_n}}` and
 * records the block's HTML (language class, trimmed and escaped body) at index n.
 * Phase 3 replaces every `{{CODE_BLOCK_<digits>}}` in the output by the recorded
 * block with that index, or by the text `undefined` when there is none.
 */
module CodeBlocks {
  import opened Wrappers
  import opened JsString
  import opened HtmlEscape

  const Backticks: string := "```"

  /** A fence found at the head of the text: the length it spans, its language tag and its body. */
  datatype Fence = Fence(len: nat, lang: string, body: string)

  /** The text a fence with this tag and body spans. */
  function FenceText(lang: string, body: string): string {
    Backticks + lang + "\n" + body + Backticks
  }

  /** Three backticks start at position `j` of `u`. */
  predicate TicksAt(u: string, j: int) {
    0 <= j && j + 3 <= |u| && u[j] == '`' && u[j + 1] == '`' && u[j + 2] == '`'
  }

  /** No three backticks start before position `k` of `u`. */
  predicate NoTicksBefore(u: string, k: int) {
    forall j :: 0 <= j < k ==> !TicksAt(u, j)
  }

  /** What the fence regex can capture: a tag of `\w` characters, and a body that the lazy
      `[\s\S]*?` ends at the first closing backticks, so no closer starts inside it. */
  predicate WellFormedFence(lang: string, body: string) {
    (forall i :: 0 <= i < |lang| ==> IsWordChar(lang[i])) && NoTicksBefore(body + Backticks, |body|)
  }

  /** Where the lazy body ends: the first position of three backticks, or -1 when there is none
      (stated by FirstTicksIsFirst). */
  function FirstTicks(u: string): (k: int)
    ensures -1 <= k && (k >= 0 ==> k + 3 <= |u|)
    decreases |u|
  {
    if |u| < 3 then -1
    else if TicksAt(u, 0) then 0
    else
      var r := FirstTicks(u[1..]);
      if r < 0 then -1 else r + 1
  }

  lemma TicksAtTail(u: string, j: int)
    requires u != [] && 0 <= j
    ensures TicksAt(u[1..], j) <==> TicksAt(u, j + 1)
  {
  }

  /** FirstTicks finds three backticks and none earlier; -1 means there are none. */
  lemma {:induction false} FirstTicksIsFirst(u: string)
    ensures FirstTicks(u) >= 0 ==> TicksAt(u, FirstTicks(u)) && NoTicksBefore(u, FirstTicks(u))
    ensures FirstTicks(u) < 0 ==> NoTicksBefore(u, |u|)
    decreases |u|
  {
    if |u| >= 3 && !TicksAt(u, 0) {
      FirstTicksIsFirst(u[1..]);
      forall j | 1 <= j <= |u| ensures TicksAt(u, j) <==> TicksAt(u[1..], j - 1) {
        TicksAtTail(u, j - 1);
      }
    }
  }

  /** The pieces FenceAt recognises make up a well-formed fence. */
  lemma FenceFound(s: string, w: nat, k: nat)
    requires TicksAt(s, 0) && 4 + w <= |s| && s[3 + w] == '\n'
    requires forall i :: 0 <= i < w ==> IsWordChar(s[3..][i])
    requires TicksAt(s[4 + w..], k) && NoTicksBefore(s[4 + w..], k)
    ensures w + k + 7 <= |s|
    ensures WellFormedFence(s[3..3 + w], s[4 + w..4 + w + k])
    ensures s[..w + k + 7] == FenceText(s[3..3 + w], s[4 + w..4 + w + k])
  {
    var u := s[4 + w..];
    var lang, body := s[3..3 + w], s[4 + w..4 + w + k];
    var v := body + Backticks;
    assert v == u[..k + 3];
    forall j | 0 <= j < k ensures !TicksAt(v, j) {
      assert !TicksAt(u, j);
      assert v[j] == u[j] && v[j + 1] == u[j + 1] && v[j + 2] == u[j + 2];
    }
    assert forall i :: 0 <= i < w ==> lang[i] == s[3..][i];
    assert s[..w + k + 7] == s[..3] + lang + [s[3 + w]] + (body + Backticks);
  }

  /** The fence regex tried at the head of `s`. What a match captures is stated by FenceAtSound. */
  function FenceAt(s: string): (r: Option<Fence>)
    ensures r.Some? ==> 7 <= r.value.len <= |s| && s[0] == '`'
  {
    if TicksAt(s, 0) then
      var w := WordRun(s[3..]);
      if 4 + w <= |s| && s[3 + w] == '\n' then
        var k := FirstTicks(s[4 + w..]);
        if k >= 0 then Some(Fence(w + k + 7, s[3..3 + w], s[4 + w..4 + w + k])) else None
      else None
    else None
  }

  /** A match spans a fence of exactly the captured tag and body, and those are ones the regex can capture. */
  lemma FenceAtSound(s: string)
    requires FenceAt(s).Some?
    ensures var f := FenceAt(s).value;
      WellFormedFence(f.lang, f.body) && f.len == |FenceText(f.lang, f.body)| && s[..f.len] == FenceText(f.lang, f.body)
  {
    var w := WordRun(s[3..]);
    var k := FirstTicks(s[4 + w..]);
    assert FenceAt(s).value == Fence(w + k + 7, s[3..3 + w], s[4 + w..4 + w + k]);
    FirstTicksIsFirst(s[4 + w..]);
    FenceFound(s, w, k);
  }

  /** The converse of FenceAtSound: a well-formed fence at the head is found, with its tag and body. */
  lemma FenceAtComplete(lang: string, body: string, rest: string)
    requires WellFormedFence(lang, body)
    ensures FenceAt(FenceText(lang, body) + rest) == Some(Fence(|FenceText(lang, body)|, lang, body))
  {
    var s := FenceText(lang, body) + rest;
    assert TicksAt(s, 0) && s[3..] == lang + "\n" + (body + Backticks + rest);
    FenceAtOf(s, lang, body, rest);
  }

  /** FenceAt on a text that splits as a fence followed by `rest`. */
  lemma FenceAtOf(s: string, lang: string, body: string, rest: string)
    requires WellFormedFence(lang, body)
    requires TicksAt(s, 0) && s[3..] == lang + "\n" + (body + Backticks + rest)
    ensures FenceAt(s) == Some(Fence(|lang| + |body| + 7, lang, body))
  {
    var w := |lang|;
    TagRun(lang, body + Backticks + rest);
    assert s[3 + w] == s[3..][w] == '\n';
    assert s[4 + w..] == s[3..][w + 1..] == body + Backticks + rest;
    FirstTicksOf(body, rest);
    assert s[3..3 + w] == s[3..][..w] == lang;
    assert s[4 + w..4 + w + |body|] == s[4 + w..][..|body|] == body;
  }

  /** The greedy `\w*` stops exactly at the newline after the tag. */
  lemma TagRun(lang: string, x: string)
    requires forall i :: 0 <= i < |lang| ==> IsWordChar(lang[i])
    ensures WordRun(lang + "\n" + x) == |lang|
  {
    var t := lang + "\n" + x;
    assert forall i :: 0 <= i < |lang| ==> t[i] == lang[i];
    assert t[|lang|] == '\n';
  }

  /** The lazy body of a well-formed fence ends at its own closer. */
  lemma FirstTicksOf(body: string, rest: string)
    requires NoTicksBefore(body + Backticks, |body|)
    ensures FirstTicks(body + Backticks + rest) == |body|
  {
    var u := body + Backticks + rest;
    var v := body + Backticks;
    FirstTicksIsFirst(u);
    assert TicksAt(u, |body|);
    assert forall i :: 0 <= i < |v| ==> u[i] == v[i];
    forall j | 0 <= j < |body| ensures !TicksAt(u, j) {
      assert !TicksAt(v, j);
    }
  }

  const Marker: string := "{{CODE_BLOCK_"

  /** The placeholder `{{CODE_BLOCK_${n}}}`. */
  function Token(n: nat): string {
    Marker + Decimal(n) + "}}"
  }

  /** `lang || 'plaintext'` */
  function Language(lang: string): string {
    if lang == [] then "plaintext" else lang
  }

  function BlockOpen(lang: string): string {
    "<pre><code class=\"language-" + Language(lang) + "\">"
  }

  /** The HTML recorded for a fenced block. */
  function CodeBlockHtml(lang: string, body: string): string {
    BlockOpen(lang) + EscapeHtml(Trim(body)) + "</code></pre>"
  }

  /** A block shows exactly the trimmed code: its content holds no markup character and
      decodes back to the trimmed body. */
  lemma CodeBlockShowsTrimmedCode(lang: string, body: string)
    ensures exists e :: CodeBlockHtml(lang, body) == BlockOpen(lang) + e + "</code></pre>"
                     && NoMarkupChars(e) && Unescape(e) == Trim(body)
  {
    var e := EscapeHtml(Trim(body));
    EscapeHtmlNoMarkupChars(Trim(body));
    UnescapeEscapeHtml(Trim(body));
    assert CodeBlockHtml(lang, body) == BlockOpen(lang) + e + "</code></pre>";
  }

  /** Phase 1's result: the text with placeholders, and the fences found, in order. */
  datatype Extraction = Extraction(processed: string, fences: seq<Fence>)

  /** The list the callback builds: the HTML of each fence, in the order found. */
  function BlocksOf(fences: seq<Fence>): (r: seq<string>)
    ensures |r| == |fences|
    ensures forall i :: 0 <= i < |fences| ==> r[i] == CodeBlockHtml(fences[i].lang, fences[i].body)
  {
    if fences == [] then [] else [CodeBlockHtml(fences[0].lang, fences[0].body)] + BlocksOf(fences[1..])
  }

  /** A fence located in the text: where it starts and what it is. */
  datatype Located = Located(at: nat, fence: Fence)

  /** The first position at which the fence regex matches (stated by NextFenceIsFirst). */
  function NextFence(s: string): (r: Option<Located>)
    ensures r.Some? ==> 7 <= r.value.fence.len && r.value.at + r.value.fence.len <= |s|
    decreases |s|
  {
    if s == [] then None
    else match FenceAt(s)
      case Some(f) => Some(Located(0, f))
      case None =>
        match NextFence(s[1..])
        case Some(l) => Some(Located(l.at + 1, l.fence))
        case None => None
  }

  /** NextFence finds a fence, and no fence starts earlier; with no result, none starts anywhere. */
  lemma {:induction false} NextFenceIsFirst(s: string)
    ensures NextFence(s).Some? ==> FenceAt(s[NextFence(s).value.at..]) == Some(NextFence(s).value.fence)
    ensures forall j :: 0 <= j < (if NextFence(s).Some? then NextFence(s).value.at else |s|) ==> FenceAt(s[j..]).None?
    decreases |s|
  {
    if s != [] && FenceAt(s).None? {
      NextFenceIsFirst(s[1..]);
      forall j | 1 <= j <= |s| ensures s[1..][j - 1..] == s[j..] { }
    }
  }

  /** Reference definition of what phases 1 and 3 together do to text outside the line
      processing: each fence, from left to right, is replaced directly by its block, the
      first by `blocks[n]`, the next by `blocks[n + 1]`, and so on. */
  function Splice(s: string, blocks: seq<string>, n: nat): string
    decreases |s|
  {
    match NextFence(s)
    case None => s
    case Some(l) => s[..l.at] + Lookup(blocks, n) + Splice(s[l.at + l.fence.len..], blocks, n + 1)
  }

  /** `s.replace(fenceRegex, callback)` where the callback's list already holds `n` blocks:
      the text up to the earliest match is kept, the match becomes placeholder `n`, and the
      search resumes after the match with the next number. */
  function Extract(s: string, n: nat): (r: Extraction)
    decreases |s|
  {
    match NextFence(s)
    case None => Extraction(s, [])
    case Some(l) =>
      var r := Extract(s[l.at + l.fence.len..], n + 1);
      Extraction(s[..l.at] + Token(n) + r.processed, [l.fence] + r.fences)
  }

  /** A match of the placeholder regex: its length and the parsed index. */
  datatype TokenMatch = TokenMatch(len: nat, index: nat)

  /** `{{CODE_BLOCK_(\d+)}}` at the head of `h`. */
  function TokenAt(h: string): (r: Option<TokenMatch>)
    ensures r.Some? ==> StartsWith(h, Marker) && |Marker| + 3 <= r.value.len <= |h|
  {
    if StartsWith(h, Marker) then
      var t := h[|Marker|..];
      var d := DigitRun(t);
      if d > 0 && StartsWith(t[d..], "}}") then Some(TokenMatch(|Marker| + d + 2, DecimalValue(t[..d])))
      else None
    else None
  }

  /** `codeBlocks[parseInt(index, 10)]`, which the replacement turns into `undefined`
      when the index is past the end. */
  function Lookup(blocks: seq<string>, k: nat): string {
    if k < |blocks| then blocks[k] else "undefined"
  }

  /** `html.replace(/{{CODE_BLOCK_(\d+)}}/g, ...)` */
  function Restore(h: string, blocks: seq<string>): string
    decreases |h|
  {
    if h == [] then []
    else if h[0] != '{' then [h[0]] + Restore(h[1..], blocks)
    else match TokenAt(h)
      case Some(m) => Lookup(blocks, m.index) + Restore(h[m.len..], blocks)
      case None => [h[0]] + Restore(h[1..], blocks)
  }

  /** The placeholder for block `n` is read back as index `n`. */
  lemma TokenAtToken(n: nat, rest: string)
    ensures TokenAt(Token(n) + rest) == Some(TokenMatch(|Token(n)|, n))
  {
    var h := Token(n) + rest;
    var ds := Decimal(n);
    assert h[..|Marker|] == Marker;
    var t := h[|Marker|..];
    assert t == ds + ("}}" + rest);
    var d := DigitRun(t);
    assert forall i :: 0 <= i < |ds| ==> t[i] == ds[i];
    assert t[|ds|] == '}';
    assert d == |ds|;
    assert t[..d] == ds;
    assert t[d..] == "}}" + rest;
    DecimalValueOfDecimal(n);
  }

  lemma RestoreToken(n: nat, rest: string, blocks: seq<string>)
    ensures Restore(Token(n) + rest, blocks) == Lookup(blocks, n) + Restore(rest, blocks)
  {
    TokenAtToken(n, rest);
    assert (Token(n) + rest)[|Token(n)|..] == rest;
  }

  /** A character that cannot start the placeholder regex is copied by phase 3. */
  lemma RestoreCopies(h: string, blocks: seq<string>)
    requires h != [] && !StartsWith(h, Marker)
    ensures Restore(h, blocks) == [h[0]] + Restore(h[1..], blocks)
  {
  }

  /** The marker cannot begin inside `a` and end in a text that starts with `{{`. */
  lemma MarkerNotAcross(a: string, b: string)
    requires a != [] && NoOccurrence(a, Marker) && (b == [] || StartsWith(b, "{{"))
    ensures !StartsWith(a + b, Marker)
  {
    var h := a + b;
    if |a| >= |Marker| {
      assert h[..|Marker|] == a[..|Marker|];
      assert !OccursAt(a, Marker, 0);
    } else if b == [] {
      assert |h| < |Marker|;
    } else if |a| >= 2 {
      assert h[|a|] == '{' && Marker[|a|] != '{';
    } else {
      assert h[2] == '{' && Marker[2] == 'C';
    }
  }

  /** Text without the marker, followed by nothing or by a placeholder, passes through phase 3. */
  lemma {:induction false} RestorePlainPrefix(a: string, b: string, blocks: seq<string>)
    requires NoOccurrence(a, Marker) && (b == [] || StartsWith(b, "{{"))
    ensures Restore(a + b, blocks) == a + Restore(b, blocks)
    decreases |a|
  {
    if a == [] {
      assert a + b == b;
    } else {
      MarkerFreeParts(a, 1, 1);
      RestorePlainPrefix(a[1..], b, blocks);
      RestoreCopiesHead(a, b, blocks);
      ConsAppend(a, Restore(b, blocks));
    }
  }

  /** The first character of marker-free text in front of a placeholder is copied. */
  lemma RestoreCopiesHead(a: string, b: string, blocks: seq<string>)
    requires a != [] && NoOccurrence(a, Marker) && (b == [] || StartsWith(b, "{{"))
    ensures Restore(a + b, blocks) == [a[0]] + Restore(a[1..] + b, blocks)
  {
    MarkerNotAcross(a, b);
    AppendTail(a, b);
    RestoreCopies(a + b, blocks);
  }

  /** Phases 1 and 3 are inverse on text that does not itself contain the marker: restoring
      the placeholders gives the text with each fence replaced directly by its block. */
  lemma {:induction false} RestoreExtract(s: string, n: nat, blocks: seq<string>)
    requires NoOccurrence(s, Marker)
    ensures Restore(Extract(s, n).processed, blocks) == Splice(s, blocks, n)
    decreases |s|
  {
    match NextFence(s)
    case None =>
      RestoreNoFence(s, n, blocks);
    case Some(l) =>
      var rest := s[l.at + l.fence.len..];
      RestoreExtractStep(s, n, blocks, l);
      RestoreExtract(rest, n + 1, blocks);
      SpliceStep(s, blocks, n, l);
  }

  lemma RestoreNoFence(s: string, n: nat, blocks: seq<string>)
    requires NoOccurrence(s, Marker) && NextFence(s).None?
    ensures Restore(Extract(s, n).processed, blocks) == Splice(s, blocks, n)
  {
    RestorePlainPrefix(s, [], blocks);
    assert s + [] == s;
  }

  /** Phase 1 at the first fence: the text before it, its placeholder, then the rest. */
  lemma ExtractStep(s: string, n: nat, l: Located)
    requires NextFence(s) == Some(l)
    ensures var r := Extract(s[l.at + l.fence.len..], n + 1);
      Extract(s, n) == Extraction(s[..l.at] + Token(n) + r.processed, [l.fence] + r.fences)
  {
  }

  /** The reference replacement at the first fence. */
  lemma SpliceStep(s: string, blocks: seq<string>, n: nat, l: Located)
    requires NextFence(s) == Some(l)
    ensures Splice(s, blocks, n) == s[..l.at] + Lookup(blocks, n) + Splice(s[l.at + l.fence.len..], blocks, n + 1)
  {
  }

  /** One step of RestoreExtract: phase 3 looks placeholder `n` up again, and the rest of the
      text is still free of the marker. */
  lemma RestoreExtractStep(s: string, n: nat, blocks: seq<string>, l: Located)
    requires NoOccurrence(s, Marker) && NextFence(s) == Some(l)
    ensures var rest := s[l.at + l.fence.len..];
      NoOccurrence(rest, Marker)
      && Restore(Extract(s, n).processed, blocks) == s[..l.at] + Lookup(blocks, n) + Restore(Extract(rest, n + 1).processed, blocks)
  {
    var rest := s[l.at + l.fence.len..];
    ExtractStep(s, n, l);
    MarkerFreeParts(s, l.at, l.at + l.fence.len);
    assert NoOccurrence(rest, Marker);
    RestoreBlock(s[..l.at], n, Extract(rest, n + 1).processed, blocks);
  }

  /** The text around a fence is as free of the marker as the whole. */
  lemma MarkerFreeParts(s: string, i: nat, j: nat)
    requires i <= j <= |s| && NoOccurrence(s, Marker)
    ensures NoOccurrence(s[..i], Marker) && NoOccurrence(s[j..], Marker)
  {
    NoOccurrenceInSlice(s, Marker, 0, i);
    NoOccurrenceInSlice(s, Marker, j, |s|);
    assert s[0..i] == s[..i] && s[j..|s|] == s[j..];
  }

  /** Marker-free text, then placeholder `n`: the text is kept and the placeholder looked up. */
  lemma RestoreBlock(a: string, n: nat, p: string, blocks: seq<string>)
    requires NoOccurrence(a, Marker)
    ensures Restore(a + Token(n) + p, blocks) == a + Lookup(blocks, n) + Restore(p, blocks)
  {
    RestorePlainPrefix(a, Token(n) + p, blocks);
    RestoreToken(n, p, blocks);
    assert a + Token(n) + p == a + (Token(n) + p);
  }

  /** The renderer's use: placeholders numbered from 0 and restored with the list phase 1
      built, so the `i`-th fence is replaced by the HTML of the `i`-th fence found. */
  lemma RestoreExtracted(s: string)
    requires NoOccurrence(s, Marker)
    ensures var e := Extract(s, 0); Restore(e.processed, BlocksOf(e.fences)) == Splice(s, BlocksOf(e.fences), 0)
  {
    RestoreExtract(s, 0, BlocksOf(Extract(s, 0).fences));
  }

  // ---------------------------------------------------------------------------
  // Text around the fences

  /** A prefix without a backtick holds no start of a fence: the earliest fence of `p + t`
      is the earliest fence of `t`, shifted by `|p|`, and there is none when `t` has none. */
  lemma {:induction false} NextFenceAfterPlain(p: string, t: string)
    requires '`' !in p
    ensures NextFence(t).None? ==> NextFence(p + t).None?
    ensures NextFence(t).Some? ==> NextFence(p + t) == Some(Located(|p| + NextFence(t).value.at, NextFence(t).value.fence))
    decreases |p|
  {
    if p == [] {
      assert p + t == t;
    } else {
      assert p[0] in p;
      AppendTail(p, t);
      assert forall c :: c in p[1..] ==> c in p;
      NextFenceAfterPlain(p[1..], t);
    }
  }

  /** Phase 1 passes a prefix without a backtick through unchanged. */
  lemma ExtractAfterPlain(p: string, t: string, n: nat)
    requires '`' !in p
    ensures Extract(p + t, n) == Extraction(p + Extract(t, n).processed, Extract(t, n).fences)
  {
    NextFenceAfterPlain(p, t);
    if NextFence(t).Some? {
      ExtractAfterPlainAt(p, t, n, NextFence(t).value);
    }
  }

  lemma ExtractAfterPlainAt(p: string, t: string, n: nat, l: Located)
    requires NextFence(t) == Some(l) && NextFence(p + t) == Some(Located(|p| + l.at, l.fence))
    ensures Extract(p + t, n) == Extraction(p + Extract(t, n).processed, Extract(t, n).fences)
  {
    var s, cut := p + t, l.at + l.fence.len;
    var a, b := t[..l.at], t[cut..];
    ExtractStepAt(t, n, l, a, b);
    SliceAfter(p, t, l.at, cut);
    ExtractStepAt(s, n, Located(|p| + l.at, l.fence), p + a, b);
    ThreeAssoc(p, a, Token(n), Extract(b, n + 1).processed);
  }

  lemma SliceAfter(p: string, t: string, i: nat, j: nat)
    requires i <= j <= |t|
    ensures (p + t)[..|p| + i] == p + t[..i] && (p + t)[|p| + j..] == t[j..]
  {
  }

  /** ExtractStep with the text before and after the fence given by name. */
  lemma ExtractStepAt(s: string, n: nat, l: Located, before: string, after: string)
    requires NextFence(s) == Some(l) && before == s[..l.at] && after == s[l.at + l.fence.len..]
    ensures Extract(s, n) == Extraction(before + Token(n) + Extract(after, n + 1).processed, [l.fence] + Extract(after, n + 1).fences)
  {
  }

  /** A well-formed fence at the head becomes placeholder `n`, its fence is recorded first,
      and the scan resumes right after it with the next number. */
  lemma ExtractAtFence(lang: string, body: string, t: string, n: nat, e: Extraction)
    requires WellFormedFence(lang, body) && Extract(t, n + 1) == e
    ensures Extract(FenceText(lang, body) + t, n) == Extraction(Token(n) + e.processed, [Fence(|FenceText(lang, body)|, lang, body)] + e.fences)
  {
    var f := FenceText(lang, body);
    var s := f + t;
    FenceAtComplete(lang, body, t);
    var l := Located(0, Fence(|f|, lang, body));
    assert NextFence(s) == Some(l);
    assert s[..0] == [] && s[|f|..] == t;
    ExtractStepAt(s, n, l, [], t);
    assert [] + Token(n) == Token(n);
  }

  /** Text without an opening brace passes phase 3 unchanged. */
  lemma {:induction false} RestoreNoBrace(a: string, b: string, blocks: seq<string>)
    requires '{' !in a
    ensures Restore(a + b, blocks) == a + Restore(b, blocks)
    decreases |a|
  {
    if a == [] {
      assert a + b == b;
    } else {
      assert a[0] in a;
      AppendTail(a, b);
      assert forall c :: c in a[1..] ==> c in a;
      RestoreNoBrace(a[1..], b, blocks);
      ConsAppend(a, Restore(b, blocks));
    }
  }

  // ---------------------------------------------------------------------------
  // Pass 1 as the source runs it: `replace` with a callback that pushes onto
  // `codeBlocks` and returns the placeholder for the new block's index.

  /** What is done so far in front of what the rest of the text yields. */
  function Prepend(processed: string, fences: seq<Fence>, e: Extraction): Extraction {
    Extraction(processed + e.processed, fences + e.fences)
  }

  /** One callback call: the text before the fence and its placeholder move to the done
      part, and the fence is recorded; the overall result stays the same. */
  lemma ExtractLoopStep(processed: string, fences: seq<Fence>, rest: string, l: Located)
    requires NextFence(rest) == Some(l)
    ensures Prepend(processed, fences, Extract(rest, |fences|)) ==
      Prepend(processed + rest[..l.at] + Token(|fences|), fences + [l.fence], Extract(rest[l.at + l.fence.len..], |fences| + 1))
  {
    ExtractStep(rest, |fences|, l);
    var r := Extract(rest[l.at + l.fence.len..], |fences| + 1);
    ThreeAssoc(processed, rest[..l.at], Token(|fences|), r.processed);
    assert fences + ([l.fence] + r.fences) == fences + [l.fence] + r.fences;
  }

  lemma ThreeAssoc(p: string, a: string, t: string, q: string)
    ensures p + (a + t + q) == p + a + t + q
  {
  }

  lemma BlocksOfSnoc(fences: seq<Fence>, f: Fence)
    ensures BlocksOf(fences + [f]) == BlocksOf(fences) + [CodeBlockHtml(f.lang, f.body)]
  {
    var a, b := BlocksOf(fences + [f]), BlocksOf(fences) + [CodeBlockHtml(f.lang, f.body)];
    assert |a| == |b|;
    forall i | 0 <= i < |a| ensures a[i] == b[i] {
      assert (fences + [f])[i] == if i < |fences| then fences[i] else f;
    }
  }

  /** The loop invariant of the fence `replace`: the blocks pushed so far are the HTML of
      the fences found so far, and what is done so far followed by what the rest of the
      text yields is the whole extraction. */
  ghost predicate ExtractInv(markdown: string, processed: string, codeBlocks: seq<string>, fences: seq<Fence>, rest: string) {
    codeBlocks == BlocksOf(fences) && Prepend(processed, fences, Extract(rest, |fences|)) == Extract(markdown, 0)
  }

  lemma ExtractInvInit(markdown: string)
    ensures ExtractInv(markdown, [], [], [], markdown)
  {
    var e := Extract(markdown, 0);
    assert [] + e.processed == e.processed && [] + e.fences == e.fences;
  }

  lemma ExtractInvStep(markdown: string, processed: string, codeBlocks: seq<string>, fences: seq<Fence>, rest: string, l: Located)
    requires ExtractInv(markdown, processed, codeBlocks, fences, rest)
    requires NextFence(rest) == Some(l)
    ensures |codeBlocks| == |fences|
    ensures ExtractInv(markdown, processed + rest[..l.at] + Token(|codeBlocks|), codeBlocks + [CodeBlockHtml(l.fence.lang, l.fence.body)],
      fences + [l.fence], rest[l.at + l.fence.len..])
  {
    ExtractLoopStep(processed, fences, rest, l);
    BlocksOfSnoc(fences, l.fence);
  }

  lemma ExtractInvDone(markdown: string, processed: string, codeBlocks: seq<string>, fences: seq<Fence>, rest: string)
    requires ExtractInv(markdown, processed, codeBlocks, fences, rest)
    requires NextFence(rest) == None
    ensures processed + rest == Extract(markdown, 0).processed
    ensures codeBlocks == BlocksOf(Extract(markdown, 0).fences)
  {
    assert Extract(rest, |fences|) == Extraction(rest, []);
    assert fences + [] == fences;
  }

  /** The fence `replace`: the text with each fence, left to right, replaced by its
      placeholder, and the list of code-block HTML the callback pushed. */
  method ExtractCodeBlocks(markdown: string) returns (processed: string, codeBlocks: seq<string>)
    ensures processed == Extract(markdown, 0).processed
    ensures codeBlocks == BlocksOf(Extract(markdown, 0).fences)
  {
    processed, codeBlocks := [], [];
    ghost var fences: seq<Fence> := [];
    var rest := markdown;
    ExtractInvInit(markdown);
    while NextFence(rest).Some?
      invariant ExtractInv(markdown, processed, codeBlocks, fences, rest)
      decreases |rest|
    {
      var l := NextFence(rest).value;
      ExtractInvStep(markdown, processed, codeBlocks, fences, rest, l);
      processed := processed + rest[..l.at] + Token(|codeBlocks|);
      codeBlocks := codeBlocks + [CodeBlockHtml(l.fence.lang, l.fence.body)];
      fences := fences + [l.fence];
      rest := rest[l.at + l.fence.len..];
    }
    ExtractInvDone(markdown, processed, codeBlocks, fences, rest);
    processed := processed + rest;
  }
}
