/**
 * The `escapeHtml` helper of the renderer: a chain of five global
 * single-character replacements, `&` first, then `<`, `>`, `"` and `'`.
 */
module HtmlEscape {
  import opened JsString

  /** The entity each special character becomes; every other character stays as it is. */
  function EscapeChar(c: char): string {
    match c
    case '&' => "&amp;"
    case '<' => "&lt;"
    case '>' => "&gt;"
    case '"' => "&quot;"
    case '\'' => "&#039;"
    case _ => [c]
  }

  /** Reference definition: escape each character independently. */
  function Escape(s: string): string
    decreases |s|
  {
    if s == [] then [] else EscapeChar(s[0]) + Escape(s[1..])
  }

  /** `s.replace(/c/g, rep)` for a single-character pattern. */
  function ReplaceChar(s: string, c: char, rep: string): string
    decreases |s|
  {
    if s == [] then [] else (if s[0] == c then rep else [s[0]]) + ReplaceChar(s[1..], c, rep)
  }

  /** `escapeHtml(unsafe)` exactly as chained in the source. */
  function EscapeHtml(unsafe: string): string {
    ReplaceChar(ReplaceChar(ReplaceChar(ReplaceChar(ReplaceChar(unsafe, '&', "&amp;"), '<', "&lt;"), '>', "&gt;"), '"', "&quot;"), '\'', "&#039;")
  }

  lemma {:induction false} ReplaceCharAppend(a: string, b: string, c: char, rep: string)
    ensures ReplaceChar(a + b, c, rep) == ReplaceChar(a, c, rep) + ReplaceChar(b, c, rep)
    decreases |a|
  {
    if a != [] {
      assert (a + b)[1..] == a[1..] + b;
      ReplaceCharAppend(a[1..], b, c, rep);
    } else {
      assert a + b == b;
    }
  }

  lemma EscapeHtmlAppend(a: string, b: string)
    ensures EscapeHtml(a + b) == EscapeHtml(a) + EscapeHtml(b)
  {
    var a1, b1 := ReplaceChar(a, '&', "&amp;"), ReplaceChar(b, '&', "&amp;");
    ReplaceCharAppend(a, b, '&', "&amp;");
    var a2, b2 := ReplaceChar(a1, '<', "&lt;"), ReplaceChar(b1, '<', "&lt;");
    ReplaceCharAppend(a1, b1, '<', "&lt;");
    var a3, b3 := ReplaceChar(a2, '>', "&gt;"), ReplaceChar(b2, '>', "&gt;");
    ReplaceCharAppend(a2, b2, '>', "&gt;");
    var a4, b4 := ReplaceChar(a3, '"', "&quot;"), ReplaceChar(b3, '"', "&quot;");
    ReplaceCharAppend(a3, b3, '"', "&quot;");
    ReplaceCharAppend(a4, b4, '\'', "&#039;");
  }

  /** A string without the pattern character is left unchanged by its replacement. */
  lemma {:induction false} ReplaceCharAbsent(s: string, c: char, rep: string)
    requires c !in s
    ensures ReplaceChar(s, c, rep) == s
    decreases |s|
  {
    if s != [] {
      assert s[0] in s;
      assert forall x :: x in s[1..] ==> x in s;
      ReplaceCharAbsent(s[1..], c, rep);
    }
  }

  lemma ReplaceCharSingle(x: char, c: char, rep: string)
    ensures ReplaceChar([x], c, rep) == if x == c then rep else [x]
  {
    assert [x][1..] == [];
  }

  /** One character through the chain: at most one stage rewrites it, because no entity
      introduced by a stage holds a character that a later stage replaces. `k` is the
      stage that rewrites `c`, or 5 when none does. */
  lemma EscapeHtmlCharAt(c: char, k: nat)
    requires k <= 5
    requires forall j :: 0 <= j < 5 && j != k ==> c != SpecialAt(j)
    requires k < 5 ==> c == SpecialAt(k)
    ensures EscapeHtml([c]) == if k < 5 then EntityAt(k) else [c]
  {
    var s0 := [c];
    var s1 := ReplaceChar(s0, '&', "&amp;");
    StageStep(s0, c, k, 0);
    var s2 := ReplaceChar(s1, '<', "&lt;");
    StageStep(s1, c, k, 1);
    var s3 := ReplaceChar(s2, '>', "&gt;");
    StageStep(s2, c, k, 2);
    var s4 := ReplaceChar(s3, '"', "&quot;");
    StageStep(s3, c, k, 3);
    StageStep(s4, c, k, 4);
  }

  function SpecialAt(j: nat): char
    requires j < 5
  {
    ['&', '<', '>', '"', '\''][j]
  }

  function EntityAt(j: nat): string
    requires j < 5
  {
    ["&amp;", "&lt;", "&gt;", "&quot;", "&#039;"][j]
  }

  /** Stage `j` of the chain maps the value after stage `j - 1` to the value after stage `j`. */
  lemma StageStep(s: string, c: char, k: nat, j: nat)
    requires k <= 5 && j < 5
    requires forall i :: 0 <= i < 5 && i != k ==> c != SpecialAt(i)
    requires k < 5 ==> c == SpecialAt(k)
    requires s == if k < j then EntityAt(k) else [c]
    ensures ReplaceChar(s, SpecialAt(j), EntityAt(j)) == if k <= j then EntityAt(k) else [c]
  {
    if k < j {
      assert SpecialAt(j) !in EntityAt(k);
      ReplaceCharAbsent(s, SpecialAt(j), EntityAt(j));
    } else {
      ReplaceCharSingle(c, SpecialAt(j), EntityAt(j));
    }
  }

  lemma EscapeHtmlChar(c: char)
    ensures EscapeHtml([c]) == EscapeChar(c)
  {
    if c == '&' { EscapeHtmlCharAt(c, 0); }
    else if c == '<' { EscapeHtmlCharAt(c, 1); }
    else if c == '>' { EscapeHtmlCharAt(c, 2); }
    else if c == '"' { EscapeHtmlCharAt(c, 3); }
    else if c == '\'' { EscapeHtmlCharAt(c, 4); }
    else { EscapeHtmlCharAt(c, 5); }
  }

  /** The chain of replacements agrees with the per-character table: replacing `&` first
      means no entity is escaped a second time. */
  lemma {:induction false} EscapeHtmlIsCharwise(s: string)
    ensures EscapeHtml(s) == Escape(s)
    decreases |s|
  {
    if s != [] {
      assert s == [s[0]] + s[1..];
      EscapeHtmlAppend([s[0]], s[1..]);
      EscapeHtmlChar(s[0]);
      EscapeHtmlIsCharwise(s[1..]);
    }
  }

  /** Escaped text holds none of the characters that delimit markup or attribute values. */
  predicate NoMarkupChars(s: string) {
    forall i :: 0 <= i < |s| ==> s[i] != '<' && s[i] != '>' && s[i] != '"' && s[i] != '\''
  }

  lemma EscapeHtmlNoMarkupChars(s: string)
    ensures NoMarkupChars(EscapeHtml(s))
  {
    EscapeHtmlIsCharwise(s);
    EscapeNoMarkupChars(s);
  }

  lemma {:induction false} EscapeNoMarkupChars(s: string)
    ensures NoMarkupChars(Escape(s))
    decreases |s|
  {
    if s != [] {
      EscapeNoMarkupChars(s[1..]);
      NoMarkupCharsConcat(EscapeChar(s[0]), Escape(s[1..]));
    }
  }

  lemma NoMarkupCharsConcat(a: string, b: string)
    requires NoMarkupChars(a) && NoMarkupChars(b)
    ensures NoMarkupChars(a + b)
  {
    assert forall i :: |a| <= i < |a + b| ==> (a + b)[i] == b[i - |a|];
  }

  /** Decoding of the five entities `escapeHtml` introduces; any other character is copied. */
  function Unescape(s: string): string
    decreases |s|
  {
    if s == [] then []
    else if StartsWith(s, "&amp;") then "&" + Unescape(s[5..])
    else if StartsWith(s, "&lt;") then "<" + Unescape(s[4..])
    else if StartsWith(s, "&gt;") then ">" + Unescape(s[4..])
    else if StartsWith(s, "&quot;") then "\"" + Unescape(s[6..])
    else if StartsWith(s, "&#039;") then "'" + Unescape(s[6..])
    else [s[0]] + Unescape(s[1..])
  }

  lemma UnescapeEscapeChar(c: char, t: string)
    ensures Unescape(EscapeChar(c) + t) == [c] + Unescape(t)
  {
    var s := EscapeChar(c) + t;
    var e := EscapeChar(c);
    assert s[|e|..] == t;
    assert s[..|e|] == e;
    if c == '&' {
      assert StartsWith(s, "&amp;");
    } else if c == '<' {
      assert s[1] == 'l';
      assert StartsWith(s, "&lt;");
    } else if c == '>' {
      assert s[1] == 'g';
      assert StartsWith(s, "&gt;");
    } else if c == '"' {
      assert s[1] == 'q';
      assert StartsWith(s, "&quot;");
    } else if c == '\'' {
      assert s[1] == '#';
      assert StartsWith(s, "&#039;");
    } else {
      assert s[0] == c;
    }
  }

  /** Unescaping the output of `escapeHtml` recovers its input exactly. */
  lemma {:induction false} UnescapeEscapeHtml(s: string)
    ensures Unescape(EscapeHtml(s)) == s
    decreases |s|
  {
    EscapeHtmlIsCharwise(s);
    if s != [] {
      UnescapeEscapeHtml(s[1..]);
      EscapeHtmlIsCharwise(s[1..]);
      UnescapeEscapeChar(s[0], Escape(s[1..]));
    }
  }
}
