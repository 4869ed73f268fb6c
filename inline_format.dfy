/**
 * `processInlineFormatting`: four global regex replacements applied once each,
 * in the order bold, italic, inline code, link. Each regex is an explicit
 * matcher at the head of the remaining text; the global scan resumes right
 * after a match and copies one character when there is none.
 */
module InlineFormat {
  import opened Wrappers
  import opened JsString

  datatype Rule = Bold | Italic | InlineCode | Link

  /** A match at the head of the text: its length and its capture groups ($1, $2). */
  datatype Match = Match(len: nat, groups: seq<string>)

  /** The only character a match of `rule` can start with. */
  function Trigger(rule: Rule): char {
    match rule
    case Bold => '*'
    case Italic => '*'
    case InlineCode => '`'
    case Link => '['
  }

  /** The number of capture groups of each regex. */
  function GroupCount(rule: Rule): nat {
    if rule == Link then 2 else 1
  }

  /** The text a match with these groups spans. */
  function Shape(rule: Rule, groups: seq<string>): string
    requires |groups| == GroupCount(rule)
  {
    match rule
    case Bold => "**" + groups[0] + "**"
    case Italic => "*" + groups[0] + "*"
    case InlineCode => "`" + groups[0] + "`"
    case Link => "[" + groups[0] + "](" + groups[1] + ")"
  }

  /** The replacement template of each regex with $1 and $2 filled in. */
  function Substitute(rule: Rule, groups: seq<string>): string
    requires |groups| == GroupCount(rule)
  {
    match rule
    case Bold => "<strong>" + groups[0] + "</strong>"
    case Italic => "<em>" + groups[0] + "</em>"
    case InlineCode => "<code class=\"inline-code\">" + groups[0] + "</code>"
    case Link => "<a href=\"" + groups[1] + "\" target=\"_blank\" rel=\"noopener noreferrer\">" + groups[0] + "</a>"
  }

  predicate NoLineTerminator(s: string) {
    forall i :: 0 <= i < |s| ==> !IsLineTerminator(s[i])
  }

  /** No `**` closes before the end of `g` (the lazy `.*?` stops at the first closer). */
  predicate NoEarlierDoubleStar(g: string) {
    forall k :: 0 <= k < |g| && g[k] == '*' ==> k + 1 < |g| && g[k + 1] != '*'
  }

  /** The groups a match of `rule` can capture: exactly what each regex allows, with the
      lazy groups ending at the first closer and the greedy ones at the first excluded character. */
  predicate WellFormedGroups(rule: Rule, groups: seq<string>) {
    |groups| == GroupCount(rule) &&
    match rule
    case Bold => NoLineTerminator(groups[0]) && NoEarlierDoubleStar(groups[0])
    case Italic => NoLineTerminator(groups[0]) && '*' !in groups[0]
    case InlineCode => groups[0] != [] && '`' !in groups[0]
    case Link => groups[0] != [] && ']' !in groups[0] && groups[1] != [] && ')' !in groups[1]
  }

  /** The first `k` characters of `t` can be the group of a bold match. */
  predicate BoldGroupPrefix(t: string, k: nat)
    requires k <= |t|
  {
    NoLineTerminator(t[..k]) && NoEarlierDoubleStar(t[..k])
  }

  /** The first `k` characters of `t` can be the group of an italic match. */
  predicate ItalicGroupPrefix(t: string, k: nat)
    requires k <= |t|
  {
    NoLineTerminator(t[..k]) && '*' !in t[..k]
  }

  /** The first `n` characters of `t` do not include `c`. */
  predicate LacksPrefix(t: string, n: nat, c: char)
    requires n <= |t|
  {
    c !in t[..n]
  }

  /** `(.*?)\*\*` on `t`: the length of the lazy body before the first `**`, if no line terminator comes first. */
  function BoldBody(t: string): (r: Option<nat>)
    ensures r.Some? ==> r.value + 2 <= |t| && t[r.value] == '*' && t[r.value + 1] == '*'
    ensures r.Some? ==> BoldGroupPrefix(t, r.value)
    decreases |t|
  {
    if StartsWith(t, "**") then Some(0)
    else if t != [] && !IsLineTerminator(t[0]) then
      var rest := BoldBody(t[1..]);
      if rest.Some? then
        var n := rest.value;
        var h := t[1..][..n];
        var g := t[..n + 1];
        assert g == [t[0]] + h;
        assert NoEarlierDoubleStar(h);
        assert t[1] == t[1..][0];
        assert t[0] == '*' ==> t[1] != '*';
        assert n == 0 ==> t[1] == '*';
        forall k | 0 <= k < |g| && g[k] == '*'
          ensures k + 1 < |g| && g[k + 1] != '*'
        {
          if k > 0 {
            assert g[k] == h[k - 1];
            assert k < |h| && h[k] != '*';
          } else {
            assert g[0] == t[0];
          }
        }
        assert NoEarlierDoubleStar(g);
        Some(n + 1)
      else None
    else None
  }

  /** `(.*?)\*` on `t`: the length of the lazy body before the first `*`, if no line terminator comes first. */
  function ItalicBody(t: string): (r: Option<nat>)
    ensures r.Some? ==> r.value < |t| && t[r.value] == '*'
    ensures r.Some? ==> ItalicGroupPrefix(t, r.value)
    decreases |t|
  {
    if t != [] && t[0] == '*' then Some(0)
    else if t != [] && !IsLineTerminator(t[0]) then
      match ItalicBody(t[1..])
      case Some(n) =>
        assert t[..n + 1] == [t[0]] + t[1..][..n];
        Some(n + 1)
      case None => None
    else None
  }

  /** Length of the longest prefix of `t` without the character `c` (a greedy `[^c]+`). */
  function RunWithout(t: string, c: char): (n: nat)
    ensures n <= |t| && LacksPrefix(t, n, c)
    ensures n < |t| ==> t[n] == c
    decreases |t|
  {
    if t != [] && t[0] != c then
      var n := RunWithout(t[1..], c) + 1;
      assert t[..n] == [t[0]] + t[1..][..n - 1];
      n
    else 0
  }

  /** Bold (`**`, a lazy body, `**`) at the head of `s`. */
  function BoldAt(s: string): (r: Option<Match>)
    ensures r.Some? ==> WellFormedGroups(Bold, r.value.groups)
    ensures r.Some? ==> r.value.len == |Shape(Bold, r.value.groups)| && StartsWith(s, Shape(Bold, r.value.groups))
  {
    if StartsWith(s, "**") then
      match BoldBody(s[2..])
      case Some(n) =>
        assert s[..n + 4] == "**" + s[2..][..n] + "**";
        Some(Match(n + 4, [s[2..][..n]]))
      case None => None
    else None
  }

  /** Italic (`*`, a lazy body, `*`) at the head of `s`. */
  function ItalicAt(s: string): (r: Option<Match>)
    ensures r.Some? ==> WellFormedGroups(Italic, r.value.groups)
    ensures r.Some? ==> r.value.len == |Shape(Italic, r.value.groups)| && StartsWith(s, Shape(Italic, r.value.groups))
  {
    if StartsWith(s, "*") then
      match ItalicBody(s[1..])
      case Some(n) =>
        assert s[..n + 2] == "*" + s[1..][..n] + "*";
        Some(Match(n + 2, [s[1..][..n]]))
      case None => None
    else None
  }

  /** Inline code (a backtick, a nonempty run without backticks, a backtick) at the head of `s`. */
  function InlineCodeAt(s: string): (r: Option<Match>)
    ensures r.Some? ==> WellFormedGroups(InlineCode, r.value.groups)
    ensures r.Some? ==> r.value.len == |Shape(InlineCode, r.value.groups)| && StartsWith(s, Shape(InlineCode, r.value.groups))
  {
    if StartsWith(s, "`") then
      var n := RunWithout(s[1..], '`');
      if 0 < n < |s| - 1 then
        assert s[..n + 2] == "`" + s[1..][..n] + "`";
        Some(Match(n + 2, [s[1..][..n]]))
      else None
    else None
  }

  /** A link (`[`, text without `]`, `](`, a URL without `)`, `)`) at the head of `s`. */
  function LinkAt(s: string): (r: Option<Match>)
    ensures r.Some? ==> WellFormedGroups(Link, r.value.groups)
    ensures r.Some? ==> r.value.len == |Shape(Link, r.value.groups)| && StartsWith(s, Shape(Link, r.value.groups))
  {
    if StartsWith(s, "[") then
      var n := RunWithout(s[1..], ']');
      if 0 < n && n + 3 <= |s| - 1 && s[n + 2] == '(' then
        var u := s[n + 3..];
        var m := RunWithout(u, ')');
        if 0 < m < |u| then
          var linkText := s[1..][..n];
          var url := u[..m];
          assert s[..n + m + 4] == "[" + linkText + "](" + url + ")";
          Some(Match(n + m + 4, [linkText, url]))
        else None
      else None
    else None
  }

  /** The regex of `rule` tried at the head of `s`. When it matches, `s` starts with the
      shape of the captured groups, and those groups are ones the regex can capture. */
  function MatchAt(rule: Rule, s: string): (r: Option<Match>)
    ensures r.Some? ==> WellFormedGroups(rule, r.value.groups)
    ensures r.Some? ==> r.value.len == |Shape(rule, r.value.groups)| && StartsWith(s, Shape(rule, r.value.groups))
  {
    match rule
    case Bold => BoldAt(s)
    case Italic => ItalicAt(s)
    case InlineCode => InlineCodeAt(s)
    case Link => LinkAt(s)
  }

  /** `s.replace(regex, template)` with the `g` flag. A match can only begin at the rule's
      trigger character, so any other character is copied without trying the regex. */
  function ReplaceAll(rule: Rule, s: string): string
    decreases |s|
  {
    if s == [] then []
    else if s[0] != Trigger(rule) then [s[0]] + ReplaceAll(rule, s[1..])
    else match MatchAt(rule, s)
      case Some(m) => Substitute(rule, m.groups) + ReplaceAll(rule, s[m.len..])
      case None => [s[0]] + ReplaceAll(rule, s[1..])
  }

  /** `processInlineFormatting(text)` */
  function ProcessInlineFormatting(text: string): string {
    ReplaceAll(Link, ReplaceAll(InlineCode, ReplaceAll(Italic, ReplaceAll(Bold, text))))
  }

  /** Every match starts with its rule's trigger character. */
  lemma MatchStartsWithTrigger(rule: Rule, s: string)
    requires MatchAt(rule, s).Some?
    ensures s != [] && s[0] == Trigger(rule)
  {
    var m := MatchAt(rule, s).value;
    assert s[..m.len][0] == Shape(rule, m.groups)[0];
  }

  lemma {:induction false} BoldBodyComplete(g: string, rest: string)
    requires NoLineTerminator(g) && NoEarlierDoubleStar(g)
    ensures BoldBody(g + "**" + rest) == Some(|g|)
    decreases |g|
  {
    var t := g + "**" + rest;
    if g != [] {
      assert t[0] == g[0];
      assert g[0] == '*' ==> |g| > 1 && t[1] == g[1] && g[1] != '*';
      assert !StartsWith(t, "**");
      var g' := g[1..];
      assert NoEarlierDoubleStar(g') by {
        forall k | 0 <= k < |g'| && g'[k] == '*' ensures k + 1 < |g'| && g'[k + 1] != '*' {
          assert g'[k] == g[k + 1];
        }
      }
      assert NoLineTerminator(g') by {
        forall k | 0 <= k < |g'| ensures !IsLineTerminator(g'[k]) { assert g'[k] == g[k + 1]; }
      }
      assert t[1..] == g' + "**" + rest;
      BoldBodyComplete(g', rest);
    }
  }

  lemma {:induction false} ItalicBodyComplete(g: string, rest: string)
    requires NoLineTerminator(g) && '*' !in g
    ensures ItalicBody(g + "*" + rest) == Some(|g|)
    decreases |g|
  {
    var t := g + "*" + rest;
    if g != [] {
      assert t[0] == g[0] && g[0] in g;
      var g' := g[1..];
      assert forall c :: c in g' ==> c in g;
      assert NoLineTerminator(g') by {
        forall k | 0 <= k < |g'| ensures !IsLineTerminator(g'[k]) { assert g'[k] == g[k + 1]; }
      }
      assert t[1..] == g' + "*" + rest;
      ItalicBodyComplete(g', rest);
    }
  }

  lemma {:induction false} RunWithoutComplete(g: string, c: char, rest: string)
    requires c !in g
    ensures RunWithout(g + [c] + rest, c) == |g|
    decreases |g|
  {
    var t := g + [c] + rest;
    if g != [] {
      assert t[0] == g[0] && g[0] in g;
      assert forall x :: x in g[1..] ==> x in g;
      assert t[1..] == g[1..] + [c] + rest;
      RunWithoutComplete(g[1..], c, rest);
    }
  }

  /** The converse of MatchAt's contract: text that starts with the shape of groups the
      regex can capture is matched, with exactly those groups. */
  lemma MatchAtComplete(rule: Rule, groups: seq<string>, rest: string)
    requires WellFormedGroups(rule, groups)
    ensures MatchAt(rule, Shape(rule, groups) + rest) == Some(Match(|Shape(rule, groups)|, groups))
  {
    match rule
    case Bold => BoldComplete(groups[0], rest); assert groups == [groups[0]];
    case Italic => ItalicComplete(groups[0], rest); assert groups == [groups[0]];
    case InlineCode => InlineCodeComplete(groups[0], rest); assert groups == [groups[0]];
    case Link => LinkComplete(groups[0], groups[1], rest); assert groups == [groups[0], groups[1]];
  }

  lemma BoldComplete(g: string, rest: string)
    requires NoLineTerminator(g) && NoEarlierDoubleStar(g)
    ensures MatchAt(Bold, "**" + g + "**" + rest) == Some(Match(|g| + 4, [g]))
  {
    var s := "**" + g + "**" + rest;
    assert s[..2] == "**";
    assert s[2..] == g + "**" + rest;
    BoldBodyComplete(g, rest);
    assert s[2..][..|g|] == g;
  }

  lemma ItalicComplete(g: string, rest: string)
    requires NoLineTerminator(g) && '*' !in g
    ensures MatchAt(Italic, "*" + g + "*" + rest) == Some(Match(|g| + 2, [g]))
  {
    var s := "*" + g + "*" + rest;
    assert s[..1] == "*";
    assert s[1..] == g + "*" + rest;
    ItalicBodyComplete(g, rest);
    assert s[1..][..|g|] == g;
  }

  lemma InlineCodeComplete(g: string, rest: string)
    requires g != [] && '`' !in g
    ensures MatchAt(InlineCode, "`" + g + "`" + rest) == Some(Match(|g| + 2, [g]))
  {
    var s := "`" + g + "`" + rest;
    assert s[..1] == "`";
    assert s[1..] == g + ['`'] + rest;
    RunWithoutComplete(g, '`', rest);
    assert s[1..][..|g|] == g;
  }

  lemma LinkComplete(a: string, u: string, rest: string)
    requires a != [] && ']' !in a && u != [] && ')' !in u
    ensures MatchAt(Link, "[" + a + "](" + u + ")" + rest) == Some(Match(|a| + |u| + 4, [a, u]))
  {
    var s := "[" + a + "](" + u + ")" + rest;
    assert s[..1] == "[";
    assert s[1..] == a + [']'] + ("(" + u + ")" + rest);
    RunWithoutComplete(a, ']', "(" + u + ")" + rest);
    assert s[1..][..|a|] == a;
    assert s[|a| + 2] == '(';
    assert s[|a| + 3..] == u + [')'] + rest;
    RunWithoutComplete(u, ')', rest);
    assert s[|a| + 3..][..|u|] == u;
  }

  /** One character that cannot start a match is copied as it is. */
  lemma ReplaceAllCopiesPlain(rule: Rule, s: string)
    requires s != [] && s[0] != Trigger(rule)
    ensures ReplaceAll(rule, s) == [s[0]] + ReplaceAll(rule, s[1..])
  {
  }

  lemma ReplaceAllCopiesHead(rule: Rule, a: string, b: string)
    requires a != [] && a[0] != Trigger(rule)
    ensures ReplaceAll(rule, a + b) == [a[0]] + ReplaceAll(rule, a[1..] + b)
  {
    ReplaceAllCopiesPlain(rule, a + b);
    assert (a + b)[1..] == a[1..] + b;
  }

  /** A trigger character at which the regex does not match (a lone `*`, an unclosed
      backtick or `[`) is copied as it is, and the scan moves on by one character. */
  lemma ReplaceAllSkipsUnmatched(rule: Rule, s: string)
    requires s != [] && MatchAt(rule, s).None?
    ensures ReplaceAll(rule, s) == [s[0]] + ReplaceAll(rule, s[1..])
  {
  }

  lemma NotInTail(x: char, a: string)
    requires a != [] && x !in a
    ensures x !in a[1..] && a[0] != x
  {
    assert a[0] in a;
    forall i | 0 <= i < |a[1..]| ensures a[1..][i] != x { assert a[1..][i] == a[i + 1] && a[i + 1] in a; }
  }

  /** A prefix without the trigger character passes through a global replacement unchanged. */
  lemma {:induction false} ReplaceAllPlainPrefix(rule: Rule, a: string, b: string)
    requires Trigger(rule) !in a
    ensures ReplaceAll(rule, a + b) == a + ReplaceAll(rule, b)
    decreases |a|
  {
    if a == [] {
      assert a + b == b;
    } else {
      NotInTail(Trigger(rule), a);
      ReplaceAllCopiesHead(rule, a, b);
      ReplaceAllPlainPrefix(rule, a[1..], b);
      ConsAppend(a, ReplaceAll(rule, b));
    }
  }

  lemma ReplaceAllNoTrigger(rule: Rule, s: string)
    requires Trigger(rule) !in s
    ensures ReplaceAll(rule, s) == s
  {
    ReplaceAllPlainPrefix(rule, s, []);
    assert s + [] == s;
  }

  /** A well-formed construct at the head is replaced by its template filled with its groups,
      and scanning resumes right after it (no re-scan of the replacement). */
  lemma ReplaceAllAtMatch(rule: Rule, groups: seq<string>, rest: string)
    requires WellFormedGroups(rule, groups)
    ensures ReplaceAll(rule, Shape(rule, groups) + rest) == Substitute(rule, groups) + ReplaceAll(rule, rest)
  {
    var s := Shape(rule, groups) + rest;
    MatchAtComplete(rule, groups, rest);
    assert s[|Shape(rule, groups)|..] == rest;
  }

  /** A text that is exactly one well-formed construct becomes exactly its replacement. */
  lemma ReplaceAllWhole(rule: Rule, groups: seq<string>)
    requires WellFormedGroups(rule, groups)
    ensures ReplaceAll(rule, Shape(rule, groups)) == Substitute(rule, groups)
  {
    ReplaceAllAtMatch(rule, groups, []);
    assert Shape(rule, groups) + [] == Shape(rule, groups);
    assert Substitute(rule, groups) + [] == Substitute(rule, groups);
  }

  /** Text with none of `*`, backtick and `[` is left exactly as it is. */
  lemma PlainTextUnchanged(text: string)
    requires '*' !in text && '`' !in text && '[' !in text
    ensures ProcessInlineFormatting(text) == text
  {
    ReplaceAllNoTrigger(Bold, text);
    ReplaceAllNoTrigger(Italic, text);
    ReplaceAllNoTrigger(InlineCode, text);
    ReplaceAllNoTrigger(Link, text);
  }

  /** An inline code span is wrapped but its content is not HTML-escaped: `<` and `&`
      inside backticks reach the output as they are. */
  lemma InlineCodeNotEscaped(code: string)
    requires code != [] && '`' !in code && '*' !in code && '[' !in code
    ensures ProcessInlineFormatting("`" + code + "`") == "<code class=\"inline-code\">" + code + "</code>"
  {
    var s := "`" + code + "`";
    var out := Substitute(InlineCode, [code]);
    assert '*' !in s && '[' !in out;
    assert Shape(InlineCode, [code]) == s;
    calc {
      ProcessInlineFormatting(s);
      ReplaceAll(Link, ReplaceAll(InlineCode, ReplaceAll(Italic, ReplaceAll(Bold, s))));
      { ReplaceAllNoTrigger(Bold, s); }
      ReplaceAll(Link, ReplaceAll(InlineCode, ReplaceAll(Italic, s)));
      { ReplaceAllNoTrigger(Italic, s); }
      ReplaceAll(Link, ReplaceAll(InlineCode, s));
      { ReplaceAllWhole(InlineCode, [code]); }
      ReplaceAll(Link, out);
      { ReplaceAllNoTrigger(Link, out); }
      out;
    }
  }

  /** Every link becomes an anchor that opens in a new browsing context without opener or referrer. */
  lemma LinkOpensInNewTab(linkText: string, url: string)
    requires linkText != [] && ']' !in linkText && url != [] && ')' !in url
    requires '*' !in linkText + url && '`' !in linkText + url && '[' !in linkText + url
    ensures ProcessInlineFormatting("[" + linkText + "](" + url + ")")
         == "<a href=\"" + url + "\" target=\"_blank\" rel=\"noopener noreferrer\">" + linkText + "</a>"
  {
    var s := "[" + linkText + "](" + url + ")";
    assert forall c :: c in s ==> c in linkText + url || c in "[]()";
    assert '*' !in s && '`' !in s;
    assert Shape(Link, [linkText, url]) == s;
    calc {
      ProcessInlineFormatting(s);
      ReplaceAll(Link, ReplaceAll(InlineCode, ReplaceAll(Italic, ReplaceAll(Bold, s))));
      { ReplaceAllNoTrigger(Bold, s); }
      ReplaceAll(Link, ReplaceAll(InlineCode, ReplaceAll(Italic, s)));
      { ReplaceAllNoTrigger(Italic, s); }
      ReplaceAll(Link, ReplaceAll(InlineCode, s));
      { ReplaceAllNoTrigger(InlineCode, s); }
      ReplaceAll(Link, s);
      { ReplaceAllWhole(Link, [linkText, url]); }
      Substitute(Link, [linkText, url]);
    }
  }

  /** Bold runs before italic, so `**x**` is strong emphasis, not two empty italic spans. */
  lemma BoldBeforeItalic(x: string)
    requires NoLineTerminator(x) && '*' !in x && '`' !in x && '[' !in x
    ensures ProcessInlineFormatting("**" + x + "**") == "<strong>" + x + "</strong>"
  {
    var s := "**" + x + "**";
    var out := Substitute(Bold, [x]);
    assert forall c :: c in out ==> c in x || c in "<strong>/";
    assert '*' !in out && '`' !in out && '[' !in out;
    assert NoEarlierDoubleStar(x);
    assert Shape(Bold, [x]) == s;
    calc {
      ProcessInlineFormatting(s);
      ReplaceAll(Link, ReplaceAll(InlineCode, ReplaceAll(Italic, ReplaceAll(Bold, s))));
      { ReplaceAllWhole(Bold, [x]); }
      ReplaceAll(Link, ReplaceAll(InlineCode, ReplaceAll(Italic, out)));
      { ReplaceAllNoTrigger(Italic, out); }
      ReplaceAll(Link, ReplaceAll(InlineCode, out));
      { ReplaceAllNoTrigger(InlineCode, out); }
      ReplaceAll(Link, out);
      { ReplaceAllNoTrigger(Link, out); }
      out;
    }
  }
}
