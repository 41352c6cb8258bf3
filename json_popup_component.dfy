/** `escapeHtml` and `escapeHtmlChar` of `JsonPopupComponent`, with the
    decoder of the five entities they produce. */
module HtmlEscape {
  import opened Strings

  /** The characters HTML escaping replaces. */
  predicate Special(c: char) { c == '&' || c == '<' || c == '>' || c == '"' || c == '\'' }

  /** `escapeHtmlChar`: an entity for the five special characters, the
      character itself otherwise. */
  function EscapeChar(c: char): (r: string)
    ensures !Special(c) ==> r == [c]
    ensures Special(c) ==> |r| >= 4 && r[0] == '&' && r[|r| - 1] == ';'
    ensures forall k :: 0 <= k < |r| ==> r[k] != '<' && r[k] != '>' && r[k] != '"' && r[k] != '\''
  {
    match c {
      case '&' => "&amp;"
      case '<' => "&lt;"
      case '>' => "&gt;"
      case '"' => "&quot;"
      case '\'' => "&#39;"
      case _ => [c]
    }
  }

  /** `escapeHtmlChar` applied to every character, in order. */
  function EscapeAll(s: string): (r: string)
    ensures forall k :: 0 <= k < |r| ==> r[k] != '<' && r[k] != '>'
  {
    if s == [] then [] else EscapeChar(s[0]) + EscapeAll(s[1..])
  }

  /** `String.replace` of one character by a string, everywhere. */
  function Replace(s: string, target: char, replacement: string): string
  {
    if s == [] then []
    else (if s[0] == target then replacement else [s[0]]) + Replace(s[1..], target, replacement)
  }

  /** `escapeHtml`: five whole-string replacements, ampersand first. */
  function EscapeHtml(text: string): string
  {
    Replace(Replace(Replace(Replace(Replace(text, '&', "&amp;"), '<', "&lt;"), '>', "&gt;"), '"', "&quot;"), '\'', "&#39;")
  }

  lemma {:induction false} ReplaceAppend(a: string, b: string, t: char, r: string)
    ensures Replace(a + b, t, r) == Replace(a, t, r) + Replace(b, t, r)
    decreases |a|
  {
    if a != [] {
      assert (a + b)[1..] == a[1..] + b;
      ReplaceAppend(a[1..], b, t, r);
    } else {
      assert a + b == b;
    }
  }

  lemma {:induction false} ReplaceAbsent(s: string, t: char, r: string)
    requires forall k :: 0 <= k < |s| ==> s[k] != t
    ensures Replace(s, t, r) == s
    decreases |s|
  {
    if s != [] {
      ReplaceAbsent(s[1..], t, r);
    }
  }

  lemma EscapeHtmlAppend(a: string, b: string)
    ensures EscapeHtml(a + b) == EscapeHtml(a) + EscapeHtml(b)
  {
    var a1, b1 := Replace(a, '&', "&amp;"), Replace(b, '&', "&amp;");
    ReplaceAppend(a, b, '&', "&amp;");
    var a2, b2 := Replace(a1, '<', "&lt;"), Replace(b1, '<', "&lt;");
    ReplaceAppend(a1, b1, '<', "&lt;");
    var a3, b3 := Replace(a2, '>', "&gt;"), Replace(b2, '>', "&gt;");
    ReplaceAppend(a2, b2, '>', "&gt;");
    var a4, b4 := Replace(a3, '"', "&quot;"), Replace(b3, '"', "&quot;");
    ReplaceAppend(a3, b3, '"', "&quot;");
    ReplaceAppend(a4, b4, '\'', "&#39;");
  }

  lemma ReplaceOne(c: char, t: char, r: string)
    ensures Replace([c], t, r) == if c == t then r else [c]
  {
    assert [c][1..] == [];
  }

  /** The replacements after the one that produced entity `e` leave it alone. */
  lemma ReplaceChainKeeps(e: string)
    requires forall k :: 0 <= k < |e| ==> e[k] != '<' && e[k] != '>' && e[k] != '"' && e[k] != '\''
    ensures Replace(Replace(Replace(Replace(e, '<', "&lt;"), '>', "&gt;"), '"', "&quot;"), '\'', "&#39;") == e
  {
    ReplaceAbsent(e, '<', "&lt;");
    ReplaceAbsent(e, '>', "&gt;");
    ReplaceAbsent(e, '"', "&quot;");
    ReplaceAbsent(e, '\'', "&#39;");
  }

  /** On one character the replacement chain gives that character's
      entity: no later replacement touches an earlier entity. */
  lemma EscapeHtmlOne(c: char)
    ensures EscapeHtml([c]) == EscapeChar(c)
  {
    var e := EscapeChar(c);
    ReplaceOne(c, '&', "&amp;");
    var s1 := Replace([c], '&', "&amp;");
    if c == '&' {
      ReplaceChainKeeps(s1);
    } else {
      ReplaceOne(c, '<', "&lt;");
      var s2 := Replace(s1, '<', "&lt;");
      ReplaceOne(c, '>', "&gt;");
      ReplaceOne(c, '"', "&quot;");
      ReplaceOne(c, '\'', "&#39;");
      if c == '<' {
        ReplaceAbsent(s2, '>', "&gt;");
        ReplaceAbsent(s2, '"', "&quot;");
        ReplaceAbsent(s2, '\'', "&#39;");
      } else {
        var s3 := Replace(s2, '>', "&gt;");
        if c == '>' {
          ReplaceAbsent(s3, '"', "&quot;");
          ReplaceAbsent(s3, '\'', "&#39;");
        } else {
          var s4 := Replace(s3, '"', "&quot;");
          if c == '"' {
            ReplaceAbsent(s4, '\'', "&#39;");
          }
        }
      }
    }
  }

  /** `escapeHtml(s)` is `escapeHtmlChar` applied to each character of `s`:
      escaping `&` first means no entity is escaped twice. */
  lemma {:induction false} EscapeHtmlPerChar(s: string)
    ensures EscapeHtml(s) == EscapeAll(s)
    decreases |s|
  {
    if s != [] {
      assert s == [s[0]] + s[1..];
      EscapeHtmlAppend([s[0]], s[1..]);
      EscapeHtmlOne(s[0]);
      EscapeHtmlPerChar(s[1..]);
    }
  }

  lemma {:induction false} EscapeAllAppend(a: string, b: string)
    ensures EscapeAll(a + b) == EscapeAll(a) + EscapeAll(b)
    decreases |a|
  {
    if a == [] {
      assert a + b == b;
    } else {
      assert (a + b)[1..] == a[1..] + b;
      EscapeAllAppend(a[1..], b);
    }
  }

  /** The character an entity at the start of `s` stands for, and the
      entity's length; a lone character otherwise. */
  function DecodeOne(s: string): (r: (char, nat))
    requires s != []
    ensures 1 <= r.1 <= |s|
  {
    if StartsWith(s, "&amp;") then ('&', 5)
    else if StartsWith(s, "&lt;") then ('<', 4)
    else if StartsWith(s, "&gt;") then ('>', 4)
    else if StartsWith(s, "&quot;") then ('"', 6)
    else if StartsWith(s, "&#39;") then ('\'', 5)
    else (s[0], 1)
  }

  /** Decoding of the five entities, left to right; every other character
      stands for itself. */
  function Unescape(s: string): string
    decreases |s|
  {
    if s == [] then [] else var d := DecodeOne(s); [d.0] + Unescape(s[d.1..])
  }

  lemma UnescapeChar(c: char, rest: string)
    ensures Unescape(EscapeChar(c) + rest) == [c] + Unescape(rest)
  {
    var e := EscapeChar(c);
    var s := e + rest;
    DecodeEscape(c, rest);
    assert s[|e|..] == rest;
  }

  /** An escaped character is decoded back in one step. */
  lemma DecodeEscape(c: char, rest: string)
    ensures DecodeOne(EscapeChar(c) + rest) == (c, |EscapeChar(c)|)
  {
    var e := EscapeChar(c);
    var s := e + rest;
    assert s[..|e|] == e;
    if !Special(c) {
      assert s[0] == c;
    } else if c == '&' {
      assert StartsWith(s, "&amp;");
    } else {
      assert !StartsWith(s, "&amp;") by { assert s[1] != 'a'; }
      if c == '<' {
        assert StartsWith(s, "&lt;");
      } else {
        assert !StartsWith(s, "&lt;") by { assert s[1] != 'l'; }
        if c == '>' {
          assert StartsWith(s, "&gt;");
        } else {
          assert !StartsWith(s, "&gt;") by { assert s[1] != 'g'; }
          if c == '"' {
            assert StartsWith(s, "&quot;");
          } else {
            assert !StartsWith(s, "&quot;") by { assert s[1] != 'q'; }
            assert StartsWith(s, "&#39;");
          }
        }
      }
    }
  }

  lemma {:induction false} UnescapeEscapeAll(s: string, rest: string)
    ensures Unescape(EscapeAll(s) + rest) == s + Unescape(rest)
    decreases |s|
  {
    if s == [] {
      assert EscapeAll(s) + rest == rest;
    } else {
      UnescapeEscapeAll(s[1..], rest);
      UnescapeCons(s, rest);
    }
  }

  /** The inductive step: decoding the first character's escape, then the rest. */
  lemma UnescapeCons(s: string, rest: string)
    requires s != []
    requires Unescape(EscapeAll(s[1..]) + rest) == s[1..] + Unescape(rest)
    ensures Unescape(EscapeAll(s) + rest) == s + Unescape(rest)
  {
    var e := EscapeAll(s[1..]) + rest;
    var u := Unescape(rest);
    EscapeAllCons(s, rest);
    UnescapeChar(s[0], e);
    ConsAppend(s, u);
  }

  lemma ConsAppend(s: string, u: string)
    requires s != []
    ensures [s[0]] + (s[1..] + u) == s + u
  {
    assert s == [s[0]] + s[1..];
  }

  lemma EscapeAllCons(s: string, rest: string)
    requires s != []
    ensures EscapeAll(s) + rest == EscapeChar(s[0]) + (EscapeAll(s[1..]) + rest)
  {
  }

  /** Escaping is undone by decoding, so it loses nothing. */
  lemma EscapeHtmlRoundTrip(s: string)
    ensures Unescape(EscapeHtml(s)) == s
  {
    EscapeHtmlPerChar(s);
    UnescapeEscapeAll(s, []);
    assert EscapeAll(s) + [] == EscapeAll(s);
  }
}

/** `formatJson` and `appendIndent`: the re-indenting pretty-printer. */
module JsonFormat {

  /** The printer's state between characters. */
  datatype FormatState = FormatState(indentLevel: int, inString: bool, escapeNext: bool)

  const FormatStart: FormatState := FormatState(0, false, false)

  /** `level` two-space steps; nothing for a level of zero or below. */
  function Indent(level: int): (r: string)
    ensures |r| == if level <= 0 then 0 else 2 * level
    ensures forall k :: 0 <= k < |r| ==> r[k] == ' '
  {
    if level <= 0 then [] else Indent(level - 1) + "  "
  }

  /** `appendIndent`: appends `level` two-space steps. */
  method AppendIndent(sb: string, level: int) returns (r: string)
    ensures r == sb + Indent(level)
  {
    r := sb;
    var i := 0;
    while i < level
      invariant 0 <= i && (level <= 0 ==> i == 0) && (level > 0 ==> i <= level)
      invariant r == sb + Indent(i)
    {
      r := r + "  ";
      i := i + 1;
    }
  }

  /** The layout one character gets before and after it. */
  datatype Layout = Layout(before: string, after: string)

  /** Nothing is inserted around an escaped character, a backslash, a quote
      or anything inside a string; outside strings an opening bracket is
      followed by a line break and the deeper indent, a closing bracket
      preceded by a line break and the shallower indent, a comma followed by
      a line break and the current indent, a colon by a space. */
  function LayoutOf(st: FormatState, c: char): Layout
  {
    if st.escapeNext || c == '\\' || c == '"' || st.inString then Layout([], [])
    else if c == '{' || c == '[' then Layout([], "\n" + Indent(st.indentLevel + 1))
    else if c == '}' || c == ']' then Layout("\n" + Indent(st.indentLevel - 1), [])
    else if c == ',' then Layout([], "\n" + Indent(st.indentLevel))
    else if c == ':' then Layout([], " ")
    else Layout([], [])
  }

  /** The state after one character: a backslash escapes the next
      character, an unescaped quote toggles the string flag, and outside
      strings brackets move the level. */
  function NextState(st: FormatState, c: char): FormatState
  {
    if st.escapeNext then st.(escapeNext := false)
    else if c == '\\' then st.(escapeNext := true)
    else if c == '"' then st.(inString := !st.inString)
    else if st.inString then st
    else if c == '{' || c == '[' then st.(indentLevel := st.indentLevel + 1)
    else if c == '}' || c == ']' then st.(indentLevel := st.indentLevel - 1)
    else st
  }

  /** The printed text so far, the state, and where each input character
      landed in the text. */
  datatype Formatted = Formatted(text: string, state: FormatState, positions: seq<nat>)

  function FormatRun(s: string): Formatted
  {
    if s == [] then Formatted([], FormatStart, [])
    else
      var prev := FormatRun(s[..|s| - 1]);
      var c := s[|s| - 1];
      var l := LayoutOf(prev.state, c);
      Formatted(prev.text + l.before + [c] + l.after, NextState(prev.state, c),
                prev.positions + [|prev.text| + |l.before|])
  }

  predicate IsLayoutChar(c: char) { c == ' ' || c == '\n' }

  predicate AllLayout(s: string) { forall k :: 0 <= k < |s| ==> IsLayoutChar(s[k]) }

  lemma LayoutIsWhitespace(st: FormatState, c: char)
    ensures AllLayout(LayoutOf(st, c).before) && AllLayout(LayoutOf(st, c).after)
  {
    var l := LayoutOf(st, c);
    if l.after != [] && l.after != " " {
      assert l.after[0] == '\n' && forall k :: 1 <= k < |l.after| ==> l.after[k] == l.after[1..][k - 1];
    }
    if l.before != [] {
      assert l.before[0] == '\n' && forall k :: 1 <= k < |l.before| ==> l.before[k] == l.before[1..][k - 1];
    }
  }

  /** The text `t` carries the characters of `s` at `positions`, in order,
      and layout everywhere else. */
  predicate Embeds(t: string, positions: seq<nat>, s: string)
  {
    |positions| == |s| &&
    (forall k :: 0 <= k < |s| ==> positions[k] < |t| && t[positions[k]] == s[k]) &&
    (forall k, m :: 0 <= k < m < |s| ==> positions[k] < positions[m]) &&
    (forall j :: 0 <= j < |t| && j !in positions ==> IsLayoutChar(t[j]))
  }

  /** Appending layout, a character and layout keeps the embedding. */
  lemma EmbedsAppend(t: string, positions: seq<nat>, s: string, before: string, c: char, after: string)
    requires Embeds(t, positions, s) && AllLayout(before) && AllLayout(after)
    ensures Embeds(t + before + [c] + after, positions + [|t| + |before|], s + [c])
  {
    var t' := t + before + [c] + after;
    var p' := positions + [|t| + |before|];
    var s' := s + [c];
    var at := |t| + |before|;
    forall k | 0 <= k < |s'|
      ensures p'[k] < |t'| && t'[p'[k]] == s'[k]
    {
      if k < |s| {
        assert p'[k] == positions[k] && s'[k] == s[k];
      }
    }
    forall j | 0 <= j < |t'| && j !in p'
      ensures IsLayoutChar(t'[j])
    {
      if j < |t| {
        assert j !in positions;
      } else if j < at {
        assert t'[j] == before[j - |t|];
      } else {
        assert j != at by { assert p'[|s|] == at; }
        assert t'[j] == after[j - at - 1];
      }
    }
  }

  /** `formatJson` emits every input character exactly once and in order,
      and every other character it emits is a space or a line break. */
  lemma {:induction false} FormatEmbedsInput(s: string)
    ensures Embeds(FormatRun(s).text, FormatRun(s).positions, s)
    decreases |s|
  {
    if s != [] {
      var init := s[..|s| - 1];
      var prev := FormatRun(init);
      FormatEmbedsInput(init);
      var c := s[|s| - 1];
      var l := LayoutOf(prev.state, c);
      LayoutIsWhitespace(prev.state, c);
      EmbedsAppend(prev.text, prev.positions, init, l.before, c, l.after);
      assert init + [c] == s;
    }
  }

  /** Inside a string, text free of quotes and backslashes is copied with
      nothing inserted. */
  lemma {:induction false} StringTextCopied(p: string, q: string)
    requires FormatRun(p).state.inString && !FormatRun(p).state.escapeNext
    requires forall k :: 0 <= k < |q| ==> q[k] != '"' && q[k] != '\\'
    ensures FormatRun(p + q).text == FormatRun(p).text + q
    ensures FormatRun(p + q).state == FormatRun(p).state
    decreases |q|
  {
    if q == [] {
      assert p + q == p;
    } else {
      var q' := q[..|q| - 1];
      StringTextCopied(p, q');
      assert (p + q)[..|p + q| - 1] == p + q';
      assert FormatRun(p).text + q' + [q[|q| - 1]] == FormatRun(p).text + q;
    }
  }

  lemma FormatRunSnoc(p: string, c: char)
    ensures var prev := FormatRun(p);
      var l := LayoutOf(prev.state, c);
      FormatRun(p + [c]).text == prev.text + l.before + [c] + l.after &&
      FormatRun(p + [c]).state == NextState(prev.state, c)
  {
    assert (p + [c])[..|p|] == p;
  }

  /** After a backslash, inside a string, and for a backslash or quote
      itself, the character is copied with nothing around it; the
      backslash arms the escape, which the next character consumes, and an
      unescaped quote flips whether the printer is inside a string. */
  lemma CopiedVerbatim(p: string, c: char)
    requires var st := FormatRun(p).state; st.escapeNext || st.inString || c == '\\' || c == '"'
    ensures FormatRun(p + [c]).text == FormatRun(p).text + [c]
    ensures var st, st' := FormatRun(p).state, FormatRun(p + [c]).state;
      st'.indentLevel == st.indentLevel &&
      (st.escapeNext ==> !st'.escapeNext && st'.inString == st.inString) &&
      (!st.escapeNext && c == '"' ==> st'.inString == !st.inString && !st'.escapeNext) &&
      (!st.escapeNext && c == '\\' ==> st'.escapeNext && st'.inString == st.inString) &&
      (!st.escapeNext && c != '"' && c != '\\' ==> st' == st)
  {
    FormatRunSnoc(p, c);
  }

  /** Outside strings an opening bracket is followed by a line break and
      the indent one level deeper, and the level rises. */
  lemma OpenBracketRewrite(p: string, c: char)
    requires !FormatRun(p).state.escapeNext && !FormatRun(p).state.inString && (c == '{' || c == '[')
    ensures var level := FormatRun(p).state.indentLevel;
      FormatRun(p + [c]).text == FormatRun(p).text + [c] + "\n" + Indent(level + 1) &&
      FormatRun(p + [c]).state.indentLevel == level + 1
  {
    FormatRunSnoc(p, c);
    LayoutAfter(FormatRun(p).text, c, "\n", Indent(FormatRun(p).state.indentLevel + 1));
  }

  /** Outside strings a closing bracket comes after a line break and the
      indent one level shallower (empty below zero), and the level falls. */
  lemma CloseBracketRewrite(p: string, c: char)
    requires !FormatRun(p).state.escapeNext && !FormatRun(p).state.inString && (c == '}' || c == ']')
    ensures var level := FormatRun(p).state.indentLevel;
      FormatRun(p + [c]).text == FormatRun(p).text + "\n" + Indent(level - 1) + [c] &&
      FormatRun(p + [c]).state.indentLevel == level - 1
  {
    FormatRunSnoc(p, c);
    var t, ind := FormatRun(p).text, Indent(FormatRun(p).state.indentLevel - 1);
    assert t + ("\n" + ind) + [c] + [] == t + "\n" + ind + [c];
  }

  /** Outside strings a comma is followed by a line break and the current
      indent. */
  lemma CommaRewrite(p: string, c: char)
    requires !FormatRun(p).state.escapeNext && !FormatRun(p).state.inString && c == ','
    ensures var level := FormatRun(p).state.indentLevel;
      FormatRun(p + [c]).text == FormatRun(p).text + [c] + "\n" + Indent(level) &&
      FormatRun(p + [c]).state.indentLevel == level
  {
    FormatRunSnoc(p, c);
    var st := FormatRun(p).state;
    assert LayoutOf(st, c) == Layout([], "\n" + Indent(st.indentLevel));
    LayoutAfter(FormatRun(p).text, c, "\n", Indent(st.indentLevel));
  }

  /** Outside strings a colon is followed by one space. */
  lemma ColonRewrite(p: string, c: char)
    requires !FormatRun(p).state.escapeNext && !FormatRun(p).state.inString && c == ':'
    ensures FormatRun(p + [c]).text == FormatRun(p).text + [c] + " "
    ensures FormatRun(p + [c]).state == FormatRun(p).state
  {
    FormatRunSnoc(p, c);
    assert LayoutOf(FormatRun(p).state, c) == Layout([], " ");
    var t := FormatRun(p).text;
    assert t + [] + [c] + " " == t + [c] + " ";
  }

  lemma LayoutAfter(t: string, c: char, brk: string, ind: string)
    ensures t + [] + [c] + (brk + ind) == t + [c] + brk + ind
  {
  }

  /** Text with no bracket, comma or colon (a bare scalar or a string
      without them) comes out exactly as it went in. */
  lemma {:induction false} ScalarUnchanged(s: string)
    requires forall k :: 0 <= k < |s| ==> s[k] !in "{}[],:"
    ensures FormatRun(s).text == s
    ensures FormatRun(s).state.indentLevel == 0
    decreases |s|
  {
    if s != [] {
      ScalarUnchanged(s[..|s| - 1]);
      SnocParts(s);
    }
  }

  lemma SnocParts(s: string)
    requires s != []
    ensures s[..|s| - 1] + [s[|s| - 1]] == s
  {
  }

  /** One pass of `formatJson`'s loop: the character with the layout it
      gets, and the state after it. */
  method FormatChar(formatted: string, c: char, indentLevel: int, inString: bool, escapeNext: bool)
    returns (formatted': string, indentLevel': int, inString': bool, escapeNext': bool)
    ensures var st := FormatState(indentLevel, inString, escapeNext);
      var l := LayoutOf(st, c);
      formatted' == formatted + l.before + [c] + l.after &&
      FormatState(indentLevel', inString', escapeNext') == NextState(st, c)
  {
    formatted', indentLevel', inString', escapeNext' := formatted, indentLevel, inString, escapeNext;
    if escapeNext {
      formatted' := formatted' + [c];
      escapeNext' := false;
    } else if c == '\\' {
      escapeNext' := true;
      formatted' := formatted' + [c];
    } else if c == '"' {
      inString' := !inString;
      formatted' := formatted' + [c];
    } else if !inString {
      if c == '{' || c == '[' {
        formatted' := formatted' + [c] + "\n";
        indentLevel' := indentLevel + 1;
        formatted' := AppendIndent(formatted', indentLevel');
      } else if c == '}' || c == ']' {
        formatted' := formatted' + "\n";
        indentLevel' := indentLevel - 1;
        formatted' := AppendIndent(formatted', indentLevel');
        formatted' := formatted' + [c];
      } else if c == ',' {
        formatted' := formatted' + [c] + "\n";
        formatted' := AppendIndent(formatted', indentLevel);
      } else if c == ':' {
        formatted' := formatted' + [c] + " ";
      } else {
        formatted' := formatted' + [c];
      }
    } else {
      formatted' := formatted' + [c];
    }
  }

  /** `formatJson` over the characters of `json`. */
  method FormatJson(json: string) returns (formatted: string)
    ensures formatted == FormatRun(json).text
  {
    formatted := [];
    var indentLevel := 0;
    var inString := false;
    var escapeNext := false;
    var i := 0;
    while i < |json|
      invariant 0 <= i <= |json|
      invariant FormatRun(json[..i]).text == formatted
      invariant FormatRun(json[..i]).state == FormatState(indentLevel, inString, escapeNext)
    {
      assert json[..i + 1][..i] == json[..i];
      formatted, indentLevel, inString, escapeNext := FormatChar(formatted, json[i], indentLevel, inString, escapeNext);
      i := i + 1;
    }
    assert json[..i] == json;
  }
}

/** `highlightJsonSyntax`, `isKeyStart` and `extractWord`: the highlighter
    that wraps JSON tokens in `<span class="json-…">` tags and escapes
    everything else. */
module JsonHighlight {
  import opened HtmlEscape
  import opened Decimal

  /** The highlighter's flags between characters. */
  datatype HighlightState = HighlightState(inString: bool, escapeNext: bool, inKey: bool, afterColon: bool)

  const HighlightStart: HighlightState := HighlightState(false, false, false, false)

  function SpanOpen(cls: string): string { "<span class=\"" + cls + "\">" }

  const SpanClose: string := "</span>"

  /** The characters `isKeyStart` looks past. */
  predicate IsBlank(c: char) { c == ' ' || c == '\n' || c == '\t' }

  /** `Character.isLetter`, for ASCII letters. */
  predicate IsLetter(c: char) { 'a' <= c <= 'z' || 'A' <= c <= 'Z' }

  /** The characters that continue a number once it has started. */
  predicate IsNumberChar(c: char) { IsDigit(c) || c == '.' || c == 'e' || c == 'E' || c == '+' || c == '-' }

  /** Whether the last character before `pos` that is not blank is an
      opening brace or a comma. */
  function KeyStart(json: string, pos: nat): bool
    requires pos <= |json|
  {
    if pos == 0 then false
    else if IsBlank(json[pos - 1]) then KeyStart(json, pos - 1)
    else json[pos - 1] == '{' || json[pos - 1] == ','
  }

  /** A quote starts a key exactly when a `{` or `,` precedes it with only
      blanks in between. */
  lemma {:induction false} KeyStartMeaning(json: string, pos: nat)
    requires pos <= |json|
    ensures KeyStart(json, pos) <==>
      exists j :: 0 <= j < pos && (json[j] == '{' || json[j] == ',') &&
        forall m :: j < m < pos ==> IsBlank(json[m])
    decreases pos
  {
    if pos > 0 {
      KeyStartMeaning(json, pos - 1);
      if IsBlank(json[pos - 1]) {
        if j :| 0 <= j < pos && (json[j] == '{' || json[j] == ',') && forall m :: j < m < pos ==> IsBlank(json[m]) {
          assert j < pos - 1;
        }
      } else if !KeyStart(json, pos) {
        forall j | 0 <= j < pos && (json[j] == '{' || json[j] == ',')
          ensures !(forall m :: j < m < pos ==> IsBlank(json[m]))
        {
          assert j < pos - 1 && !IsBlank(json[pos - 1]);
        }
      }
    }
  }

  /** `isKeyStart`: scans back from `pos` over blanks. */
  method IsKeyStart(json: string, pos: nat) returns (r: bool)
    requires pos <= |json|
    ensures r == KeyStart(json, pos)
  {
    var i: int := pos - 1;
    while i >= 0
      invariant -1 <= i < pos
      invariant KeyStart(json, pos) == KeyStart(json, i + 1)
    {
      var c := json[i];
      if c == ' ' || c == '\n' || c == '\t' {
        i := i - 1;
        continue;
      }
      return c == '{' || c == ',';
    }
    return false;
  }

  /** The end of the run of letters that starts at `start`. */
  function WordEnd(json: string, start: nat): (e: nat)
    ensures start <= e && (e > start ==> e <= |json|)
    ensures forall k :: start <= k < e ==> IsLetter(json[k])
    ensures e < |json| ==> !IsLetter(json[e])
    decreases |json| - start
  {
    if start < |json| && IsLetter(json[start]) then WordEnd(json, start + 1) else start
  }

  /** The maximal run of letters from `start`; empty past the end. */
  function Word(json: string, start: nat): string
  {
    if start < |json| then json[start..WordEnd(json, start)] else []
  }

  /** `extractWord`: collects letters from `start` until the first other
      character. */
  method ExtractWord(json: string, start: nat) returns (word: string)
    ensures word == Word(json, start)
  {
    word := [];
    var i := start;
    while i < |json|
      invariant start <= i
      invariant start <= |json| ==> i <= |json| && word == json[start..i]
      invariant start > |json| ==> i == start && word == []
      invariant WordEnd(json, start) == WordEnd(json, i)
      decreases |json| - i
    {
      var c := json[i];
      if IsLetter(c) {
        word := word + [c];
      } else {
        break;
      }
      i := i + 1;
    }
  }

  /** The end of the run of number characters from `j`. */
  function NumberEnd(json: string, j: nat): (e: nat)
    requires j <= |json|
    ensures j <= e <= |json|
    ensures forall k :: j <= k < e ==> IsNumberChar(json[k])
    ensures e < |json| ==> !IsNumberChar(json[e])
    decreases |json| - j
  {
    if j < |json| && IsNumberChar(json[j]) then NumberEnd(json, j + 1) else j
  }

  /** What one pass of the loop appends, the index it continues from, and
      the flags after it. */
  datatype Emitted = Emitted(piece: string, next: nat, state: HighlightState)

  /** One pass of `highlightJsonSyntax`'s loop at index `i`. */
  function Step(json: string, i: nat, st: HighlightState): (r: Emitted)
    requires i < |json|
    ensures i < r.next <= |json|
  {
    var c := json[i];
    if st.escapeNext then Emitted(EscapeChar(c), i + 1, st.(escapeNext := false))
    else if c == '\\' then Emitted(EscapeChar(c), i + 1, st.(escapeNext := true))
    else if c == '"' then QuoteStep(json, i, st)
    else if st.inString then Emitted(EscapeChar(c), i + 1, st)
    else SwitchStep(json, i, st)
  }

  /** An unescaped quote opens a key or string span, or closes the open one. */
  function QuoteStep(json: string, i: nat, st: HighlightState): (r: Emitted)
    requires i < |json|
    ensures r.next == i + 1
  {
    var c := json[i];
    if !st.inString then
      var key := KeyStart(json, i);
      Emitted(SpanOpen(if key then "json-key" else "json-string") + EscapeChar(c), i + 1,
              st.(inString := true, inKey := key))
    else
      Emitted(EscapeChar(c) + SpanClose, i + 1, st.(inString := false, inKey := false))
  }

  /** A character outside strings: punctuation gets its own span. */
  function SwitchStep(json: string, i: nat, st: HighlightState): (r: Emitted)
    requires i < |json|
    ensures i < r.next <= |json|
  {
    var c := json[i];
    if c == '{' || c == '}' || c == '[' || c == ']' then
      Emitted(SpanOpen("json-bracket") + EscapeChar(c) + SpanClose, i + 1, st.(afterColon := false))
    else if c == ',' then
      Emitted(SpanOpen("json-comma") + EscapeChar(c) + SpanClose, i + 1, st.(afterColon := false))
    else if c == ':' then
      Emitted(SpanOpen("json-colon") + EscapeChar(c) + SpanClose, i + 1, st.(afterColon := true))
    else if IsBlank(c) then Emitted(EscapeChar(c), i + 1, st)
    else if (IsDigit(c) || c == '-' || c == '.') && st.afterColon then NumberStep(json, i, st)
    else if (c == 't' || c == 'f' || c == 'n') && st.afterColon then WordStep(json, i, st)
    else Emitted(EscapeChar(c), i + 1, st)
  }

  /** A number after a colon: the run of number characters in one span. */
  function NumberStep(json: string, i: nat, st: HighlightState): (r: Emitted)
    requires i < |json|
    ensures i < r.next <= |json| && r.state == st
  {
    var j := NumberEnd(json, i + 1);
    Emitted(SpanOpen("json-number") + EscapeChar(json[i]) + EscapeAll(json[i + 1..j]) + SpanClose, j, st)
  }

  /** A word after a colon: `true`, `false` and `null` get a span and are
      skipped whole; any other word only has its first letter emitted. */
  function WordStep(json: string, i: nat, st: HighlightState): (r: Emitted)
    requires i < |json|
    ensures i < r.next <= |json| && r.state == st
  {
    var w := Word(json, i);
    if w == "true" || w == "false" then
      Emitted(SpanOpen("json-boolean") + EscapeHtml(w) + SpanClose, i + |w|, st)
    else if w == "null" then
      Emitted(SpanOpen("json-null") + EscapeHtml(w) + SpanClose, i + |w|, st)
    else Emitted(EscapeChar(json[i]), i + 1, st)
  }

  /** The highlighted text from index `i` to the end. */
  function Highlight(json: string, i: nat, st: HighlightState): string
    requires i <= |json|
    decreases |json| - i
  {
    if i == |json| then [] else var r := Step(json, i, st); r.piece + Highlight(json, r.next, r.state)
  }

  /** The flags once the whole input has been read. */
  function FinalState(json: string, i: nat, st: HighlightState): HighlightState
    requires i <= |json|
    decreases |json| - i
  {
    if i == |json| then st else var r := Step(json, i, st); FinalState(json, r.next, r.state)
  }

  /** What follows the first `>` of `s`; nothing when there is none. */
  function AfterTag(s: string): (r: string)
    ensures |r| <= |s|
  {
    if s == [] then [] else if s[0] == '>' then s[1..] else AfterTag(s[1..])
  }

  /** The length of the leading tag of `s`, or one for a text character. */
  function ItemLength(s: string): (n: nat)
    requires s != []
    ensures 1 <= n <= |s|
  {
    if s[0] == '<' then |s| - |AfterTag(s[1..])| else 1
  }

  /** `s` with every tag, from `<` up to the next `>`, removed. */
  function StripTags(s: string): string
    decreases |s|
  {
    if s == [] then [] else (if s[0] == '<' then [] else [s[0]]) + StripTags(s[ItemLength(s)..])
  }

  /** Opening tags minus closing (`</`) tags. */
  function TagBalance(s: string): int
    decreases |s|
  {
    if s == [] then 0
    else (if s[0] != '<' then 0 else if |s| > 1 && s[1] == '/' then -1 else 1) + TagBalance(s[ItemLength(s)..])
  }

  predicate NoChar(s: string, c: char) { forall k :: 0 <= k < |s| ==> s[k] != c }

  lemma {:induction false} AfterTagSkips(t: string, rest: string)
    requires NoChar(t, '>')
    ensures AfterTag(t + ">" + rest) == rest
    decreases |t|
  {
    if t == [] {
      assert (t + ">" + rest)[1..] == rest;
    } else {
      assert (t + ">" + rest)[1..] == t[1..] + ">" + rest;
      AfterTagSkips(t[1..], rest);
    }
  }

  /** A tag `<` + `t` + `>` is removed whole, and counts by its second character. */
  lemma TagItem(t: string, rest: string)
    requires NoChar(t, '>')
    ensures StripTags("<" + t + ">" + rest) == StripTags(rest)
    ensures TagBalance("<" + t + ">" + rest) ==
      (if t != [] && t[0] == '/' then -1 else 1) + TagBalance(rest)
  {
    var s := "<" + t + ">" + rest;
    assert s[1..] == t + ">" + rest;
    AfterTagSkips(t, rest);
    assert s[ItemLength(s)..] == rest;
    if t != [] {
      assert s[1] == t[0];
    }
  }

  lemma OpenTag(cls: string, rest: string)
    requires NoChar(cls, '>')
    ensures StripTags(SpanOpen(cls) + rest) == StripTags(rest)
    ensures TagBalance(SpanOpen(cls) + rest) == 1 + TagBalance(rest)
  {
    var t := "span class=\"" + cls + "\"";
    assert SpanOpen(cls) + rest == "<" + t + ">" + rest;
    TagItem(t, rest);
  }

  lemma CloseTag(rest: string)
    ensures StripTags(SpanClose + rest) == StripTags(rest)
    ensures TagBalance(SpanClose + rest) == -1 + TagBalance(rest)
  {
    assert SpanClose + rest == "<" + "/span" + ">" + rest;
    TagItem("/span", rest);
  }

  /** Text without `<` is kept by tag removal and adds no tags. */
  lemma {:induction false} PlainText(e: string, rest: string)
    requires NoChar(e, '<')
    ensures StripTags(e + rest) == e + StripTags(rest)
    ensures TagBalance(e + rest) == TagBalance(rest)
    decreases |e|
  {
    if e == [] {
      assert e + rest == rest;
    } else {
      var s := e + rest;
      assert s[0] == e[0] && s[1..] == e[1..] + rest;
      PlainText(e[1..], rest);
      assert e == [e[0]] + e[1..];
    }
  }

  /** Tags are removed and counted the same way in the concatenation of
      a tagged piece and what follows. */
  lemma Wrapped(cls: string, e: string, rest: string)
    requires NoChar(cls, '>') && NoChar(e, '<')
    ensures StripTags(SpanOpen(cls) + e + SpanClose + rest) == e + StripTags(rest)
    ensures TagBalance(SpanOpen(cls) + e + SpanClose + rest) == TagBalance(rest)
  {
    assert SpanOpen(cls) + e + SpanClose + rest == SpanOpen(cls) + (e + (SpanClose + rest));
    OpenTag(cls, e + (SpanClose + rest));
    PlainText(e, SpanClose + rest);
    CloseTag(rest);
  }

  lemma Opened(cls: string, e: string, rest: string)
    requires NoChar(cls, '>') && NoChar(e, '<')
    ensures StripTags(SpanOpen(cls) + e + rest) == e + StripTags(rest)
    ensures TagBalance(SpanOpen(cls) + e + rest) == 1 + TagBalance(rest)
  {
    assert SpanOpen(cls) + e + rest == SpanOpen(cls) + (e + rest);
    OpenTag(cls, e + rest);
    PlainText(e, rest);
  }

  lemma Closed(e: string, rest: string)
    requires NoChar(e, '<')
    ensures StripTags(e + SpanClose + rest) == e + StripTags(rest)
    ensures TagBalance(e + SpanClose + rest) == -1 + TagBalance(rest)
  {
    assert e + SpanClose + rest == e + (SpanClose + rest);
    PlainText(e, SpanClose + rest);
    CloseTag(rest);
  }

  function Flag(b: bool): int { if b then 1 else 0 }

  lemma EscapeOne(json: string, i: nat)
    requires i < |json|
    ensures EscapeAll(json[i..i + 1]) == EscapeChar(json[i])
  {
    assert json[i..i + 1] == [json[i]];
    assert [json[i]][1..] == [];
  }

  /** The text `r` emitted for `json[i..r.next]` loses its tags to give back
      that input escaped, and opens a span exactly when it enters a string
      and closes one exactly when it leaves a string. */
  predicate MarkupKept(json: string, i: nat, st: HighlightState, r: Emitted, rest: string)
    requires i <= r.next <= |json|
  {
    StripTags(r.piece + rest) == EscapeAll(json[i..r.next]) + StripTags(rest) &&
    TagBalance(r.piece + rest) == Flag(r.state.inString) - Flag(st.inString) + TagBalance(rest)
  }

  lemma PlainStep(json: string, i: nat, st: HighlightState, r: Emitted, rest: string)
    requires i < |json| && r.piece == EscapeChar(json[i]) && r.next == i + 1
    requires r.state.inString == st.inString
    ensures MarkupKept(json, i, st, r, rest)
  {
    EscapeOne(json, i);
    PlainText(r.piece, rest);
  }

  lemma StepMarkup(json: string, i: nat, st: HighlightState, rest: string)
    requires i < |json|
    ensures MarkupKept(json, i, st, Step(json, i, st), rest)
  {
    var c := json[i];
    var r := Step(json, i, st);
    if st.escapeNext || c == '\\' || (c != '"' && st.inString) {
      PlainStep(json, i, st, r, rest);
    } else if c == '"' {
      QuoteMarkup(json, i, st, rest);
    } else {
      SwitchMarkup(json, i, st, rest);
    }
  }

  lemma QuoteMarkup(json: string, i: nat, st: HighlightState, rest: string)
    requires i < |json|
    ensures MarkupKept(json, i, st, QuoteStep(json, i, st), rest)
  {
    var e := EscapeChar(json[i]);
    EscapeOne(json, i);
    if !st.inString {
      Opened(if KeyStart(json, i) then "json-key" else "json-string", e, rest);
    } else {
      Closed(e, rest);
    }
  }

  lemma SwitchMarkup(json: string, i: nat, st: HighlightState, rest: string)
    requires i < |json|
    ensures MarkupKept(json, i, st, SwitchStep(json, i, st), rest)
  {
    var c := json[i];
    var r := SwitchStep(json, i, st);
    var e := EscapeChar(c);
    EscapeOne(json, i);
    if c == '{' || c == '}' || c == '[' || c == ']' {
      Wrapped("json-bracket", e, rest);
    } else if c == ',' {
      Wrapped("json-comma", e, rest);
    } else if c == ':' {
      Wrapped("json-colon", e, rest);
    } else if (IsDigit(c) || c == '-' || c == '.') && st.afterColon {
      NumberMarkup(json, i, st, rest);
    } else if (c == 't' || c == 'f' || c == 'n') && st.afterColon {
      WordMarkup(json, i, st, rest);
    } else {
      PlainStep(json, i, st, r, rest);
    }
  }

  lemma NumberMarkup(json: string, i: nat, st: HighlightState, rest: string)
    requires i < |json|
    ensures MarkupKept(json, i, st, NumberStep(json, i, st), rest)
  {
    var j := NumberEnd(json, i + 1);
    NumberEscaped(json, i, j);
    WrappedPair("json-number", EscapeChar(json[i]), EscapeAll(json[i + 1..j]), rest);
  }

  /** `Wrapped` for a span whose text is built in two pieces. */
  lemma WrappedPair(cls: string, a: string, b: string, rest: string)
    requires NoChar(cls, '>') && NoChar(a, '<') && NoChar(b, '<')
    ensures StripTags(SpanOpen(cls) + a + b + SpanClose + rest) == a + b + StripTags(rest)
    ensures TagBalance(SpanOpen(cls) + a + b + SpanClose + rest) == TagBalance(rest)
  {
    assert SpanOpen(cls) + a + b == SpanOpen(cls) + (a + b);
    assert NoChar(a + b, '<');
    Wrapped(cls, a + b, rest);
  }

  lemma NumberEscaped(json: string, i: nat, j: nat)
    requires i < j <= |json|
    ensures EscapeAll(json[i..j]) == EscapeChar(json[i]) + EscapeAll(json[i + 1..j])
  {
    assert json[i..j] == json[i..i + 1] + json[i + 1..j];
    EscapeOne(json, i);
    EscapeAllAppend(json[i..i + 1], json[i + 1..j]);
  }

  lemma WordMarkup(json: string, i: nat, st: HighlightState, rest: string)
    requires i < |json|
    ensures MarkupKept(json, i, st, WordStep(json, i, st), rest)
  {
    var w := Word(json, i);
    if w == "true" || w == "false" {
      var r := WordStep(json, i, st);
      assert r.piece == SpanOpen("json-boolean") + EscapeHtml(w) + SpanClose && r.next == i + |w|;
      KeywordMarkup(json, i, "json-boolean", rest);
    } else if w == "null" {
      var r := WordStep(json, i, st);
      assert r.piece == SpanOpen("json-null") + EscapeHtml(w) + SpanClose && r.next == i + |w|;
      KeywordMarkup(json, i, "json-null", rest);
    } else {
      PlainStep(json, i, st, WordStep(json, i, st), rest);
    }
  }

  lemma KeywordMarkup(json: string, i: nat, cls: string, rest: string)
    requires i < |json| && NoChar(cls, '>')
    ensures var w := Word(json, i);
      StripTags(SpanOpen(cls) + EscapeHtml(w) + SpanClose + rest) == EscapeAll(json[i..i + |w|]) + StripTags(rest) &&
      TagBalance(SpanOpen(cls) + EscapeHtml(w) + SpanClose + rest) == TagBalance(rest)
  {
    var w := Word(json, i);
    WrappedWord(cls, w, rest);
    assert json[i..i + |w|] == w;
  }

  lemma WrappedWord(cls: string, w: string, rest: string)
    requires NoChar(cls, '>')
    ensures StripTags(SpanOpen(cls) + EscapeHtml(w) + SpanClose + rest) == EscapeAll(w) + StripTags(rest)
    ensures TagBalance(SpanOpen(cls) + EscapeHtml(w) + SpanClose + rest) == TagBalance(rest)
  {
    EscapeHtmlPerChar(w);
    var e := EscapeAll(w);
    assert NoChar(e, '<');
    Wrapped(cls, e, rest);
  }

  /** Removing the tags from the highlighted text leaves the input escaped
      character by character, and the tags that stay open are exactly the
      string span left unterminated at the end. */
  lemma {:induction false} HighlightMarkup(json: string, i: nat, st: HighlightState)
    requires i <= |json|
    ensures StripTags(Highlight(json, i, st)) == EscapeAll(json[i..])
    ensures TagBalance(Highlight(json, i, st)) == Flag(FinalState(json, i, st).inString) - Flag(st.inString)
    decreases |json| - i
  {
    if i < |json| {
      var r := Step(json, i, st);
      var rest := Highlight(json, r.next, r.state);
      StepMarkup(json, i, st, rest);
      HighlightMarkup(json, r.next, r.state);
      assert json[i..] == json[i..r.next] + json[r.next..];
      EscapeAllAppend(json[i..r.next], json[r.next..]);
    }
  }

  /** Removing the span tags from the highlighted text and decoding the
      entities gives back the input exactly. */
  lemma HighlightRoundTrip(json: string)
    ensures Unescape(StripTags(Highlight(json, 0, HighlightStart))) == json
  {
    HighlightMarkup(json, 0, HighlightStart);
    UnescapeEscapeAll(json, []);
    assert json[0..] == json && EscapeAll(json) + [] == EscapeAll(json);
  }

  /** Every span is closed, except one when the input ends inside an
      unterminated string. */
  lemma SpansBalanced(json: string)
    ensures TagBalance(Highlight(json, 0, HighlightStart)) ==
      if FinalState(json, 0, HighlightStart).inString then 1 else 0
  {
    HighlightMarkup(json, 0, HighlightStart);
  }

  /** One pass of the loop: the text appended at `i`, where the loop
      continues, and the flags after it. */
  method HighlightAt(json: string, i: nat, inString: bool, escapeNext: bool, inKey: bool, afterColon: bool)
    returns (piece: string, next: nat, inString': bool, escapeNext': bool, inKey': bool, afterColon': bool)
    requires i < |json|
    ensures Step(json, i, HighlightState(inString, escapeNext, inKey, afterColon)) ==
            Emitted(piece, next, HighlightState(inString', escapeNext', inKey', afterColon'))
  {
    inString', escapeNext', inKey', afterColon' := inString, escapeNext, inKey, afterColon;
    next := i + 1;
    var c := json[i];
    if escapeNext {
      piece := EscapeChar(c);
      escapeNext' := false;
      return;
    }
    if c == '\\' {
      escapeNext' := true;
      piece := EscapeChar(c);
      return;
    }
    if c == '"' {
      inString' := !inString;
      if inString' {
        inKey' := IsKeyStart(json, i);
        if inKey' {
          piece := SpanOpen("json-key") + EscapeChar(c);
        } else {
          piece := SpanOpen("json-string") + EscapeChar(c);
        }
      } else {
        piece := EscapeChar(c) + SpanClose;
        inKey' := false;
      }
      return;
    }
    if inString {
      piece := EscapeChar(c);
      return;
    }
    piece, next, afterColon' := SwitchAt(json, i, afterColon);
  }

  /** The `switch` on a character outside strings. */
  method SwitchAt(json: string, i: nat, afterColon: bool) returns (piece: string, next: nat, afterColon': bool)
    requires i < |json|
    ensures forall st: HighlightState {:trigger SwitchStep(json, i, st)} | st.afterColon == afterColon ::
      SwitchStep(json, i, st) == Emitted(piece, next, st.(afterColon := afterColon'))
  {
    var c := json[i];
    next, afterColon' := i + 1, afterColon;
    if c == '{' || c == '}' || c == '[' || c == ']' {
      piece := SpanOpen("json-bracket") + EscapeChar(c) + SpanClose;
      afterColon' := false;
    } else if c == ',' {
      piece := SpanOpen("json-comma") + EscapeChar(c) + SpanClose;
      afterColon' := false;
    } else if c == ':' {
      piece := SpanOpen("json-colon") + EscapeChar(c) + SpanClose;
      afterColon' := true;
    } else if c == ' ' || c == '\n' || c == '\t' {
      piece := EscapeChar(c);
    } else if IsDigit(c) || c == '-' || c == '.' {
      if afterColon {
        piece, next := NumberAt(json, i);
      } else {
        piece := EscapeChar(c);
      }
    } else if c == 't' || c == 'f' || c == 'n' {
      if afterColon {
        piece, next := WordAt(json, i);
      } else {
        piece := EscapeChar(c);
      }
    } else {
      piece := EscapeChar(c);
    }
  }

  /** A number after a colon, up to the first character that cannot continue it. */
  method NumberAt(json: string, i: nat) returns (piece: string, next: nat)
    requires i < |json|
    ensures forall st: HighlightState {:trigger NumberStep(json, i, st)} ::
      NumberStep(json, i, st) == Emitted(piece, next, st)
  {
    piece := SpanOpen("json-number") + EscapeChar(json[i]);
    var digits;
    digits, next := NumberRest(json, i + 1);
    piece := piece + digits + SpanClose;
  }

  /** The inner loop of the number case: the characters from `start` on
      that can continue a number, escaped, and the index after them. */
  method NumberRest(json: string, start: nat) returns (digits: string, j: nat)
    requires start <= |json|
    ensures j == NumberEnd(json, start) && digits == EscapeAll(json[start..j])
  {
    j := start;
    digits := [];
    while j < |json| && IsNumberChar(json[j])
      invariant start <= j <= NumberEnd(json, start)
      invariant NumberEnd(json, start) == NumberEnd(json, j)
      invariant digits == EscapeAll(json[start..j])
      decreases |json| - j
    {
      EscapeAllSnoc(json, start, j);
      digits := digits + EscapeChar(json[j]);
      j := j + 1;
    }
  }

  lemma EscapeAllSnoc(json: string, a: nat, b: nat)
    requires a <= b < |json|
    ensures EscapeAll(json[a..b + 1]) == EscapeAll(json[a..b]) + EscapeChar(json[b])
  {
    assert json[a..b + 1] == json[a..b] + [json[b]];
    EscapeAllAppend(json[a..b], [json[b]]);
    assert [json[b]][1..] == [];
  }

  /** A word after a colon: a keyword in its span, or just its first letter. */
  method WordAt(json: string, i: nat) returns (piece: string, next: nat)
    requires i < |json|
    ensures forall st: HighlightState {:trigger WordStep(json, i, st)} ::
      WordStep(json, i, st) == Emitted(piece, next, st)
  {
    var word := ExtractWord(json, i);
    if word == "true" || word == "false" {
      piece := SpanOpen("json-boolean") + EscapeHtml(word) + SpanClose;
      next := i + |word|;
    } else if word == "null" {
      piece := SpanOpen("json-null") + EscapeHtml(word) + SpanClose;
      next := i + |word|;
    } else {
      piece := EscapeChar(json[i]);
      next := i + 1;
    }
  }

  /** `highlightJsonSyntax` over the characters of `json`. */
  method HighlightJsonSyntax(json: string) returns (result: string)
    ensures result == Highlight(json, 0, HighlightStart)
  {
    result := [];
    var inString, escapeNext, inKey, afterColon := false, false, false, false;
    var i: nat := 0;
    while i < |json|
      invariant i <= |json|
      invariant result + Highlight(json, i, HighlightState(inString, escapeNext, inKey, afterColon)) ==
                Highlight(json, 0, HighlightStart)
      decreases |json| - i
    {
      var piece;
      ghost var i0, before := i, HighlightState(inString, escapeNext, inKey, afterColon);
      piece, i, inString, escapeNext, inKey, afterColon := HighlightAt(json, i, inString, escapeNext, inKey, afterColon);
      ghost var rest := Highlight(json, i, HighlightState(inString, escapeNext, inKey, afterColon));
      assert Highlight(json, i0, before) == piece + rest;
      assert result + (piece + rest) == (result + piece) + rest;
      result := result + piece;
    }
  }
}
