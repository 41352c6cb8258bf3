/** `JsonlEditorComponent`: the shallow JSON-line check and the hover state
    that decides when a line's popup is shown. */
module Jsonl {
  import opened Options
  import opened Strings
  import opened Decimal

  // ---------------------------------------------------------------------
  // isValidJson
  // ---------------------------------------------------------------------

  /** The end of the run of decimal digits that starts at `i`. */
  function DigitRunEnd(t: string, i: nat): (e: nat)
    requires i <= |t|
    ensures i <= e <= |t|
    ensures forall k :: i <= k < e ==> IsDigit(t[k])
    ensures e < |t| ==> !IsDigit(t[e])
    decreases |t| - i
  {
    if i < |t| && IsDigit(t[i]) then DigitRunEnd(t, i + 1) else i
  }

  /** Where an optional `.digits` group starting at `b` ends; `None` when a
      point is not followed by a digit. */
  function FractionEnd(t: string, b: nat): Option<nat>
    requires b <= |t|
  {
    if b < |t| && t[b] == '.' then
      var d := DigitRunEnd(t, b + 1);
      if d > b + 1 then Some(d) else None
    else Some(b)
  }

  /** Where an optional `[eE][+-]?digits` group starting at `c` ends;
      `None` when the exponent has no digit. */
  function ExponentEnd(t: string, c: nat): Option<nat>
    requires c <= |t|
  {
    if c < |t| && (t[c] == 'e' || t[c] == 'E') then
      var s := if c + 1 < |t| && (t[c + 1] == '+' || t[c + 1] == '-') then c + 2 else c + 1;
      var d := DigitRunEnd(t, s);
      if d > s then Some(d) else None
    else Some(c)
  }

  /** Whole-string match of `-?\d+(\.\d+)?([eE][+-]?\d+)?`, read left to
      right: no group can end where a later one could start, so the match
      needs no backtracking. */
  function MatchesNumber(t: string): bool
  {
    var a := if |t| > 0 && t[0] == '-' then 1 else 0;
    var b := DigitRunEnd(t, a);
    b > a &&
    match FractionEnd(t, b)
    case None => false
    case Some(c) => ExponentEnd(t, c) == Some(|t|)
  }

  /** `isValidJson`: after trimming, non-empty and either delimited by
      braces or brackets, a literal, a number, or quoted. */
  function IsValidJson(json: string): bool
  {
    var t := Trim(json);
    if t == [] then false
    else if (StartsWith(t, "{") && EndsWith(t, "}")) || (StartsWith(t, "[") && EndsWith(t, "]")) then true
    else t == "true" || t == "false" || t == "null" || MatchesNumber(t) ||
         (StartsWith(t, "\"") && EndsWith(t, "\""))
  }

  // The number grammar, stated by its parts.

  predicate Digits(s: string) { |s| >= 1 && AllDigits(s) }

  predicate FractionPart(s: string) { s == [] || (s[0] == '.' && Digits(s[1..])) }

  predicate ExponentPart(s: string)
  {
    s == [] ||
    (|s| >= 2 && (s[0] == 'e' || s[0] == 'E') &&
     (Digits(s[1..]) || ((s[1] == '+' || s[1] == '-') && Digits(s[2..]))))
  }

  /** Sign, integer digits, optional fraction, optional exponent. */
  predicate NumberParts(sign: string, whole: string, frac: string, exp: string)
  {
    (sign == [] || sign == "-") && Digits(whole) && FractionPart(frac) && ExponentPart(exp)
  }

  lemma {:induction false} DigitRunSkips(t: string, i: nat, n: nat)
    requires i + n <= |t|
    requires forall k :: i <= k < i + n ==> IsDigit(t[k])
    requires i + n == |t| || !IsDigit(t[i + n])
    ensures DigitRunEnd(t, i) == i + n
    decreases n
  {
    if n > 0 {
      DigitRunSkips(t, i + 1, n - 1);
    }
  }

  /** A run of digits followed by a non-digit is read exactly. */
  lemma DigitsRead(t: string, i: nat, digits: string, rest: string)
    requires i + |digits| + |rest| == |t| && t[i..] == digits + rest && AllDigits(digits)
    requires rest == [] || !IsDigit(rest[0])
    ensures DigitRunEnd(t, i) == i + |digits|
  {
    forall k | i <= k < i + |digits| ensures IsDigit(t[k]) {
      assert t[k] == t[i..][k - i] == digits[k - i];
    }
    if rest != [] {
      assert t[i + |digits|] == t[i..][|digits|] == rest[0];
    }
    DigitRunSkips(t, i, |digits|);
  }

  /** The exponent part at the end of `t` is read to the end. */
  lemma ExponentReads(t: string, c: nat, exp: string)
    requires c + |exp| == |t| && t[c..] == exp && ExponentPart(exp)
    ensures ExponentEnd(t, c) == Some(|t|)
  {
    if exp != [] {
      assert t[c] == exp[0];
      if (exp[1] == '+' || exp[1] == '-') && Digits(exp[2..]) {
        assert t[c + 1] == exp[1];
        assert t[c + 2..] == exp[2..] + [];
        DigitsRead(t, c + 2, exp[2..], []);
      } else {
        assert t[c + 1] == exp[1..][0];
        assert t[c + 1..] == exp[1..] + [];
        DigitsRead(t, c + 1, exp[1..], []);
      }
    }
  }

  /** The fraction part is read up to where the exponent part starts. */
  lemma FractionReads(t: string, b: nat, frac: string, exp: string)
    requires b + |frac| + |exp| == |t| && t[b..] == frac + exp && FractionPart(frac) && ExponentPart(exp)
    ensures FractionEnd(t, b) == Some(b + |frac|)
  {
    if frac != [] {
      assert t[b] == frac[0];
      assert t[b + 1..] == frac[1..] + exp;
      DigitsRead(t, b + 1, frac[1..], exp);
    } else if b < |t| {
      assert t[b] == exp[0];
    }
  }

  /** `(x + y)` without its first `|x|` elements is `y`. */
  lemma DropConcat(x: string, y: string)
    ensures (x + y)[|x|..] == y
  {
  }

  /** The first element of a suffix. */
  lemma HeadOfSuffix(t: string, a: nat, x: string, y: string)
    requires a <= |t| && t[a..] == x + y && x != []
    ensures t[a] == x[0]
  {
    assert t[a] == t[a..][0];
  }

  /** The sign of a grammar text decides where its digits start. */
  lemma SignRead(sign: string, whole: string, frac: string, exp: string)
    requires NumberParts(sign, whole, frac, exp)
    ensures var t := sign + whole + frac + exp;
      |sign| == if |t| > 0 && t[0] == '-' then 1 else 0
  {
    var t := sign + whole + frac + exp;
    assert t == sign + (whole + (frac + exp));
    DropConcat(sign, whole + (frac + exp));
    HeadOfSuffix(t, |sign|, whole, frac + exp);
    if sign != [] {
      assert t[0] == sign[0];
    }
  }

  /** The integer digits of a grammar text are read whole. */
  lemma WholeRead(sign: string, whole: string, frac: string, exp: string)
    requires NumberParts(sign, whole, frac, exp)
    ensures var t := sign + whole + frac + exp;
      |sign| <= |t| && DigitRunEnd(t, |sign|) == |sign| + |whole|
  {
    var t := sign + whole + frac + exp;
    assert t == sign + (whole + (frac + exp));
    DropConcat(sign, whole + (frac + exp));
    AfterDigits(frac, exp);
    DigitsRead(t, |sign|, whole, frac + exp);
  }

  /** What follows the integer digits does not start with a digit. */
  lemma AfterDigits(frac: string, exp: string)
    requires FractionPart(frac) && ExponentPart(exp)
    ensures frac + exp == [] || !IsDigit((frac + exp)[0])
  {
    if frac != [] {
      assert (frac + exp)[0] == frac[0];
    } else {
      assert frac + exp == exp;
    }
  }

  /** The fraction of a grammar text is read whole. */
  lemma FracRead(sign: string, whole: string, frac: string, exp: string)
    requires NumberParts(sign, whole, frac, exp)
    ensures var t := sign + whole + frac + exp;
      |sign| + |whole| <= |t| && FractionEnd(t, |sign| + |whole|) == Some(|sign| + |whole| + |frac|)
  {
    var t := sign + whole + frac + exp;
    assert t == (sign + whole) + (frac + exp);
    DropConcat(sign + whole, frac + exp);
    FractionReads(t, |sign| + |whole|, frac, exp);
  }

  /** The exponent of a grammar text is read to its end. */
  lemma ExpRead(sign: string, whole: string, frac: string, exp: string)
    requires NumberParts(sign, whole, frac, exp)
    ensures var t := sign + whole + frac + exp;
      |sign| + |whole| + |frac| <= |t| && ExponentEnd(t, |sign| + |whole| + |frac|) == Some(|t|)
  {
    var t := sign + whole + frac + exp;
    DropConcat(sign + whole + frac, exp);
    ExponentReads(t, |sign| + |whole| + |frac|, exp);
  }

  /** Every text built from the grammar's parts matches. */
  lemma NumberComplete(sign: string, whole: string, frac: string, exp: string)
    requires NumberParts(sign, whole, frac, exp)
    ensures MatchesNumber(sign + whole + frac + exp)
  {
    var t := sign + whole + frac + exp;
    var a, b := |sign|, |sign| + |whole|;
    SignRead(sign, whole, frac, exp);
    WholeRead(sign, whole, frac, exp);
    FracRead(sign, whole, frac, exp);
    ExpRead(sign, whole, frac, exp);
    MatchesAt(t, a, b, b + |frac|);
  }

  /** The matcher's verdict from the points where its groups end. */
  lemma MatchesAt(t: string, a: nat, b: nat, c: nat)
    requires a == if |t| > 0 && t[0] == '-' then 1 else 0
    requires a <= |t| && DigitRunEnd(t, a) == b > a
    requires b <= |t| && FractionEnd(t, b) == Some(c)
    requires c <= |t| && ExponentEnd(t, c) == Some(|t|)
    ensures MatchesNumber(t)
  {
  }

  /** A digit run read from `t` is a `Digits` text. */
  lemma RunIsDigits(t: string, i: nat)
    requires i <= |t| && DigitRunEnd(t, i) > i
    ensures Digits(t[i..DigitRunEnd(t, i)])
  {
  }

  /** What `FractionEnd` reads is a fraction part. */
  lemma FractionSound(t: string, b: nat)
    requires b <= |t| && FractionEnd(t, b).Some?
    ensures b <= FractionEnd(t, b).value <= |t|
    ensures FractionPart(t[b..FractionEnd(t, b).value])
  {
    var c := FractionEnd(t, b).value;
    if c > b {
      RunIsDigits(t, b + 1);
      assert t[b..c][1..] == t[b + 1..c];
    }
  }

  /** What `ExponentEnd` reads up to the end is an exponent part. */
  lemma ExponentSound(t: string, c: nat)
    requires c <= |t| && ExponentEnd(t, c) == Some(|t|)
    ensures ExponentPart(t[c..])
  {
    if c < |t| {
      var exp := t[c..];
      var s := if c + 1 < |t| && (t[c + 1] == '+' || t[c + 1] == '-') then c + 2 else c + 1;
      RunIsDigits(t, s);
      assert exp[s - c..] == t[s..|t|];
      assert exp[0] == t[c];
      if s == c + 2 {
        assert exp[1] == t[c + 1];
      }
    }
  }

  /** A text cut at three points is the concatenation of its pieces. */
  lemma Pieces(t: string, a: nat, b: nat, c: nat)
    requires a <= b <= c <= |t|
    ensures t == t[..a] + t[a..b] + t[b..c] + t[c..]
  {
  }

  /** Every matching text splits into the grammar's parts. */
  lemma NumberSound(t: string)
    requires MatchesNumber(t)
    ensures exists sign, whole, frac, exp :: NumberParts(sign, whole, frac, exp) && t == sign + whole + frac + exp
  {
    var a := if |t| > 0 && t[0] == '-' then 1 else 0;
    var b := DigitRunEnd(t, a);
    var c := FractionEnd(t, b).value;
    RunIsDigits(t, a);
    FractionSound(t, b);
    ExponentSound(t, c);
    Pieces(t, a, b, c);
    assert a == 1 ==> t[..a] == "-";
    assert NumberParts(t[..a], t[a..b], t[b..c], t[c..]);
  }

  /** Number text is exactly the grammar's: both directions. */
  lemma NumberGrammar(t: string)
    ensures MatchesNumber(t) <==>
      exists sign, whole, frac, exp :: NumberParts(sign, whole, frac, exp) && t == sign + whole + frac + exp
  {
    if MatchesNumber(t) {
      NumberSound(t);
    } else if sign, whole, frac, exp :| NumberParts(sign, whole, frac, exp) && t == sign + whole + frac + exp {
      NumberComplete(sign, whole, frac, exp);
    }
  }

  /** Empty and whitespace-only lines are never accepted. */
  lemma BlankRejected(json: string)
    requires forall k :: 0 <= k < |json| ==> IsTrimmed(json[k])
    ensures !IsValidJson(json)
  {
    TrimEmptyIff(json);
  }

  /** Once trimmed, anything between matching braces or brackets is
      accepted without looking inside. */
  lemma DelimitedAccepted(json: string, inner: string)
    requires Trim(json) == "{" + inner + "}" || Trim(json) == "[" + inner + "]"
    ensures IsValidJson(json)
  {
    var t := Trim(json);
    assert t[..1] == [t[0]] && t[|t| - 1..] == [t[|t| - 1]];
  }

  /** The accepted lines, case by case: a trimmed line is accepted exactly
      when it is delimited, a literal, a number of the grammar, or starts
      and ends with a quote (so a lone quote is accepted). */
  lemma AcceptedExactly(json: string)
    ensures var t := Trim(json);
      IsValidJson(json) <==>
        t != [] &&
        ((t[0] == '{' && t[|t| - 1] == '}') || (t[0] == '[' && t[|t| - 1] == ']') ||
         t == "true" || t == "false" || t == "null" ||
         (exists sign, whole, frac, exp :: NumberParts(sign, whole, frac, exp) && t == sign + whole + frac + exp) ||
         (t[0] == '"' && t[|t| - 1] == '"'))
  {
    var t := Trim(json);
    NumberGrammar(t);
    if t != [] {
      assert StartsWith(t, "{") <==> t[0] == '{' by { assert t[..1] == [t[0]]; }
      assert StartsWith(t, "[") <==> t[0] == '[' by { assert t[..1] == [t[0]]; }
      assert StartsWith(t, "\"") <==> t[0] == '"' by { assert t[..1] == [t[0]]; }
      assert EndsWith(t, "}") <==> t[|t| - 1] == '}' by { assert t[|t| - 1..] == [t[|t| - 1]]; }
      assert EndsWith(t, "]") <==> t[|t| - 1] == ']' by { assert t[|t| - 1..] == [t[|t| - 1]]; }
      assert EndsWith(t, "\"") <==> t[|t| - 1] == '"' by { assert t[|t| - 1..] == [t[|t| - 1]]; }
    }
  }

  // ---------------------------------------------------------------------
  // Hover state
  // ---------------------------------------------------------------------

  /** The editor's hover state: the line last hovered (-1 for none), the
      trimmed line a popup is showing, and the line of the timer task that
      is scheduled and has not yet run. */
  datatype Hover = Hover(lastHoveredLine: int, popup: Option<string>, pending: Option<nat>)

  const Idle: Hover := Hover(-1, None, None)

  /** `hideCurrentPopup`: closes the popup and forgets the hovered line. */
  function Hidden(h: Hover): (r: Hover)
    ensures r.popup == None && r.lastHoveredLine == -1 && r.pending == h.pending
  {
    h.(popup := None, lastHoveredLine := -1)
  }

  /** `handleMouseMove`: nothing on the hovered line; on another line the
      pending task is cancelled, the popup hidden, the line recorded and a
      new delayed show scheduled for it. */
  function OnMove(h: Hover, line: nat): Hover
  {
    if line == h.lastHoveredLine then h
    else Hidden(h.(pending := None)).(lastHoveredLine := line, pending := Some(line))
  }

  /** `showJsonPopup`: a line past the end of the document is caught as an
      exception and changes nothing; an empty or invalid trimmed line
      changes nothing; otherwise the current popup is hidden and a popup
      for the trimmed line shown. */
  function OnShow(lines: seq<string>, h: Hover, line: nat): Hover
  {
    if line >= |lines| then h
    else
      var content := Trim(lines[line]);
      if content == [] || !IsValidJson(content) then h
      else Hidden(h).(popup := Some(content))
  }

  /** The scheduled task runs: it shows its line's popup only if that line
      is still the hovered one. */
  function OnDelay(lines: seq<string>, h: Hover): Hover
  {
    match h.pending
    case None => h
    case Some(line) =>
      var h' := h.(pending := None);
      if line == h'.lastHoveredLine then OnShow(lines, h', line) else h'
  }

  /** The state's invariant: a popup on screen means no line is recorded
      as hovered. */
  predicate PopupForgetsLine(h: Hover) { h.popup.Some? ==> h.lastHoveredLine == -1 }

  /** A move to the hovered line changes nothing; a move to any other line
      leaves no popup, records the line and schedules exactly one show. */
  lemma MoveEffect(h: Hover, line: nat)
    ensures line == h.lastHoveredLine ==> OnMove(h, line) == h
    ensures line != h.lastHoveredLine ==> OnMove(h, line) == Hover(line, None, Some(line))
  {
  }

  /** A scheduled show whose line is no longer the hovered one only
      retires the task. */
  lemma StaleDelayIgnored(lines: seq<string>, h: Hover, line: nat)
    requires h.pending == Some(line) && line != h.lastHoveredLine
    ensures OnDelay(lines, h) == h.(pending := None)
  {
  }

  /** A popup appears only from the task of the hovered line, for a line of
      the document whose trimmed text is non-empty and passes the check;
      and for such a line it does appear, with the hovered line reset. */
  lemma DelayShowsValidLine(lines: seq<string>, h: Hover)
    ensures var r := OnDelay(lines, h);
      r.popup != h.popup ==>
        h.pending == Some(h.lastHoveredLine) && 0 <= h.lastHoveredLine < |lines| &&
        r.popup == Some(Trim(lines[h.lastHoveredLine])) &&
        Trim(lines[h.lastHoveredLine]) != [] && IsValidJson(Trim(lines[h.lastHoveredLine]))
    ensures (h.pending == Some(h.lastHoveredLine) && 0 <= h.lastHoveredLine < |lines| &&
             Trim(lines[h.lastHoveredLine]) != [] && IsValidJson(Trim(lines[h.lastHoveredLine]))) ==>
      OnDelay(lines, h) == Hover(-1, Some(Trim(lines[h.lastHoveredLine])), None)
  {
  }

  /** Every event keeps the invariant. */
  lemma EventsKeepInvariant(lines: seq<string>, h: Hover, line: nat)
    requires PopupForgetsLine(h)
    ensures PopupForgetsLine(OnMove(h, line))
    ensures PopupForgetsLine(OnDelay(lines, h))
    ensures PopupForgetsLine(Hidden(h))
  {
  }

  /** Because showing a popup forgets the hovered line, the next mouse
      move, even within the same line, hides the popup again and schedules
      a fresh show. */
  lemma MoveAfterPopupHides(h: Hover, line: nat)
    requires PopupForgetsLine(h) && h.popup.Some?
    ensures OnMove(h, line) == Hover(line, None, Some(line))
  {
  }

  /** Hovering a new line and waiting shows exactly that line's popup when
      its trimmed text passes the check, and no popup otherwise. */
  lemma HoverThenWait(lines: seq<string>, h: Hover, line: nat)
    requires line != h.lastHoveredLine
    ensures var r := OnDelay(lines, OnMove(h, line));
      var shows := line < |lines| && Trim(lines[line]) != [] && IsValidJson(Trim(lines[line]));
      r.popup == (if shows then Some(Trim(lines[line])) else None) &&
      r.pending == None &&
      r.lastHoveredLine == (if shows then -1 else line)
  {
  }

  /** The editor's hover handling over a document split into `lines`. */
  class JsonlEditorComponent {
    const lines: seq<string>
    var lastHoveredLine: int
    var currentPopup: Option<string>
    var hoverTimer: Option<nat>

    function State(): Hover
      reads this
    {
      Hover(lastHoveredLine, currentPopup, hoverTimer)
    }

    constructor(lines: seq<string>)
      ensures this.lines == lines && State() == Idle
    {
      this.lines := lines;
      lastHoveredLine := -1;
      currentPopup := None;
      hoverTimer := None;
    }

    /** `hideCurrentPopup`. */
    method HideCurrentPopup()
      modifies this
      ensures State() == Hidden(old(State()))
    {
      if currentPopup.Some? {
        currentPopup := None;
      }
      lastHoveredLine := -1;
    }

    /** `mousePressed`, `mouseClicked` and `mouseExited` all hide the popup. */
    method MousePressed()
      modifies this
      ensures State() == Hidden(old(State()))
    {
      HideCurrentPopup();
    }

    method MouseClicked()
      modifies this
      ensures State() == Hidden(old(State()))
    {
      HideCurrentPopup();
    }

    method MouseExited()
      modifies this
      ensures State() == Hidden(old(State()))
    {
      HideCurrentPopup();
    }

    /** `handleMouseMove` for a move onto `lineNumber`. */
    method HandleMouseMove(lineNumber: nat)
      modifies this
      ensures State() == OnMove(old(State()), lineNumber)
    {
      if lineNumber == lastHoveredLine {
        return;
      }
      if hoverTimer.Some? {
        hoverTimer := None;
      }
      HideCurrentPopup();
      lastHoveredLine := lineNumber;
      hoverTimer := Some(lineNumber);
    }

    /** `showJsonPopup`. */
    method ShowJsonPopup(lineNumber: nat)
      modifies this
      ensures State() == OnShow(lines, old(State()), lineNumber)
    {
      if lineNumber >= |lines| {
        return;
      }
      var lineContent := Trim(lines[lineNumber]);
      if lineContent == [] {
        return;
      }
      if !IsValidJson(lineContent) {
        return;
      }
      HideCurrentPopup();
      currentPopup := Some(lineContent);
    }

    /** The scheduled task runs after its delay. */
    method HoverDelayElapsed()
      modifies this
      ensures State() == OnDelay(lines, old(State()))
    {
      if hoverTimer.None? {
        return;
      }
      var lineNumber := hoverTimer.value;
      hoverTimer := None;
      if lineNumber == lastHoveredLine {
        ShowJsonPopup(lineNumber);
      }
    }
  }
}
