/**
 The widget's Markdown renderer (`parseMarkdown`): four global regular-expression
 replacements run one after the other, each on the previous one's output.

 A global replacement of `/D(.*?)D/g` scans left to right. At each position it
 tries to match there; the lazy `(.*?)` takes the shortest run of characters
 that contains no line terminator and is followed by the closing `D` (the run
 may be empty). A match is replaced by `Open + run + Close` and the scan resumes
 after it; otherwise one character is copied and the scan moves on.
 */
module Markdown {
  import opened Wrappers
  import opened JsRuntime


  predicate NoLineTerminator(s: string) {
    forall i :: 0 <= i < |s| ==> !IsLineTerminator(s[i])
  }

  /** No `*` and no backtick: nothing any of the span passes could match. */
  predicate MarkerFree(s: string) {
    '*' !in s && '`' !in s
  }

  /** One replacement `/Delim(.*?)Delim/g` to `Open$1Close`. */
  datatype Rule = Rule(delim: string, open: string, close: string)

  const Bold := Rule("**", "<strong>", "</strong>")
  const Italic := Rule("*", "<em>", "</em>")
  const Code := Rule("`", "<code>", "</code>")

  /** The replacement tags contain no marker character and no line end; the delimiters no line end. */
  predicate PlainRule(r: Rule) {
    && |r.delim| > 0
    && NoLineTerminator(r.delim)
    && MarkerFree(r.open) && NoLineTerminator(r.open)
    && MarkerFree(r.close) && NoLineTerminator(r.close)
  }

  lemma BoldIsPlain()
    ensures PlainRule(Bold) && Bold.delim[0] == '*'
  {
  }

  lemma ItalicIsPlain()
    ensures PlainRule(Italic) && Italic.delim[0] == '*'
  {
  }

  lemma CodeIsPlain()
    ensures PlainRule(Code) && Code.delim[0] == '`'
  {
  }

  /** The delimiter `d` occurs in `t` at position `j`. */
  predicate StartsAt(t: string, d: string, j: int) {
    0 <= j <= |t| && d <= t[j..]
  }

  /** The lazy run of length `k` at the start of `t` is followed by `d` and crosses no line end. */
  ghost predicate ClosesAt(t: string, d: string, k: nat) {
    k <= |t| && NoLineTerminator(t[..k]) && d <= t[k..]
  }

  /** Length of the shortest run that `(.*?)` accepts before the closing `d`, if there is one. */
  function CloseAt(t: string, d: string): Option<nat>
    requires |d| > 0
  {
    CloseFrom(t, d, 0)
  }

  /** The lazy scan: having rejected every shorter run, try to close at position `i`, else extend the run by one character. */
  function CloseFrom(t: string, d: string, i: nat): Option<nat>
    requires |d| > 0 && i <= |t|
    decreases |t| - i
  {
    if d <= t[i..] then Some(i)
    else if i == |t| || IsLineTerminator(t[i]) then None
    else CloseFrom(t, d, i + 1)
  }

  /** The scan from `i`, given that no shorter run closes and the first `i` characters are on one line. */
  lemma {:induction false} CloseFromIsLazy(t: string, d: string, i: nat)
    requires |d| > 0 && i <= |t|
    requires NoLineTerminator(t[..i])
    requires forall j :: 0 <= j < i ==> !StartsAt(t, d, j)
    ensures CloseFrom(t, d, i).Some? ==> ClosesAt(t, d, CloseFrom(t, d, i).value)
    ensures CloseFrom(t, d, i).Some? ==> forall j :: 0 <= j < CloseFrom(t, d, i).value ==> !StartsAt(t, d, j)
    ensures CloseFrom(t, d, i).None? ==> forall k: nat :: !ClosesAt(t, d, k)
    decreases |t| - i
  {
    if d <= t[i..] {
    } else if i == |t| || IsLineTerminator(t[i]) {
      forall k: nat ensures !ClosesAt(t, d, k) {
        if k < i {
          assert !StartsAt(t, d, k);
        } else if i < k <= |t| {
          assert t[..k][i] == t[i];
        }
      }
    } else {
      assert !StartsAt(t, d, i);
      assert t[..i + 1] == t[..i] + [t[i]];
      LineFreeSnoc(t[..i], t[i]);
      CloseFromIsLazy(t, d, i + 1);
    }
  }

  lemma LineFreeSnoc(s: string, c: char)
    requires NoLineTerminator(s) && !IsLineTerminator(c)
    ensures NoLineTerminator(s + [c])
  {
    var t := s + [c];
    forall i | 0 <= i < |t| ensures !IsLineTerminator(t[i]) {
      if i < |s| {
        assert t[i] == s[i];
      }
    }
  }

  /**
   `CloseAt` is the lazy quantifier: it finds a closing position exactly when
   one exists, and the one it finds is the leftmost delimiter occurrence.
   */
  lemma CloseAtIsLazy(t: string, d: string)
    requires |d| > 0
    ensures CloseAt(t, d).Some? ==> ClosesAt(t, d, CloseAt(t, d).value)
    ensures CloseAt(t, d).Some? ==> forall j :: 0 <= j < CloseAt(t, d).value ==> !StartsAt(t, d, j)
    ensures CloseAt(t, d).None? ==> forall k: nat :: !ClosesAt(t, d, k)
  {
    assert t[..0] == [];
    CloseFromIsLazy(t, d, 0);
  }

  /** Length of the run inside a match that starts at the first character of `s`, if one does. */
  function MatchAt(r: Rule, s: string): Option<nat>
    requires |r.delim| > 0
  {
    if r.delim <= s then CloseAt(s[|r.delim|..], r.delim) else None
  }

  /** A match found at the start of `s` is delimiter, line-free run, delimiter. */
  lemma MatchAtShape(r: Rule, s: string)
    requires |r.delim| > 0 && MatchAt(r, s).Some?
    ensures var n, k := |r.delim|, MatchAt(r, s).value;
      && n + k + n <= |s|
      && r.delim <= s
      && NoLineTerminator(s[n..n + k])
      && s[n + k..n + k + n] == r.delim
  {
    var n, k := |r.delim|, MatchAt(r, s).value;
    CloseAtIsLazy(s[n..], r.delim);
    assert s[n..][..k] == s[n..n + k];
    assert s[n..][k..][..n] == s[n + k..n + k + n];
  }

  /** A match found at the start of `s` fits inside `s`. */
  lemma MatchAtBounds(r: Rule, s: string)
    requires |r.delim| > 0 && MatchAt(r, s).Some?
    ensures MatchAt(r, s).value + 2 * |r.delim| <= |s|
  {
    CloseAtIsLazy(s[|r.delim|..], r.delim);
  }

  /** No match can start at a character other than the delimiter's first one. */
  lemma NoMatchAtOtherChar(r: Rule, s: string)
    requires |r.delim| > 0 && |s| > 0 && s[0] != r.delim[0]
    ensures MatchAt(r, s).None?
  {
  }

  /** What one step of a pass emits, and how much of the input it consumes. */
  datatype Chunk = Chunk(out: string, used: nat)

  /** One step of a pass: a whole match if one starts here, otherwise one copied character. */
  function Step(r: Rule, s: string): (c: Chunk)
    requires |r.delim| > 0 && |s| > 0
    ensures 0 < c.used <= |s|
  {
    match MatchAt(r, s)
    case Some(k) =>
      var n := |r.delim|;
      MatchAtBounds(r, s);
      Chunk(r.open + s[n..n + k] + r.close, n + k + n)
    case None => Chunk([s[0]], 1)
  }

  /** One global replacement pass of `r` over `s`. */
  function Apply(r: Rule, s: string): string
    requires |r.delim| > 0
    decreases |s|
  {
    if |s| == 0 then []
    else
      var c := Step(r, s);
      c.out + Apply(r, s[c.used..])
  }

  /** A pass is its first step's output followed by the pass over what that step left. */
  lemma ApplyAfterStep(r: Rule, s: string, out: string, used: nat)
    requires |r.delim| > 0 && |s| > 0
    requires Step(r, s).out == out && Step(r, s).used == used
    ensures used <= |s| && Apply(r, s) == out + Apply(r, s[used..])
  {
  }

  /** At a match, a step emits the run between the tags and consumes the whole match. */
  lemma StepAtMatch(r: Rule, s: string, k: nat)
    requires |r.delim| > 0 && MatchAt(r, s) == Some(k)
    requires k + 2 * |r.delim| <= |s|
    ensures Step(r, s).out == r.open + s[|r.delim|..|r.delim| + k] + r.close
    ensures Step(r, s).used == |r.delim| + k + |r.delim|
  {
  }

  /** Where no match starts, a step copies one character. */
  lemma StepNoMatch(r: Rule, s: string)
    requires |r.delim| > 0 && |s| > 0 && MatchAt(r, s).None?
    ensures Step(r, s).out == [s[0]] && Step(r, s).used == 1
  {
  }

  /** A character other than the delimiter's first one is copied. */
  lemma StepCopies(r: Rule, s: string)
    requires |r.delim| > 0 && |s| > 0 && s[0] != r.delim[0]
    ensures Step(r, s).out == [s[0]] && Step(r, s).used == 1
  {
    NoMatchAtOtherChar(r, s);
    StepNoMatch(r, s);
  }

  /** Without the delimiter's first character there is nothing to close on. */
  lemma NoCloseWithout(t: string, d: string)
    requires |d| > 0 && d[0] !in t
    ensures CloseAt(t, d).None?
  {
    CloseAtIsLazy(t, d);
    forall k: nat ensures !ClosesAt(t, d, k) {
      if k < |t| {
        assert t[k..][0] == t[k];
      }
    }
  }

  /** The `/\n/g` to `<br>` pass. */
  function Breaks(s: string): (o: string)
    ensures '\n' !in o
    ensures '\n' !in s ==> o == s
    decreases |s|
  {
    if |s| == 0 then []
    else (if s[0] == '\n' then "<br>" else [s[0]]) + Breaks(s[1..])
  }

  /** `parseMarkdown(text)`: bold, then italic, then code, then line breaks. */
  function ParseMarkdown(text: string): (html: string)
    ensures '\n' !in html
  {
    Breaks(Apply(Code, Apply(Italic, Apply(Bold, text))))
  }

  // ---------------------------------------------------------------------------
  // Facts about one pass

  /** Text that never starts the delimiter is copied through unchanged. */
  lemma {:induction false} ApplyCopies(r: Rule, a: string, rest: string)
    requires |r.delim| > 0
    requires r.delim[0] !in a
    ensures Apply(r, a + rest) == a + Apply(r, rest)
    decreases |a|
  {
    if |a| > 0 {
      var s := a + rest;
      ConsSplit(a, rest);
      StepCopies(r, s);
      ApplyAfterStep(r, s, [a[0]], 1);
      ApplyCopies(r, a[1..], rest);
      ConsSplit(a, Apply(r, rest));
    } else {
      assert a + rest == rest;
    }
  }

  /** The head and tail of a concatenation with a non-empty front. */
  lemma ConsSplit(a: string, rest: string)
    requires |a| > 0
    ensures (a + rest)[0] == a[0] && (a + rest)[1..] == a[1..] + rest
    ensures [a[0]] + (a[1..] + rest) == a + rest
  {
    assert a == [a[0]] + a[1..];
  }

  /** A pass leaves text without its delimiter's first character unchanged. */
  lemma ApplyIdentity(r: Rule, s: string)
    requires |r.delim| > 0
    requires r.delim[0] !in s
    ensures Apply(r, s) == s
  {
    ApplyCopies(r, s, []);
    assert s + [] == s;
  }

  /** With no delimiter character inside, the lazy run stops exactly at the next delimiter. */
  lemma CloseAtSpan(a: string, d: string, rest: string)
    requires |d| > 0
    requires d[0] !in a && NoLineTerminator(a)
    ensures CloseAt(a + d + rest, d) == Some(|a|)
  {
    var t := a + d + rest;
    assert t[..|a|] == a;
    assert t[|a|..] == d + rest;
    assert ClosesAt(t, d, |a|);
    assert StartsAt(t, d, |a|);
    forall j | 0 <= j < |a| ensures !StartsAt(t, d, j) {
      assert t[j] == a[j];
      assert |t[j..]| > 0 && t[j..][0] == t[j];
    }
    CloseAtIsLazy(t, d);
    assert StartsAt(t, d, CloseAt(t, d).value);
  }

  /** A span followed by more text: the span is replaced and the pass carries on after it. */
  lemma SpanThenRest(r: Rule, a: string, rest: string)
    requires |r.delim| > 0
    requires r.delim[0] !in a && NoLineTerminator(a)
    ensures Apply(r, r.delim + a + r.delim + rest) == r.open + a + r.close + Apply(r, rest)
  {
    StepAtSpan(r, a, rest);
    ApplyAfterStep(r, r.delim + a + r.delim + rest, r.open + a + r.close, |r.delim| + |a| + |r.delim|);
    SpanSlices(r.delim, a, rest);
  }

  /** At `D a D rest`, a step replaces exactly `D a D` when `a` holds no delimiter character and no line end. */
  lemma StepAtSpan(r: Rule, a: string, rest: string)
    requires |r.delim| > 0
    requires r.delim[0] !in a && NoLineTerminator(a)
    ensures Step(r, r.delim + a + r.delim + rest).out == r.open + a + r.close
    ensures Step(r, r.delim + a + r.delim + rest).used == |r.delim| + |a| + |r.delim|
  {
    CloseAtSpan(a, r.delim, rest);
    MatchAtSpan(r, a, rest);
    SpanSlices(r.delim, a, rest);
    StepAtMatch(r, r.delim + a + r.delim + rest, |a|);
  }

  lemma MatchAtSpan(r: Rule, a: string, rest: string)
    requires |r.delim| > 0
    requires CloseAt(a + r.delim + rest, r.delim) == Some(|a|)
    ensures MatchAt(r, r.delim + a + r.delim + rest) == Some(|a|)
  {
    SpanSlices(r.delim, a, rest);
  }

  /** The pieces of `d a d rest`, recovered by slicing. */
  lemma SpanSlices(d: string, a: string, rest: string)
    ensures d <= d + a + d + rest
    ensures (d + a + d + rest)[|d|..] == a + d + rest
    ensures (d + a + d + rest)[|d|..|d| + |a|] == a
    ensures (d + a + d + rest)[|d| + |a| + |d|..] == rest
  {
    var s := d + a + d + rest;
    assert s[..|d|] == d;
  }

  /** `D a D` becomes `Open a Close` when `a` holds no delimiter character and no line end. */
  lemma ApplySpan(r: Rule, a: string)
    requires |r.delim| > 0
    requires r.delim[0] !in a && NoLineTerminator(a)
    ensures Apply(r, r.delim + a + r.delim) == r.open + a + r.close
  {
    SpanThenRest(r, a, []);
    assert r.delim + a + r.delim + [] == r.delim + a + r.delim;
    assert r.open + a + r.close + [] == r.open + a + r.close;
  }


  /** The line terminators of a text, in order. */
  function Terminators(s: string): string
    decreases |s|
  {
    if |s| == 0 then []
    else (if IsLineTerminator(s[0]) then [s[0]] else []) + Terminators(s[1..])
  }

  lemma {:induction false} TerminatorsConcat(a: string, b: string)
    ensures Terminators(a + b) == Terminators(a) + Terminators(b)
    decreases |a|
  {
    if |a| == 0 {
      assert a + b == b;
    } else {
      var h: string := if IsLineTerminator(a[0]) then [a[0]] else [];
      ConsSplit(a, b);
      TerminatorsConcat(a[1..], b);
      assert Terminators(a + b) == h + Terminators(a[1..] + b);
      Regroup3(h, Terminators(a[1..]), Terminators(b));
    }
  }

  lemma {:induction false} NoTerminators(s: string)
    requires NoLineTerminator(s)
    ensures Terminators(s) == []
    decreases |s|
  {
    if |s| > 0 {
      NoTerminators(s[1..]);
    }
  }

  /** Line-free text around a middle part contributes no terminators. */
  lemma TerminatorsAround(a: string, b: string, c: string, rest: string)
    requires NoLineTerminator(a) && NoLineTerminator(b) && NoLineTerminator(c)
    ensures Terminators(a + b + c + rest) == Terminators(rest)
  {
    NoTerminators(a);
    NoTerminators(b);
    NoTerminators(c);
    TerminatorsConcat(a + b + c, rest);
    TerminatorsConcat(a + b, c);
    TerminatorsConcat(a, b);
  }

  /** A pass never adds, drops or reorders line terminators: it only rewrites spans inside one line. */
  lemma {:induction false} ApplyKeepsTerminators(r: Rule, s: string)
    requires |r.delim| > 0
    requires NoLineTerminator(r.open) && NoLineTerminator(r.close) && NoLineTerminator(r.delim)
    ensures Terminators(Apply(r, s)) == Terminators(s)
    decreases |s|
  {
    if |s| > 0 {
      var c := Step(r, s);
      ApplyAfterStep(r, s, c.out, c.used);
      ApplyKeepsTerminators(r, s[c.used..]);
      StepKeepsTerminators(r, s);
      JoinTerminators(c.out, Apply(r, s[c.used..]), s[..c.used], s[c.used..]);
      SplitAt(s, c.used);
    }
  }

  lemma SplitAt(s: string, i: nat)
    requires i <= |s|
    ensures s[..i] + s[i..] == s
  {
  }

  /** Pieces with the same terminators give concatenations with the same terminators. */
  lemma JoinTerminators(x: string, y: string, p: string, q: string)
    requires Terminators(x) == Terminators(p) && Terminators(y) == Terminators(q)
    ensures Terminators(x + y) == Terminators(p + q)
  {
    TerminatorsConcat(x, y);
    TerminatorsConcat(p, q);
  }

  /** What one step emits has the same terminators (none at a match) as what it consumes. */
  lemma StepKeepsTerminators(r: Rule, s: string)
    requires |r.delim| > 0 && |s| > 0
    requires NoLineTerminator(r.open) && NoLineTerminator(r.close) && NoLineTerminator(r.delim)
    ensures Terminators(Step(r, s).out) == Terminators(s[..Step(r, s).used])
  {
    match MatchAt(r, s)
    case Some(k) =>
      var n := |r.delim|;
      MatchedPrefix(r, s);
      StepAtMatch(r, s, k);
      LineFreeTriple(r.open, s[n..n + k], r.close);
      LineFreeTriple(r.delim, s[n..n + k], r.delim);
    case None =>
      StepNoMatch(r, s);
      assert s[..1] == [s[0]];
  }

  /** The part of the input a match consumes: delimiter, line-free run, delimiter. */
  lemma MatchedPrefix(r: Rule, s: string)
    requires |r.delim| > 0 && MatchAt(r, s).Some?
    ensures var n, k := |r.delim|, MatchAt(r, s).value;
      && n + k + n <= |s|
      && NoLineTerminator(s[n..n + k])
      && s[..n + k + n] == r.delim + s[n..n + k] + r.delim
  {
    var n, k := |r.delim|, MatchAt(r, s).value;
    MatchAtShape(r, s);
    assert s[..n] == r.delim;
    assert s[..n + k + n] == s[..n] + s[n..n + k] + s[n + k..n + k + n];
  }

  /** Three line-free pieces together hold no terminator. */
  lemma LineFreeTriple(a: string, b: string, c: string)
    requires NoLineTerminator(a) && NoLineTerminator(b) && NoLineTerminator(c)
    ensures Terminators(a + b + c) == []
  {
    TerminatorsAround(a, b, c, []);
    assert a + b + c + [] == a + b + c;
  }

  // ---------------------------------------------------------------------------
  // Facts about the newline pass

  /** Replacing newlines distributes over concatenation. */
  lemma {:induction false} BreaksConcat(a: string, b: string)
    ensures Breaks(a + b) == Breaks(a) + Breaks(b)
    decreases |a|
  {
    if |a| == 0 {
      assert a + b == b;
    } else {
      assert (a + b)[1..] == a[1..] + b;
      BreaksConcat(a[1..], b);
    }
  }

  /** Every newline becomes `<br>` and every other stretch of text is kept as it is. */
  lemma BreaksAtNewline(a: string, b: string)
    requires '\n' !in a
    ensures Breaks(a + "\n" + b) == a + "<br>" + Breaks(b)
  {
    BreaksConcat(a + "\n", b);
    BreaksConcat(a, "\n");
  }

  /** The newline pass changes a text exactly when the text has a newline. */
  lemma BreaksUnchangedIff(s: string)
    ensures Breaks(s) == s <==> '\n' !in s
  {
    if '\n' in s {
      assert '\n' !in Breaks(s);
    }
  }

  // ---------------------------------------------------------------------------
  // Facts about the whole renderer

  /** Text without `*` or a backtick only has its newlines turned into `<br>`. */
  lemma MarkerFreeOnlyBreaks(s: string)
    requires MarkerFree(s)
    ensures ParseMarkdown(s) == Breaks(s)
  {
    ApplyIdentity(Bold, s);
    ApplyIdentity(Italic, s);
    ApplyIdentity(Code, s);
  }

  /**
   The renderer's result, given the result of each span pass: the newline
   pass over the code pass's output, which is that output itself when it has
   no line terminator.
   */
  lemma RenderChain(text: string, afterBold: string, afterItalic: string, afterCode: string)
    requires Apply(Bold, text) == afterBold
    requires Apply(Italic, afterBold) == afterItalic
    requires Apply(Code, afterItalic) == afterCode
    ensures ParseMarkdown(text) == Breaks(afterCode)
    ensures NoLineTerminator(afterCode) ==> ParseMarkdown(text) == afterCode
  {
    if NoLineTerminator(afterCode) {
      assert forall i :: 0 <= i < |afterCode| ==> afterCode[i] != '\n';
    }
  }

  /** Text without `*`, a backtick or a line end is rendered unchanged (nothing is HTML-escaped). */
  lemma PlainTextUnchanged(s: string)
    requires MarkerFree(s) && NoLineTerminator(s)
    ensures ParseMarkdown(s) == s
  {
    ApplyIdentity(Bold, s);
    ApplyIdentity(Italic, s);
    ApplyIdentity(Code, s);
    RenderChain(s, s, s, s);
  }

  /** Plain pieces joined together stay plain. */
  lemma PlainConcat(a: string, b: string, c: string)
    requires MarkerFree(a) && MarkerFree(b) && MarkerFree(c)
    requires NoLineTerminator(a) && NoLineTerminator(b) && NoLineTerminator(c)
    ensures MarkerFree(a + b + c) && NoLineTerminator(a + b + c)
  {
  }

  /** The first three passes keep the input's line terminators, so the last pass sees every one. */
  lemma PassesKeepTerminators(text: string)
    ensures Terminators(Apply(Code, Apply(Italic, Apply(Bold, text)))) == Terminators(text)
  {
    BoldIsPlain();
    ItalicIsPlain();
    CodeIsPlain();
    ApplyKeepsTerminators(Bold, text);
    ApplyKeepsTerminators(Italic, Apply(Bold, text));
    ApplyKeepsTerminators(Code, Apply(Italic, Apply(Bold, text)));
  }

  /** A plain span wrapped by a rule's tags, after that rule's pass, is left alone by the passes that follow. */
  lemma WrappedIsPlain(r: Rule, a: string)
    requires PlainRule(r) && MarkerFree(a) && NoLineTerminator(a)
    ensures MarkerFree(r.open + a + r.close) && NoLineTerminator(r.open + a + r.close)
  {
    PlainConcat(r.open, a, r.close);
  }

  /** `**a**` renders as strong text, because the bold pass runs before the italic one. */
  lemma BoldSpan(a: string)
    requires MarkerFree(a) && NoLineTerminator(a)
    ensures ParseMarkdown("**" + a + "**") == "<strong>" + a + "</strong>"
  {
    BoldIsPlain();
    var h := Bold.open + a + Bold.close;
    ApplySpan(Bold, a);
    WrappedIsPlain(Bold, a);
    ApplyIdentity(Italic, h);
    ApplyIdentity(Code, h);
    RenderChain(Bold.delim + a + Bold.delim, h, h, h);
  }

  /** Had the italic pass run first, `**a**` would become two empty emphasis elements around `a`. */
  lemma ItalicFirstWouldSplitBold(a: string)
    requires '*' !in a && NoLineTerminator(a)
    ensures Apply(Italic, "**" + a + "**") == "<em></em>" + a + "<em></em>"
  {
    var pair, e := Italic.delim + Italic.delim, Italic.open + Italic.close;
    EmptyEmphasisAround(a);
    assert "**" + a + "**" == pair + (a + pair);
    assert e + (a + e) == "<em></em>" + a + "<em></em>";
  }

  lemma EmptyEmphasisAround(a: string)
    requires '*' !in a && NoLineTerminator(a)
    ensures var pair, e := Italic.delim + Italic.delim, Italic.open + Italic.close;
      Apply(Italic, pair + (a + pair)) == e + (a + e)
  {
    var d := Italic.delim;
    var pair := d + [] + d;
    assert d + d == pair;
    assert Italic.open + [] + Italic.close == Italic.open + Italic.close;
    SpanThenRest(Italic, [], a + pair);
    ApplyCopies(Italic, a, pair);
    ApplySpan(Italic, []);
  }

  /** `*a*` renders as emphasis. */
  lemma ItalicSpan(a: string)
    requires MarkerFree(a) && NoLineTerminator(a)
    ensures ParseMarkdown("*" + a + "*") == "<em>" + a + "</em>"
  {
    ItalicIsPlain();
    var s := Italic.delim + a + Italic.delim;
    var h := Italic.open + a + Italic.close;
    NoBoldMatch(a);
    ApplySpan(Italic, a);
    WrappedIsPlain(Italic, a);
    ApplyIdentity(Code, h);
    RenderChain(s, s, h, h);
  }

  /** A single `*` at each end, and none inside, gives the bold pass nothing to match. */
  lemma NoBoldMatch(a: string)
    requires '*' !in a
    ensures Apply(Bold, "*" + a + "*") == "*" + a + "*"
  {
    NoBoldMatchThen(a, []);
    ApplyIdentity(Bold, []);
    assert "*" + a + "*" + [] == "*" + a + "*";
  }

  /** A backtick-delimited span renders as inline code. */
  lemma CodeSpan(a: string)
    requires MarkerFree(a) && NoLineTerminator(a)
    ensures ParseMarkdown("`" + a + "`") == "<code>" + a + "</code>"
  {
    CodeIsPlain();
    var s := Code.delim + a + Code.delim;
    var h := Code.open + a + Code.close;
    ApplyIdentity(Bold, s);
    ApplyIdentity(Italic, s);
    ApplySpan(Code, a);
    WrappedIsPlain(Code, a);
    RenderChain(s, s, s, h);
  }

  // ---------------------------------------------------------------------------
  // Spans followed by more text: each rendering composes with the rest

  /** The code and newline passes carry a plain prefix through and work on the rest. */
  lemma CodePassThenRest(h: string, afterItalic: string)
    requires MarkerFree(h) && NoLineTerminator(h)
    ensures Breaks(Apply(Code, h + afterItalic)) == h + Breaks(Apply(Code, afterItalic))
  {
    CodeIsPlain();
    ApplyCopies(Code, h, afterItalic);
    BreaksConcat(h, Apply(Code, afterItalic));
    assert forall i :: 0 <= i < |h| ==> h[i] != '\n';
  }

  /** The three later passes carry a plain prefix through and work on the rest. */
  lemma PlainPrefixThenRest(h: string, afterBold: string)
    requires MarkerFree(h) && NoLineTerminator(h)
    ensures Breaks(Apply(Code, Apply(Italic, h + afterBold))) == h + Breaks(Apply(Code, Apply(Italic, afterBold)))
  {
    ItalicIsPlain();
    ApplyCopies(Italic, h, afterBold);
    CodePassThenRest(h, Apply(Italic, afterBold));
  }

  /** `**a**` followed by any text: the strong element, then the rendering of the rest. */
  lemma BoldSpanThenRest(a: string, rest: string)
    requires MarkerFree(a) && NoLineTerminator(a)
    ensures ParseMarkdown("**" + a + "**" + rest) == "<strong>" + a + "</strong>" + ParseMarkdown(rest)
  {
    BoldIsPlain();
    var h := Bold.open + a + Bold.close;
    SpanThenRest(Bold, a, rest);
    WrappedIsPlain(Bold, a);
    PlainPrefixThenRest(h, Apply(Bold, rest));
  }

  /** A backtick span followed by any text: the code element, then the rendering of the rest. */
  lemma CodeSpanThenRest(a: string, rest: string)
    requires MarkerFree(a) && NoLineTerminator(a)
    ensures ParseMarkdown("`" + a + "`" + rest) == "<code>" + a + "</code>" + ParseMarkdown(rest)
  {
    CodeIsPlain();
    var q := Code.delim + a + Code.delim;
    var h := Code.open + a + Code.close;
    var afterItalic := Apply(Italic, Apply(Bold, rest));
    ApplyCopies(Bold, q, rest);
    ApplyCopies(Italic, q, Apply(Bold, rest));
    SpanThenRest(Code, a, afterItalic);
    WrappedIsPlain(Code, a);
    BreaksConcat(h, Apply(Code, afterItalic));
    assert forall i :: 0 <= i < |h| ==> h[i] != '\n';
  }

  /** `*a*` followed by text that does not start with `*`: the emphasis element, then the rendering of the rest. */
  lemma ItalicSpanThenRest(a: string, rest: string)
    requires |a| > 0 && MarkerFree(a) && NoLineTerminator(a)
    requires rest == [] || rest[0] != '*'
    ensures ParseMarkdown("*" + a + "*" + rest) == "<em>" + a + "</em>" + ParseMarkdown(rest)
  {
    ItalicIsPlain();
    var h := Italic.open + a + Italic.close;
    var afterBold := Apply(Bold, rest);
    BoldCopiesSingleStars(a, rest);
    SpanThenRest(Italic, a, afterBold);
    WrappedIsPlain(Italic, a);
    CodePassThenRest(h, Apply(Italic, afterBold));
  }

  /** The bold pass copies `*a*` when `a` starts with no `*` and has none, and `rest` starts with no `*`. */
  lemma BoldCopiesSingleStars(a: string, rest: string)
    requires |a| > 0 && '*' !in a
    requires rest == [] || rest[0] != '*'
    ensures Apply(Bold, "*" + a + "*" + rest) == "*" + a + "*" + Apply(Bold, rest)
  {
    var star := "*";
    Regroup(star, a, star, rest);
    SingleStar(a + (star + rest));
    CopyStar(a + (star + rest));
    ApplyCopies(Bold, a, star + rest);
    SingleStar(rest);
    CopyStar(rest);
    Regroup(star, a, star, Apply(Bold, rest));
  }

  /** A `*` not followed by another `*` starts no bold match, so one step copies it. */
  lemma SingleStar(t: string)
    requires t == [] || t[0] != '*'
    ensures Step(Bold, "*" + t).out == "*" && Step(Bold, "*" + t).used == 1
  {
    var s := "*" + t;
    if |t| > 0 {
      assert s[1] == t[0];
    }
    assert !(Bold.delim <= s);
    StepNoMatch(Bold, s);
  }

  /** The passes are not nested: asterisks inside a code span are still turned into emphasis. */
  lemma CodeSpanNotProtected(x: string)
    requires MarkerFree(x) && NoLineTerminator(x)
    ensures ParseMarkdown("`*" + x + "*`") == "<code><em>" + x + "</em></code>"
  {
    EmphasisInsideCode(x);
    CodedEmphasisSource(x);
    CodedEmphasisMarkup(x);
  }

  lemma CodedEmphasisSource(x: string)
    ensures "`*" + x + "*`" == Code.delim + (Italic.delim + x + Italic.delim) + Code.delim
  {
    var q, d := Code.delim, Italic.delim;
    assert q == "`" && d == "*";
    assert "`*" + x + "*`" == q + d + x + (d + q);
  }

  lemma CodedEmphasisMarkup(x: string)
    ensures "<code><em>" + x + "</em></code>" == Code.open + (Italic.open + x + Italic.close) + Code.close
  {
    var co, cc, eo, ec := Code.open, Code.close, Italic.open, Italic.close;
    assert co + eo == "<code><em>" && ec + cc == "</em></code>";
    assert "<code><em>" + x + "</em></code>" == co + eo + x + (ec + cc);
  }

  /** `CodeSpanNotProtected`, stated on the rules' own delimiters and tags. */
  lemma EmphasisInsideCode(x: string)
    requires MarkerFree(x) && NoLineTerminator(x)
    ensures ParseMarkdown(Code.delim + (Italic.delim + x + Italic.delim) + Code.delim)
         == Code.open + (Italic.open + x + Italic.close) + Code.close
  {
    var q, em := Code.delim, Italic.open + x + Italic.close;
    var s := q + (Italic.delim + x + Italic.delim) + q;
    BoldSkipsCodedEmphasis(x);
    ItalicInsideCode(x);
    ItalicIsPlain();
    CodeIsPlain();
    WrappedIsPlain(Italic, x);
    ApplySpan(Code, em);
    WrappedIsPlain(Code, em);
    RenderChain(s, s, q + em + q, Code.open + em + Code.close);
  }

  lemma BoldSkipsCodedEmphasis(x: string)
    requires '*' !in x
    ensures var q := Code.delim; Apply(Bold, q + (Italic.delim + x + Italic.delim) + q) == q + (Italic.delim + x + Italic.delim) + q
  {
    var q, m := Code.delim, Italic.delim + x + Italic.delim;
    ApplyCopies(Bold, q, m + q);
    assert q + (m + q) == q + m + q;
    NoBoldMatchThen(x, q);
    ApplyIdentity(Bold, q);
  }

  /** Like `NoBoldMatch`, followed by text without `*`. */
  lemma NoBoldMatchThen(a: string, rest: string)
    requires '*' !in a && '*' !in rest
    ensures Apply(Bold, "*" + a + "*" + rest) == "*" + a + "*" + Apply(Bold, rest)
  {
    var star := "*";
    NoBoldAtStar(a, rest);
    Regroup(star, a, star, rest);
    CopyStar(a + (star + rest));
    ApplyCopies(Bold, a, star + rest);
    StarThenPlain(rest);
    Regroup(star, a, star, Apply(Bold, rest));
  }

  lemma Regroup3(a: string, b: string, c: string)
    ensures a + (b + c) == a + b + c
  {
  }

  /** Regrouping a four-part concatenation. */
  lemma Regroup(p: string, a: string, q: string, x: string)
    ensures p + a + q + x == p + (a + (q + x))
  {
  }

  /** Bold cannot match at a `*` that is followed by a `*`-free run and one more `*`, so the `*` is copied. */
  lemma NoBoldAtStar(a: string, rest: string)
    requires '*' !in a && '*' !in rest
    ensures Step(Bold, "*" + a + "*" + rest).out == "*" && Step(Bold, "*" + a + "*" + rest).used == 1
  {
    var s := "*" + a + "*" + rest;
    if |a| > 0 {
      assert s[1] == a[0];
    } else {
      assert s[2..] == rest;
      NoCloseWithout(rest, Bold.delim);
    }
    StepNoMatch(Bold, s);
  }

  /** A lone `*` followed by text without `*` starts no bold match. */
  lemma StarThenPlain(rest: string)
    requires '*' !in rest
    ensures Apply(Bold, "*" + rest) == "*" + Apply(Bold, rest)
  {
    LoneStar(rest);
    CopyStar(rest);
  }

  lemma LoneStar(rest: string)
    requires '*' !in rest
    ensures Step(Bold, "*" + rest).out == "*" && Step(Bold, "*" + rest).used == 1
  {
    var s := "*" + rest;
    if |rest| > 0 {
      assert s[1] == rest[0];
    }
    assert !(Bold.delim <= s);
    StepNoMatch(Bold, s);
  }

  /** A `*` that a step copies. */
  lemma CopyStar(t: string)
    requires Step(Bold, "*" + t).out == "*" && Step(Bold, "*" + t).used == 1
    ensures Apply(Bold, "*" + t) == "*" + Apply(Bold, t)
  {
    ApplyAfterStep(Bold, "*" + t, "*", 1);
    assert ("*" + t)[1..] == t;
  }

  lemma ItalicInsideCode(x: string)
    requires '*' !in x && NoLineTerminator(x)
    ensures var q := Code.delim;
      Apply(Italic, q + (Italic.delim + x + Italic.delim) + q) == q + (Italic.open + x + Italic.close) + q
  {
    var q, m := Code.delim, Italic.delim + x + Italic.delim;
    Regroup3(q, m, q);
    ApplyCopies(Italic, q, m + q);
    SpanThenRest(Italic, x, q);
    ApplyIdentity(Italic, q);
    Regroup3(q, Italic.open + x + Italic.close, q);
  }
}
