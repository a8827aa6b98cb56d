/** `normalizeMarkdown` of src/components/ChatMessage.jsx:7-16: six global
    regular-expression replacements applied in turn to a bot reply before it
    is handed to the markdown renderer.

    A global `replace` scans left to right: at each offset it tries the
    pattern anchored there; on a match it emits the replacement and resumes
    right after the match, otherwise it copies one character and moves on.
    No pattern here matches the empty string, so that scan is exactly what
    `ReplaceFrom` does. Multiline `^` looks at the character before the
    offset in the whole input, as the engine does. */
module Markdown {
  import opened JsText
  import opened JsValue
  import ImageMarker

  /** The six replacements, in the order `normalizeMarkdown` applies them. */
  datatype Rule =
    | Heading     // /^(#+ )/gm          -> "\n$1"
    | ImageBreak  // /!\[(.*?)\]\((.*?)\)/g -> "![$1]($2)\n\n"
    | Bullet      // /^(\s*[-*+] )/gm    -> "\n$1"
    | Numbered    // /^(\s*\d+\. )/gm    -> "\n$1"
    | Subheading  // /\n(#{2,} )/g       -> "\n\n$1"
    | BlankLines  // /\n{3,}/g           -> "\n\n"

  /** Multiline `^` holds at offset `p`. */
  predicate LineStart(t: string, p: nat) {
    p == 0 || (p <= |t| && IsLineTerminator(t[p - 1]))
  }

  predicate IsBulletMark(c: char) {
    c == '-' || c == '*' || c == '+'
  }

  /** Every character of `t[i..j]` is in `cls`. */
  predicate AllIn(t: string, i: nat, j: nat, cls: CharClass)
    requires i <= j <= |t|
  {
    forall k :: i <= k < j ==> In(t[k], cls)
  }

  /** The pattern of `rule`, anchored at `p`, matches `t[p..e]` and that is
      the match the engine reports: for the lazy image pattern the
      lexicographically least one, for greedy `\n{3,}` the longest one. The
      other patterns admit one match at most (`MatchEndCorrect`). */
  ghost predicate Matches(rule: Rule, t: string, p: nat, e: nat) {
    p < e <= |t| &&
    match rule
    case Heading =>
      LineStart(t, p) && p + 2 <= e && AllIn(t, p, e - 1, Hash) && t[e - 1] == ' '
    case ImageBreak =>
      ImageMarker.ClosesAt(t, p, "", e - 1)
    case Bullet =>
      LineStart(t, p) && p + 2 <= e && AllIn(t, p, e - 2, Space) && IsBulletMark(t[e - 2]) && t[e - 1] == ' '
    case Numbered =>
      LineStart(t, p) &&
      exists j: nat :: p <= j && j + 3 <= e && AllIn(t, p, j, Space) && AllIn(t, j, e - 2, Digit)
                    && t[e - 2] == '.' && t[e - 1] == ' '
    case Subheading =>
      p + 4 <= e && t[p] == '\n' && AllIn(t, p + 1, e - 1, Hash) && t[e - 1] == ' '
    case BlankLines =>
      p + 3 <= e && AllIn(t, p, e, LineFeed) && (e == |t| || t[e] != '\n')
  }

  /** Where the match of `rule` anchored at `p` ends, if there is one. */
  function MatchEnd(rule: Rule, t: string, p: nat): (r: Option<nat>)
    requires p <= |t|
    ensures r.Some? ==> p < r.value <= |t|
  {
    match rule
    case Heading =>
      var h := Run(t, p, Hash);
      if LineStart(t, p) && h >= 1 && p + h < |t| && t[p + h] == ' ' then Some(p + h + 1) else None
    case ImageBreak =>
      var m := ImageMarker.MatchAt(t, p, "");
      if m.Some? then Some(m.value.1 + 1) else None
    case Bullet =>
      var w := Run(t, p, Space);
      if LineStart(t, p) && p + w + 1 < |t| && IsBulletMark(t[p + w]) && t[p + w + 1] == ' ' then Some(p + w + 2) else None
    case Numbered =>
      var w := Run(t, p, Space);
      var d := Run(t, p + w, Digit);
      if LineStart(t, p) && d >= 1 && p + w + d + 1 < |t| && t[p + w + d] == '.' && t[p + w + d + 1] == ' '
      then Some(p + w + d + 2) else None
    case Subheading =>
      if p < |t| && t[p] == '\n' then
        var h := Run(t, p + 1, Hash);
        if h >= 2 && p + 1 + h < |t| && t[p + 1 + h] == ' ' then Some(p + h + 2) else None
      else None
    case BlankLines =>
      var n := Run(t, p, LineFeed);
      if n >= 3 then Some(p + n) else None
  }

  /** `MatchEnd` finds exactly the match the engine reports, and misses
      none: a pattern anchored at `p` matches iff `MatchEnd` says so, and
      then only up to that end. */
  lemma {:induction false} MatchEndCorrect(rule: Rule, t: string, p: nat)
    requires p <= |t|
    ensures MatchEnd(rule, t, p).Some? ==> Matches(rule, t, p, MatchEnd(rule, t, p).value)
    ensures forall e: nat :: Matches(rule, t, p, e) ==> MatchEnd(rule, t, p) == Some(e)
  {
    match rule
    case Heading => HeadingCorrect(t, p);
    case ImageBreak => ImageBreakCorrect(t, p);
    case Bullet => BulletCorrect(t, p);
    case Numbered => NumberedCorrect(t, p);
    case Subheading => SubheadingCorrect(t, p);
    case BlankLines => BlankLinesCorrect(t, p);
  }

  lemma {:induction false} HeadingCorrect(t: string, p: nat)
    requires p <= |t|
    ensures MatchEnd(Heading, t, p).Some? ==> Matches(Heading, t, p, MatchEnd(Heading, t, p).value)
    ensures forall e: nat :: Matches(Heading, t, p, e) ==> MatchEnd(Heading, t, p) == Some(e)
  {
    forall e: nat | Matches(Heading, t, p, e) ensures MatchEnd(Heading, t, p) == Some(e) {
      RunExact(t, p, Hash, e - 1 - p);
    }
  }

  lemma {:induction false} ImageBreakCorrect(t: string, p: nat)
    requires p <= |t|
    ensures MatchEnd(ImageBreak, t, p).Some? ==> Matches(ImageBreak, t, p, MatchEnd(ImageBreak, t, p).value)
    ensures forall e: nat :: Matches(ImageBreak, t, p, e) ==> MatchEnd(ImageBreak, t, p) == Some(e)
  {
    var m := ImageMarker.MatchAt(t, p, "");
    if m.Some? {
      var a := m.value.0;
      var c := m.value.1;
      assert ImageMarker.ClosesAt(t, p, "", c + 1 - 1) by {
        assert ImageMarker.LazyMatch(t, p, "", a, c);
      }
      forall e: nat | Matches(ImageBreak, t, p, e) ensures MatchEnd(ImageBreak, t, p) == Some(e) {
        var a': nat :| ImageMarker.LazyMatch(t, p, "", a', e - 1);
        ImageMarker.LazyMatchUnique(t, p, "", a, c, a', e - 1);
      }
    } else {
      forall e: nat | Matches(ImageBreak, t, p, e) ensures false {
        var a': nat :| ImageMarker.LazyMatch(t, p, "", a', e - 1);
        ImageMarker.ShapeRefutesNoMatch(t, p, "", a', e - 1);
        assert false;
      }
    }
  }

  /** The space a bullet or numbered item may be indented by. */
  lemma {:induction false} IndentExact(t: string, p: nat, w: nat)
    requires p + w < |t| && AllIn(t, p, p + w, Space) && !IsSpace(t[p + w])
    ensures Run(t, p, Space) == w
  {
    RunExact(t, p, Space, w);
  }

  lemma {:induction false} BulletCorrect(t: string, p: nat)
    requires p <= |t|
    ensures MatchEnd(Bullet, t, p).Some? ==> Matches(Bullet, t, p, MatchEnd(Bullet, t, p).value)
    ensures forall e: nat :: Matches(Bullet, t, p, e) ==> MatchEnd(Bullet, t, p) == Some(e)
  {
    forall e: nat | Matches(Bullet, t, p, e) ensures MatchEnd(Bullet, t, p) == Some(e) {
      IndentExact(t, p, e - 2 - p);
    }
  }

  lemma {:induction false} NumberedCorrect(t: string, p: nat)
    requires p <= |t|
    ensures MatchEnd(Numbered, t, p).Some? ==> Matches(Numbered, t, p, MatchEnd(Numbered, t, p).value)
    ensures forall e: nat :: Matches(Numbered, t, p, e) ==> MatchEnd(Numbered, t, p) == Some(e)
  {
    if MatchEnd(Numbered, t, p).Some? {
      var w := Run(t, p, Space);
      var e := MatchEnd(Numbered, t, p).value;
      assert AllIn(t, p, p + w, Space) && AllIn(t, p + w, e - 2, Digit);
    }
    forall e: nat | Matches(Numbered, t, p, e) ensures MatchEnd(Numbered, t, p) == Some(e) {
      var j: nat :| p <= j && j + 3 <= e && AllIn(t, p, j, Space) && AllIn(t, j, e - 2, Digit)
                    && t[e - 2] == '.' && t[e - 1] == ' ';
      NumberedAt(t, p, j, e);
    }
  }

  /** A numbered-item match with its digits starting at `j` is the one
      `MatchEnd` finds. */
  lemma {:induction false} NumberedAt(t: string, p: nat, j: nat, e: nat)
    requires LineStart(t, p) && p <= j && j + 3 <= e <= |t|
    requires AllIn(t, p, j, Space) && AllIn(t, j, e - 2, Digit) && t[e - 2] == '.' && t[e - 1] == ' '
    ensures MatchEnd(Numbered, t, p) == Some(e)
  {
    assert In(t[j], Digit);
    IndentExact(t, p, j - p);
    RunExact(t, j, Digit, e - 2 - j);
  }

  lemma {:induction false} SubheadingCorrect(t: string, p: nat)
    requires p <= |t|
    ensures MatchEnd(Subheading, t, p).Some? ==> Matches(Subheading, t, p, MatchEnd(Subheading, t, p).value)
    ensures forall e: nat :: Matches(Subheading, t, p, e) ==> MatchEnd(Subheading, t, p) == Some(e)
  {
    forall e: nat | Matches(Subheading, t, p, e) ensures MatchEnd(Subheading, t, p) == Some(e) {
      RunExact(t, p + 1, Hash, e - 2 - p);
    }
  }

  lemma {:induction false} BlankLinesCorrect(t: string, p: nat)
    requires p <= |t|
    ensures MatchEnd(BlankLines, t, p).Some? ==> Matches(BlankLines, t, p, MatchEnd(BlankLines, t, p).value)
    ensures forall e: nat :: Matches(BlankLines, t, p, e) ==> MatchEnd(BlankLines, t, p) == Some(e)
  {
    forall e: nat | Matches(BlankLines, t, p, e) ensures MatchEnd(BlankLines, t, p) == Some(e) {
      RunExact(t, p, LineFeed, e - p);
    }
  }

  /** The text a match `m` of `rule` is replaced by. */
  function Replacement(rule: Rule, m: string): string {
    match rule
    case ImageBreak => m + "\n\n"
    case BlankLines => "\n\n"
    case _ => "\n" + m
  }

  /** The global replace of `rule` over `t[p..]`. */
  function ReplaceFrom(rule: Rule, t: string, p: nat): string
    requires p <= |t|
    decreases |t| - p
  {
    if p == |t| then ""
    else
      match MatchEnd(rule, t, p)
      case Some(e) => Replacement(rule, t[p..e]) + ReplaceFrom(rule, t, e)
      case None => [t[p]] + ReplaceFrom(rule, t, p + 1)
  }

  function ReplaceAll(rule: Rule, t: string): string {
    ReplaceFrom(rule, t, 0)
  }

  /** `normalizeMarkdown(text)`: `""` for absent or empty text, otherwise the
      six replacements in order. Its output never holds three line feeds in a
      row, and it differs from its input only in line feeds. */
  function Normalize(text: Option<string>): (r: string)
    ensures !TruthyString(text) ==> r == ""
    ensures NoTriple(r)
    ensures text.Some? ==> DropNewlines(r) == DropNewlines(text.value)
  {
    if !TruthyString(text) then ""
    else
      var t0 := text.value;
      var t1 := ReplaceAll(Heading, t0);
      var t2 := ReplaceAll(ImageBreak, t1);
      var t3 := ReplaceAll(Bullet, t2);
      var t4 := ReplaceAll(Numbered, t3);
      var t5 := ReplaceAll(Subheading, t4);
      var t6 := ReplaceAll(BlankLines, t5);
      KeepsText(Heading, t0);
      KeepsText(ImageBreak, t1);
      KeepsText(Bullet, t2);
      KeepsText(Numbered, t3);
      KeepsText(Subheading, t4);
      KeepsText(BlankLines, t5);
      CollapseShape(t5, 0);
      t6
  }

  /** Three line feeds in a row start at `i`. */
  predicate TripleAt(s: string, i: nat) {
    i + 2 < |s| && s[i] == '\n' && s[i + 1] == '\n' && s[i + 2] == '\n'
  }

  predicate NoTriple(s: string) {
    forall i: nat :: i < |s| ==> !TripleAt(s, i)
  }

  /** A replacement changes nothing but line feeds of the text it replaces. */
  lemma {:induction false} ReplacementKeepsText(rule: Rule, t: string, p: nat, e: nat)
    requires p < e <= |t| && MatchEnd(rule, t, p) == Some(e)
    ensures DropNewlines(Replacement(rule, t[p..e])) == DropNewlines(t[p..e])
  {
    var m := t[p..e];
    match rule
    case ImageBreak =>
      DropNewlinesAppend(m, "\n\n");
    case BlankLines =>
      forall k | 0 <= k < |m| ensures m[k] == '\n' {
        assert In(t[p + k], LineFeed);
      }
      DropNewlinesAllNewlines(m);
    case _ =>
      assert ("\n" + m)[1..] == m;
  }

  /** Each global replace of `normalizeMarkdown` changes only line feeds. */
  lemma {:induction false} KeepsTextFrom(rule: Rule, t: string, p: nat)
    requires p <= |t|
    ensures DropNewlines(ReplaceFrom(rule, t, p)) == DropNewlines(t[p..])
    decreases |t| - p
  {
    if p < |t| {
      var m := MatchEnd(rule, t, p);
      if m.Some? {
        var e := m.value;
        KeepsTextFrom(rule, t, e);
        ReplacementKeepsText(rule, t, p, e);
        ReplaceFromMatch(rule, t, p, e);
        KeepsTextJoin(ReplaceFrom(rule, t, p), Replacement(rule, t[p..e]), ReplaceFrom(rule, t, e), t, p, e);
      } else {
        KeepsTextFrom(rule, t, p + 1);
        ReplaceFromCopy(rule, t, p);
        KeepsTextJoin(ReplaceFrom(rule, t, p), [t[p]], ReplaceFrom(rule, t, p + 1), t, p, p + 1);
      }
    }
  }

  lemma {:induction false} ReplaceFromMatch(rule: Rule, t: string, p: nat, e: nat)
    requires p < |t| && MatchEnd(rule, t, p) == Some(e)
    ensures ReplaceFrom(rule, t, p) == Replacement(rule, t[p..e]) + ReplaceFrom(rule, t, e)
  {
  }

  lemma {:induction false} ReplaceFromCopy(rule: Rule, t: string, p: nat)
    requires p < |t| && MatchEnd(rule, t, p).None?
    ensures ReplaceFrom(rule, t, p) == [t[p]] + ReplaceFrom(rule, t, p + 1)
  {
  }

  /** Two pieces that each keep their stretch of `t` keep the stretch they
      cover together. */
  lemma {:induction false} KeepsTextJoin(z: string, x: string, y: string, t: string, p: nat, e: nat)
    requires p <= e <= |t| && z == x + y
    requires DropNewlines(x) == DropNewlines(t[p..e]) && DropNewlines(y) == DropNewlines(t[e..])
    ensures DropNewlines(z) == DropNewlines(t[p..])
  {
    DropNewlinesAppend(x, y);
    assert t[p..] == t[p..e] + t[e..];
    DropNewlinesAppend(t[p..e], t[e..]);
  }

  lemma {:induction false} KeepsText(rule: Rule, t: string)
    ensures DropNewlines(ReplaceAll(rule, t)) == DropNewlines(t)
  {
    KeepsTextFrom(rule, t, 0);
    assert t[0..] == t;
  }

  /** Leading line feeds and triples across one prepended character. */
  lemma {:induction false} ConsLineFeeds(c: char, r: string)
    ensures Run([c] + r, 0, LineFeed) == if c == '\n' then 1 + Run(r, 0, LineFeed) else 0
    ensures NoTriple(r) && !(c == '\n' && Run(r, 0, LineFeed) >= 2) ==> NoTriple([c] + r)
  {
    var s := [c] + r;
    RunShift(c, r, 0);
    if NoTriple(r) && !(c == '\n' && Run(r, 0, LineFeed) >= 2) {
      forall i: nat | i < |s| ensures !TripleAt(s, i) {
        if i == 0 && TripleAt(s, 0) {
          RunAtLeastTwo(r);
        } else if i > 0 {
          assert TripleAt(s, i) ==> TripleAt(r, i - 1);
        }
      }
    }
  }

  lemma {:induction false} RunAtLeastTwo(r: string)
    requires |r| >= 2 && r[0] == '\n' && r[1] == '\n'
    ensures Run(r, 0, LineFeed) >= 2
  {
    assert Run(r, 0, LineFeed) == 1 + Run(r, 1, LineFeed);
  }

  lemma {:induction false} RunShift(c: char, r: string, i: nat)
    requires i <= |r|
    ensures Run([c] + r, i + 1, LineFeed) == Run(r, i, LineFeed)
    decreases |r| - i
  {
    if i < |r| {
      assert ([c] + r)[i + 1] == r[i];
      RunShift(c, r, i + 1);
    }
  }

  /** The global replace of `\n{3,}` by two line feeds leaves no three line
      feeds in a row, and starts with as many line feeds as the input, up to two. */
  lemma {:induction false} CollapseShape(t: string, p: nat)
    requires p <= |t|
    ensures NoTriple(ReplaceFrom(BlankLines, t, p))
    ensures Run(ReplaceFrom(BlankLines, t, p), 0, LineFeed) == Min(Run(t, p, LineFeed), 2)
    decreases |t| - p
  {
    if p < |t| {
      var n := Run(t, p, LineFeed);
      if n >= 3 {
        CollapseShape(t, p + n);
        CollapseLong(t, p, n);
      } else {
        CollapseShape(t, p + 1);
        CollapseShort(t, p, n);
      }
    }
  }

  /** A run of three or more line feeds becomes exactly two, and what
      follows it starts with none. */
  lemma {:induction false} CollapseLong(t: string, p: nat, n: nat)
    requires p < |t| && n == Run(t, p, LineFeed) && n >= 3
    requires NoTriple(ReplaceFrom(BlankLines, t, p + n))
    requires Run(ReplaceFrom(BlankLines, t, p + n), 0, LineFeed) == Min(Run(t, p + n, LineFeed), 2)
    ensures NoTriple(ReplaceFrom(BlankLines, t, p))
    ensures Run(ReplaceFrom(BlankLines, t, p), 0, LineFeed) == 2
  {
    var rest := ReplaceFrom(BlankLines, t, p + n);
    assert Run(t, p + n, LineFeed) == 0;
    LongStep(t, p, n);
    ConsLineFeeds('\n', rest);
    ConsLineFeeds('\n', ['\n'] + rest);
  }

  lemma {:induction false} LongStep(t: string, p: nat, n: nat)
    requires p < |t| && n == Run(t, p, LineFeed) && n >= 3
    ensures ReplaceFrom(BlankLines, t, p) == ['\n'] + (['\n'] + ReplaceFrom(BlankLines, t, p + n))
  {
  }

  /** Outside a long run a character is copied, and the run from it is
      what it was, capped at two. */
  lemma {:induction false} CollapseShort(t: string, p: nat, n: nat)
    requires p < |t| && n == Run(t, p, LineFeed) && n < 3
    requires NoTriple(ReplaceFrom(BlankLines, t, p + 1))
    requires Run(ReplaceFrom(BlankLines, t, p + 1), 0, LineFeed) == Min(Run(t, p + 1, LineFeed), 2)
    ensures NoTriple(ReplaceFrom(BlankLines, t, p))
    ensures Run(ReplaceFrom(BlankLines, t, p), 0, LineFeed) == Min(n, 2)
  {
    var rest := ReplaceFrom(BlankLines, t, p + 1);
    ShortStep(t, p, n);
    ConsLineFeeds(t[p], rest);
  }

  lemma {:induction false} ShortStep(t: string, p: nat, n: nat)
    requires p < |t| && n == Run(t, p, LineFeed) && n < 3
    ensures ReplaceFrom(BlankLines, t, p) == [t[p]] + ReplaceFrom(BlankLines, t, p + 1)
  {
  }

  function Min(a: nat, b: nat): nat {
    if a < b then a else b
  }
}
