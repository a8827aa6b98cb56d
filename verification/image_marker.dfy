/** The markdown image pattern `!\[(.*?)\]\(` + tail + `(.*?)\)` under
    ECMAScript regular-expression semantics. The chat client uses it twice:
    with tail `image:` to find an embedded document image
    (src/components/ChatMessage.jsx:53) and with an empty tail to break lines
    after every image (src/components/ChatMessage.jsx:11).

    A match anchored at `p` is described by two absolute offsets: `a`, where
    the alt text ends, and `c`, the offset of the closing `)`. Both lazy
    groups exclude line terminators (`.` does not match them). The engine
    tries alt lengths shortest first and, for each, target lengths shortest
    first, so the match it reports is the lexicographically least `(a, c)`;
    the search for a match tries start offsets left to right. */
module ImageMarker {
  import opened JsText
  import opened JsValue

  /** The literal between the two groups: `](` followed by `tail`. */
  function Opener(tail: string): string {
    "](" + tail
  }

  /** The whole pattern matches `t[p..c + 1]` with alt text `t[p + 2..a]`
      and target `t[a + |Opener(tail)|..c]`. */
  predicate Shape(t: string, p: nat, tail: string, a: nat, c: nat) {
    && HasAt(t, "![", p)
    && p + 2 <= a
    && HasAt(t, Opener(tail), a)
    && NoLineTerminator(t[p + 2..a])
    && a + |Opener(tail)| <= c < |t|
    && NoLineTerminator(t[a + |Opener(tail)|..c])
    && t[c] == ')'
  }

  /** No match whose alt text ends at `a`. */
  ghost predicate NoMatchWithAlt(t: string, p: nat, tail: string, a: nat) {
    forall c: nat :: !Shape(t, p, tail, a, c)
  }

  /** No match anchored at `p`. */
  ghost predicate NoMatchAt(t: string, p: nat, tail: string) {
    forall a: nat :: NoMatchWithAlt(t, p, tail, a)
  }

  /** `(a, c)` is the match the engine reports when anchored at `p`: the
      shortest alt text for which some target works, then the shortest target. */
  ghost predicate LazyMatch(t: string, p: nat, tail: string, a: nat, c: nat) {
    && Shape(t, p, tail, a, c)
    && (forall a': nat :: a' < a ==> NoMatchWithAlt(t, p, tail, a'))
    && (forall c': nat :: c' < c ==> !Shape(t, p, tail, a, c'))
  }

  /** The match the engine reports when anchored at `p` closes at offset `c`. */
  ghost predicate ClosesAt(t: string, p: nat, tail: string, c: nat) {
    exists a: nat :: LazyMatch(t, p, tail, a, c)
  }

  /** `(.*?)\)` from offset `j`: the offset of the first `)` at or after `j`,
      provided no line terminator comes before it. */
  function CloseParen(t: string, j: nat): (r: Option<nat>)
    requires j <= |t|
    ensures r.Some? ==> j <= r.value < |t| && t[r.value] == ')' && NoLineTerminator(t[j..r.value])
    ensures r.Some? ==> forall i :: j <= i < r.value ==> t[i] != ')'
    ensures r.None? ==> forall i :: j <= i < |t| && NoLineTerminator(t[j..i]) ==> t[i] != ')'
    decreases |t| - j
  {
    if j == |t| || IsLineTerminator(t[j]) then None
    else if t[j] == ')' then Some(j)
    else
      var r := CloseParen(t, j + 1);
      assert r.None? ==> forall i :: j < i < |t| && NoLineTerminator(t[j..i]) ==> t[i] != ')' by {
        forall i | j < i < |t| && NoLineTerminator(t[j..i]) ensures NoLineTerminator(t[j + 1..i]) {
          assert t[j + 1..i] == t[j..i][1..];
        }
      }
      r
  }

  /** The lazy alt group tried from length `a - (p + 2)` upwards. */
  function LazyFrom(t: string, p: nat, tail: string, a: nat): (r: Option<(nat, nat)>)
    requires HasAt(t, "![", p) && p + 2 <= a <= |t| && NoLineTerminator(t[p + 2..a])
    ensures r.Some? ==> a <= r.value.0 && Shape(t, p, tail, r.value.0, r.value.1)
    ensures r.Some? ==> forall a': nat :: a <= a' < r.value.0 ==> NoMatchWithAlt(t, p, tail, a')
    ensures r.Some? ==> forall c': nat :: c' < r.value.1 ==> !Shape(t, p, tail, r.value.0, c')
    ensures r.None? ==> forall a': nat :: a <= a' ==> NoMatchWithAlt(t, p, tail, a')
    decreases |t| - a
  {
    var b := a + |Opener(tail)|;
    var close := if HasAt(t, Opener(tail), a) then CloseParen(t, b) else None;
    if close.Some? then
      Some((a, close.value))
    else
      if a < |t| && !IsLineTerminator(t[a]) then
        assert t[p + 2..a + 1] == t[p + 2..a] + [t[a]];
        LazyFrom(t, p, tail, a + 1)
      else
        AltBlocked(t, p, tail, a);
        None
  }

  /** The alt text cannot run past the end of `t` or a line terminator. */
  lemma {:induction false} AltBlocked(t: string, p: nat, tail: string, a: nat)
    requires p + 2 <= a <= |t| && (a == |t| || IsLineTerminator(t[a]))
    ensures forall a': nat :: a < a' ==> NoMatchWithAlt(t, p, tail, a')
  {
    forall a': nat, c: nat | a < a' ensures !Shape(t, p, tail, a', c) {
      if a' <= |t| {
        assert IsLineTerminator(t[p + 2..a'][a - (p + 2)]);
      }
    }
  }

  /** The match anchored at `p`, if any: `(alt end, offset of the `)`)`. */
  function MatchAt(t: string, p: nat, tail: string): (r: Option<(nat, nat)>)
    ensures r.Some? ==> LazyMatch(t, p, tail, r.value.0, r.value.1)
    ensures r.None? ==> NoMatchAt(t, p, tail)
  {
    if HasAt(t, "![", p) then
      var r := LazyFrom(t, p, tail, p + 2);
      assert forall a': nat :: a' < p + 2 ==> NoMatchWithAlt(t, p, tail, a');
      r
    else None
  }

  /** One reported match: where it starts, where its alt text ends, and the
      offset of its closing `)`. */
  datatype Marker = Marker(start: nat, altEnd: nat, close: nat)

  /** `t.match(re)` without the `g` flag: the leftmost match at or after `from`. */
  function Find(t: string, tail: string, from: nat): (r: Option<Marker>)
    ensures r.Some? ==> from <= r.value.start && LazyMatch(t, r.value.start, tail, r.value.altEnd, r.value.close)
    ensures r.Some? ==> forall p: nat :: from <= p < r.value.start ==> NoMatchAt(t, p, tail)
    ensures r.None? ==> forall p: nat :: from <= p ==> NoMatchAt(t, p, tail)
    decreases |t| - from
  {
    if from >= |t| then
      assert forall p: nat :: from <= p ==> NoMatchAt(t, p, tail) by {
        forall p, a, c | from <= p ensures !Shape(t, p, tail, a, c) { }
      }
      None
    else
      match MatchAt(t, from, tail)
      case Some((a, c)) => Some(Marker(from, a, c))
      case None => Find(t, tail, from + 1)
  }

  /** The alt text `$1` of a reported match. */
  function AltText(t: string, tail: string, mk: Marker): string
    requires LazyMatch(t, mk.start, tail, mk.altEnd, mk.close)
  {
    t[mk.start + 2..mk.altEnd]
  }

  /** The target `$2` of a reported match (what follows `tail`). */
  function Target(t: string, tail: string, mk: Marker): string
    requires LazyMatch(t, mk.start, tail, mk.altEnd, mk.close)
  {
    t[mk.altEnd + |Opener(tail)|..mk.close]
  }

  /** The whole matched text. */
  function Matched(t: string, tail: string, mk: Marker): string
    requires LazyMatch(t, mk.start, tail, mk.altEnd, mk.close)
  {
    t[mk.start..mk.close + 1]
  }

  /** `s` holds no `)`. */
  predicate NoCloseParen(s: string) {
    forall i :: 0 <= i < |s| ==> s[i] != ')'
  }

  /** The matched text is `![` + alt + `](` + tail + target + `)`, and neither
      the alt text nor the target holds a line terminator; the target holds
      no `)`, since the shortest target ends at the first one. */
  lemma {:induction false} MatchParts(t: string, tail: string, mk: Marker)
    requires LazyMatch(t, mk.start, tail, mk.altEnd, mk.close)
    ensures Matched(t, tail, mk) == "![" + AltText(t, tail, mk) + Opener(tail) + Target(t, tail, mk) + ")"
    ensures NoLineTerminator(AltText(t, tail, mk)) && NoLineTerminator(Target(t, tail, mk))
    ensures NoCloseParen(Target(t, tail, mk))
  {
    ShapeParts(t, mk.start, tail, mk.altEnd, mk.close);
    NoParenBeforeClose(t, mk.start, tail, mk.altEnd, mk.close);
    var b := mk.altEnd + |Opener(tail)|;
    var target := Target(t, tail, mk);
    forall k | 0 <= k < |target| ensures target[k] != ')' {
      assert target[k] == t[b + k];
    }
  }

  /** The text a `Shape` covers, piece by piece. */
  lemma {:induction false} ShapeParts(t: string, p: nat, tail: string, a: nat, c: nat)
    requires Shape(t, p, tail, a, c)
    ensures t[p..c + 1] == "![" + t[p + 2..a] + Opener(tail) + t[a + |Opener(tail)|..c] + ")"
  {
    var b := a + |Opener(tail)|;
    assert t[p..p + 2] == "![";
    assert t[a..b] == Opener(tail);
    assert t[c..c + 1] == ")";
    SliceSplit(t, p, p + 2, a);
    SliceSplit(t, p, a, b);
    SliceSplit(t, p, b, c);
    SliceSplit(t, p, c, c + 1);
  }

  lemma {:induction false} SliceSplit(t: string, i: nat, j: nat, k: nat)
    requires i <= j <= k <= |t|
    ensures t[i..k] == t[i..j] + t[j..k]
  {
  }

  /** The lazy target stops at the first `)`: none comes before the close. */
  lemma {:induction false} NoParenBeforeClose(t: string, p: nat, tail: string, a: nat, c: nat)
    requires LazyMatch(t, p, tail, a, c)
    ensures forall i :: a + |Opener(tail)| <= i < c ==> t[i] != ')'
  {
    var b := a + |Opener(tail)|;
    forall i | b <= i < c ensures t[i] != ')' {
      if t[i] == ')' {
        ShapeAtParen(t, p, tail, a, c, i);
        assert false;
      }
    }
  }

  /** Any `)` inside a target closes an earlier match. */
  lemma {:induction false} ShapeAtParen(t: string, p: nat, tail: string, a: nat, c: nat, i: nat)
    requires Shape(t, p, tail, a, c) && a + |Opener(tail)| <= i < c && t[i] == ')'
    ensures Shape(t, p, tail, a, i)
  {
    var b := a + |Opener(tail)|;
    var u, v := t[b..i], t[b..c];
    forall k | 0 <= k < |u| ensures u[k] == v[k] {
    }
    assert NoLineTerminator(u);
  }

  /** Two equal stretches of `t`, of length `n` at `p` and at `q`, agree on
      every sub-stretch. */
  lemma {:induction false} CopySlice(t: string, p: nat, q: nat, n: nat, x: nat, y: nat)
    requires p + n <= |t| && q + n <= |t| && t[p..p + n] == t[q..q + n] && x <= y <= n
    ensures t[p + x..p + y] == t[q + x..q + y]
  {
    var u, v := t[p + x..p + y], t[q + x..q + y];
    forall i | 0 <= i < |u| ensures u[i] == v[i] {
      assert t[p..p + n][x + i] == t[q..q + n][x + i];
    }
  }

  lemma {:induction false} CopyHasAt(t: string, p: nat, q: nat, n: nat, x: nat, w: string)
    requires p + n <= |t| && q + n <= |t| && t[p..p + n] == t[q..q + n] && x + |w| <= n
    requires HasAt(t, w, p + x)
    ensures HasAt(t, w, q + x)
  {
    CopySlice(t, p, q, n, x, x + |w|);
  }

  lemma {:induction false} CopyNoLineTerminator(t: string, p: nat, q: nat, n: nat, x: nat, y: nat)
    requires p + n <= |t| && q + n <= |t| && t[p..p + n] == t[q..q + n] && x <= y <= n
    requires NoLineTerminator(t[p + x..p + y])
    ensures NoLineTerminator(t[q + x..q + y])
  {
    CopySlice(t, p, q, n, x, y);
  }

  /** Whether `Shape` holds depends only on the characters it covers: the
      same text placed at another offset matches there too. */
  lemma {:induction false} ShapeMoves(t: string, p: nat, tail: string, a: nat, c: nat, q: nat)
    requires Shape(t, p, tail, a, c)
    requires HasAt(t, t[p..c + 1], q)
    ensures Shape(t, q, tail, q + (a - p), q + (c - p))
  {
    var n := c + 1 - p;
    assert t[p..p + n] == t[q..q + n];
    CopyAlt(t, p, q, n, a - p);
    CopyTarget(t, p, tail, q, n, a - p);
  }

  lemma {:induction false} CopyAlt(t: string, p: nat, q: nat, n: nat, k: nat)
    requires p + n <= |t| && q + n <= |t| && t[p..p + n] == t[q..q + n] && 2 <= k <= n
    requires HasAt(t, "![", p) && NoLineTerminator(t[p + 2..p + k])
    ensures HasAt(t, "![", q) && NoLineTerminator(t[q + 2..q + k])
  {
    CopyHasAt(t, p, q, n, 0, "![");
    CopyNoLineTerminator(t, p, q, n, 2, k);
  }

  lemma {:induction false} CopyTarget(t: string, p: nat, tail: string, q: nat, n: nat, k: nat)
    requires p + n <= |t| && q + n <= |t| && t[p..p + n] == t[q..q + n]
    requires k + |Opener(tail)| < n
    requires HasAt(t, Opener(tail), p + k) && NoLineTerminator(t[p + k + |Opener(tail)|..p + n - 1])
    requires t[p + n - 1] == ')'
    ensures HasAt(t, Opener(tail), q + k) && NoLineTerminator(t[q + k + |Opener(tail)|..q + n - 1])
    ensures t[q + n - 1] == ')'
  {
    var d := |Opener(tail)|;
    CopyHasAt(t, p, q, n, k, Opener(tail));
    CopyNoLineTerminator(t, p, q, n, k + d, n - 1);
    CopySlice(t, p, q, n, n - 1, n);
    assert t[q + n - 1] == t[q + n - 1..q + n][0];
  }

  lemma {:induction false} ShapeRefutesNoMatch(t: string, p: nat, tail: string, a: nat, c: nat)
    requires Shape(t, p, tail, a, c)
    ensures !NoMatchAt(t, p, tail)
  {
    assert !NoMatchWithAlt(t, p, tail, a);
  }

  /** The first occurrence of the matched text is the match itself: any
      earlier copy would have been an earlier match. */
  lemma {:induction false} FirstOccurrenceIsMatch(t: string, tail: string, mk: Marker)
    requires LazyMatch(t, mk.start, tail, mk.altEnd, mk.close)
    requires forall p: nat :: p < mk.start ==> NoMatchAt(t, p, tail)
    ensures IndexOf(t, Matched(t, tail, mk), 0) == mk.start
  {
    var w := Matched(t, tail, mk);
    assert HasAt(t, w, mk.start);
    var i := IndexOf(t, w, 0);
    if i != -1 && i < mk.start {
      assert HasAt(t, t[mk.start..mk.close + 1], i);
      EarlierCopyMatches(t, tail, mk.start, mk.altEnd, mk.close, i);
      assert false;
    }
  }

  /** A copy of a match's text at an offset `i` is a match anchored at `i`. */
  lemma {:induction false} EarlierCopyMatches(t: string, tail: string, p: nat, a: nat, c: nat, i: nat)
    requires Shape(t, p, tail, a, c) && HasAt(t, t[p..c + 1], i)
    ensures !NoMatchAt(t, i, tail)
  {
    ShapeMoves(t, p, tail, a, c, i);
    ShapeRefutesNoMatch(t, i, tail, i + (a - p), i + (c - p));
  }

  lemma {:induction false} ShorterAltFails(t: string, p: nat, tail: string, a: nat, c: nat, a2: nat)
    requires LazyMatch(t, p, tail, a, c) && a2 < a
    ensures NoMatchWithAlt(t, p, tail, a2)
  {
  }

  /** The engine's choice is unique: two reports anchored at the same offset agree. */
  lemma {:induction false} LazyMatchUnique(t: string, p: nat, tail: string, a: nat, c: nat, a': nat, c': nat)
    requires LazyMatch(t, p, tail, a, c) && LazyMatch(t, p, tail, a', c')
    ensures a == a' && c == c'
  {
    if a < a' {
      ShorterAltFails(t, p, tail, a', c', a);
      assert false;
    } else if a' < a {
      ShorterAltFails(t, p, tail, a, c, a');
      assert false;
    } else if c < c' {
      assert false;
    } else if c' < c {
      assert false;
    }
  }
}
