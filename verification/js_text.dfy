/** String operations of the ECMAScript runtime that the chat client relies on:
    the `\s` character class (which is also the set `String.prototype.trim`
    strips), line terminators (what `.` and multiline `^` care about),
    `trim`, `startsWith`, `indexOf` and the first-occurrence `replace`.
    Strings are sequences of code points. */
module JsText {

  /** A LineTerminator of ECMAScript: `.` does not match one, and multiline `^`
      matches right after one. */
  predicate IsLineTerminator(c: char) {
    c == '\n' || c == '\r' || c == '\U{2028}' || c == '\U{2029}'
  }

  /** ECMAScript WhiteSpace or LineTerminator: the class `\s`, and the
      characters `trim` removes. */
  predicate IsSpace(c: char) {
    || c == '\t' || c == '\U{000B}' || c == '\U{000C}' || c == ' '
    || c == '\U{00A0}' || c == '\U{1680}' || ('\U{2000}' <= c <= '\U{200A}')
    || c == '\U{202F}' || c == '\U{205F}' || c == '\U{3000}' || c == '\U{FEFF}'
    || IsLineTerminator(c)
  }

  /** `\d`: an ASCII digit. */
  predicate IsDigit(c: char) {
    '0' <= c <= '9'
  }

  predicate AllSpace(s: string) {
    forall i :: 0 <= i < |s| ==> IsSpace(s[i])
  }

  predicate NoLineTerminator(s: string) {
    forall i :: 0 <= i < |s| ==> !IsLineTerminator(s[i])
  }

  /** `s` holds the literal `p` at offset `i`. */
  predicate HasAt(s: string, p: string, i: nat) {
    i + |p| <= |s| && s[i..i + |p|] == p
  }

  predicate StartsWith(s: string, p: string) {
    HasAt(s, p, 0)
  }

  /** The character classes whose runs the client's patterns measure. */
  datatype CharClass = Space | Digit | Hash | LineFeed

  predicate In(c: char, cls: CharClass) {
    match cls
    case Space => IsSpace(c)
    case Digit => IsDigit(c)
    case Hash => c == '#'
    case LineFeed => c == '\n'
  }

  /** Length of the longest run of `cls` characters that starts at offset `i`:
      what a greedy `\s*`, `\d+`, `#+` or `\n{3,}` consumes before backtracking. */
  function Run(s: string, i: nat, cls: CharClass): (n: nat)
    requires i <= |s|
    ensures i + n <= |s|
    ensures forall k :: i <= k < i + n ==> In(s[k], cls)
    ensures i + n < |s| ==> !In(s[i + n], cls)
    decreases |s| - i
  {
    if i == |s| || !In(s[i], cls) then 0 else 1 + Run(s, i + 1, cls)
  }

  /** A run of `cls` characters from `i` that is followed by a character
      outside `cls` (or by the end) is the longest one: greedy and
      backtracking choices coincide. */
  lemma {:induction false} RunExact(s: string, i: nat, cls: CharClass, n: nat)
    requires i + n <= |s|
    requires forall k :: i <= k < i + n ==> In(s[k], cls)
    requires i + n < |s| ==> !In(s[i + n], cls)
    ensures Run(s, i, cls) == n
  {
  }

  /** Length of the run of `\s` characters that ends at offset `j`. */
  function SpaceRunBefore(s: string, j: nat): (n: nat)
    requires j <= |s|
    ensures n <= j
    ensures forall k :: j - n <= k < j ==> IsSpace(s[k])
    ensures n < j ==> !IsSpace(s[j - n - 1])
  {
    if j == 0 || !IsSpace(s[j - 1]) then 0 else 1 + SpaceRunBefore(s, j - 1)
  }

  /** `String.prototype.trim`: the slice left once every leading and every
      trailing `\s` character is gone. The slice is empty exactly when the
      whole string is space, and otherwise starts and ends on a non-space. */
  function Trim(s: string): (r: string)
    ensures |r| <= |s|
    ensures r == [] <==> AllSpace(s)
    ensures r != [] ==> !IsSpace(r[0]) && !IsSpace(r[|r| - 1])
  {
    var a := Run(s, 0, Space);
    if a == |s| then
      assert AllSpace(s);
      []
    else
      var b := |s| - SpaceRunBefore(s, |s|);
      assert !IsSpace(s[b - 1]);
      assert !AllSpace(s) by { assert !IsSpace(s[a]); }
      s[a..b]
  }

  /** The trim of `s` is the slice between its leading and its trailing space. */
  lemma {:induction false} TrimSlice(s: string) returns (x: nat, y: nat)
    ensures x <= y <= |s| && Trim(s) == s[x..y]
    ensures AllSpace(s[..x]) && AllSpace(s[y..])
    ensures x < y ==> !IsSpace(s[x]) && !IsSpace(s[y - 1])
  {
    x := Run(s, 0, Space);
    if x == |s| {
      y := x;
    } else {
      y := |s| - SpaceRunBefore(s, |s|);
    }
  }

  lemma {:induction false} AllSpaceConcat(x: string, y: string)
    requires AllSpace(x) && AllSpace(y)
    ensures AllSpace(x + y)
  {
  }

  /** Any slice of `s` that leaves only space on both sides and has non-space
      ends (or is empty) is the trim of `s`: `trim` is determined by that shape. */
  lemma {:induction false} TrimUnique(s: string, a: nat, b: nat)
    requires a <= b <= |s|
    requires AllSpace(s[..a]) && AllSpace(s[b..])
    requires a < b ==> !IsSpace(s[a]) && !IsSpace(s[b - 1])
    ensures Trim(s) == s[a..b]
  {
    if a == b {
      AllSpaceConcat(s[..a], s[b..]);
      assert s == s[..a] + s[b..];
    } else {
      assert Run(s, 0, Space) == a;
      assert |s| - SpaceRunBefore(s, |s|) == b;
    }
  }

  /** Surrounding a string with space does not change its trim. */
  lemma {:induction false} TrimPadded(u: string, g: string, v: string)
    requires AllSpace(u) && AllSpace(v)
    ensures Trim(u + g + v) == Trim(g)
  {
    var x, y := TrimSlice(g);
    TrimOfPadded(u, g, v, x, y);
  }

  /** The trim of `u + g + v` is the slice of `g` that leaves only space on
      both sides and has non-space ends. */
  lemma {:induction false} TrimOfPadded(u: string, g: string, v: string, x: nat, y: nat)
    requires AllSpace(u) && AllSpace(v)
    requires x <= y <= |g| && AllSpace(g[..x]) && AllSpace(g[y..])
    requires x < y ==> !IsSpace(g[x]) && !IsSpace(g[y - 1])
    ensures Trim(u + g + v) == g[x..y]
  {
    var s := u + g + v;
    var n := |u|;
    PadParts(u, g, v, x, y);
    AllSpaceConcat(u, g[..x]);
    AllSpaceConcat(g[y..], v);
    if x < y {
      assert s[n + x] == s[n + x..n + y][0] == g[x..y][0];
      assert s[n + y - 1] == s[n + x..n + y][y - x - 1] == g[x..y][y - x - 1];
    }
    TrimUnique(s, n + x, n + y);
  }

  /** The stretches of `u + g + v` around a slice `g[x..y]` of its middle. */
  lemma {:induction false} PadParts(u: string, g: string, v: string, x: nat, y: nat)
    requires x <= y <= |g|
    ensures (u + g + v)[..|u| + x] == u + g[..x]
    ensures (u + g + v)[|u| + x..|u| + y] == g[x..y]
    ensures (u + g + v)[|u| + y..] == g[y..] + v
  {
  }

  /** `s.indexOf(p, from)` for a non-empty `p`: the first offset at or after
      `from` where `p` occurs, or -1 when there is none. */
  function IndexOf(s: string, p: string, from: nat): (r: int)
    requires |p| > 0
    ensures r == -1 || (from <= r && HasAt(s, p, r))
    ensures r == -1 ==> forall k :: from <= k ==> !HasAt(s, p, k)
    ensures r != -1 ==> forall k :: from <= k < r ==> !HasAt(s, p, k)
    decreases |s| - from
  {
    if from + |p| > |s| then -1
    else if HasAt(s, p, from) then from
    else IndexOf(s, p, from + 1)
  }

  /** `s.replace(p, q)` with a string pattern: only the first occurrence of `p`
      is replaced; a string without `p` is returned as it is. */
  function ReplaceFirst(s: string, p: string, q: string): (r: string)
    requires |p| > 0
    ensures IndexOf(s, p, 0) == -1 ==> r == s
    ensures IndexOf(s, p, 0) != -1 ==>
      var i := IndexOf(s, p, 0);
      r == s[..i] + q + s[i + |p|..]
  {
    var i := IndexOf(s, p, 0);
    if i == -1 then s else s[..i] + q + s[i + |p|..]
  }

  /** Replacing a prefix by the empty string strips exactly that prefix, once. */
  lemma {:induction false} ReplacePrefixStrips(s: string, p: string)
    requires |p| > 0 && StartsWith(s, p)
    ensures ReplaceFirst(s, p, "") == s[|p|..]
    ensures p + ReplaceFirst(s, p, "") == s
  {
    assert IndexOf(s, p, 0) == 0;
  }

  /** `s.split(sep)` for a non-empty string separator: the pieces between
      successive non-overlapping occurrences of `sep`, searched left to right
      (`SplitFirstPiece`, `SplitJoin`, `SplitPiecesLackSeparator`). */
  function Split(s: string, sep: string): (r: seq<string>)
    requires |sep| > 0
    ensures |r| >= 1
    decreases |s|
  {
    var i := IndexOf(s, sep, 0);
    if i == -1 then [s] else [s[..i]] + Split(s[i + |sep|..], sep)
  }

  /** A split yields one piece exactly when the separator is absent, and its
      first piece is the text before the first occurrence. */
  lemma {:induction false} SplitFirstPiece(s: string, sep: string)
    requires |sep| > 0
    ensures |Split(s, sep)| == 1 <==> IndexOf(s, sep, 0) == -1
    ensures Split(s, sep)[0] == if IndexOf(s, sep, 0) == -1 then s else s[..IndexOf(s, sep, 0)]
  {
    var i := IndexOf(s, sep, 0);
    if i != -1 {
      SplitAt(s, sep, i);
    }
  }

  /** `parts.join(sep)`. */
  function Join(parts: seq<string>, sep: string): string
    requires |parts| >= 1
  {
    if |parts| == 1 then parts[0] else parts[0] + sep + Join(parts[1..], sep)
  }

  /** Joining the pieces of a split with the same separator gives the string back. */
  lemma {:induction false} SplitJoin(s: string, sep: string)
    requires |sep| > 0
    ensures Join(Split(s, sep), sep) == s
    decreases |s|
  {
    var i := IndexOf(s, sep, 0);
    if i != -1 {
      SplitAt(s, sep, i);
      var rest := s[i + |sep|..];
      SplitJoin(rest, sep);
      JoinCons(s[..i], Split(rest, sep), sep);
      Around(s, sep, i);
    }
  }

  /** A split with a first occurrence at `i`: the text before it, then the
      split of the text after it. */
  lemma {:induction false} SplitAt(s: string, sep: string, i: nat)
    requires |sep| > 0 && IndexOf(s, sep, 0) == i
    ensures HasAt(s, sep, i) && |s[i + |sep|..]| < |s|
    ensures Split(s, sep) == [s[..i]] + Split(s[i + |sep|..], sep)
  {
  }

  /** With an occurrence at `i`, the second piece of a split is the first
      piece of the rest's split. */
  lemma {:induction false} SecondPiece(s: string, sep: string, i: nat)
    requires |sep| > 0 && IndexOf(s, sep, 0) == i
    ensures i + |sep| <= |s|
    ensures |Split(s, sep)| >= 2 && Split(s, sep)[1] == Split(s[i + |sep|..], sep)[0]
  {
    SplitAt(s, sep, i);
  }

  /** A string with exactly one occurrence of `sep` splits into the text
      before it and the text after it, which rejoin around `sep`. */
  lemma {:induction false} SplitOnce(s: string, sep: string, i: nat)
    requires |sep| > 0 && IndexOf(s, sep, 0) == i && IndexOf(s, sep, i + |sep|) == -1
    ensures |Split(s, sep)| == 2 && Split(s, sep)[0] == s[..i] && Split(s, sep)[1] == s[i + |sep|..]
    ensures s[..i] + sep + s[i + |sep|..] == s
  {
    SplitTwo(s, sep, i);
    Around(s, sep, i);
  }

  /** The two pieces of a split with exactly one occurrence. */
  lemma {:induction false} SplitTwo(s: string, sep: string, i: nat)
    requires |sep| > 0 && IndexOf(s, sep, 0) == i && IndexOf(s, sep, i + |sep|) == -1
    ensures |Split(s, sep)| == 2 && Split(s, sep)[0] == s[..i] && Split(s, sep)[1] == s[i + |sep|..]
  {
    NoLaterSplit(s, sep, i + |sep|);
    PiecesAfterFirst(s, sep, i);
  }

  lemma {:induction false} NoLaterSplit(s: string, sep: string, from: nat)
    requires |sep| > 0 && from <= |s| && IndexOf(s, sep, from) == -1
    ensures |Split(s[from..], sep)| == 1 && Split(s[from..], sep)[0] == s[from..]
  {
    NoLaterOccurrence(s, sep, from);
    SplitAbsent(s[from..], sep);
  }

  lemma {:induction false} SplitAbsent(s: string, sep: string)
    requires |sep| > 0 && IndexOf(s, sep, 0) == -1
    ensures |Split(s, sep)| == 1 && Split(s, sep)[0] == s
  {
  }

  /** No occurrence from `from` on means none in the suffix from `from`. */
  lemma {:induction false} NoLaterOccurrence(s: string, sep: string, from: nat)
    requires |sep| > 0 && from <= |s| && IndexOf(s, sep, from) == -1
    ensures IndexOf(s[from..], sep, 0) == -1
  {
    var rest := s[from..];
    forall k: nat | HasAt(rest, sep, k) ensures HasAt(s, sep, from + k) {
      assert s[from + k..from + k + |sep|] == rest[k..k + |sep|];
    }
    IndexOfAbsent(rest, sep, 0);
  }

  lemma {:induction false} IndexOfAbsent(s: string, p: string, from: nat)
    requires |p| > 0 && forall k: nat :: from <= k ==> !HasAt(s, p, k)
    ensures IndexOf(s, p, from) == -1
    decreases |s| - from
  {
    if from + |p| <= |s| {
      IndexOfAbsent(s, p, from + 1);
    }
  }

  /** A string is what precedes an occurrence, the occurrence, and what follows. */
  lemma {:induction false} Around(s: string, p: string, i: nat)
    requires HasAt(s, p, i)
    ensures s[..i] + p + s[i + |p|..] == s
  {
    assert s == s[..i] + s[i..i + |p|] + s[i + |p|..];
  }

  lemma {:induction false} JoinCons(a: string, tail: seq<string>, sep: string)
    requires |tail| >= 1
    ensures Join([a] + tail, sep) == a + sep + Join(tail, sep)
  {
    assert ([a] + tail)[1..] == tail;
  }

  /** No piece of a split contains the separator. */
  lemma {:induction false} SplitPiecesLackSeparator(s: string, sep: string)
    requires |sep| > 0
    ensures forall k :: 0 <= k < |Split(s, sep)| ==> IndexOf(Split(s, sep)[k], sep, 0) == -1
    decreases |s|
  {
    var i := IndexOf(s, sep, 0);
    if i != -1 {
      var rest := s[i + |sep|..];
      SplitPiecesLackSeparator(rest, sep);
      NoEarlierOccurrence(s, sep, i);
      PiecesAfterFirst(s, sep, i);
      var parts, later := Split(s, sep), Split(rest, sep);
      forall k | 0 <= k < |parts| ensures IndexOf(parts[k], sep, 0) == -1 {
        if k > 0 {
          assert parts[k] == later[k - 1];
        }
      }
    }
  }

  /** The pieces of a split, one by one: the text before the first
      occurrence, then the pieces of the rest. */
  lemma {:induction false} PiecesAfterFirst(s: string, sep: string, i: nat)
    requires |sep| > 0 && IndexOf(s, sep, 0) == i
    ensures |s[i + |sep|..]| < |s|
    ensures var parts, later := Split(s, sep), Split(s[i + |sep|..], sep);
            && |parts| == |later| + 1 && parts[0] == s[..i]
            && forall k :: 0 <= k < |later| ==> parts[k + 1] == later[k]
  {
    SplitAt(s, sep, i);
  }

  /** The text before the first occurrence of `sep` holds no `sep`. */
  lemma {:induction false} NoEarlierOccurrence(s: string, sep: string, i: nat)
    requires |sep| > 0 && IndexOf(s, sep, 0) == i
    ensures IndexOf(s[..i], sep, 0) == -1
  {
    var u := s[..i];
    forall k: nat | HasAt(u, sep, k) ensures HasAt(s, sep, k) && k < i {
      assert s[k..k + |sep|] == u[k..k + |sep|];
    }
    IndexOfAbsent(u, sep, 0);
  }

  /** The string with every `\n` removed: what stays fixed when only line
      breaks are inserted or collapsed. */
  function DropNewlines(s: string): (r: string)
    ensures |r| <= |s|
    ensures '\n' !in r
  {
    if s == [] then []
    else if s[0] == '\n' then DropNewlines(s[1..])
    else [s[0]] + DropNewlines(s[1..])
  }

  lemma {:induction false} DropNewlinesAppend(a: string, b: string)
    ensures DropNewlines(a + b) == DropNewlines(a) + DropNewlines(b)
  {
    if a == [] {
      assert a + b == b;
    } else {
      assert (a + b)[1..] == a[1..] + b;
      DropNewlinesAppend(a[1..], b);
    }
  }

  lemma {:induction false} DropNewlinesAllNewlines(s: string)
    requires forall k :: 0 <= k < |s| ==> s[k] == '\n'
    ensures DropNewlines(s) == []
  {
    if s != [] { DropNewlinesAllNewlines(s[1..]); }
  }
}
