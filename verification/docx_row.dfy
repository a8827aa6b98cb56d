/** The document table-row pattern of the chat client
    (src/components/ChatMessage.jsx:89):

        /\|\s*([^|\n]+\.docx)\s*\|\s*([^|\n]+)\s*\|/i

    A match at offset `i` runs from a `|` at `i` over a title cell, a `|` at
    `q`, a type cell and a `|` at `r`. Each cell must split as space, a group,
    space. Which split the backtracking engine settles on is immaterial to the
    client, because it only ever uses the trimmed groups, and every split of a
    cell trims to the same text (`GroupTrimIsCellTrim`). */
module DocxRow {
  import opened JsText
  import opened JsValue

  /** `[^|\n]` */
  predicate CellChar(c: char) {
    c != '|' && c != '\n'
  }

  predicate CellText(s: string) {
    forall i :: 0 <= i < |s| ==> CellChar(s[i])
  }

  /** ASCII case folding, which is all the `i` flag does to `d`, `o`, `c`, `x`. */
  function Lower(c: char): char {
    if 'A' <= c <= 'Z' then (c as int + 32) as char else c
  }

  /** `g` ends in `.docx`, letters compared without regard to case. */
  predicate EndsWithDocx(g: string) {
    && |g| >= 5
    && g[|g| - 5] == '.'
    && Lower(g[|g| - 4]) == 'd'
    && Lower(g[|g| - 3]) == 'o'
    && Lower(g[|g| - 2]) == 'c'
    && Lower(g[|g| - 1]) == 'x'
  }

  /** `([^|\n]+\.docx)` matches all of `g` (when `title`), or `([^|\n]+)` does. */
  predicate Group(g: string, title: bool) {
    if title then |g| >= 6 && CellText(g) && EndsWithDocx(g)
    else |g| >= 1 && CellText(g)
  }

  /** `\s*` + group + `\s*` matches all of `s`, the group taking `s[a..b]`. */
  predicate IsSplit(s: string, title: bool, a: nat, b: nat) {
    a <= b <= |s| && AllSpace(s[..a]) && Group(s[a..b], title) && AllSpace(s[b..])
  }

  ghost predicate Cell(s: string, title: bool) {
    exists a: nat, b: nat :: IsSplit(s, title, a, b)
  }

  /** The pattern matches with its three bars at `i`, `q` and `r`. */
  ghost predicate RowShape(t: string, i: nat, q: nat, r: nat) {
    && i < q < r < |t|
    && t[i] == '|' && t[q] == '|' && t[r] == '|'
    && Cell(t[i + 1..q], true)
    && Cell(t[q + 1..r], false)
  }

  ghost predicate NoRowAt(t: string, i: nat) {
    forall q: nat, r: nat :: !RowShape(t, i, q, r)
  }

  /** Splits `(a, b')` with `b' >= b`, tried in order. */
  function SplitEnd(s: string, title: bool, a: nat, b: nat): (r: Option<nat>)
    requires a <= b <= |s|
    ensures r.Some? ==> b <= r.value && IsSplit(s, title, a, r.value)
    ensures r.None? ==> forall b': nat :: b <= b' ==> !IsSplit(s, title, a, b')
    decreases |s| - b
  {
    if IsSplit(s, title, a, b) then Some(b)
    else if b == |s| then None
    else SplitEnd(s, title, a, b + 1)
  }

  /** Splits `(a', b')` with `a' >= a`, tried in order. */
  function SplitStart(s: string, title: bool, a: nat): (r: Option<(nat, nat)>)
    requires a <= |s|
    ensures r.Some? ==> IsSplit(s, title, r.value.0, r.value.1)
    ensures r.None? ==> forall a': nat, b': nat :: a <= a' ==> !IsSplit(s, title, a', b')
    decreases |s| - a
  {
    match SplitEnd(s, title, a, a)
    case Some(b) => Some((a, b))
    case None =>
      if a == |s| then None
      else SplitStart(s, title, a + 1)
  }

  /** Whether `s` is a whole cell, as a decision. */
  function CellSplit(s: string, title: bool): (r: Option<(nat, nat)>)
    ensures r.Some? ==> IsSplit(s, title, r.value.0, r.value.1)
    ensures r.None? <==> !Cell(s, title)
  {
    SplitStart(s, title, 0)
  }

  /** No cell contains a bar: neither space nor `[^|\n]` does. */
  lemma {:induction false} CellHasNoBar(s: string, title: bool, a: nat, b: nat)
    requires IsSplit(s, title, a, b)
    ensures '|' !in s
  {
    forall k | 0 <= k < |s| ensures s[k] != '|' {
      if k < a { assert s[..a][k] == s[k]; }
      else if k < b { assert s[a..b][k - a] == s[k]; }
      else { assert s[b..][k - b] == s[k]; }
    }
  }

  lemma {:induction false} CellHasNoBarAt(s: string, title: bool, k: nat)
    requires Cell(s, title) && k < |s|
    ensures s[k] != '|'
  {
    var a: nat, b: nat :| IsSplit(s, title, a, b);
    CellHasNoBar(s, title, a, b);
  }

  /** Bars of a match found at `i`: the next two bars in the text. */
  function RowAt(t: string, i: nat): (r: Option<(nat, nat)>)
    ensures r.Some? ==> RowShape(t, i, r.value.0, r.value.1)
    ensures r.None? ==> NoRowAt(t, i)
  {
    if i >= |t| || t[i] != '|' then None
    else
      var q := IndexOf(t, "|", i + 1);
      var r := if q == -1 then -1 else IndexOf(t, "|", q + 1);
      if q != -1 && r != -1 && CellSplit(t[i + 1..q], true).Some? && CellSplit(t[q + 1..r], false).Some? then
        Some((q, r))
      else
        RowAtMisses(t, i, q, r);
        None
  }

  /** When the cells between the next two bars `q` and `r` do not split as
      the pattern requires, no match starts at `i`. */
  lemma {:induction false} RowAtMisses(t: string, i: nat, q: int, r: int)
    requires i < |t| && t[i] == '|'
    requires q == IndexOf(t, "|", i + 1) && r == (if q == -1 then -1 else IndexOf(t, "|", q + 1))
    requires !(q != -1 && r != -1 && CellSplit(t[i + 1..q], true).Some? && CellSplit(t[q + 1..r], false).Some?)
    ensures NoRowAt(t, i)
  {
    forall q': nat, r': nat | RowShape(t, i, q', r') ensures false {
      RowShapeFound(t, i, q', r');
    }
  }

  /** A match at `i` is what `RowAt`'s search finds. */
  lemma {:induction false} RowShapeFound(t: string, i: nat, q: nat, r: nat)
    requires RowShape(t, i, q, r)
    ensures IndexOf(t, "|", i + 1) == q && IndexOf(t, "|", q + 1) == r
    ensures CellSplit(t[i + 1..q], true).Some? && CellSplit(t[q + 1..r], false).Some?
  {
    BarsAreNext(t, i, q, r);
  }

  /** In any match at `i`, the middle and closing bars are the first two
      bars after `i`: cells hold no bar. */
  lemma {:induction false} BarsAreNext(t: string, i: nat, q: nat, r: nat)
    requires RowShape(t, i, q, r)
    ensures IndexOf(t, "|", i + 1) == q
    ensures IndexOf(t, "|", q + 1) == r
  {
    assert HasAt(t, "|", q) && HasAt(t, "|", r);
    forall k | i + 1 <= k < q ensures !HasAt(t, "|", k) {
      CellHasNoBarAt(t[i + 1..q], true, k - (i + 1));
      assert t[i + 1..q][k - (i + 1)] == t[k] == t[k..k + 1][0];
    }
    forall k | q + 1 <= k < r ensures !HasAt(t, "|", k) {
      CellHasNoBarAt(t[q + 1..r], false, k - (q + 1));
      assert t[q + 1..r][k - (q + 1)] == t[k] == t[k..k + 1][0];
    }
  }

  /** One reported match: the offsets of its three bars. */
  datatype Row = Row(start: nat, mid: nat, end: nat)

  /** `t.match(re)`: the leftmost match at or after `from`. */
  function Find(t: string, from: nat): (r: Option<Row>)
    ensures r.Some? ==> from <= r.value.start && RowShape(t, r.value.start, r.value.mid, r.value.end)
    ensures r.Some? ==> forall i: nat :: from <= i < r.value.start ==> NoRowAt(t, i)
    ensures r.None? ==> forall i: nat :: from <= i ==> NoRowAt(t, i)
    decreases |t| - from
  {
    if from >= |t| then
      assert forall i: nat :: from <= i ==> NoRowAt(t, i) by {
        forall i: nat, q: nat, r: nat | from <= i ensures !RowShape(t, i, q, r) { }
      }
      None
    else
      match RowAt(t, from)
      case Some((q, r)) => Some(Row(from, q, r))
      case None => Find(t, from + 1)
  }

  /** The title cell text between the first two bars. */
  function TitleCell(t: string, row: Row): string
    requires RowShape(t, row.start, row.mid, row.end)
  {
    t[row.start + 1..row.mid]
  }

  /** The type cell text between the last two bars. */
  function TypeCell(t: string, row: Row): string
    requires RowShape(t, row.start, row.mid, row.end)
  {
    t[row.mid + 1..row.end]
  }

  /** Whatever split the engine settles on, trimming its group gives the
      trimmed cell: `title.trim()` and `type.trim()` are the trimmed cells. */
  lemma {:induction false} GroupTrimIsCellTrim(s: string, title: bool, a: nat, b: nat)
    requires IsSplit(s, title, a, b)
    ensures Trim(s[a..b]) == Trim(s)
  {
    assert s == s[..a] + s[a..b] + s[b..];
    TrimPadded(s[..a], s[a..b], s[b..]);
  }

  /** Trimming a title group keeps its `.docx` ending and its cell text. */
  lemma {:induction false} TitleGroupTrim(g: string)
    requires Group(g, true)
    ensures EndsWithDocx(Trim(g)) && CellText(Trim(g))
  {
    var x, y := TrimSlice(g);
    assert y == |g|;
    assert x <= |g| - 5;
    assert Trim(g) == g[x..];
  }

  /** Trimming a type group keeps its cell text. */
  lemma {:induction false} TypeGroupTrim(g: string)
    requires Group(g, false)
    ensures CellText(Trim(g))
  {
    var x, y := TrimSlice(g);
  }

  lemma {:induction false} TitleCellTrim(s: string)
    requires Cell(s, true)
    ensures EndsWithDocx(Trim(s)) && CellText(Trim(s))
  {
    var a: nat, b: nat :| IsSplit(s, true, a, b);
    GroupTrimIsCellTrim(s, true, a, b);
    TitleGroupTrim(s[a..b]);
  }

  lemma {:induction false} TypeCellTrim(s: string)
    requires Cell(s, false)
    ensures CellText(Trim(s))
  {
    var a: nat, b: nat :| IsSplit(s, false, a, b);
    GroupTrimIsCellTrim(s, false, a, b);
    TypeGroupTrim(s[a..b]);
  }

  /** The trimmed title of a match ends in `.docx` (in any letter case) and
      holds no bar and no line feed; the trimmed type holds neither either. */
  lemma {:induction false} CleanCells(t: string, row: Row)
    requires RowShape(t, row.start, row.mid, row.end)
    ensures var title := Trim(TitleCell(t, row)); EndsWithDocx(title) && CellText(title)
    ensures CellText(Trim(TypeCell(t, row)))
  {
    var title := TitleCell(t, row);
    var kind := TypeCell(t, row);
    assert Cell(title, true) && Cell(kind, false);
    TitleCellTrim(title);
    TypeCellTrim(kind);
  }

  /** The trimmed cells are already trimmed: trimming them again changes nothing. */
  lemma {:induction false} TrimIdempotent(s: string)
    ensures Trim(Trim(s)) == Trim(s)
  {
    var r := Trim(s);
    assert r[..0] == [] && r[|r|..] == [];
    TrimUnique(r, 0, |r|);
  }
}
