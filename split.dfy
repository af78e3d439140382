/** The two ways the harness cuts a listing line into columns:
    Python 2's `str.split()` with no argument (Kubernetes and OpenShift
    listings) and `re.split(' {2,}', line)` (the Docker listing). */
module Split {

  // ---------------------------------------------------------------------
  // str.split()
  // ---------------------------------------------------------------------

  /** The bytes Python 2's `str.split()` treats as whitespace:
      space, tab, line feed, vertical tab, form feed and carriage return. */
  predicate IsSpace(c: char) {
    c == ' ' || '\t' <= c <= '\r'
  }

  /** What `str.split()` can yield: a non-empty run without whitespace. */
  predicate IsToken(t: string) {
    |t| > 0 && forall i :: 0 <= i < |t| ==> !IsSpace(t[i])
  }

  predicate AllSpace(w: string) {
    forall i :: 0 <= i < |w| ==> IsSpace(w[i])
  }

  /** The end of the run of non-whitespace that starts at `i`. */
  function TokenEnd(s: string, i: nat): (j: nat)
    requires i <= |s|
    ensures i <= j <= |s|
    ensures forall k :: i <= k < j ==> !IsSpace(s[k])
    ensures j < |s| ==> IsSpace(s[j])
    decreases |s| - i
  {
    if i == |s| || IsSpace(s[i]) then i else TokenEnd(s, i + 1)
  }

  /** `s.split()`: the maximal whitespace-free runs of `s`, in order;
      leading and trailing whitespace produce nothing. */
  function Tokens(s: string): (r: seq<string>)
    ensures forall t :: t in r ==> IsToken(t)
    decreases |s|
  {
    if |s| == 0 then []
    else if IsSpace(s[0]) then Tokens(s[1..])
    else
      var j := TokenEnd(s, 0);
      [s[..j]] + Tokens(s[j..])
  }

  /** A whitespace layout for a row of `n` tokens: one non-empty run of
      whitespace between each pair of neighbours, each run as wide as its
      column's alignment needs. */
  predicate Separators(seps: seq<string>, n: nat) {
    && |seps| == (if n == 0 then 0 else n - 1)
    && forall w :: w in seps ==> |w| > 0 && AllSpace(w)
  }

  /** The row printed from `toks` with `seps[i]` between tokens `i` and `i + 1`. */
  function JoinWith(toks: seq<string>, seps: seq<string>): string
    requires |seps| == (if |toks| == 0 then 0 else |toks| - 1)
    decreases |toks|
  {
    if |toks| == 0 then ""
    else if |toks| == 1 then toks[0]
    else toks[0] + seps[0] + JoinWith(toks[1..], seps[1..])
  }

  /** Whitespace in front of a line changes nothing. */
  lemma {:induction false} TokensSkipSpace(w: string, s: string)
    requires AllSpace(w)
    ensures Tokens(w + s) == Tokens(s)
    decreases |w|
  {
    if |w| == 0 {
      assert w + s == s;
    } else {
      assert (w + s)[1..] == w[1..] + s;
      TokensSkipSpace(w[1..], s);
    }
  }

  /** A token followed by whitespace (or by nothing) is split off whole. */
  lemma TokensOfToken(t: string, s: string)
    requires IsToken(t)
    requires |s| == 0 || IsSpace(s[0])
    ensures Tokens(t + s) == [t] + Tokens(s)
  {
    var u := t + s;
    var j := TokenEnd(u, 0);
    assert forall k :: 0 <= k < |t| ==> !IsSpace(u[k]);
    assert |t| < |u| ==> IsSpace(u[|t|]);
    assert j == |t|;
    assert u[..j] == t;
    assert u[j..] == s;
  }

  lemma {:induction false} TokensJoinTrail(toks: seq<string>, seps: seq<string>, trail: string)
    requires forall t :: t in toks ==> IsToken(t)
    requires Separators(seps, |toks|) && AllSpace(trail)
    ensures Tokens(JoinWith(toks, seps) + trail) == toks
    decreases |toks|
  {
    if |toks| == 0 {
      TokensSkipSpace(trail, "");
      assert JoinWith(toks, seps) + trail == trail + "";
    } else if |toks| == 1 {
      TokensOfToken(toks[0], trail);
      TokensSkipSpace(trail, "");
      assert trail + "" == trail;
    } else {
      var rest := JoinWith(toks[1..], seps[1..]) + trail;
      assert seps[0] in seps;
      assert JoinWith(toks, seps) + trail == toks[0] + (seps[0] + rest);
      TokensOfToken(toks[0], seps[0] + rest);
      TokensSkipSpace(seps[0], rest);
      SeparatorsTail(seps, |toks|);
      TokensJoinTrail(toks[1..], seps[1..], trail);
      assert [toks[0]] + toks[1..] == toks;
    }
  }

  lemma SeparatorsTail(seps: seq<string>, n: nat)
    requires n >= 2 && Separators(seps, n)
    ensures Separators(seps[1..], n - 1)
  {
    forall w | w in seps[1..] ensures |w| > 0 && AllSpace(w) {
      assert w in seps;
    }
  }

  /** Round trip: tokens printed with any non-empty whitespace between each
      pair of neighbours (column-aligned or not), and any whitespace padding
      on either side, split back into the same tokens. */
  lemma TokensRoundTrip(toks: seq<string>, lead: string, seps: seq<string>, trail: string)
    requires forall t :: t in toks ==> IsToken(t)
    requires AllSpace(lead) && Separators(seps, |toks|) && AllSpace(trail)
    ensures Tokens(lead + JoinWith(toks, seps) + trail) == toks
  {
    assert lead + JoinWith(toks, seps) + trail == lead + (JoinWith(toks, seps) + trail);
    TokensSkipSpace(lead, JoinWith(toks, seps) + trail);
    TokensJoinTrail(toks, seps, trail);
  }

  // ---------------------------------------------------------------------
  // re.split(' {2,}', line)
  // ---------------------------------------------------------------------

  /** A separator (two or more spaces) starts at `i`. */
  predicate GapAt(s: string, i: int) {
    0 <= i && i + 1 < |s| && s[i] == ' ' && s[i + 1] == ' '
  }

  predicate NoGap(p: string) {
    forall i :: 0 <= i < |p| ==> !GapAt(p, i)
  }

  /** A column value that survives the Docker splitter unchanged: not
      empty, not padded, and without two spaces in a row. */
  predicate IsCell(p: string) {
    |p| > 0 && p[0] != ' ' && p[|p| - 1] != ' ' && NoGap(p)
  }

  function Spaces(n: nat): (w: string)
    ensures |w| == n && forall i :: 0 <= i < n ==> w[i] == ' '
  {
    seq(n, _ => ' ')
  }

  /** The first separator at or after `i`, or `|s|` when there is none. */
  function FindGap(s: string, i: nat): (k: nat)
    requires i <= |s|
    ensures i <= k <= |s|
    ensures k < |s| ==> GapAt(s, k)
    ensures forall j :: i <= j < k ==> !GapAt(s, j)
    decreases |s| - i
  {
    if i == |s| || GapAt(s, i) then i else FindGap(s, i + 1)
  }

  /** The first non-space at or after `i`: where a greedy ` {2,}` match ends. */
  function SkipBlanks(s: string, i: nat): (k: nat)
    requires i <= |s|
    ensures i <= k <= |s|
    ensures forall j :: i <= j < k ==> s[j] == ' '
    ensures k < |s| ==> s[k] != ' '
    decreases |s| - i
  {
    if i == |s| || s[i] != ' ' then i else SkipBlanks(s, i + 1)
  }

  /** `re.split(' {2,}', s)`: the pieces between maximal runs of two or more
      spaces. Single spaces stay inside a piece; padding at either end
      yields an empty piece there. */
  function SplitGaps(s: string): (r: seq<string>)
    ensures |r| >= 1
    ensures forall p :: p in r ==> NoGap(p)
    decreases |s|
  {
    var k := FindGap(s, 0);
    if k == |s| then
      assert NoGap(s) by {
        forall i | 0 <= i < |s| ensures !GapAt(s, i) {
          assert !GapAt(s, i);
        }
      }
      [s]
    else
      var e := SkipBlanks(s, k);
      assert e >= k + 2 by { assert s[k] == ' ' && s[k + 1] == ' '; }
      assert NoGap(s[..k]) by {
        forall i | 0 <= i < k ensures !GapAt(s[..k], i) {
          assert !GapAt(s, i);
        }
      }
      [s[..k]] + SplitGaps(s[e..])
  }

  /** Docker's rendering of a row: cells separated by runs of at least two
      spaces (`gaps[i] + 2` spaces after cell `i`). */
  function Layout(cells: seq<string>, gaps: seq<nat>): string
    requires |cells| == |gaps| + 1
    decreases |gaps|
  {
    if |gaps| == 0 then cells[0]
    else cells[0] + Spaces(gaps[0] + 2) + Layout(cells[1..], gaps[1..])
  }

  /** A piece without separators is returned whole. */
  lemma SplitGapsWhole(p: string)
    requires NoGap(p)
    ensures SplitGaps(p) == [p]
  {
    var k := FindGap(p, 0);
    assert !GapAt(p, k);
    assert k == |p|;
  }

  /** One piece, a separator, and a remainder that does not start with a
      space: the piece is split off and the remainder is split on its own. */
  lemma SplitGapsStep(p: string, g: nat, rest: string)
    requires NoGap(p) && (|p| == 0 || p[|p| - 1] != ' ')
    requires g >= 2
    requires |rest| == 0 || rest[0] != ' '
    ensures SplitGaps(p + Spaces(g) + rest) == [p] + SplitGaps(rest)
  {
    var s := p + Spaces(g) + rest;
    assert GapAt(s, |p|) by { assert s[|p|] == ' ' && s[|p| + 1] == ' '; }
    forall j | 0 <= j < |p| ensures !GapAt(s, j) {
      if j + 1 < |p| {
        assert !GapAt(p, j);
        assert s[j] == p[j] && s[j + 1] == p[j + 1];
      } else {
        assert s[j] == p[|p| - 1];
      }
    }
    var k := FindGap(s, 0);
    assert k == |p|;
    forall j | |p| <= j < |p| + g ensures s[j] == ' ' {
      assert s[j] == Spaces(g)[j - |p|];
    }
    assert |p| + g < |s| ==> s[|p| + g] == rest[0];
    var e := SkipBlanks(s, k);
    assert e == |p| + g;
    assert s[..k] == p;
    assert s[e..] == rest;
  }

  /** Padding in front of a Docker row produces an empty first piece. */
  lemma SplitGapsLeadingPad(g: nat, rest: string)
    requires g >= 2
    requires |rest| == 0 || rest[0] != ' '
    ensures SplitGaps(Spaces(g) + rest) == [""] + SplitGaps(rest)
  {
    var w := Spaces(g);
    assert "" + w + rest == w + rest;
    SplitGapsStep("", g, rest);
  }

  /** Round trip: cells laid out with separators of any width of two or more
      spaces split back into the same cells. */
  lemma {:induction false} SplitGapsLayout(cells: seq<string>, gaps: seq<nat>)
    requires |cells| == |gaps| + 1
    requires forall c :: c in cells ==> IsCell(c)
    ensures SplitGaps(Layout(cells, gaps)) == cells
    decreases |gaps|
  {
    if |gaps| == 0 {
      assert cells[0] in cells;
      SplitGapsWhole(cells[0]);
    } else {
      assert cells[0] in cells && cells[1] in cells;
      var rest := Layout(cells[1..], gaps[1..]);
      LayoutStart(cells[1..], gaps[1..]);
      SplitGapsStep(cells[0], gaps[0] + 2, rest);
      SplitGapsLayout(cells[1..], gaps[1..]);
      assert [cells[0]] + cells[1..] == cells;
    }
  }

  lemma LayoutStart(cells: seq<string>, gaps: seq<nat>)
    requires |cells| == |gaps| + 1 && |cells[0]| > 0
    ensures |Layout(cells, gaps)| > 0 && Layout(cells, gaps)[0] == cells[0][0]
  {
  }
}
