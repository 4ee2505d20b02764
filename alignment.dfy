/**
 * The alignment display of the pairwise alignment simulator and of the
 * alignment crate page: cleaning the two input sequences, classifying each
 * aligned column, and the symbol row between the aligned query and target.
 * The aligner itself is foreign to this model; its aligned strings are
 * parameters.
 */
module Alignment {
  import opened Wrappers
  import JsText

  /** `s[i]` in JavaScript: the character, or `undefined` past the end. */
  function At(s: string, i: nat): (r: Option<char>)
    ensures r.Some? <==> i < |s|
    ensures i < |s| ==> r == Some(s[i])
  {
    if i < |s| then Some(s[i]) else None
  }

  // ---------------------------------------------------------------------
  // The crate page's `matchLine`

  /** One symbol of `matchLine`: equality is tested before gaps. */
  function MatchSymbol(c: char, d: Option<char>): char {
    if d == Some(c) then '|'
    else if c == '-' || d == Some('-') then ' '
    else '.'
  }

  /** `matchLine(q, t)`: one symbol per character of the query. */
  function MatchLine(q: string, t: string): (r: string)
    ensures |r| == |q|
  {
    seq(|q|, i requires 0 <= i < |q| => MatchSymbol(q[i], At(t, i)))
  }

  /**
   * Column `i` of `matchLine` is `|` exactly when the characters are equal
   * (two aligned gaps included), a space when they differ and one of them
   * is a gap, and `.` when they differ and neither is; a column past the
   * end of the target counts as differing.
   */
  lemma MatchLineColumns(q: string, t: string)
    ensures var r := MatchLine(q, t);
      forall i | 0 <= i < |q| ::
        && (r[i] == '|' <==> i < |t| && q[i] == t[i])
        && (r[i] == ' ' <==> !(i < |t| && q[i] == t[i]) && (q[i] == '-' || (i < |t| && t[i] == '-')))
        && (r[i] == '.' <==> !(i < |t| && q[i] == t[i]) && q[i] != '-' && !(i < |t| && t[i] == '-'))
        && (r[i] == '|' || r[i] == ' ' || r[i] == '.')
  {
  }

  /** A sequence aligned with itself matches in every column. */
  lemma MatchLineSelf(q: string)
    ensures forall i | 0 <= i < |q| :: MatchLine(q, q)[i] == '|'
  {
  }

  // ---------------------------------------------------------------------
  // The pairwise simulator: column classification and the middle row

  /** A column is a match: two equal residues. */
  predicate IsMatch(c: char, d: Option<char>) {
    c != '-' && d != Some('-') && d == Some(c)
  }

  /** A column is a mismatch: two residues that differ (an absent partner differs). */
  predicate IsMismatch(c: char, d: Option<char>) {
    c != '-' && d != Some('-') && d != Some(c)
  }

  /** The background of a residue cell. */
  datatype Shade = MatchShade | MismatchShade | GapShade

  /** The shade of the cell of `c` aligned with `d`. */
  function ShadeOf(c: char, d: Option<char>): Shade {
    if IsMatch(c, d) then MatchShade else if IsMismatch(c, d) then MismatchShade else GapShade
  }

  /** The middle-row symbol: gaps are tested first, so two gaps give a space. */
  function MidSymbol(c: char, d: Option<char>): char {
    if c == '-' || d == Some('-') then ' ' else if d == Some(c) then '|' else '.'
  }

  /**
   * Match and mismatch never hold together, a column with a gap is
   * neither, and a column without one is one of them.
   */
  lemma ClassesPartition(c: char, d: Option<char>)
    ensures !(IsMatch(c, d) && IsMismatch(c, d))
    ensures (c == '-' || d == Some('-')) ==> !IsMatch(c, d) && !IsMismatch(c, d)
    ensures (c != '-' && d != Some('-')) ==> IsMatch(c, d) || IsMismatch(c, d)
  {
  }

  /** The query row and the target row shade a column alike. */
  lemma ShadeSymmetric(a: char, b: char)
    ensures ShadeOf(a, Some(b)) == ShadeOf(b, Some(a))
  {
  }

  /** The middle row agrees with the shading: `|` on matches, `.` on mismatches, a space elsewhere. */
  lemma MidSymbolAgreesWithShade(c: char, d: Option<char>)
    ensures MidSymbol(c, d) == '|' <==> ShadeOf(c, d) == MatchShade
    ensures MidSymbol(c, d) == '.' <==> ShadeOf(c, d) == MismatchShade
    ensures MidSymbol(c, d) == ' ' <==> ShadeOf(c, d) == GapShade
  {
  }

  /** One cell of a residue row. */
  datatype Cell = Cell(residue: char, shade: Shade)

  /** What the simulator shows for an alignment: three rows and the Length stat. */
  datatype AlignmentView = AlignmentView(query: seq<Cell>, middle: string, target: seq<Cell>, length: nat)

  /** The query row: one cell per aligned query character. */
  function QueryRow(aq: string, at: string): (r: seq<Cell>)
    ensures |r| == |aq|
  {
    seq(|aq|, i requires 0 <= i < |aq| => Cell(aq[i], ShadeOf(aq[i], At(at, i))))
  }

  /** The middle row: one symbol per aligned query character. */
  function MiddleRow(aq: string, at: string): (r: string)
    ensures |r| == |aq|
  {
    seq(|aq|, i requires 0 <= i < |aq| => MidSymbol(aq[i], At(at, i)))
  }

  /** The target row: one cell per aligned target character, classified against the query. */
  function TargetRow(aq: string, at: string): (r: seq<Cell>)
    ensures |r| == |at|
  {
    seq(|at|, i requires 0 <= i < |at| => Cell(at[i], ShadeOf(at[i], At(aq, i))))
  }

  /** The three row-building loops of the simulator and the Length stat. */
  method RenderAlignment(aq: string, at: string) returns (view: AlignmentView)
    ensures view == AlignmentView(QueryRow(aq, at), MiddleRow(aq, at), TargetRow(aq, at), |aq|)
  {
    var query: seq<Cell> := [];
    for i := 0 to |aq|
      invariant query == QueryRow(aq, at)[..i]
    {
      query := query + [Cell(aq[i], ShadeOf(aq[i], At(at, i)))];
    }
    var middle: string := [];
    for i := 0 to |aq|
      invariant middle == MiddleRow(aq, at)[..i]
    {
      middle := middle + [MidSymbol(aq[i], At(at, i))];
    }
    var target: seq<Cell> := [];
    for i := 0 to |at|
      invariant target == TargetRow(aq, at)[..i]
    {
      target := target + [Cell(at[i], ShadeOf(at[i], At(aq, i)))];
    }
    assert query == QueryRow(aq, at)[..|aq|];
    assert middle == MiddleRow(aq, at)[..|aq|];
    assert target == TargetRow(aq, at)[..|at|];
    view := AlignmentView(query, middle, target, |aq|);
  }

  /**
   * The rows of one alignment agree column by column: the query and target
   * rows shade each shared column alike, and the middle symbol names that
   * shade.
   */
  lemma RowsAgree(aq: string, at: string)
    ensures var q, m, t := QueryRow(aq, at), MiddleRow(aq, at), TargetRow(aq, at);
      && (forall i | 0 <= i < |aq| && i < |at| :: q[i].shade == t[i].shade)
      && (forall i | 0 <= i < |aq| :: m[i] == '|' <==> q[i].shade == MatchShade)
      && (forall i | 0 <= i < |aq| :: m[i] == '.' <==> q[i].shade == MismatchShade)
  {
    var q, m, t := QueryRow(aq, at), MiddleRow(aq, at), TargetRow(aq, at);
    forall i | 0 <= i < |aq|
      ensures i < |at| ==> q[i].shade == t[i].shade
      ensures m[i] == '|' <==> q[i].shade == MatchShade
      ensures m[i] == '.' <==> q[i].shade == MismatchShade
    {
      if i < |at| {
        ShadeSymmetric(aq[i], at[i]);
      }
      MidSymbolAgreesWithShade(aq[i], At(at, i));
    }
  }

  /**
   * The simulator's middle row and `matchLine` differ exactly in the
   * columns where two gaps are aligned: there `matchLine` shows `|` and
   * the middle row a space.
   */
  lemma MiddleRowVersusMatchLine(aq: string, at: string)
    ensures var m, l := MiddleRow(aq, at), MatchLine(aq, at);
      forall i | 0 <= i < |aq| ::
        && (m[i] != l[i] <==> aq[i] == '-' && i < |at| && at[i] == '-')
        && (m[i] != l[i] ==> m[i] == ' ' && l[i] == '|')
  {
  }

  // ---------------------------------------------------------------------
  // Cleaning the input sequences

  /** `toUpperCase` on one character, for the ASCII letters. */
  function UpperChar(c: char): char {
    if 'a' <= c <= 'z' then (c as int - 32) as char else c
  }

  /** `s.toUpperCase()`. */
  function UpperCase(s: string): (r: string)
    ensures |r| == |s|
  {
    seq(|s|, i requires 0 <= i < |s| => UpperChar(s[i]))
  }

  /** The characters that survive `replace(/[^ATCG]/g, '')`. */
  predicate IsBase(c: char) {
    c == 'A' || c == 'T' || c == 'C' || c == 'G'
  }

  /** `s.replace(/[^ATCG]/g, '')`: the bases of `s`, in order. */
  function KeepBases(s: string): (r: string)
    ensures |r| <= |s|
  {
    if s == [] then [] else KeepBases(s[..|s| - 1]) + (if IsBase(s[|s| - 1]) then [s[|s| - 1]] else [])
  }

  /** The cleaned input: trimmed, upper-cased, reduced to A, T, C and G. */
  function Clean(s: string): string {
    KeepBases(UpperCase(JsText.Trim(s)))
  }

  /** The two cleaned inputs, or `None` when either is empty and no alignment is attempted. */
  function PrepareInputs(query: string, target: string): Option<(string, string)> {
    var q, t := Clean(query), Clean(target);
    if q == [] || t == [] then None else Some((q, t))
  }

  /** `KeepBases` keeps only bases. */
  lemma {:induction false} KeepOnlyBases(s: string)
    ensures forall i | 0 <= i < |KeepBases(s)| :: IsBase(KeepBases(s)[i])
  {
    if s != [] {
      KeepOnlyBases(s[..|s| - 1]);
    }
  }

  /** `KeepBases` leaves a sequence of bases unchanged. */
  lemma {:induction false} KeepAllBases(s: string)
    requires forall i | 0 <= i < |s| :: IsBase(s[i])
    ensures KeepBases(s) == s
  {
    if s != [] {
      KeepAllBases(s[..|s| - 1]);
      assert s[..|s| - 1] + [s[|s| - 1]] == s;
    }
  }

  /** `KeepBases` is empty exactly when there is no base. */
  lemma {:induction false} KeepEmpty(s: string)
    ensures KeepBases(s) == [] <==> forall i | 0 <= i < |s| :: !IsBase(s[i])
  {
    if s != [] {
      var init := s[..|s| - 1];
      KeepEmpty(init);
      assert forall i | 0 <= i < |init| :: s[i] == init[i];
    }
  }

  /** `KeepBases` distributes over concatenation. */
  lemma {:induction false} KeepConcat(a: string, b: string)
    ensures KeepBases(a + b) == KeepBases(a) + KeepBases(b)
    decreases |b|
  {
    if b == [] {
      assert a + b == a;
    } else {
      var init, last := b[..|b| - 1], b[|b| - 1];
      var ab := a + b;
      assert ab[..|ab| - 1] == a + init;
      assert ab[|ab| - 1] == last;
      KeepConcat(a, init);
    }
  }

  /** `toUpperCase` works character by character, so it distributes over a split of its input. */
  lemma UpperSplit(s: string, x: string, y: string, z: string)
    requires s == x + y + z
    ensures UpperCase(s) == UpperCase(x) + UpperCase(y) + UpperCase(z)
  {
    var u, v := UpperCase(s), UpperCase(x) + UpperCase(y) + UpperCase(z);
    assert |u| == |v|;
    forall i | 0 <= i < |u|
      ensures u[i] == v[i]
    {
      if i < |x| {
      } else if i < |x| + |y| {
        assert s[i] == y[i - |x|];
      } else {
        assert s[i] == z[i - |x| - |y|];
      }
    }
  }

  /** White space holds no base, upper-cased or not. */
  lemma SpaceHasNoBases(w: string)
    requires forall k | 0 <= k < |w| :: JsText.IsJsWhitespace(w[k])
    ensures KeepBases(UpperCase(w)) == []
  {
    KeepEmpty(UpperCase(w));
  }

  /** Surrounding white space adds no bases. */
  lemma KeepBetweenSpace(s: string, front: string, mid: string, back: string)
    requires s == front + mid + back
    requires forall k | 0 <= k < |front| :: JsText.IsJsWhitespace(front[k])
    requires forall k | 0 <= k < |back| :: JsText.IsJsWhitespace(back[k])
    ensures KeepBases(UpperCase(s)) == KeepBases(UpperCase(mid))
  {
    SpaceHasNoBases(front);
    SpaceHasNoBases(back);
    var uf, um, ub := UpperCase(front), UpperCase(mid), UpperCase(back);
    UpperSplit(s, front, mid, back);
    KeepConcat(uf + um, ub);
    KeepConcat(uf, um);
    assert KeepBases(UpperCase(s)) == [] + KeepBases(um) + [];
  }

  /** The bases of the upper-cased input, whether it was trimmed or not. */
  lemma CleanIgnoresTrim(s: string)
    ensures Clean(s) == KeepBases(UpperCase(s))
  {
    JsText.TrimSpec(s);
    var a := JsText.LeadingSpace(s);
    var mid := JsText.Trim(s);
    var b := a + |mid|;
    var front, back := s[..a], s[b..];
    assert s == front + mid + back by {
      assert mid == s[a..b];
    }
    assert forall k | 0 <= k < |back| :: back[k] == s[b + k];
    KeepBetweenSpace(s, front, mid, back);
  }

  /**
   * The cleaned input holds only A, T, C and G, and an input made of them
   * is its own cleaning; so cleaning twice is cleaning once.
   */
  lemma CleanSpec(s: string)
    ensures forall i | 0 <= i < |Clean(s)| :: IsBase(Clean(s)[i])
    ensures (forall i | 0 <= i < |s| :: IsBase(s[i])) ==> Clean(s) == s
    ensures Clean(Clean(s)) == Clean(s)
  {
    KeepOnlyBases(UpperCase(JsText.Trim(s)));
    if forall i | 0 <= i < |s| :: IsBase(s[i]) {
      CleanFixes(s);
    }
    CleanFixes(Clean(s));
  }

  /** A sequence of bases is its own cleaning. */
  lemma CleanFixes(s: string)
    requires forall i | 0 <= i < |s| :: IsBase(s[i])
    ensures Clean(s) == s
  {
    CleanIgnoresTrim(s);
    assert UpperCase(s) == s;
    KeepAllBases(s);
  }

  /** An input has a base letter when one of its characters upper-cases to A, T, C or G. */
  predicate HasBase(s: string) {
    exists i | 0 <= i < |s| :: IsBase(UpperChar(s[i]))
  }

  /** The cleaned input is empty exactly when the input has no base letter. */
  lemma BasesOfUpperCase(s: string)
    ensures KeepBases(UpperCase(s)) == [] <==> !HasBase(s)
  {
    var u := UpperCase(s);
    KeepEmpty(u);
    assert forall i | 0 <= i < |s| :: u[i] == UpperChar(s[i]);
  }

  /** No alignment is attempted exactly when one of the inputs has no base letter, in either case. */
  lemma PrepareInputsSpec(query: string, target: string)
    ensures PrepareInputs(query, target).None? <==> !HasBase(query) || !HasBase(target)
    ensures PrepareInputs(query, target).Some? ==>
      PrepareInputs(query, target).value == (Clean(query), Clean(target))
  {
    CleanIgnoresTrim(query);
    CleanIgnoresTrim(target);
    BasesOfUpperCase(query);
    BasesOfUpperCase(target);
  }
}
