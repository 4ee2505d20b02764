/**
 * The four GPU parallel patterns of the patterns simulator: for an animation
 * frame and an array size, each pattern labels every cell idle, active,
 * done or merging.
 */
module GpuPatterns {
  import opened Seqs

  /** The label of one cell. */
  datatype CellState = Idle | Active | Done | Merging

  /** The four patterns the simulator can show. */
  datatype Pattern = Map | Reduce | Scatter | Stencil

  /** `2 ** n`. */
  function Pow2(n: nat): (r: nat)
    ensures r >= 1
  {
    if n == 0 then 1 else 2 * Pow2(n - 1)
  }

  /** `Math.ceil(Math.log2(size))`: the least `L` with `2 ** L >= size`. */
  function Levels(size: nat): (r: nat)
    requires size >= 1
    ensures Pow2(r) >= size
    ensures r > 0 ==> Pow2(r - 1) < size
  {
    if size <= 1 then 0 else 1 + Levels((size + 1) / 2)
  }

  /** Map: the threads up to `idx` are done and the next one is active. */
  function MapCell(idx: nat, i: nat): CellState {
    if i <= idx then Done else if i == idx + 1 then Active else Idle
  }

  /** `PATTERNS.Map.animate(cells, frame, size)`. */
  function MapStates(frame: nat, size: nat): (r: seq<CellState>)
    requires size >= 1
    ensures |r| == size
  {
    seq(size, i requires 0 <= i < size => MapCell(frame % size, i))
  }

  /** Reduce at tree level `level`: the cells a pair merges into, the cells merging, those merged earlier. */
  function ReduceCell(level: nat, size: nat, i: nat): CellState {
    if level == 0 then Active
    else
      var stride := Pow2(level);
      var half := stride / 2;
      if i % stride == 0 && i + half < size then Active
      else if i % stride == half then Merging
      else if i % half == 0 && 2 * i + half < 2 * size then Done
      else Idle
  }

  /** The tree level Reduce shows in a frame: the frame number, capped at `Levels(size)`. */
  function ReduceLevel(frame: nat, size: nat): (level: nat)
    requires size >= 1
    ensures level <= Levels(size) && level <= frame
    ensures level == frame || level == Levels(size)
  {
    if frame <= Levels(size) then frame else Levels(size)
  }

  /** `PATTERNS.Reduce.animate(cells, frame, size)`. */
  function ReduceStates(frame: nat, size: nat): (r: seq<CellState>)
    requires size >= 1
    ensures |r| == size
  {
    seq(size, i requires 0 <= i < size => ReduceCell(ReduceLevel(frame, size), size, i))
  }

  /** Scatter: thread `i` writes to `(7 i + 3) mod size`; the finished ones that wrote to their own index show done. */
  function ScatterCell(f: nat, size: nat, i: nat): CellState
    requires size >= 1
  {
    if i < f then (if (i * 7 + 3) % size == i then Done else Idle)
    else if i == f then Active
    else Idle
  }

  /** `PATTERNS.Scatter.animate(cells, frame, size)`. */
  function ScatterStates(frame: nat, size: nat): (r: seq<CellState>)
    requires size >= 1
    ensures |r| == size
  {
    seq(size, i requires 0 <= i < size => ScatterCell(frame % size, size, i))
  }

  /** Stencil: the neighbourhood `idx - 1 .. idx + 1` is active, everything before it done. */
  function StencilCell(idx: int, i: int): CellState {
    if i < idx - 1 then Done
    else if idx - 1 <= i <= idx + 1 then Active
    else Idle
  }

  /** `PATTERNS.Stencil.animate(cells, frame, size)`. */
  function StencilStates(frame: nat, size: nat): (r: seq<CellState>)
    requires size >= 1
    ensures |r| == size
  {
    seq(size, i requires 0 <= i < size => StencilCell(frame % size, i))
  }

  /** `PATTERNS[p].animate(cells, frame, size)` for a cell array of length `size`. */
  function Animate(p: Pattern, frame: nat, size: nat): (r: seq<CellState>)
    requires size >= 1
    ensures |r| == size
  {
    match p
    case Map => MapStates(frame, size)
    case Reduce => ReduceStates(frame, size)
    case Scatter => ScatterStates(frame, size)
    case Stencil => StencilStates(frame, size)
  }

  /** Only Reduce ever labels a cell merging. */
  lemma OnlyReduceMerges(p: Pattern, frame: nat, size: nat, i: nat)
    requires size >= 1 && i < size
    requires Animate(p, frame, size)[i] == Merging
    ensures p == Reduce
  {
  }

  /** Map, Scatter and Stencil see the frame only modulo the size: they repeat every `size` frames. */
  lemma Periodic(p: Pattern, frame: nat, size: nat)
    requires size >= 1 && p != Reduce
    ensures Animate(p, frame + size, size) == Animate(p, frame, size)
  {
    var a, b := Animate(p, frame + size, size), Animate(p, frame, size);
    ModShift(frame, size);
    forall i | 0 <= i < size
      ensures a[i] == b[i]
    {
    }
  }

  /** Adding the modulus does not change the remainder. */
  lemma ModShift(x: nat, m: nat)
    requires m >= 1
    ensures (x + m) % m == x % m
  {
    var j, k := x / m, (x + m) / m;
    var d := k - j;
    assert d * m == m + x % m - (x + m) % m;
    MulBounds(d, m);
    assert d == 1;
  }

  /** An integer multiple `d m` of `m >= 1` is at most 0 when `d <= 0`, and at least `2 m` when `d >= 2`. */
  lemma MulBounds(d: int, m: int)
    requires m >= 1
    ensures d <= 0 ==> d * m <= 0
    ensures d >= 2 ==> d * m >= 2 * m
  {
  }

  /**
   * Map with `idx = frame mod size`: exactly the cells `0 .. idx` are done,
   * exactly cell `idx + 1`, when it exists, is active, and the rest idle.
   */
  lemma MapProgress(frame: nat, size: nat)
    requires size >= 1
    ensures var r, idx := MapStates(frame, size), frame % size;
      && (forall i | 0 <= i < size :: r[i] == Done <==> i <= idx)
      && (forall i | 0 <= i < size :: r[i] == Active <==> i == idx + 1)
      && (forall i | 0 <= i < size :: r[i] == Idle <==> i > idx + 1)
      && Count(r, Done) == idx + 1
      && Count(r, Active) == (if idx + 1 < size then 1 else 0)
  {
    var r, idx := MapStates(frame, size), frame % size;
    CountRange(r, Done, 0, idx + 1);
    if idx + 1 < size {
      CountRange(r, Active, idx + 1, idx + 2);
    } else {
      CountRange(r, Active, size, size);
    }
  }

  /** In the last frame of a Map round every cell is done. */
  lemma MapComplete(frame: nat, size: nat)
    requires size >= 1 && frame % size == size - 1
    ensures forall i | 0 <= i < size :: MapStates(frame, size)[i] == Done
  {
  }

  /** Reduce starts with every cell active. */
  lemma ReduceStart(size: nat)
    requires size >= 1
    ensures forall i | 0 <= i < size :: ReduceStates(0, size)[i] == Active
  {
    var r := ReduceStates(0, size);
    forall i | 0 <= i < size
      ensures r[i] == Active
    {
      assert r[i] == ReduceCell(0, size, i);
    }
  }

  /** From frame `Levels(size)` on, Reduce no longer changes. */
  lemma ReduceSettles(frame: nat, size: nat)
    requires size >= 1 && frame >= Levels(size)
    ensures ReduceStates(frame, size) == ReduceStates(Levels(size), size)
  {
  }

  /** `i mod m` for `i < m` is `i` itself. */
  lemma ModSmall(i: nat, m: nat)
    requires i < m
    ensures i % m == i
  {
  }

  /**
   * Once Reduce has climbed the whole tree, one result remains: cell 0 is
   * the only active cell.
   */
  lemma ReduceResult(size: nat)
    requires size >= 2
    ensures var r := ReduceStates(Levels(size), size);
      && (forall i | 0 <= i < size :: r[i] == Active <==> i == 0)
      && Count(r, Active) == 1
  {
    var levels := Levels(size);
    var r := ReduceStates(levels, size);
    var stride := Pow2(levels);
    assert levels > 0;
    assert stride / 2 == Pow2(levels - 1);
    forall i | 0 <= i < size
      ensures r[i] == Active <==> i == 0
    {
      assert r[i] == ReduceCell(levels, size, i);
      ModSmall(i, stride);
    }
    CountRange(r, Active, 0, 1);
  }

  /** At a level `level >= 1`, cell `2 ** (level - 1)` is the one merging into cell 0. */
  lemma MergingCell(level: nat, size: nat)
    requires level >= 1
    ensures ReduceCell(level, size, Pow2(level - 1)) == Merging
  {
    var half := Pow2(level - 1);
    assert Pow2(level) == 2 * half;
    ModSmall(half, 2 * half);
  }

  /** In every frame after the first, Reduce shows a pair merging: cell `2 ** (level - 1)` into cell 0. */
  lemma ReduceMerges(frame: nat, size: nat)
    requires size >= 2 && frame >= 1
    ensures var half := Pow2(ReduceLevel(frame, size) - 1);
      half < size && ReduceStates(frame, size)[half] == Merging
  {
    var levels := Levels(size);
    var level := ReduceLevel(frame, size);
    assert levels > 0 && Pow2(levels - 1) < size;
    PowMono(level - 1, levels - 1);
    MergingCell(level, size);
  }

  /** `2 ** a <= 2 ** b` when `a <= b`. */
  lemma {:induction false} PowMono(a: nat, b: nat)
    requires a <= b
    ensures Pow2(a) <= Pow2(b)
    decreases b - a
  {
    if a < b {
      PowMono(a, b - 1);
    }
  }

  /**
   * Scatter with `f = frame mod size`: cell `f` is the only active cell,
   * the cells after it are idle, and a cell before it is done exactly when
   * its thread wrote to its own index.
   */
  lemma ScatterProgress(frame: nat, size: nat)
    requires size >= 1
    ensures var r, f := ScatterStates(frame, size), frame % size;
      && r[f] == Active
      && Count(r, Active) == 1
      && (forall i | f < i < size :: r[i] == Idle)
      && (forall i | 0 <= i < f :: r[i] == (if (7 * i + 3) % size == i then Done else Idle))
  {
    var f := frame % size;
    CountRange(ScatterStates(frame, size), Active, f, f + 1);
  }

  /**
   * Stencil with `idx = frame mod size`: the active cells are exactly the
   * existing cells of `idx - 1 .. idx + 1`, so one to three of them; those
   * before are done and those after idle.
   */
  lemma StencilProgress(frame: nat, size: nat)
    requires size >= 1
    ensures var r, idx := StencilStates(frame, size), frame % size;
      && (forall i | 0 <= i < size :: r[i] == Active <==> idx - 1 <= i <= idx + 1)
      && 1 <= Count(r, Active) <= 3
      && (forall i | 0 <= i < size :: r[i] == Done <==> i < idx - 1)
      && (forall i | 0 <= i < size :: r[i] == Idle <==> i > idx + 1)
  {
    var r, idx := StencilStates(frame, size), frame % size;
    var lo := if idx == 0 then 0 else idx - 1;
    var hi := if idx + 2 <= size then idx + 2 else size;
    CountRange(r, Active, lo, hi);
  }
}
