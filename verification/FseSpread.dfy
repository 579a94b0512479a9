/** The order in which a table's cells are visited when symbols are spread
    over it, and the table that results. Both sides build it, each with
    loops of its own; `Spread` is what both loops must compute. */
module FseSpread {
  import opened Nums
  import opened FseDist

  /** The spread step of a table of `2^log` cells. */
  function Step(log: nat): nat { Pow2(log) / 2 + Pow2(log) / 8 + 3 }

  /** One masked step of the walk. */
  function Next(log: nat, pos: nat): (r: nat)
    ensures r < Pow2(log)
  {
    Low(pos + Step(log), log)
  }

  /** The cell visited at time `i`. */
  function Visit(log: nat, i: nat): (u: nat)
    ensures u < Pow2(log)
  {
    i * Step(log) % Pow2(log)
  }

  /** The multiplicative inverse of the step modulo the table size. */
  function StepInverse(log: nat): nat {
    if log == 5 then 7 else if log == 6 then 3 else if log == 7 then 91 else if log == 8 then 11 else 363
  }

  /** When cell `u` is visited. */
  function Time(log: nat, u: nat): (i: nat)
    ensures i < Pow2(log)
  {
    u * StepInverse(log) % Pow2(log)
  }

  lemma Sizes(log: nat)
    requires 5 <= log <= 9
    ensures Pow2(log) ==
            if log == 5 then 32 else if log == 6 then 64 else if log == 7 then 128 else if log == 8 then 256 else 512
    ensures Step(log) ==
            if log == 5 then 23 else if log == 6 then 43 else if log == 7 then 83 else if log == 8 then 163 else 323
  {
    assert Pow2(5) == 32 && Pow2(6) == 64 && Pow2(7) == 128 && Pow2(8) == 256 && Pow2(9) == 512;
  }

  lemma SizeBound(log: nat)
    requires 5 <= log <= 9
    ensures 32 <= Pow2(log) <= 512
  {
    Sizes(log);
  }

  /** The step is odd, so visiting is a bijection on the cells, with `Time`
      its inverse. */
  lemma VisitTime(log: nat, i: nat)
    requires 5 <= log <= 9 && i < Pow2(log)
    ensures Time(log, Visit(log, i)) == i
    ensures Visit(log, Time(log, i)) == i
  {
    var c := StepTimesInverse(log);
    InverseUndoes(i, Step(log), StepInverse(log), c, Pow2(log));
    InverseUndoes(i, StepInverse(log), Step(log), c, Pow2(log));
  }

  lemma StepTimesInverse(log: nat) returns (c: nat)
    requires 5 <= log <= 9
    ensures Step(log) * StepInverse(log) == StepInverse(log) * Step(log) == c * Pow2(log) + 1
  {
    Sizes(log);
    c := if log == 5 then 5 else if log == 6 then 2 else if log == 7 then 59 else if log == 8 then 7 else 229;
  }

  lemma InverseUndoes(i: nat, s: nat, v: nat, c: nat, t: nat)
    requires i < t && s * v == c * t + 1
    ensures i * s % t * v % t == i
  {
    var q, r := i * s / t, i * s % t;
    assert i * s == q * t + r;
    calc {
      r * v;
      (i * s - q * t) * v;
      i * s * v - q * t * v;
      { MulAssoc(i, s, v); MulAssoc(q, t, v); }
      i * (c * t + 1) - q * (t * v);
      { MulAssoc(i, c, t); MulAssoc(q, v, t); }
      (i * c) * t + i - (q * v) * t;
      (i * c - q * v) * t + i;
    }
    DivModUnique(r * v, t, i * c - q * v, i);
  }

  lemma VisitNext(log: nat, i: nat)
    ensures Next(log, Visit(log, i)) == Visit(log, i + 1)
  {
    var p := Visit(log, i);
    LowIsMod(p + Step(log), log);
    StepMod(i, Step(log), Pow2(log));
  }

  lemma StepMod(i: nat, s: nat, t: nat)
    requires t > 0
    ensures (i * s % t + s) % t == (i + 1) * s % t
  {
    AddMod(i * s, s, t);
    assert i * s + s == (i + 1) * s;
  }

  lemma AddMod(a: nat, s: nat, t: nat)
    requires t > 0
    ensures (a % t + s) % t == (a + s) % t
  {
    var q, r := a / t, a % t;
    assert a == q * t + r;
    var q2, r2 := (r + s) / t, (r + s) % t;
    assert r + s == q2 * t + r2;
    assert (q + q2) * t == q * t + q2 * t;
    DivModUnique(a + s, t, q + q2, r2);
  }

  /** The cells in the order of their visits, and back at the first. */
  function Walk(log: nat): (w: seq<nat>)
    ensures |w| == Pow2(log) + 1
    ensures forall i :: 0 <= i < |w| ==> w[i] == Visit(log, i)
  {
    seq(Pow2(log) + 1, i requires 0 <= i => Visit(log, i))
  }

  /** When each cell is visited. */
  function Times(log: nat): (t: seq<nat>)
    ensures |t| == Pow2(log)
    ensures forall u :: 0 <= u < |t| ==> t[u] == Time(log, u)
  {
    seq(Pow2(log), u requires 0 <= u => Time(log, u))
  }

  /** `walk` goes by masked steps. */
  ghost predicate Walks(walk: seq<nat>, log: nat) {
    forall i {:trigger Next(log, walk[i])} :: 0 <= i < |walk| - 1 ==> walk[i + 1] == Next(log, walk[i])
  }

  lemma WalkWalks(log: nat)
    ensures Walks(Walk(log), log)
  {
    forall i: nat | i < |Walk(log)| - 1 ensures Walk(log)[i + 1] == Next(log, Walk(log)[i]) {
      VisitNext(log, i);
    }
  }

  // Laying a list of symbols along a walk

  /** `todo` is laid in the cells below `high` of `base`, in the order of
      `walk`, whose inverse is `times`. */
  datatype Task = Task(walk: seq<nat>, times: seq<nat>, high: nat, base: seq<int>, todo: seq<int>) {
    ghost predicate Valid() {
      && |times| == |base| && |walk| == |base| + 1 && |todo| == high <= |base|
      && (forall i :: 0 <= i < |base| ==> walk[i] < |base| && times[walk[i]] == i)
      && (forall u :: 0 <= u < |base| ==> times[u] < |base| && walk[times[u]] == u)
      && walk[|base|] == walk[0] == 0
      && (forall u :: 0 <= u < |base| ==> (base[u] == -1 <==> u < high))
      && (forall k :: 0 <= k < high ==> todo[k] != -1)
    }

    /** Cells below `high` among the first `i` visited. */
    function Placed(i: nat): (k: nat)
      requires i <= |walk|
    {
      if i == 0 then 0 else Placed(i - 1) + (if walk[i - 1] < high then 1 else 0)
    }

    /** The table after `i` visits, -1 in the cells still free. */
    function Filled(i: nat): (t: seq<int>)
      requires i < |walk| && |todo| == high <= |base|
      ensures |t| == |base|
    {
      if i == 0 then base
      else
        var t, u, k := Filled(i - 1), walk[i - 1], Placed(i - 1);
        if u < high && k < high then t[u := todo[k]] else t
    }

    /** The free cells are the low ones not yet visited. */
    ghost predicate Free(t: seq<int>, i: nat)
      requires |t| == |times|
    {
      forall u :: 0 <= u < |t| ==> (t[u] == -1 <==> u < high && times[u] >= i)
    }

    lemma BaseFree()
      requires Valid()
      ensures Free(Filled(0), 0) && Occ(Filled(0), -1, |base|) == high - Placed(0)
    {
      OccAll(base, -1, high);
      FreeAbove(base, high);
    }

    lemma {:induction false} FilledFree(i: nat)
      requires Valid() && i <= |base|
      ensures Free(Filled(i), i)
      ensures Occ(Filled(i), -1, |base|) == high - Placed(i)
    {
      if i == 0 {
        BaseFree();
      } else {
        FilledFree(i - 1);
        FreeCell(i - 1);
        FreeNext(i - 1);
      }
    }

    /** A free cell takes one of the symbols left, and one less is free. */
    lemma FreeCell(i: nat)
      requires Valid() && i < |base| && Free(Filled(i), i) && Occ(Filled(i), -1, |base|) == high - Placed(i)
      ensures walk[i] < high ==> Placed(i) < high
      ensures Occ(Filled(i + 1), -1, |base|) == high - Placed(i + 1)
    {
      var t, u, k := Filled(i), walk[i], Placed(i);
      if u < high {
        OccMono(t, -1, u, |t|);
        OccUpdate(t, u, todo[k], -1, |t|);
      }
    }

    lemma FreeNext(i: nat)
      requires Valid() && i < |base| && Free(Filled(i), i) && (walk[i] < high ==> Placed(i) < high)
      ensures Free(Filled(i + 1), i + 1)
    {
    }

    /** A visit below `high` finds its cell free and a symbol left to lay. */
    lemma Fresh(i: nat)
      requires Valid() && i < |base|
      ensures Placed(i) <= high
      ensures walk[i] < high ==> Filled(i)[walk[i]] == -1 && Placed(i) < high
    {
      FilledFree(i);
      if walk[i] < high {
        OccMono(Filled(i), -1, walk[i], |base|);
      }
    }

    /** At the end every cell is laid. */
    lemma AllLaid()
      requires Valid()
      ensures Placed(|base|) == high
      ensures forall u :: 0 <= u < |base| ==> Filled(|base|)[u] != -1
    {
      FilledFree(|base|);
      OccNone(Filled(|base|), -1, |base|);
    }

    /** The counts are those of the base and of the symbols laid so far. */
    lemma {:induction false} FilledOcc(i: nat, x: int)
      requires Valid() && i <= |base| && x != -1
      ensures Placed(i) <= high
      ensures Occ(Filled(i), x, |base|) == Occ(base, x, |base|) + Occ(todo, x, Placed(i))
    {
      if i > 0 {
        FilledOcc(i - 1, x);
        FilledMore(i - 1, x);
      }
    }

    lemma FilledMore(i: nat, x: int)
      requires Valid() && i < |base| && x != -1
      ensures Placed(i + 1) <= high
      ensures Occ(Filled(i + 1), x, |base|) - Occ(Filled(i), x, |base|) == Occ(todo, x, Placed(i + 1)) - Occ(todo, x, Placed(i))
    {
      Fresh(i);
      if walk[i] < high {
        OccUpdate(Filled(i), walk[i], todo[Placed(i)], x, |base|);
      }
    }

    /** Once every symbol is laid, the rest of the walk only skips. */
    lemma {:induction false} SkipsToEnd(i: nat)
      requires Valid() && i <= |base| && Placed(i) == high
      ensures Filled(i) == Filled(|base|)
      decreases |base| - i
    {
      if i < |base| {
        Fresh(i);
        SkipsToEnd(i + 1);
      }
    }

    /** With nothing to skip, cell `walk[i]` takes symbol `i`. */
    lemma {:induction false} NoSkips(i: nat)
      requires Valid() && high == |base| && i <= |base|
      ensures Placed(i) == i
    {
      if i > 0 {
        NoSkips(i - 1);
      }
    }

    /** Where a spread loop stands: at a cell it may fill, unless it is done. */
    ghost predicate AtCell(i: nat)
      requires Valid()
    {
      i <= |base| && Placed(i) <= high && (Placed(i) < high ==> i < |base| && walk[i] < high)
    }

    lemma Stop(i: nat)
      requires Valid() && i <= |base| && walk[i] < high
      ensures AtCell(i)
    {
      if i < |base| {
        Fresh(i);
      } else {
        AllLaid();
      }
    }
  }

  lemma {:induction false} FreeAbove(t: seq<int>, h: nat)
    requires h <= |t| && forall u :: h <= u < |t| ==> t[u] != -1
    ensures Occ(t, -1, |t|) == Occ(t, -1, h)
    decreases |t| - h
  {
    if h < |t| {
      FreeAbove(t, h + 1);
    }
  }

  /** `t` holds what `f` does wherever `f` holds a symbol. */
  ghost predicate Agrees(t: seq<int>, f: seq<int>) {
    |t| == |f| && forall u :: 0 <= u < |f| && f[u] != -1 ==> t[u] == f[u]
  }

  // The spread of a distribution

  lemma LowsFit(d: Dist, s: nat)
    requires d.Valid() && s < |d.norm|
    ensures d.Lows(s + 1) <= d.Size() && d.Lows(s + 1) == d.Lows(s) + if d.norm[s] == -1 then 1 else 0
  {
    HighIsSpreads(d);
    StartMono(d, s + 1, |d.norm|);
  }

  /** The low-probability symbols below `s`, laid from the last cell down; -1 elsewhere. */
  function LowCells(d: Dist, s: nat): (t: seq<int>)
    requires s <= |d.norm| && d.Lows(s) <= d.Size()
    ensures |t| == d.Size()
  {
    if s == 0 then seq(d.Size(), _ => -1)
    else
      var t := LowCells(d, s - 1);
      if d.norm[s - 1] == -1 then t[d.Size() - d.Lows(s) := s - 1] else t
  }

  lemma {:induction false} LowCellsContent(d: Dist, s: nat)
    requires s <= |d.norm| && d.Lows(s) <= d.Size()
    ensures forall u :: 0 <= u < d.Size() ==>
                          if u < d.Size() - d.Lows(s) then LowCells(d, s)[u] == -1 else 0 <= LowCells(d, s)[u] < s
  {
    if s > 0 {
      LowCellsContent(d, s - 1);
    }
  }

  lemma {:induction false} LowCellsOcc(d: Dist, s: nat, x: nat)
    requires s <= |d.norm| && d.Lows(s) <= d.Size()
    ensures Occ(LowCells(d, s), x, d.Size()) == if x < s && d.norm[x] == -1 then 1 else 0
  {
    if s == 0 {
      OccNone(LowCells(d, 0), x, d.Size());
    } else {
      LowCellsOcc(d, s - 1, x);
      LowCellsContent(d, s - 1);
      assert d.norm[s - 1] == -1 ==> d.Lows(s) >= 1;
      if d.norm[s - 1] == -1 {
        OccUpdate(LowCells(d, s - 1), d.Size() - d.Lows(s), s - 1, x, d.Size());
      }
    }
  }

  lemma {:induction false} ExpandRange(d: Dist, s: nat)
    requires s <= |d.norm|
    ensures forall k :: 0 <= k < |d.Expand(s)| ==> 0 <= d.Expand(s)[k] < s
  {
    if s > 0 {
      ExpandRange(d, s - 1);
    }
  }

  /** The spreading of `d`'s symbols over its table. */
  function TaskOf(d: Dist): Task
    requires d.Valid()
  {
    HighIsSpreads(d);
    Task(Walk(d.log), Times(d.log), d.High(), LowCells(d, |d.norm|), d.Expand(|d.norm|))
  }

  lemma TaskValid(d: Dist)
    requires d.Valid()
    ensures TaskOf(d).Valid() && |TaskOf(d).base| == d.Size() && TaskOf(d).high == d.High()
    ensures TaskOf(d).base == LowCells(d, |d.norm|) && TaskOf(d).todo == d.Expand(|d.norm|)
    ensures forall i :: 0 <= i <= d.Size() ==> TaskOf(d).walk[i] == Visit(d.log, i)
  {
    HighIsSpreads(d);
    LowCellsContent(d, |d.norm|);
    ExpandRange(d, |d.norm|);
    DivModUnique(d.Size() * Step(d.log), d.Size(), Step(d.log), 0);
    DivModUnique(0, d.Size(), 0, 0);
    forall i | 0 <= i < d.Size()
      ensures Time(d.log, Visit(d.log, i)) == i && Visit(d.log, Time(d.log, i)) == i
    {
      VisitTime(d.log, i);
    }
  }

  /** The symbol of every cell. */
  function Spread(d: Dist): (t: seq<int>)
    requires d.Valid()
    ensures |t| == d.Size()
  {
    TaskValid(d);
    TaskOf(d).Filled(d.Size())
  }

  /** Symbol `x` gets as many cells as its count says. */
  lemma SpreadCount(d: Dist, x: nat)
    requires d.Valid()
    ensures Occ(Spread(d), x, d.Size()) == d.Prob(x)
  {
    HighIsSpreads(d);
    TaskValid(d);
    LowCellsOcc(d, |d.norm|, x);
    OccExpand(d, |d.norm|, x);
    TaskOf(d).AllLaid();
    TaskOf(d).FilledOcc(d.Size(), x);
  }

  /** Every cell gets a symbol. */
  lemma SpreadFills(d: Dist)
    requires d.Valid()
    ensures forall u :: 0 <= u < d.Size() ==> 0 <= Spread(d)[u] < |d.norm|
  {
    TaskValid(d);
    LowCellsContent(d, |d.norm|);
    ExpandRange(d, |d.norm|);
    TaskOf(d).AllLaid();
    FilledRange(TaskOf(d), |d.norm|, d.Size());
  }

  lemma {:induction false} FilledRange(k: Task, n: nat, i: nat)
    requires k.Valid() && i <= |k.base|
    requires forall u :: 0 <= u < |k.base| ==> -1 <= k.base[u] < n
    requires forall u :: 0 <= u < |k.todo| ==> -1 <= k.todo[u] < n
    ensures forall u :: 0 <= u < |k.base| ==> -1 <= k.Filled(i)[u] < n
  {
    if i > 0 {
      FilledRange(k, n, i - 1);
    }
  }

  /** A symbol that owns a cell has a count. */
  lemma SpreadOwner(d: Dist, u: nat)
    requires d.Valid() && u < d.Size()
    ensures 0 <= Spread(d)[u] < |d.norm|
    ensures Occ(Spread(d), Spread(d)[u], u) < d.Prob(Spread(d)[u])
  {
    SpreadFills(d);
    SpreadCount(d, Spread(d)[u]);
    OccMono(Spread(d), Spread(d)[u], u, d.Size());
  }

  // The loops

  /** One cell of the spread loop: lay `s`, step, and skip the
      low-probability cells. */
  method LayOne(log: nat, ghost k: Task, table: array<int>, high: nat, s: int, pos: nat, ghost i: nat)
    returns (next: nat, ghost j: nat)
    requires k.Valid() && Walks(k.walk, log) && |k.base| <= table.Length && high == k.high
    requires k.AtCell(i) && pos == k.walk[i] && Agrees(table[..|k.base|], k.Filled(i))
    requires k.Placed(i) < high && s == k.todo[k.Placed(i)]
    modifies table
    ensures k.AtCell(j) && next == k.walk[j] && Agrees(table[..|k.base|], k.Filled(j))
    ensures k.Placed(j) == k.Placed(i) + 1
  {
    ghost var before := table[..|k.base|];
    table[pos] := s;
    assert table[..|k.base|] == before[pos := s];
    next, j := SkipHigh(log, k, high, Next(log, pos), i + 1);
  }

  method SkipHigh(log: nat, ghost k: Task, high: nat, pos: nat, ghost i: nat) returns (next: nat, ghost j: nat)
    requires k.Valid() && Walks(k.walk, log) && high == k.high
    requires i <= |k.base| && pos == k.walk[i] && 1 <= k.Placed(i) <= high
    ensures k.AtCell(j) && next == k.walk[j]
    ensures k.Placed(j) == k.Placed(i) && k.Filled(j) == k.Filled(i)
  {
    next, j := pos, i;
    while next >= high
      invariant j <= |k.base| && next == k.walk[j]
      invariant k.Placed(j) == k.Placed(i) && k.Filled(j) == k.Filled(i)
      decreases |k.base| - j
    {
      next, j := Next(log, next), j + 1;
    }
    k.Stop(j);
  }

  /** The spread loop both coders run over a table whose low-probability
      symbols are laid: symbols in order, one step per cell, skipping the
      cells from `high` on. */
  method SpreadSymbols(d: Dist, table: array<int>, high: nat)
    requires d.Valid() && table.Length >= d.Size() && high == d.High()
    requires Agrees(table[..d.Size()], LowCells(d, |d.norm|))
    modifies table
    ensures table[..d.Size()] == Spread(d)
  {
    hide Dist.Expand, Dist.Spreads, Dist.Start, Dist.Lows, Dist.High, LowCells, Walks, Walk, Times, Spread, Dist.Valid;
    hide Task.Filled, Task.Placed, TaskOf, Agrees;
    HighIsSpreads(d);
    TaskValid(d);
    WalkWalks(d.log);
    SpreadStarts(d);
    ghost var k := TaskOf(d);
    var pos := 0;
    ghost var i: nat := 0;
    var s := 0;
    while s < |d.norm|
      invariant 0 <= s <= |d.norm|
      invariant k.AtCell(i) && pos == k.walk[i]
      invariant k.Placed(i) == d.Spreads(s)
      invariant Agrees(table[..d.Size()], k.Filled(i))
    {
      RunInTodo(d, s);
      SpreadsNext(d, s);
      pos, i := LayRun(d.log, k, table, high, s, Pos(d.norm[s]), pos, i);
      s := s + 1;
    }
    SpreadEnds(d, i, table[..d.Size()]);
  }

  lemma SpreadStarts(d: Dist)
    requires d.Valid()
    ensures var k := TaskOf(d);
            k.Valid() && k.AtCell(0) && k.walk[0] == 0 && k.Placed(0) == 0 == d.Spreads(0) && k.Filled(0) == k.base && k.walk == Walk(d.log)
  {
    hide Walk, Dist.Expand, LowCells, Dist.Start, Dist.Lows, Times;
    TaskValid(d);
  }

  /** Once all symbols are laid, the table is the spread. */
  lemma SpreadEnds(d: Dist, i: nat, t: seq<int>)
    requires d.Valid() && TaskOf(d).Valid() && TaskOf(d).AtCell(i) && TaskOf(d).Placed(i) == d.Spreads(|d.norm|)
    requires Agrees(t, TaskOf(d).Filled(i))
    ensures t == Spread(d)
  {
    hide Walk, Dist.Expand, LowCells, Dist.Start, Dist.Lows, Times, Task.Filled, Task.Placed;
    HighIsSpreads(d);
    TaskValid(d);
    TaskOf(d).SkipsToEnd(i);
    TaskOf(d).AllLaid();
  }

  lemma RunInTodo(d: Dist, s: nat)
    requires d.Valid() && s < |d.norm|
    ensures d.Spreads(s) + Pos(d.norm[s]) <= |d.Expand(|d.norm|)| == d.High()
    ensures forall c :: d.Spreads(s) <= c < d.Spreads(s) + Pos(d.norm[s]) ==> d.Expand(|d.norm|)[c] == s
  {
    hide Dist.Expand, Dist.Spreads, Dist.Start, Dist.Lows, Dist.High;
    HighIsSpreads(d);
    StartMono(d, s + 1, |d.norm|);
    SpreadsNext(d, s);
    var todo := d.Expand(|d.norm|);
    forall c | d.Spreads(s) <= c < d.Spreads(s) + Pos(d.norm[s])
      ensures todo[c] == s
    {
      ExpandAt(d, s, c - d.Spreads(s));
    }
  }

  lemma SpreadsNext(d: Dist, s: nat)
    requires s < |d.norm|
    ensures d.Spreads(s + 1) == d.Spreads(s) + Pos(d.norm[s])
  {
  }

  /** The cells of one symbol. */
  method LayRun(log: nat, ghost k: Task, table: array<int>, high: nat, s: int, n: nat, pos: nat, ghost i: nat)
    returns (next: nat, ghost j: nat)
    requires k.Valid() && Walks(k.walk, log) && |k.base| <= table.Length && high == k.high
    requires k.AtCell(i) && pos == k.walk[i] && Agrees(table[..|k.base|], k.Filled(i))
    requires k.Placed(i) + n <= high && forall c :: k.Placed(i) <= c < k.Placed(i) + n ==> k.todo[c] == s
    modifies table
    ensures k.AtCell(j) && next == k.walk[j] && Agrees(table[..|k.base|], k.Filled(j))
    ensures k.Placed(j) == k.Placed(i) + n
  {
    next, j := pos, i;
    ghost var from := k.Placed(i);
    var c := 0;
    while c < n
      invariant 0 <= c <= n
      invariant k.AtCell(j) && next == k.walk[j] && Agrees(table[..|k.base|], k.Filled(j))
      invariant k.Placed(j) == from + c
    {
      next, j := LayOne(log, k, table, high, s, next, j);
      c := c + 1;
    }
  }

  /** Laying the low-probability symbols from the last cell down. */
  method LayLows(d: Dist, table: array<int>) returns (high: nat)
    requires d.Valid() && table.Length >= d.Size()
    modifies table
    ensures high == d.High()
    ensures Agrees(table[..d.Size()], LowCells(d, |d.norm|))
  {
    hide Dist.Valid, Pow2, Dist.Start;
    high := d.Size();
    var s := 0;
    while s < |d.norm|
      invariant 0 <= s <= |d.norm|
      invariant d.Lows(s) <= d.Size() && high == d.Size() - d.Lows(s)
      invariant Agrees(table[..d.Size()], LowCells(d, s))
    {
      LowsFit(d, s);
      if d.norm[s] == -1 {
        high := high - 1;
        table[high] := s;
      }
      s := s + 1;
    }
  }
}
