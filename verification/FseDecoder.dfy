/** The FSE decoding table. */
module FseDecoder {
  import opened Nums
  import opened FseDist
  import opened FseSpread

  /** `FSEEntry`: the next state is `nextState` plus the next `numBits` bits. */
  datatype Cell = Cell(nextState: nat, numBits: nat, extraBits: nat, baseValue: nat)

  /** Base value and extra bits per sequence code; none for weight tables,
      whose cells carry the symbol. */
  datatype Codes = NoCodes | Codes(base: seq<nat>, bits: seq<nat>) {
    predicate Covers(n: nat) { Codes? ==> |base| >= n && |bits| >= n }

    function Base(s: nat): nat
      requires Covers(s + 1)
    {
      if NoCodes? then s else base[s]
    }

    function Extra(s: nat): nat
      requires Covers(s + 1)
    {
      if NoCodes? then 0 else bits[s]
    }
  }

  /** The number the encoder's state is cut down to before the symbol of cell `u`. */
  function Rank(d: Dist, u: nat): (x: nat)
    requires d.Valid() && u < d.Size()
    ensures 1 <= x < 2 * d.Size()
  {
    SpreadOwner(d, u);
    var s := Spread(d)[u];
    StartMono(d, s, |d.norm|);
    StartMono(d, s + 1, |d.norm|);
    d.Prob(s) + Occ(Spread(d), s, u)
  }

  /** The low bits that bring `x` back into `[2^log, 2^(log + 1))`. */
  lemma RankBits(x: nat, log: nat)
    requires 1 <= x < 2 * Pow2(log)
    ensures HighBit(x) <= log
    ensures Pow2(log) <= Shl(x, log - HighBit(x))
    ensures Shl(x, log - HighBit(x)) + Pow2(log - HighBit(x)) <= 2 * Pow2(log)
  {
    var h := HighBit(x);
    if h > log {
      Pow2Mono(log + 1, h);
    }
    var nb := log - h;
    ShlPow2(h, nb);
    ShlPow2(h + 1, nb);
    ShlPow2(0, nb);
    ShlMono(Pow2(h), x, nb);
    ShlMono(x + 1, Pow2(h + 1), nb);
    ShlAdd(x, 1, nb);
  }

  /** The cell of symbol `s` that takes the number `x`: `fse_cell_state`. */
  function CellFor(log: nat, codes: Codes, s: nat, x: nat): (c: Cell)
    requires 1 <= x < 2 * Pow2(log) && codes.Covers(s + 1)
    ensures c.nextState + Pow2(c.numBits) <= Pow2(log)
  {
    RankBits(x, log);
    var nb := log - HighBit(x);
    Cell(Shl(x, nb) - Pow2(log), nb, codes.Extra(s), codes.Base(s))
  }

  function CellAt(d: Dist, codes: Codes, u: nat): (c: Cell)
    requires d.Valid() && u < d.Size() && codes.Covers(|d.norm|)
    ensures c.nextState + Pow2(c.numBits) <= d.Size()
  {
    SpreadOwner(d, u);
    CellFor(d.log, codes, Spread(d)[u], Rank(d, u))
  }

  /** A decoding table as the sequence of its cells. */
  ghost predicate IsTable(cells: seq<Cell>, log: nat) {
    && |cells| == Pow2(log)
    && forall u :: 0 <= u < |cells| ==> cells[u].nextState + Pow2(cells[u].numBits) <= |cells|
  }

  function BuiltCells(d: Dist, codes: Codes): (c: seq<Cell>)
    requires d.Valid() && codes.Covers(|d.norm|)
    ensures |c| == d.Size() && IsTable(c, d.log)
    ensures forall u :: 0 <= u < |c| ==> c[u] == CellAt(d, codes, u)
  {
    seq(d.Size(), u requires 0 <= u < d.Size() => CellAt(d, codes, u))
  }

  class FSETable {
    var cells: array<Cell>
    var size: nat
    var accuracyLog: nat

    ghost predicate Valid()
      reads this
    {
      cells.Length == 512 && size <= 512
    }

    /** `decode`: the cells of the built table. */
    function Table(): (t: seq<Cell>)
      requires Valid()
      reads this, cells
      ensures |t| == size
    {
      cells[..size]
    }

    constructor ()
      ensures Valid() && size == 0 && fresh(cells)
    {
      cells := new Cell[512](_ => Cell(0, 0, 0, 0));
      size, accuracyLog := 0, 0;
    }

    /** `build_rle`: one cell, no state bits. */
    method BuildRle(symbol: nat, base: seq<nat>, bits: seq<nat>)
      requires Valid() && symbol < |base| && symbol < |bits|
      modifies this`size, this`accuracyLog, cells
      ensures Valid() && accuracyLog == 0 && Table() == [Cell(0, 0, bits[symbol], base[symbol])]
    {
      cells[0] := Cell(0, 0, bits[symbol], base[symbol]);
      size, accuracyLog := 1, 0;
    }

    /** `build_decoding_table`: lay the low-probability symbols, spread the
        rest by one of two loops, then number the cells of each symbol. */
    method Build(d: Dist, codes: Codes)
      requires Valid() && d.Valid() && codes.Covers(|d.norm|)
      modifies this`size, this`accuracyLog, cells
      ensures Valid() && accuracyLog == d.log && Table() == BuiltCells(d, codes)
    {
      SizeBound(d.log);
      var dt := new int[512];
      var high := LayLows(d, dt);
      if high == d.Size() {
        FastSpread(d, dt);
      } else {
        SpreadSymbols(d, dt, high);
      }
      BuiltNumbered(d, codes);
      NumberCells(d.log, codes, dt[..d.Size()], Probs(d), cells, BuiltCells(d, codes));
      size, accuracyLog := d.Size(), d.log;
    }
  }

  /** The next number of the symbol of cell `u` gives that cell. */
  ghost predicate NumberedAt(log: nat, codes: Codes, symbols: seq<int>, probs: seq<nat>, built: seq<Cell>, u: nat)
    requires |symbols| == |built| && codes.Covers(|probs|) && u < |built|
  {
    && 0 <= symbols[u] < |probs|
    && var x := probs[symbols[u]] + Occ(symbols, symbols[u], u);
    1 <= x < 2 * Pow2(log) && built[u] == CellFor(log, codes, symbols[u], x)
  }

  ghost predicate Numbered(log: nat, codes: Codes, symbols: seq<int>, probs: seq<nat>, built: seq<Cell>) {
    && |symbols| == |built| && codes.Covers(|probs|)
    && forall u :: 0 <= u < |built| ==> NumberedAt(log, codes, symbols, probs, built, u)
  }

  function Probs(d: Dist): (p: seq<nat>)
    ensures |p| == |d.norm| && forall s :: 0 <= s < |p| ==> p[s] == d.Prob(s)
  {
    seq(|d.norm|, s requires 0 <= s => d.Prob(s))
  }

  lemma BuiltNumbered(d: Dist, codes: Codes)
    requires d.Valid() && codes.Covers(|d.norm|)
    ensures Numbered(d.log, codes, Spread(d), Probs(d), BuiltCells(d, codes))
  {
    forall u | 0 <= u < d.Size()
      ensures NumberedAt(d.log, codes, Spread(d), Probs(d), BuiltCells(d, codes), u)
    {
      BuiltNumberedAt(d, codes, u);
    }
  }

  lemma BuiltNumberedAt(d: Dist, codes: Codes, u: nat)
    requires d.Valid() && codes.Covers(|d.norm|) && u < d.Size()
    ensures NumberedAt(d.log, codes, Spread(d), Probs(d), BuiltCells(d, codes), u)
  {
    SpreadOwner(d, u);
    var s := Spread(d)[u];
    assert Rank(d, u) == Probs(d)[s] + Occ(Spread(d), s, u);
    assert BuiltCells(d, codes)[u] == CellAt(d, codes, u) == CellFor(d.log, codes, s, Rank(d, u));
  }

  /** The last pass: each cell takes the next number of its symbol. */
  method NumberCells(log: nat, codes: Codes, symbols: seq<int>, probs: seq<nat>, cells: array<Cell>,
                     ghost built: seq<Cell>)
    requires Numbered(log, codes, symbols, probs, built) && |symbols| <= cells.Length
    modifies cells
    ensures cells[..|symbols|] == built
  {
    var next := new nat[|probs|](s requires 0 <= s < |probs| => probs[s]);
    var u := 0;
    while u < |symbols|
      invariant 0 <= u <= |symbols|
      invariant forall s :: 0 <= s < |probs| ==> next[s] == probs[s] + Occ(symbols, s, u)
      invariant cells[..u] == built[..u]
    {
      assert NumberedAt(log, codes, symbols, probs, built, u);
      var s := symbols[u];
      var x := next[s];
      next[s] := x + 1;
      cells[u] := CellFor(log, codes, s, x);
      u := u + 1;
    }
  }

  /** An 8-byte store of one symbol. */
  method StoreChunk(spread: array<int>, at: nat, s: int)
    requires at + 8 <= spread.Length
    modifies spread
    ensures forall k :: 0 <= k < spread.Length ==> spread[k] == if at <= k < at + 8 then s else old(spread[k])
  {
    forall k | at <= k < at + 8 {
      spread[k] := s;
    }
  }

  /** One symbol's run: whole chunks, the last overshooting into the next run. */
  method StoreRun(spread: array<int>, pos: nat, n: nat, s: int)
    requires pos + n + 8 <= spread.Length
    modifies spread
    ensures spread[..pos + n] == old(spread[..pos]) + seq(n, _ => s)
  {
    ghost var before := spread[..pos];
    StoreChunk(spread, pos, s);
    var i := 8;
    while i < n
      invariant 8 <= i
      invariant forall k :: 0 <= k < pos ==> spread[k] == before[k]
      invariant forall k :: pos <= k < pos + i && k < pos + n ==> spread[k] == s
    {
      StoreChunk(spread, pos + i, s);
      i := i + 8;
    }
  }

  /** The symbols in order, laid with 8-byte stores that overshoot. */
  method LayInOrder(d: Dist, spread: array<int>)
    requires d.Valid() && d.High() == d.Size() <= 512 && spread.Length == 512 + 8
    modifies spread
    ensures spread[..d.Size()] == d.Expand(|d.norm|)
  {
    HighIsSpreads(d);
    var pos, sv := 0, 0;
    while sv < |d.norm|
      invariant 0 <= sv <= |d.norm| && pos == d.Spreads(sv)
      invariant pos <= d.Size() && spread[..pos] == d.Expand(sv)
    {
      StartMono(d, sv + 1, |d.norm|);
      NoLows(d, sv);
      StoreRun(spread, pos, d.norm[sv], sv);
      pos, sv := pos + d.norm[sv], sv + 1;
    }
  }

  lemma NoLows(d: Dist, s: nat)
    requires d.Valid() && d.High() == d.Size() && s < |d.norm|
    ensures d.norm[s] >= 0
  {
    StartMono(d, 0, s);
    StartMono(d, s + 1, |d.norm|);
  }

  /** The spread without low-probability symbols: two cells a turn, from the
      symbols laid in order. */
  method FastSpread(d: Dist, dt: array<int>)
    requires d.Valid() && d.High() == d.Size() <= 512 == dt.Length
    requires Agrees(dt[..d.Size()], LowCells(d, |d.norm|))
    modifies dt
    ensures dt[..d.Size()] == Spread(d)
  {
    TaskValid(d);
    WalkWalks(d.log);
    ghost var k := TaskOf(d);
    var spread := new int[512 + 8];
    LayInOrder(d, spread);
    SpreadPairs(d.log, k, spread[..d.Size()], dt);
    k.AllLaid();
  }

  method SpreadPairs(log: nat, ghost k: Task, spread: seq<int>, dt: array<int>)
    requires k.Valid() && Walks(k.walk, log) && log > 0 && |k.base| == k.high == Pow2(log) <= dt.Length
    requires spread == k.todo && Agrees(dt[..|k.base|], k.base)
    modifies dt
    ensures Agrees(dt[..|k.base|], k.Filled(|k.base|))
  {
    ghost var half, turns: nat := Pow2(log - 1), 0;
    var position, s := 0, 0;
    while s < |spread|
      invariant s == 2 * turns && s <= |spread| == 2 * half
      invariant position == k.walk[s]
      invariant Agrees(dt[..|k.base|], k.Filled(s))
    {
      position := LayTwo(log, k, dt, position, spread[s], spread[s + 1], s);
      s, turns := s + 2, turns + 1;
    }
  }

  method LayTwo(log: nat, ghost k: Task, dt: array<int>, position: nat, first: int, second: int, ghost s: nat)
    returns (next: nat)
    requires k.Valid() && Walks(k.walk, log) && |k.base| == k.high <= dt.Length && s + 1 < |k.base|
    requires position == k.walk[s] && Agrees(dt[..|k.base|], k.Filled(s))
    requires first == k.todo[s] && second == k.todo[s + 1]
    modifies dt
    ensures next == k.walk[s + 2] && Agrees(dt[..|k.base|], k.Filled(s + 2))
  {
    k.NoSkips(s);
    k.NoSkips(s + 1);
    ghost var before := dt[..|k.base|];
    dt[position] := first;
    ghost var middle := dt[..|k.base|];
    assert middle == before[position := first];
    assert Agrees(middle, k.Filled(s + 1));
    var odd := Next(log, position);
    dt[odd] := second;
    assert dt[..|k.base|] == middle[odd := second];
    next := NextTwo(log, position);
    TwoSteps(log, position);
  }

  function NextTwo(log: nat, pos: nat): nat { Low(pos + 2 * Step(log), log) }

  lemma TwoSteps(log: nat, pos: nat)
    ensures NextTwo(log, pos) == Next(log, Next(log, pos))
  {
    LowLow(pos + Step(log), Step(log), log);
  }
}
