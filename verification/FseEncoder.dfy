/** The FSE compression table, and that it undoes the decoding table. */
module FseEncoder {
  import opened Nums
  import opened FseDist
  import opened FseSpread
  import opened FseDecoder

  /** `p` cells take their number at one of two bit counts. */
  lemma MinState(log: nat, p: nat)
    requires 2 <= p <= Pow2(log)
    ensures HighBit(p - 1) < log
    ensures Pow2(log) < Shl(p, log - HighBit(p - 1)) <= 2 * Pow2(log)
  {
    var h := HighBit(p - 1);
    if h >= log {
      Pow2Mono(log, h);
    }
    var nb := log - h;
    ShlPow2(h, nb);
    ShlPow2(h + 1, nb);
    ShlPow2(0, nb);
    ShlAdd(Pow2(h), 1, nb);
    ShlMono(Pow2(h) + 1, p, nb);
    ShlMono(p, Pow2(h + 1), nb);
  }

  /** The low bits of state `v` that go out before a symbol of `p` cells. */
  function NbBits(log: nat, p: nat, v: nat): (nb: nat)
    requires 1 <= p <= Pow2(log)
    ensures nb <= log
  {
    if p == 1 then log
    else
      MinState(log, p);
      var h := HighBit(p - 1);
      if v >= Shl(p, log - h) then log - h else log - h - 1
  }

  /** What is left of a state is one of the symbol's numbers. */
  lemma NbBitsCut(log: nat, p: nat, v: nat)
    requires 1 <= p <= Pow2(log) <= v < 2 * Pow2(log)
    ensures p <= Shr(v, NbBits(log, p, v)) < 2 * p
  {
    var nb := NbBits(log, p, v);
    ShrBelow(v, nb, p);
    ShrBelow(v, nb, 2 * p);
    if p == 1 {
      ShlPow2(0, log);
      ShlPow2(1, log);
    } else {
      var h := HighBit(p - 1);
      MinState(log, p);
      ShlPow2(h + 1, nb);
      if nb == log - h {
        ShlMono(Pow2(h + 1), 2 * p, nb);
      } else {
        ShlMono(p, Pow2(h + 1), nb);
      }
    }
  }

  /** What a built table does to a state, as a function: `FSE_encodeSymbol`
      and `FSE_initCState2`. */
  datatype Coder = Built(d: Dist) | Rle(symbol: nat) {
    ghost predicate Valid() { Built? ==> d.Valid() }

    function Log(): nat { if Built? then d.log else 0 }

    predicate Codes(s: nat) { if Built? then d.Prob(s) > 0 else s == symbol }

    /** The states of this table. */
    predicate State(v: nat) { if Built? then d.Size() <= v < 2 * d.Size() else v == 0 }

    ghost function Bits(v: nat, s: nat): nat
      requires Valid() && Codes(s) && State(v)
    {
      if Rle? then 0 else ProbFits(d, s); NbBits(d.log, d.Prob(s), v)
    }

    ghost function Next(v: nat, s: nat): (r: nat)
      requires Valid() && Codes(s) && State(v)
      ensures State(r)
    {
      if Rle? then 0
      else
        ProbFits(d, s);
        NbBitsCut(d.log, d.Prob(s), v);
        d.Size() + Select(Spread(d), s, Shr(v, Bits(v, s)) - d.Prob(s), d.Size())
    }

    ghost function Init(s: nat): (r: nat)
      requires Valid() && Codes(s)
      ensures State(r)
    {
      if Rle? then 0 else ProbFits(d, s); d.Size() + Select(Spread(d), s, 0, d.Size())
    }

    /** The decoding table that goes with this one. */
    ghost function Cells(codes: FseDecoder.Codes): (c: seq<Cell>)
      requires Valid() && codes.Covers(if Built? then |d.norm| else symbol + 1)
      ensures IsTable(c, Log())
    {
      if Rle? then [Cell(0, 0, codes.Extra(symbol), codes.Base(symbol))] else BuiltCells(d, codes)
    }
  }

  lemma ProbFits(d: Dist, s: nat)
    requires d.Valid() && d.Prob(s) > 0
    ensures s < |d.norm| && d.Prob(s) <= d.Size()
    ensures Occ(Spread(d), s, d.Size()) == d.Prob(s)
  {
    SpreadCount(d, s);
    StartMono(d, 0, s);
    StartMono(d, s + 1, |d.norm|);
  }

  /** The decoder in the cell an encoding step leads to reads back the symbol,
      the number of bits, and the state before the step. */
  lemma EncodeThenDecode(c: Coder, codes: FseDecoder.Codes, v: nat, s: nat)
    requires c.Valid() && c.Codes(s) && c.State(v)
    requires codes.Covers(if c.Built? then |c.d.norm| else c.symbol + 1)
    ensures codes.Covers(s + 1)
    ensures var cell := c.Cells(codes)[Low(c.Next(v, s), c.Log())];
            && cell.baseValue == codes.Base(s) && cell.extraBits == codes.Extra(s)
            && cell.numBits == c.Bits(v, s)
            && cell.nextState + Low(v, cell.numBits) == Low(v, c.Log())
  {
    StateModulo(c, c.Next(v, s));
    StateModulo(c, v);
    if c.Built? {
      BuiltStep(c.d, codes, v, s);
    }
  }

  lemma BuiltStep(d: Dist, codes: FseDecoder.Codes, v: nat, s: nat)
    requires d.Valid() && d.Prob(s) > 0 && d.Size() <= v < 2 * d.Size() && codes.Covers(|d.norm|)
    ensures codes.Covers(s + 1)
    ensures var cell := CellAt(d, codes, Built(d).Next(v, s) - d.Size());
            && cell.baseValue == codes.Base(s) && cell.extraBits == codes.Extra(s)
            && cell.numBits == Built(d).Bits(v, s)
            && cell.nextState + Low(v, cell.numBits) == v - d.Size()
  {
    hide CellAt, Coder.Next, Coder.Bits, NbBits, Spread, Shr, Low, Pow2, Occ, Select, Dist.Start;
    ProbFits(d, s);
    var nb := NbBits(d.log, d.Prob(s), v);
    NbBitsCut(d.log, d.Prob(s), v);
    BuiltMoves(d, v, s, nb);
    BuiltRoundTrip(d, codes, v, s, nb);
  }

  lemma BuiltMoves(d: Dist, v: nat, s: nat, nb: nat)
    requires d.Valid() && d.Prob(s) > 0 && d.Size() <= v < 2 * d.Size() && d.Prob(s) <= d.Size()
    requires nb == NbBits(d.log, d.Prob(s), v) && d.Prob(s) <= Shr(v, nb) < 2 * d.Prob(s)
    requires Occ(Spread(d), s, d.Size()) == d.Prob(s)
    ensures Built(d).Bits(v, s) == nb
    ensures Built(d).Next(v, s) == d.Size() + Select(Spread(d), s, Shr(v, nb) - d.Prob(s), d.Size())
  {
  }

  lemma BuiltRoundTrip(d: Dist, codes: FseDecoder.Codes, v: nat, s: nat, nb: nat)
    requires d.Valid() && codes.Covers(|d.norm|) && s < |d.norm| && d.Size() <= v < 2 * d.Size() && nb <= d.log
    requires d.Prob(s) <= Shr(v, nb) < 2 * d.Prob(s) && Occ(Spread(d), s, d.Size()) == d.Prob(s)
    ensures var cell := CellAt(d, codes, Select(Spread(d), s, Shr(v, nb) - d.Prob(s), d.Size()));
            && cell.baseValue == codes.Base(s) && cell.extraBits == codes.Extra(s) && cell.numBits == nb
            && cell.nextState + Low(v, nb) == v - d.Size()
  {
    var x := Shr(v, nb);
    CutRank(d.log, nb, v);
    CellAtSelect(d, codes, s, x);
    CellForCut(d.log, codes, s, nb, v);
  }

  lemma CellAtSelect(d: Dist, codes: FseDecoder.Codes, s: nat, x: nat)
    requires d.Valid() && codes.Covers(|d.norm|) && s < |d.norm| && 1 <= d.Prob(s) <= x < 2 * d.Prob(s)
    requires Occ(Spread(d), s, d.Size()) == d.Prob(s)
    ensures x < 2 * d.Size()
    ensures CellAt(d, codes, Select(Spread(d), s, x - d.Prob(s), d.Size())) == CellFor(d.log, codes, s, x)
  {
    assert Rank(d, Select(Spread(d), s, x - d.Prob(s), d.Size())) == x;
  }

  lemma CellForCut(log: nat, codes: FseDecoder.Codes, s: nat, nb: nat, v: nat)
    requires codes.Covers(s + 1) && nb <= log && 1 <= Shr(v, nb) < 2 * Pow2(log)
    requires HighBit(Shr(v, nb)) == log - nb
    ensures var cell := CellFor(log, codes, s, Shr(v, nb));
            && cell.baseValue == codes.Base(s) && cell.extraBits == codes.Extra(s) && cell.numBits == nb
            && cell.nextState + Low(v, nb) == v - Pow2(log)
  {
    ShrLow(v, nb);
    CellForShape(log, codes, s, Shr(v, nb), nb);
  }

  lemma CellForShape(log: nat, codes: FseDecoder.Codes, s: nat, x: nat, nb: nat)
    requires codes.Covers(s + 1) && 1 <= x < 2 * Pow2(log) && nb <= log && HighBit(x) == log - nb
    ensures Pow2(log) <= Shl(x, nb)
    ensures CellFor(log, codes, s, x) == Cell(Shl(x, nb) - Pow2(log), nb, codes.Extra(s), codes.Base(s))
  {
    RankBits(x, log);
  }

  lemma CutRank(log: nat, nb: nat, v: nat)
    requires nb <= log && Pow2(log) <= v < 2 * Pow2(log)
    ensures Shr(v, nb) >= 1 && HighBit(Shr(v, nb)) == log - nb
  {
    hide Shl, Shr, HighBit;
    ShlPow2(log - nb, nb);
    ShlPow2(log - nb + 1, nb);
    ShrBelow(v, nb, Pow2(log - nb));
    ShrBelow(v, nb, Pow2(log - nb + 1));
    HighBitUnique(Shr(v, nb), log - nb);
  }

  /** The decoder's state is the encoder's, less the table size. */
  lemma StateModulo(c: Coder, v: nat)
    requires c.State(v)
    ensures Low(v, c.Log()) == if c.Built? then v - c.d.Size() else 0
  {
    if c.Built? {
      ShlPow2(0, c.Log());
      ShrLowUnique(1, v - c.d.Size(), c.Log());
    }
  }

  /** The first symbol's state is the cell of its first number. */
  lemma InitDecodes(c: Coder, codes: FseDecoder.Codes, s: nat)
    requires c.Valid() && c.Codes(s)
    requires codes.Covers(if c.Built? then |c.d.norm| else c.symbol + 1)
    ensures codes.Covers(s + 1)
    ensures var cell := c.Cells(codes)[Low(c.Init(s), c.Log())];
            cell.baseValue == codes.Base(s) && cell.extraBits == codes.Extra(s)
  {
    StateModulo(c, c.Init(s));
    if c.Built? {
      ProbFits(c.d, s);
    }
  }

  /** The largest state fits the low bits the stream carries it in. */
  lemma StateBound(c: Coder, v: nat)
    requires c.Valid() && c.State(v)
    ensures c.Log() <= 9 && v < 1024
  {
    if c.Built? {
      SizeBound(c.d.log);
    }
  }

  lemma BitsBound(c: Coder, v: nat, s: nat)
    requires c.Valid() && c.Codes(s) && c.State(v)
    ensures c.Bits(v, s) <= c.Log()
  {
    if c.Built? {
      ProbFits(c.d, s);
      NbBitsCut(c.d.log, c.d.Prob(s), v);
    }
  }

  // The table itself

  /** `SymbolTT`, `deltaNbBits` a 32-bit word. */
  datatype SymbolTT = SymbolTT(deltaFindState: int, deltaNbBits: nat)

  const WORD: nat := 0x1_0000_0000

  const MAX_SEQ: nat := 52

  function Transform(log: nat, total: nat, prob: nat): SymbolTT {
    if prob == 0 then SymbolTT(0, ((log + 1) * 65536 - Pow2(log)) % WORD)
    else if prob == 1 then SymbolTT(total - 1, (log * 65536 - Pow2(log)) % WORD)
    else
      var maxBitsOut := log - HighBit(prob - 1);
      var minStatePlus := if maxBitsOut < 0 then prob else Shl(prob, maxBitsOut);
      SymbolTT(total - prob, (maxBitsOut * 65536 - minStatePlus) % WORD)
  }

  /** `(state + deltaNbBits) >> 16`, wrapping. */
  function BitsOut(tt: SymbolTT, v: nat): nat { (v + tt.deltaNbBits) % WORD / 65536 }

  /** The three cases as one: `bits` shifted, less the least state that
      emits so many. */
  lemma TransformShape(log: nat, total: nat, p: nat)
    returns (bits: nat, least: nat)
    requires 5 <= log <= 9 && 1 <= p <= Pow2(log)
    ensures bits <= 9 && bits >= 1 && least == Shl(p, bits) && Pow2(log) <= least <= 1024
    ensures Transform(log, total, p) == SymbolTT(total - p, bits * 65536 - least)
    ensures forall v :: Pow2(log) <= v < 2 * Pow2(log) ==> NbBits(log, p, v) == if v >= least then bits else bits - 1
  {
    hide Pow2, Shl, HighBit;
    SizeBound(log);
    Pow2Zero();
    if p == 1 {
      ShlPow2(0, log);
      bits, least := log, Pow2(log);
    } else {
      MinState(log, p);
      bits := log - HighBit(p - 1);
      least := Shl(p, bits);
    }
  }

  lemma TransformBits(log: nat, total: nat, p: nat, v: nat)
    requires 5 <= log <= 9 && 1 <= p <= Pow2(log) <= v < 2 * Pow2(log)
    ensures BitsOut(Transform(log, total, p), v) == NbBits(log, p, v)
    ensures Transform(log, total, p).deltaFindState == total - p
  {
    var bits, least := TransformShape(log, total, p);
    SizeBound(log);
    ShiftedSum(SymbolTT(total - p, bits * 65536 - least), bits, least, v);
  }

  lemma ShiftedSum(tt: SymbolTT, bits: nat, least: nat, v: nat)
    requires 1 <= bits <= 9 && least <= 1024 && v < 1024 && tt.deltaNbBits == bits * 65536 - least
    ensures BitsOut(tt, v) == if v >= least then bits else bits - 1
  {
  }

  /** `(deltaNbBits + (1 << 15)) >> 16`, and the state it starts from. */
  function InitBits(tt: SymbolTT): nat { (tt.deltaNbBits + 32768) / 65536 }

  function InitBase(tt: SymbolTT): nat { (InitBits(tt) * 65536 - tt.deltaNbBits) % WORD }

  /** `FSE_initCState2`: the state whose number is the symbol's first. */
  lemma TransformInit(log: nat, total: nat, p: nat)
    requires 5 <= log <= 9 && 1 <= p <= Pow2(log)
    ensures var tt := Transform(log, total, p);
            Shr(InitBase(tt), InitBits(tt)) == p && tt.deltaFindState == total - p
  {
    var bits, least := TransformShape(log, total, p);
    SizeBound(log);
    InitShape(SymbolTT(total - p, bits * 65536 - least), bits, least);
    ShrLowUnique(p, 0, bits);
  }

  lemma InitShape(tt: SymbolTT, bits: nat, least: nat)
    requires 1 <= bits <= 9 && 1 <= least <= 1024 && tt.deltaNbBits == bits * 65536 - least
    ensures InitBits(tt) == bits && InitBase(tt) == least
  {
  }

  /** Where `FSE_encodeSymbol` looks its next state up: number `k` of `s`. */
  lemma NextSlot(d: Dist, s: nat, v: nat) returns (nb: nat, k: nat)
    requires d.Valid() && d.Prob(s) > 0 && d.Size() <= v < 2 * d.Size()
    ensures s < |d.norm| && d.Prob(s) <= d.Size()
    ensures nb == Built(d).Bits(v, s) == NbBits(d.log, d.Prob(s), v)
    ensures Shr(v, nb) == d.Prob(s) + k
    ensures k < Occ(Spread(d), s, d.Size()) && d.Start(s) + k < d.Size()
    ensures Built(d).Next(v, s) == d.Size() + Select(Spread(d), s, k, d.Size())
  {
    hide Coder.Next, Coder.Bits, NbBits, Spread, Shr, Pow2, Occ, Select, Dist.Start;
    ProbFits(d, s);
    nb := NbBits(d.log, d.Prob(s), v);
    NbBitsCut(d.log, d.Prob(s), v);
    k := Shr(v, nb) - d.Prob(s);
    StartMono(d, s, |d.norm|);
    BuiltMoves(d, v, s, nb);
  }

  /** The table as the coding loops borrow it. */
  datatype CTable = CTable(tableLog: nat, stateTable: seq<nat>, symbolTT: seq<SymbolTT>) {
    /** It does what the coder `c` says. */
    ghost predicate Implements(c: Coder) {
      && |stateTable| == 512 && |symbolTT| == MAX_SEQ + 1
      && c.Valid() && tableLog == c.Log()
      && (c.Built? ==>
        && |c.d.norm| <= MAX_SEQ + 1 && c.d.Size() <= 512
        && StatesOf(c.d, stateTable)
        && forall s :: 0 <= s < |c.d.norm| ==> symbolTT[s] == Transform(c.d.log, c.d.Start(s), c.d.Prob(s)))
      && (c.Rle? ==> stateTable[0] == 0 && forall s :: 0 <= s <= MAX_SEQ ==> symbolTT[s] == SymbolTT(0, 0))
    }

    /** The state that encodes `symbol` first. */
    function InitState(symbol: nat, ghost c: Coder): (v: nat)
      requires Implements(c) && c.Codes(symbol) && symbol <= MAX_SEQ
      ensures v == c.Init(symbol)
    {
      var stt := symbolTT[symbol];
      var shifted := Shr(InitBase(stt), InitBits(stt));
      assert 0 <= shifted + stt.deltaFindState < 512 && stateTable[shifted + stt.deltaFindState] == c.Init(symbol) by {
        if c.Built? {
          ProbFits(c.d, symbol);
          TransformInit(c.d.log, c.d.Start(symbol), c.d.Prob(symbol));
          StartMono(c.d, symbol + 1, |c.d.norm|);
          assert shifted + stt.deltaFindState == c.d.Start(symbol) + 0;
        } else {
          assert shifted == 0;
        }
      }
      stateTable[shifted + stt.deltaFindState]
    }

    /** The bits of state `v` to emit for `symbol`. */
    function NbBitsOut(v: nat, symbol: nat, ghost c: Coder): (nb: nat)
      requires Implements(c) && c.Codes(symbol) && symbol <= MAX_SEQ && c.State(v)
      ensures nb == c.Bits(v, symbol)
    {
      assert BitsOut(symbolTT[symbol], v) == c.Bits(v, symbol) by {
        if c.Built? {
          ProbFits(c.d, symbol);
          TransformBits(c.d.log, c.d.Start(symbol), c.d.Prob(symbol), v);
        }
      }
      BitsOut(symbolTT[symbol], v)
    }

    /** ... and the state after them. */
    function NextState(v: nat, symbol: nat, ghost c: Coder): (next: nat)
      requires Implements(c) && c.Codes(symbol) && symbol <= MAX_SEQ && c.State(v)
      ensures next == c.Next(v, symbol)
    {
      var stt := symbolTT[symbol];
      var idx := Shr(v, NbBitsOut(v, symbol, c)) + stt.deltaFindState;
      NextIndex(this, v, symbol, c);
      stateTable[idx]
    }
  }

  lemma NextIndex(t: CTable, v: nat, symbol: nat, c: Coder)
    requires t.Implements(c) && c.Codes(symbol) && symbol <= MAX_SEQ && c.State(v)
    ensures var idx := Shr(v, t.NbBitsOut(v, symbol, c)) + t.symbolTT[symbol].deltaFindState;
            0 <= idx < 512 && t.stateTable[idx] == c.Next(v, symbol)
  {
    hide NbBits, Spread, Occ, Select, Dist.Start, Pow2;
    if c.Built? {
      var nb, k := NextSlot(c.d, symbol, v);
      TransformBits(c.d.log, c.d.Start(symbol), c.d.Prob(symbol), v);
    } else {
      assert Shr(v, 0) == 0;
    }
  }

  /** Every state number of every symbol leads to its own cell. */
  ghost predicate StatesOf(d: Dist, table: seq<nat>)
    requires d.Valid() && d.Size() <= |table|
  {
    forall s: nat, k: nat :: s < |d.norm| && k < Occ(Spread(d), s, d.Size()) && d.Start(s) + k < d.Size() ==>
      table[d.Start(s) + k] == d.Size() + Select(Spread(d), s, k, d.Size())
  }

  class FseCTable {
    var tableLog: nat
    const stateTable: array<nat>
    const symbolTT: array<SymbolTT>
    var maxSymbol: nat

    ghost predicate Valid()
      reads this
    {
      stateTable.Length == 512 && symbolTT.Length == MAX_SEQ + 1
    }

    function Table(): CTable
      reads this, stateTable, symbolTT
    {
      CTable(tableLog, stateTable[..], symbolTT[..])
    }

    constructor ()
      ensures Valid() && fresh(stateTable) && fresh(symbolTT)
    {
      stateTable, symbolTT := new nat[512](_ => 0), new SymbolTT[MAX_SEQ + 1](_ => SymbolTT(0, 0));
      tableLog, maxSymbol := 0, 0;
    }

    /** `build_rle`. */
    method BuildRle(symbol: nat)
      requires Valid() && symbol <= MAX_SEQ
      modifies this, stateTable, symbolTT
      ensures Valid() && Table().Implements(Coder.Rle(symbol))
    {
      stateTable[0] := 0;
      forall s | 0 <= s < symbolTT.Length {
        symbolTT[s] := SymbolTT(0, 0);
      }
      tableLog, maxSymbol := 0, symbol;
    }

    /** `build`. */
    method Build(d: Dist)
      requires Valid() && d.Valid() && |d.norm| <= MAX_SEQ + 1
      modifies this, stateTable, symbolTT
      ensures Valid() && Table().Implements(Built(d))
    {
      SizeBound(d.log);
      var tableSymbol := new int[512](_ => 0);
      var high := LayLows(d, tableSymbol);
      SpreadSymbols(d, tableSymbol, high);
      var cumul := Cumulate(d);
      SpreadSlotted(d);
      NumberStates(tableSymbol[..d.Size()], cumul, stateTable, Starts(d)[..|d.norm|], Slots(d));
      ghost var states := stateTable[..];
      SlotsCover(d, states);
      Transforms(d, symbolTT);
      tableLog, maxSymbol := d.log, |d.norm| - 1;
      assert stateTable[..] == states;
    }
  }

  /** Every number of every symbol has its slot. */
  lemma SlotsCover(d: Dist, table: seq<nat>)
    requires d.Valid() && d.Size() <= |table|
    requires forall u :: 0 <= u < d.Size() ==> table[Slots(d)[u]] == d.Size() + u
    ensures StatesOf(d, table)
  {
    forall s: nat, k: nat | s < |d.norm| && k < Occ(Spread(d), s, d.Size()) && d.Start(s) + k < d.Size()
      ensures table[d.Start(s) + k] == d.Size() + Select(Spread(d), s, k, d.Size())
    {
      var u := Select(Spread(d), s, k, d.Size());
      assert Slots(d)[u] == d.Start(s) + k;
    }
  }

  /** The transform of every code; past the last symbol, that of a symbol
      without cells. */
  method Transforms(d: Dist, symbolTT: array<SymbolTT>)
    requires d.Valid() && |d.norm| <= symbolTT.Length
    modifies symbolTT
    ensures forall s :: 0 <= s < |d.norm| ==> symbolTT[s] == Transform(d.log, d.Start(s), d.Prob(s))
  {
    ghost var starts := Starts(d);
    var total, s := 0, 0;
    while s < symbolTT.Length
      invariant 0 <= s <= symbolTT.Length
      invariant total == starts[if s < |d.norm| then s else |d.norm|]
      invariant forall r :: 0 <= r < s && r < |d.norm| ==> symbolTT[r] == Transform(d.log, starts[r], d.Prob(r))
    {
      if s < |d.norm| {
        StartsStep(d, s);
      }
      var prob := d.Prob(s);
      symbolTT[s] := Transform(d.log, total, prob);
      total, s := total + prob, s + 1;
    }
  }

  /** Where `build` puts the state of cell `u`. */
  ghost function Slot(d: Dist, u: nat): (i: nat)
    requires d.Valid() && u < d.Size()
    ensures i < d.Size()
  {
    SpreadOwner(d, u);
    var s := Spread(d)[u];
    StartMono(d, s + 1, |d.norm|);
    d.Start(s) + Occ(Spread(d), s, u)
  }

  lemma SlotInjective(d: Dist, u: nat, v: nat)
    requires d.Valid() && u < v < d.Size()
    ensures Slot(d, u) != Slot(d, v)
  {
    SpreadOwner(d, u);
    SpreadOwner(d, v);
    var s, r := Spread(d)[u], Spread(d)[v];
    if s == r {
      OccMono(Spread(d), s, u, v);
    } else if s < r {
      StartMono(d, s, r);
    } else {
      StartMono(d, r, s);
    }
  }

  ghost function Slots(d: Dist): (t: seq<nat>)
    requires d.Valid()
    ensures |t| == d.Size() && forall u :: 0 <= u < |t| ==> t[u] == Slot(d, u)
  {
    seq(d.Size(), u requires 0 <= u < d.Size() => Slot(d, u))
  }

  /** Cell `u` goes to the next slot of its symbol, and to no other cell's. */
  ghost predicate Slotted(symbols: seq<int>, starts: seq<nat>, slots: seq<nat>) {
    && |symbols| == |slots|
    && (forall u {:trigger slots[u]} :: 0 <= u < |slots| ==>
         0 <= symbols[u] < |starts| && slots[u] == starts[symbols[u]] + Occ(symbols, symbols[u], u) < |slots|)
    && forall u, v :: 0 <= u < v < |slots| ==> slots[u] != slots[v]
  }

  lemma SpreadSlotted(d: Dist)
    requires d.Valid()
    ensures Slotted(Spread(d), Starts(d)[..|d.norm|], Slots(d))
  {
    SpreadFills(d);
    forall u, v | 0 <= u < v < d.Size() ensures Slot(d, u) != Slot(d, v) {
      SlotInjective(d, u, v);
    }
  }

  /** The state table sorted by symbol: each cell goes to its symbol's next slot. */
  method NumberStates(symbols: seq<int>, cumul: array<nat>, stateTable: array<nat>, ghost starts: seq<nat>,
                      ghost slots: seq<nat>)
    requires Slotted(symbols, starts, slots) && |symbols| <= stateTable.Length
    requires cumul != stateTable && cumul.Length >= |starts| && forall s :: 0 <= s < |starts| ==> cumul[s] == starts[s]
    modifies stateTable, cumul
    ensures forall u :: 0 <= u < |slots| ==> stateTable[slots[u]] == |symbols| + u
  {
    var u := 0;
    while u < |symbols|
      invariant 0 <= u <= |symbols|
      invariant forall s :: 0 <= s < |starts| ==> cumul[s] == starts[s] + Occ(symbols, s, u)
      invariant forall v :: 0 <= v < u ==> stateTable[slots[v]] == |symbols| + v
    {
      assert slots[u] < |slots|;
      var s := symbols[u];
      var idx := cumul[s];
      stateTable[idx] := |symbols| + u;
      cumul[s] := idx + 1;
      u := u + 1;
    }
  }

  method Cumulate(d: Dist) returns (cumul: array<nat>)
    requires d.Valid()
    ensures fresh(cumul) && cumul.Length == |d.norm| + 1
    ensures forall s :: 0 <= s < |d.norm| ==> cumul[s] == Starts(d)[s]
  {
    cumul := new nat[|d.norm| + 1](_ => 0);
    ghost var starts := Starts(d);
    var s := 0;
    while s < |d.norm|
      invariant 0 <= s <= |d.norm|
      invariant forall r :: 0 <= r <= s ==> cumul[r] == starts[r]
    {
      StartsStep(d, s);
      cumul[s + 1] := cumul[s] + Abs(d.norm[s]);
      s := s + 1;
    }
    cumul[|d.norm|] := d.Size() + 1;
  }
}
