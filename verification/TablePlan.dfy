/** Which tables a block decodes with: as the serial decoder's scratch carries
    them from block to block, and as the parallel decoder plans them ahead by
    the blocks that describe them. */
module TablePlan {
  import opened Options

  /** A decoding table, by whatever tells tables apart. */
  type Table = nat

  datatype Literals = RawLiterals | Described | Treeless

  datatype Mode = Predefined | Rle | FseCompressed | Repeat

  /** A compressed block's parts that concern tables: its literals and the
      bytes their tree description starts, whether it has sequences, their
      three modes, and the bytes the table descriptions start. */
  datatype Block = Block(literals: Literals, litSrc: seq<nat>, sequences: bool, modes: seq<Mode>, seqSrc: seq<nat>) {
    predicate Valid() { |modes| == 3 }
  }

  /** The table builders: a tree description, a table description and its
      length, an RLE code, a predefined table, or nothing if it is invalid. */
  datatype Builders = Builders(
    huf: seq<nat> -> Option<Table>,
    fse: (nat, seq<nat>) -> Option<(nat, Table)>,
    rle: (nat, nat) -> Option<Table>,
    predefined: nat -> Table)

  // The serial decoder

  /** The tables in use: Huffman, then LL, OF, ML. */
  datatype Scratch = Scratch(huf: Option<Table>, fse: seq<Option<Table>>) {
    predicate Valid() { |fse| == 3 }
  }

  /** `build_sequence_table`: the table, and the length of its description. */
  function BuildOne(bs: Builders, mode: Mode, src: seq<nat>, t: nat, inUse: Option<Table>): Option<(Table, nat)> {
    match mode
    case FseCompressed => (match bs.fse(t, src) case None => None case Some((n, x)) => if n <= |src| then Some((x, n)) else None)
    case Rle => if src == [] then None else (match bs.rle(t, src[0]) case None => None case Some(x) => Some((x, 1)))
    case Predefined => Some((bs.predefined(t), 0))
    case Repeat => (match inUse case None => None case Some(x) => Some((x, 0)))
  }

  /** The tables from `t` on, their descriptions from `used` on. */
  function BuildFrom(bs: Builders, b: Block, t: nat, used: nat, fse: seq<Option<Table>>): Option<seq<Option<Table>>>
    requires b.Valid() && t <= 3 && used <= |b.seqSrc| && |fse| == 3
    decreases 3 - t
  {
    if t == 3 then Some(fse)
    else
      match BuildOne(bs, b.modes[t], b.seqSrc[used..], t, fse[t])
      case None => None
      case Some((x, n)) => BuildFrom(bs, b, t + 1, used + n, fse[t := Some(x)])
  }

  /** `decompress_literals`: the table in use once the block's literals are
      decoded, as far as tables decide. */
  function HufAfter(bs: Builders, b: Block, huf: Option<Table>): Option<Option<Table>> {
    match b.literals
    case RawLiterals => Some(huf)
    case Described => (match bs.huf(b.litSrc) case None => None case Some(x) => Some(Some(x)))
    case Treeless => if huf == None then None else Some(huf)
  }

  /** One compressed block: the tables after it, which are those it decodes
      with; nothing if it fails. */
  function Serial(bs: Builders, b: Block, s: Scratch): Option<Scratch>
    requires b.Valid() && s.Valid()
  {
    match HufAfter(bs, b, s.huf)
    case None => None
    case Some(huf) =>
      if !b.sequences then Some(Scratch(huf, s.fse))
      else
        match BuildFrom(bs, b, 0, 0, s.fse)
        case None => None
        case Some(fse) => if |fse| == 3 then Some(Scratch(huf, fse)) else None
  }

  /** The first `n` blocks. */
  function SerialAll(bs: Builders, blocks: seq<Block>, n: nat, start: Scratch): (r: Option<Scratch>)
    requires n <= |blocks| && start.Valid() && forall i :: 0 <= i < |blocks| ==> blocks[i].Valid()
    ensures r.Some? ==> r.value.Valid()
  {
    if n == 0 then Some(start)
    else
      match SerialAll(bs, blocks, n - 1, start)
      case None => None
      case Some(s) => Serial(bs, blocks[n - 1], s)
  }

  // The plan

  /** Blocks decoded together, from the tables in use before them. */
  datatype Run = Run(blocks: seq<Block>, start: Scratch) {
    predicate Valid() { start.Valid() && forall i :: 0 <= i < |blocks| ==> blocks[i].Valid() }
  }

  ghost predicate AllValid(runs: seq<Run>) { forall r :: 0 <= r < |runs| ==> runs[r].Valid() }

  /** Who defined a table: a run's start, or a block of it. No name is given twice. */
  datatype Id = Start(run: nat) | Of(run: nat, i: nat)

  datatype Defs = Defs(huf: Option<Id>, fse: seq<Option<Id>>) {
    predicate Valid() { |fse| == 3 }
  }

  datatype Plan = Plan(huf: Option<Id>, fse: seq<Option<Id>>)

  function StartDefs(start: Scratch, run: nat): Defs
    requires start.Valid()
  {
    Defs(if start.huf == None then None else Some(Start(run)),
         seq(3, t requires 0 <= t < 3 => if start.fse[t] == None then None else Some(Start(run))))
  }

  /** `plan_compressed`: the tables block `i` uses, and those in use after it. */
  function PlanBlock(b: Block, run: nat, i: nat, defs: Defs): (r: Option<(Plan, Defs)>)
    requires b.Valid() && defs.Valid()
    ensures r.Some? ==> r.value.1.Valid()
  {
    var huf := if b.literals.Described? then Some(Of(run, i)) else defs.huf;
    if b.literals.Treeless? && huf == None then None
    else
      var fse := seq(3, t requires 0 <= t < 3 => if b.sequences && !b.modes[t].Repeat? then Some(Of(run, i)) else defs.fse[t]);
      if b.sequences && exists t :: 0 <= t < 3 && fse[t] == None then None
      else
        Some((Plan(if b.literals.RawLiterals? then None else huf, if b.sequences then fse else []), Defs(huf, fse)))
  }

  function PlanAll(blocks: seq<Block>, n: nat, start: Scratch, run: nat): (r: Option<Defs>)
    requires n <= |blocks| && start.Valid() && forall i :: 0 <= i < |blocks| ==> blocks[i].Valid()
    ensures r.Some? ==> r.value.Valid()
  {
    if n == 0 then Some(StartDefs(start, run))
    else
      match PlanAll(blocks, n - 1, start, run)
      case None => None
      case Some(defs) => (match PlanBlock(blocks[n - 1], run, n - 1, defs) case None => None case Some((_, after)) => Some(after))
  }

  // The tables the names stand for

  /** `build_table_from`: the length of the descriptions before table `t`'s. */
  function Skip(bs: Builders, b: Block, t: nat): (r: Option<nat>)
    requires b.Valid() && t <= 3
    ensures r.Some? ==> r.value <= |b.seqSrc|
  {
    if t == 0 then Some(0)
    else
      match Skip(bs, b, t - 1)
      case None => None
      case Some(used) =>
        match b.modes[t - 1]
        case FseCompressed =>
          (match bs.fse(t - 1, b.seqSrc[used..])
           case None => None
           case Some((n, _)) => if used + n <= |b.seqSrc| then Some(used + n) else None)
        case Rle => if used < |b.seqSrc| then Some(used + 1) else None
        case _ => Some(used)
  }

  /** The table `t` that block `b` describes. */
  function DescribedTable(bs: Builders, b: Block, t: nat): Option<Table>
    requires b.Valid() && t < 3
  {
    match Skip(bs, b, t)
    case None => None
    case Some(used) =>
      match BuildOne(bs, b.modes[t], b.seqSrc[used..], t, None)
      case None => None
      case Some((x, _)) => Some(x)
  }

  /** What a name stands for. */
  function HufOf(bs: Builders, runs: seq<Run>, id: Option<Id>): Option<Table> {
    match id
    case None => None
    case Some(Start(r)) => if r < |runs| then runs[r].start.huf else None
    case Some(Of(r, i)) => if r < |runs| && i < |runs[r].blocks| then bs.huf(runs[r].blocks[i].litSrc) else None
  }

  function FseOf(bs: Builders, runs: seq<Run>, t: nat, id: Option<Id>): Option<Table>
    requires t < 3 && AllValid(runs)
  {
    match id
    case None => None
    case Some(Start(r)) => if r < |runs| then runs[r].start.fse[t] else None
    case Some(Of(r, i)) => if r < |runs| && i < |runs[r].blocks| then DescribedTable(bs, runs[r].blocks[i], t) else None
  }

  /** The names, of run `r`, stand for the serial decoder's tables. */
  ghost predicate Names(bs: Builders, runs: seq<Run>, r: nat, defs: Defs, s: Scratch)
    requires AllValid(runs) && r < |runs|
  {
    && defs.Valid() && s.Valid() && HufOf(bs, runs, defs.huf) == s.huf
    && (defs.huf == None <==> s.huf == None) && (defs.huf == None ==> runs[r].start.huf == None)
    && (forall t :: 0 <= t < 3 ==> FseOf(bs, runs, t, defs.fse[t]) == s.fse[t])
    && (forall t :: 0 <= t < 3 ==> (defs.fse[t] == None <==> s.fse[t] == None) && (defs.fse[t] == None ==> runs[r].start.fse[t] == None))
  }

  /** The tables from `t` on are the described or the repeated ones. */
  ghost predicate BuiltFrom(bs: Builders, b: Block, t: nat, fse: seq<Option<Table>>, r: seq<Option<Table>>)
    requires b.Valid() && |fse| == 3
  {
    && |r| == 3 && (forall k: nat :: k < t && k < 3 ==> r[k] == fse[k])
    && forall k: nat :: t <= k < 3 ==> r[k].Some? && r[k] == if b.modes[k].Repeat? then fse[k] else DescribedTable(bs, b, k)
  }

  /** A build that starts where the skip ends makes the described table, and
      ends where the next skip does. */
  lemma DescribedAt(bs: Builders, b: Block, t: nat, used: nat)
    requires b.Valid() && t < 3 && used <= |b.seqSrc| && Skip(bs, b, t) == Some(used)
    ensures forall held :: BuildOne(bs, b.modes[t], b.seqSrc[used..], t, held).Some? ==>
              var (x, n) := BuildOne(bs, b.modes[t], b.seqSrc[used..], t, held).value;
              && (used + n <= |b.seqSrc| ==> Skip(bs, b, t + 1) == Some(used + n))
              && Some(x) == if b.modes[t].Repeat? then held else DescribedTable(bs, b, t)
  {
  }

  /** Where the serial build of table `t` starts is where the skip ends, and
      both build the same table there. */
  lemma {:induction false} BuildSkips(bs: Builders, b: Block, t: nat, used: nat, fse: seq<Option<Table>>)
    requires b.Valid() && t <= 3 && used <= |b.seqSrc| && |fse| == 3 && Skip(bs, b, t) == Some(used)
    requires BuildFrom(bs, b, t, used, fse).Some?
    ensures BuiltFrom(bs, b, t, fse, BuildFrom(bs, b, t, used, fse).value)
    decreases 3 - t
  {
    hide Skip, DescribedTable;
    if t < 3 {
      DescribedAt(bs, b, t, used);
      var Some((x, n)) := BuildOne(bs, b.modes[t], b.seqSrc[used..], t, fse[t]);
      BuildSkips(bs, b, t + 1, used + n, fse[t := Some(x)]);
    }
  }

  /** One block: planned if the serial decoder takes it, and the names then
      stand for its tables. */
  lemma PlanStep(bs: Builders, runs: seq<Run>, r: nat, i: nat, defs: Defs, s: Scratch)
    requires AllValid(runs) && r < |runs| && i < |runs[r].blocks|
    requires Names(bs, runs, r, defs, s) && Serial(bs, runs[r].blocks[i], s).Some?
    ensures PlanBlock(runs[r].blocks[i], r, i, defs).Some?
    ensures Names(bs, runs, r, PlanBlock(runs[r].blocks[i], r, i, defs).value.1, Serial(bs, runs[r].blocks[i], s).value)
  {
    var b := runs[r].blocks[i];
    if b.sequences {
      BuildSkips(bs, b, 0, 0, s.fse);
    }
  }

  /** The plan of a run names the tables the serial decoder carries. */
  lemma {:induction false} PlanIsSerial(bs: Builders, runs: seq<Run>, r: nat, n: nat)
    requires AllValid(runs) && r < |runs| && n <= |runs[r].blocks|
    requires SerialAll(bs, runs[r].blocks, n, runs[r].start).Some?
    ensures PlanAll(runs[r].blocks, n, runs[r].start, r).Some?
    ensures Names(bs, runs, r, PlanAll(runs[r].blocks, n, runs[r].start, r).value, SerialAll(bs, runs[r].blocks, n, runs[r].start).value)
  {
    if n > 0 {
      var run := runs[r];
      PlanIsSerial(bs, runs, r, n - 1);
      PlanStep(bs, runs, r, n - 1, PlanAll(run.blocks, n - 1, run.start, r).value, SerialAll(bs, run.blocks, n - 1, run.start).value);
    }
  }

  /** What cannot be planned, the serial decoder rejects. */
  lemma UnplannedRejected(bs: Builders, runs: seq<Run>, r: nat, i: nat, defs: Defs, s: Scratch)
    requires AllValid(runs) && r < |runs| && i < |runs[r].blocks|
    requires Names(bs, runs, r, defs, s) && PlanBlock(runs[r].blocks[i], r, i, defs).None?
    ensures Serial(bs, runs[r].blocks[i], s).None?
  {
    if Serial(bs, runs[r].blocks[i], s).Some? {
      PlanStep(bs, runs, r, i, defs, s);
    }
  }

  // The cells' caches

  /** A plan made for block `i` of run `r`, from names that stand for tables. */
  ghost predicate PlanFor(plan: Plan, b: Block, r: nat, i: nat) {
    && b.Valid()
    && (match b.literals
        case RawLiterals => plan.huf == None
        case Described => plan.huf == Some(Of(r, i))
        case Treeless => plan.huf.Some? && plan.huf != Some(Of(r, i)))
    && (plan.huf.Some? ==> plan.huf.value.run == r)
    && (b.sequences ==> |plan.fse| == 3)
    && (b.sequences ==> forall t :: 0 <= t < 3 ==> FseFor(plan.fse[t], b.modes[t], r, i))
  }

  predicate FseFor(id: Option<Id>, mode: Mode, r: nat, i: nat) {
    id.Some? && id.value.run == r && (id == Some(Of(r, i)) <==> !mode.Repeat?)
  }

  /** Names given before block `i` of run `r` are of its start or of earlier blocks of it. */
  ghost predicate Earlier(defs: Defs, r: nat, i: nat) {
    && defs.Valid() && defs.huf != Some(Of(r, i)) && (defs.huf.Some? ==> defs.huf.value.run == r)
    && forall t :: 0 <= t < 3 ==> defs.fse[t] != Some(Of(r, i)) && (defs.fse[t].Some? ==> defs.fse[t].value.run == r)
  }

  lemma PlansFor(b: Block, r: nat, i: nat, defs: Defs)
    requires b.Valid() && Earlier(defs, r, i) && PlanBlock(b, r, i, defs).Some?
    ensures PlanFor(PlanBlock(b, r, i, defs).value.0, b, r, i)
  {
  }

  lemma {:induction false} PlannedEarlier(blocks: seq<Block>, n: nat, start: Scratch, r: nat, i: nat)
    requires n <= i && n <= |blocks| && start.Valid() && (forall k :: 0 <= k < |blocks| ==> blocks[k].Valid())
    requires PlanAll(blocks, n, start, r).Some?
    ensures Earlier(PlanAll(blocks, n, start, r).value, r, i)
  {
    if n > 0 {
      PlannedEarlier(blocks, n - 1, start, r, i);
    }
  }

  /** The literals' table of a cell, tagged with who defined it. */
  class LitCell {
    var from: Option<Id>
    var table: Option<Table>

    ghost predicate Valid(bs: Builders, runs: seq<Run>)
      reads this
    {
      from.Some? ==> table.Some? && HufOf(bs, runs, from) == table
    }

    constructor ()
      ensures forall bs, runs :: Valid(bs, runs)
    {
      from, table := None, None;
    }

    /** The cell goes on into the next run as it is. */
    lemma Survives(bs: Builders, runs: seq<Run>, next: Run)
      requires Valid(bs, runs)
      ensures Valid(bs, runs + [next])
    {
    }

    /** `decode_literals`: whatever the cell holds from this run or an earlier
        one, the block's literals are decoded with the table its plan names. */
    method DecodeLiterals(bs: Builders, runs: seq<Run>, r: nat, i: nat, plan: Plan, streamsOk: bool)
      returns (ok: bool, used: Option<Table>)
      requires Valid(bs, runs) && r < |runs| && i < |runs[r].blocks| && PlanFor(plan, runs[r].blocks[i], r, i)
      modifies this
      ensures Valid(bs, runs)
      ensures ok <==> streamsOk && (plan.huf.Some? ==> HufOf(bs, runs, plan.huf).Some?)
      ensures ok && plan.huf.Some? ==> used == HufOf(bs, runs, plan.huf)
    {
      var blocks := runs[r].blocks;
      used := None;
      if plan.huf.Some? {
        if plan.huf == Some(Of(r, i)) {
          from := None;
        } else if plan.huf == Some(Start(r)) {
          if from != plan.huf {
            table := runs[r].start.huf;
            from := if table.Some? then plan.huf else None;
          }
        } else if from != plan.huf {
          from := None;
          var d := plan.huf.value.i;
          if d >= |blocks| {
            return false, None;
          }
          table := bs.huf(blocks[d].litSrc);
          if table == None {
            return false, None;
          }
          from := plan.huf;
        }
      }
      if blocks[i].literals.Described? {
        table := bs.huf(blocks[i].litSrc);
      }
      if !blocks[i].literals.RawLiterals? {
        if table == None {
          return false, None;
        }
        used := table;
      }
      if !streamsOk {
        return false, used;
      }
      if plan.huf == Some(Of(r, i)) {
        from := plan.huf;
      }
      ok := true;
    }
  }

  lemma SkipNone(bs: Builders, b: Block)
    requires b.Valid()
    ensures Skip(bs, b, 0) == Some(0)
  {
  }

  lemma PlanForAt(plan: Plan, b: Block, r: nat, i: nat, t: nat)
    requires PlanFor(plan, b, r, i) && b.sequences && t < 3
    ensures |plan.fse| == 3 && FseFor(plan.fse[t], b.modes[t], r, i)
  {
  }

  lemma StartTable(bs: Builders, runs: seq<Run>, r: nat, t: nat)
    requires t < 3 && AllValid(runs) && r < |runs|
    ensures FseOf(bs, runs, t, Some(Start(r))) == runs[r].start.fse[t]
  {
  }

  /** The sequence tables of a cell, each tagged. */
  class SeqCell {
    const from: array<Option<Id>>
    const tables: array<Option<Table>>

    ghost predicate Valid(bs: Builders, runs: seq<Run>)
      requires AllValid(runs)
      reads this, from, tables
    {
      && from.Length == 3 && tables.Length == 3
      && forall t :: 0 <= t < 3 && from[t].Some? ==>
           !from[t].value.Start? && tables[t].Some? && FseOf(bs, runs, t, from[t]) == tables[t]
    }

    /** The cell goes on into the next run as it is. */
    lemma Survives(bs: Builders, runs: seq<Run>, next: Run)
      requires AllValid(runs) && next.Valid() && Valid(bs, runs)
      ensures AllValid(runs + [next]) && Valid(bs, runs + [next])
    {
    }

    constructor ()
      ensures from.Length == 3 && tables.Length == 3 && fresh(from) && fresh(tables)
      ensures forall t :: 0 <= t < 3 ==> from[t] == None
    {
      from := new Option<Id>[3](_ => None);
      tables := new Option<Table>[3](_ => None);
    }

    /** The tables of `decode_block_sequences`: whatever the cell holds from
        this run or an earlier one, those the block's plan names. */
    method BuildTables(bs: Builders, runs: seq<Run>, r: nat, i: nat, plan: Plan) returns (ok: bool, used: seq<Option<Table>>)
      requires AllValid(runs) && Valid(bs, runs) && r < |runs|
      requires i < |runs[r].blocks| && runs[r].blocks[i].sequences && PlanFor(plan, runs[r].blocks[i], r, i)
      modifies from, tables
      ensures Valid(bs, runs)
      ensures |plan.fse| == 3
      ensures ok <==> forall t :: 0 <= t < 3 ==> FseOf(bs, runs, t, plan.fse[t]).Some? || plan.fse[t] == Some(Start(r))
      ensures ok ==> |used| == 3 && forall t :: 0 <= t < 3 ==> used[t] == FseOf(bs, runs, t, plan.fse[t])
    {
      hide FseOf, Skip, Valid, PlanFor, BuildOne;
      var b := runs[r].blocks[i];
      used := [];
      SkipNone(bs, b);
      PlanForAt(plan, b, r, i, 0);
      var skipped, t := 0, 0;
      while t < 3
        invariant 0 <= t <= 3 && Valid(bs, runs) && skipped <= |b.seqSrc| && Skip(bs, b, t) == Some(skipped)
        invariant |used| == t && forall k :: 0 <= k < t ==> used[k] == FseOf(bs, runs, k, plan.fse[k])
        invariant forall k :: 0 <= k < t ==> used[k].Some? || plan.fse[k] == Some(Start(r))
      {
        var n;
        PlanForAt(plan, b, r, i, t);
        StartTable(bs, runs, r, t);
        ok, n := BuildTable(bs, runs, r, i, t, plan.fse[t], skipped);
        if !ok {
          return false, used;
        }
        skipped := skipped + n;
        used := used + [if plan.fse[t] == Some(Start(r)) then runs[r].start.fse[t] else tables[t]];
        t := t + 1;
      }
      ok := true;
    }

    /** Table `t`, from this block's description, the cell, or the block that
        described it. */
    method BuildTable(bs: Builders, runs: seq<Run>, r: nat, i: nat, t: nat, d: Option<Id>, skipped: nat) returns (ok: bool, n: nat)
      requires AllValid(runs) && Valid(bs, runs) && r < |runs| && i < |runs[r].blocks| && t < 3
      requires FseFor(d, runs[r].blocks[i].modes[t], r, i)
      requires skipped <= |runs[r].blocks[i].seqSrc| && Skip(bs, runs[r].blocks[i], t) == Some(skipped)
      modifies from, tables
      ensures Valid(bs, runs)
      ensures ok <==> FseOf(bs, runs, t, d).Some? || d == Some(Start(r))
      ensures ok ==> skipped + n <= |runs[r].blocks[i].seqSrc| && Skip(bs, runs[r].blocks[i], t + 1) == Some(skipped + n)
      ensures ok && d != Some(Start(r)) ==> tables[t] == FseOf(bs, runs, t, d)
    {
      var b := runs[r].blocks[i];
      n := 0;
      if d == Some(Of(r, i)) {
        from[t] := None;
        var built := BuildOne(bs, b.modes[t], b.seqSrc[skipped..], t, None);
        if built == None {
          return false, 0;
        }
        tables[t], n := Some(built.value.0), built.value.1;
        from[t] := d;
      } else if d != Some(Start(r)) && from[t] != d {
        from[t] := None;
        var x := FseOf(bs, runs, t, d);
        if x == None {
          return false, 0;
        }
        tables[t] := x;
        from[t] := d;
      }
      ok := true;
    }
  }

  /** With the tables the serial decoder carries into it, and whatever the
      caches hold, each block is decoded with the serial decoder's. */
  lemma PlannedTables(bs: Builders, runs: seq<Run>, r: nat, i: nat)
    requires AllValid(runs) && r < |runs| && i < |runs[r].blocks|
    requires SerialAll(bs, runs[r].blocks, i + 1, runs[r].start).Some?
    ensures var defs := PlanAll(runs[r].blocks, i, runs[r].start, r); defs.Some? && PlanBlock(runs[r].blocks[i], r, i, defs.value).Some?
    ensures var run := runs[r];
            var plan := PlanBlock(run.blocks[i], r, i, PlanAll(run.blocks, i, run.start, r).value).value.0;
            var after := SerialAll(bs, run.blocks, i + 1, run.start).value;
            && PlanFor(plan, run.blocks[i], r, i)
            && (plan.huf.Some? ==> HufOf(bs, runs, plan.huf) == after.huf && after.huf.Some?)
            && (run.blocks[i].sequences ==>
                  forall t :: 0 <= t < 3 ==> FseOf(bs, runs, t, plan.fse[t]) == after.fse[t] && after.fse[t].Some?)
  {
    var run := runs[r];
    var s := SerialAll(bs, run.blocks, i, run.start).value;
    PlanIsSerial(bs, runs, r, i);
    var defs := PlanAll(run.blocks, i, run.start, r).value;
    PlannedEarlier(run.blocks, i, run.start, r, i);
    PlanStep(bs, runs, r, i, defs, s);
    PlansFor(run.blocks[i], r, i, defs);
  }

  /** `sync_scratch`, after run `r`. */
  function Sync(bs: Builders, runs: seq<Run>, r: nat, defs: Defs): Scratch
    requires AllValid(runs) && r < |runs| && defs.Valid()
  {
    var start := runs[r].start;
    Scratch(if defs.huf.Some? && defs.huf != Some(Start(r)) then HufOf(bs, runs, defs.huf) else start.huf,
            seq(3, t requires 0 <= t < 3 =>
              if defs.fse[t].Some? && defs.fse[t] != Some(Start(r)) then FseOf(bs, runs, t, defs.fse[t]) else start.fse[t]))
  }

  /** Handing back to the serial decoder leaves what it would hold. */
  lemma SyncIsSerial(bs: Builders, runs: seq<Run>, r: nat, n: nat)
    requires AllValid(runs) && r < |runs| && n <= |runs[r].blocks|
    requires SerialAll(bs, runs[r].blocks, n, runs[r].start).Some?
    ensures PlanAll(runs[r].blocks, n, runs[r].start, r).Some?
    ensures Sync(bs, runs, r, PlanAll(runs[r].blocks, n, runs[r].start, r).value) == SerialAll(bs, runs[r].blocks, n, runs[r].start).value
  {
    PlanIsSerial(bs, runs, r, n);
  }
}
