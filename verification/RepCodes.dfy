/** Repeat offsets (RFC 8878, section 3.1.1.5): the history as the encoder
    updates it and as the decoder does. */
module RepCodes {
  import opened Nums
  import opened SeqCodes

  const USIZE_MAX: nat := 0xFFFF_FFFF_FFFF_FFFF

  datatype Reps = Reps(r0: nat, r1: nat, r2: nat)

  /** `ZSTD_updateRep`; repeat code 3 needs a first offset above 0. */
  function UpdateRep(rep: Reps, offBase: nat, ll0: bool): Reps
    requires offBase >= 1 && (offBase == 3 && ll0 ==> rep.r0 >= 1)
  {
    if offBase > 3 then Reps(offBase - 3, rep.r0, rep.r1)
    else
      var repCode := offBase - 1 + if ll0 then 1 else 0;
      if repCode == 0 then rep
      else
        var current :=
          if repCode == 3 then rep.r0 - 1 else if repCode == 1 then rep.r1 else rep.r2;
        Reps(current, rep.r0, if repCode >= 2 then rep.r1 else rep.r2)
  }

  /** The offset part of `ZSTD_decodeSequence`: by the number of extra bits,
      a new offset, the first repeat offset, or the code-1 family. An offset
      of 0 becomes one that execution rejects. */
  function DecodeOffset(hist: Reps, ofBits: nat, ofBase: nat, extra: nat, ll0: bool): Reps {
    if ofBits > 1 then Reps(ofBase + extra, hist.r0, hist.r1)
    else if ofBits == 0 then
      if ll0 then Reps(hist.r1, hist.r0, hist.r2) else hist
    else
      var o := 1 + (if ll0 then 1 else 0) + extra;
      var temp :=
        if o == 3 then if hist.r0 == 0 then USIZE_MAX else hist.r0 - 1
        else if o == 1 then hist.r1 else hist.r2;
      Reps(if temp == 0 then USIZE_MAX else temp, hist.r0, if o != 1 then hist.r1 else hist.r2)
  }

  /** Both sides keep the same history, as long as it holds no zero. */
  lemma SidesAgree(rep: Reps, offBase: nat, ll0: bool)
    requires 1 <= offBase < 0x1_0000_0000 && rep.r0 >= 1
    requires UpdateRep(rep, offBase, ll0).r0 != 0
    ensures var c := OffCode(offBase);
            DecodeOffset(rep, OfBits(c), OfBase(c), Low(offBase, c), ll0) == UpdateRep(rep, offBase, ll0)
  {
    OffSplits(offBase);
    assert Pow2(0) == 1 && Pow2(1) == 2 && Pow2(2) == 4;
    if offBase >= 4 {
      HighBitRange(offBase, 2, HighBit(offBase) + 1);
    } else if offBase >= 2 {
      HighBitUnique(offBase, 1);
    }
  }
}
