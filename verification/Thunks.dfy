/** The enter and leave thunks: spill the registers, call the dispatcher, restore, go on. */
module Thunks {
  import opened Words
  import opened Encode

  // ---------- the code ----------

  const STP_FP_LR_PUSH: u32 := 0xA9BF_7BFD // STP X29, X30, [SP, #-16]!
  const LDP_FP_LR_POP: u32 := 0xA8C1_7BFD // LDP X29, X30, [SP], #16
  const SUB_SP_FRAME: u32 := 0xD104_03FF // SUB SP, SP, #0x100
  const ADD_SP_FRAME: u32 := 0x9104_03FF // ADD SP, SP, #0x100
  const STR_X30: u32 := 0xF900_7BFE // STR X30, [SP, #240]
  const LDR_X30: u32 := 0xF940_7BFE // LDR X30, [SP, #240]
  const MOV_X0_SP: u32 := 0x9100_03E0
  const MOV_X16_X30: u32 := 0xAA1E_03F0
  const STR_X16_LR_SLOT: u32 := 0xF900_07F0 // STR X16, [SP, #8]
  const RET_X30: u32 := 0xD65F_03C0

  /** STP or LDP of the pair (X2p, X2p+1) at [SP, #16p]. */
  function PairWord(p: nat, load: bool): u32
    requires p < 15
  {
    (if load then 0xA940_0000 else 0xA900_0000) + 2 * p * 0x8000 + (2 * p + 1) * 0x400 + 31 * 0x20 + 2 * p
  }

  function PairWords(p: nat, load: bool): (ws: seq<u32>)
    requires p <= 15
    ensures |ws| == 15 - p
    decreases 15 - p
  {
    if p == 15 then [] else [PairWord(p, load)] + PairWords(p + 1, load)
  }

  /** MOVZ W1, #id: only the low half of the hook id is passed. */
  function MovHookId(id: u32): u32 { 0x5280_0001 + id % 0x1_0000 * 0x20 }

  /** LDR X16, #12; BLR X16; B #12; target */
  function BlrAbs(target: u64): (ws: seq<u32>)
    ensures |ws| == 5
  {
    [0x5800_0070, 0xD63F_0200, 0x1400_0003, LowWord(target), HighWord(target)]
  }

  /** Up to and including the call of the dispatcher. */
  function SpillAndCall(id: u32, dispatch: u64): (ws: seq<u32>)
    ensures |ws| == 25
  {
    [STP_FP_LR_PUSH, SUB_SP_FRAME] + PairWords(0, false) + [STR_X30, MOV_X0_SP, MovHookId(id)] + BlrAbs(dispatch)
  }

  function Restore(): (ws: seq<u32>)
    ensures |ws| == 20
  {
    PairWords(0, true) + [LDR_X30, MOV_X16_X30, ADD_SP_FRAME, STR_X16_LR_SLOT, LDP_FP_LR_POP]
  }

  function EnterThunk(id: u32, dispatch: u64, relocated: u64, replaceMode: bool): (ws: seq<u32>)
    ensures |ws| == if replaceMode then 46 else 49
  {
    SpillAndCall(id, dispatch) + Restore() + (if replaceMode then [RET_X30] else EncodeAbsBranch(relocated))
  }

  function LeaveThunk(id: u32, dispatch: u64): (ws: seq<u32>)
    ensures |ws| == 46
  {
    SpillAndCall(id, dispatch) + Restore() + [RET_X30]
  }

  lemma {:induction false} PairWordsSnoc(p: nat, q: nat, load: bool)
    requires p <= q < 15
    ensures PairWords(p, load)[..q - p] + [PairWord(q, load)] == PairWords(p, load)[..q - p + 1]
    decreases 15 - p
  {
    hide PairWord;
    if p < q {
      PairWordsSnoc(p + 1, q, load);
      assert PairWords(p, load)[..q - p] == [PairWord(p, load)] + PairWords(p + 1, load)[..q - p - 1];
      assert PairWords(p, load)[..q - p + 1] == [PairWord(p, load)] + PairWords(p + 1, load)[..q - p];
    }
  }

  method AppendPairs(out: seq<u8>, load: bool) returns (r: seq<u8>)
    ensures r == out + Bytes(PairWords(0, load))
  {
    hide PairWord, PairWords, LE32, Bytes;
    r := out;
    ghost var all := PairWords(0, load);
    assert all[..0] == [];
    BytesSmall(0);
    var i := 0;
    while i < 30
      invariant 0 <= i <= 30 && i % 2 == 0
      invariant r == out + Bytes(all[..i / 2])
    {
      var p := i / 2;
      r := r + LE32(PairWord(p, load));
      PairWordsSnoc(0, p, load);
      BytesConcat(all[..p], [PairWord(p, load)]);
      BytesSmall(PairWord(p, load));
      i := i + 2;
      assert i / 2 == p + 1;
    }
    assert all[..15] == all;
  }

  method AppendSpillAndCall(id: u32, dispatch: u64) returns (r: seq<u8>)
    ensures r == Bytes(SpillAndCall(id, dispatch))
  {
    hide LE32, MovHookId, BlrAbs, PairWords;
    r := Bytes([STP_FP_LR_PUSH, SUB_SP_FRAME]);
    r := AppendPairs(r, false);
    r := r + Bytes([STR_X30, MOV_X0_SP, MovHookId(id)]);
    r := r + Bytes(BlrAbs(dispatch));
    BytesConcat([STP_FP_LR_PUSH, SUB_SP_FRAME], PairWords(0, false));
    BytesConcat([STP_FP_LR_PUSH, SUB_SP_FRAME] + PairWords(0, false), [STR_X30, MOV_X0_SP, MovHookId(id)]);
    BytesConcat([STP_FP_LR_PUSH, SUB_SP_FRAME] + PairWords(0, false) + [STR_X30, MOV_X0_SP, MovHookId(id)],
                BlrAbs(dispatch));
  }

  method AppendRestore(out: seq<u8>) returns (r: seq<u8>)
    ensures r == out + Bytes(Restore())
  {
    hide LE32, PairWords, Bytes;
    r := AppendPairs(out, true);
    r := r + Bytes([LDR_X30, MOV_X16_X30, ADD_SP_FRAME, STR_X16_LR_SLOT, LDP_FP_LR_POP]);
    BytesConcat(PairWords(0, true), [LDR_X30, MOV_X16_X30, ADD_SP_FRAME, STR_X16_LR_SLOT, LDP_FP_LR_POP]);
  }

  method BuildEnterThunk(id: u32, dispatch: u64, relocated: u64, replaceMode: bool) returns (out: seq<u8>)
    ensures out == Bytes(EnterThunk(id, dispatch, relocated, replaceMode))
  {
    hide SpillAndCall, Restore, EncodeAbsBranch, Bytes;
    out := AppendSpillAndCall(id, dispatch);
    out := AppendRestore(out);
    BytesConcat(SpillAndCall(id, dispatch), Restore());
    if replaceMode {
      out := out + Bytes([RET_X30]);
      BytesConcat(SpillAndCall(id, dispatch) + Restore(), [RET_X30]);
    } else {
      out := out + Bytes(EncodeAbsBranch(relocated));
      BytesConcat(SpillAndCall(id, dispatch) + Restore(), EncodeAbsBranch(relocated));
    }
  }

  method BuildLeaveThunk(id: u32, dispatch: u64) returns (out: seq<u8>)
    ensures out == Bytes(LeaveThunk(id, dispatch))
  {
    hide SpillAndCall, Restore, Bytes;
    out := AppendSpillAndCall(id, dispatch);
    out := AppendRestore(out);
    BytesConcat(SpillAndCall(id, dispatch), Restore());
    out := out + Bytes([RET_X30]);
    BytesConcat(SpillAndCall(id, dispatch) + Restore(), [RET_X30]);
  }
}
