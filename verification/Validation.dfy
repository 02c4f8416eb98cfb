/** The rules a block has to meet, and what they imply for the ledger and the money supply. */
module Validation {
  import opened Arithmetic
  import opened Primitives
  import opened Coins
  import opened Ledger
  import opened Supply
  import opened BlockTree
  import Target

  const MIN_TX_FEE: int := CENT
  const MIN_TXOUT_AMOUNT: int := MIN_TX_FEE
  const MAX_BLOCK_SIZE: nat := 1_000_000
  const COINBASE_MATURITY: int := 3000

  /** Script verification: output spent, spending transaction, input number. */
  type Verifier = (TxOut, Tx, nat) -> bool

  /** GetMinFee with its default arguments. */
  function MinFee(size: nat): (fee: int)
    ensures fee >= MIN_TX_FEE
  {
    var fee := (1 + size / 1000) * MIN_TX_FEE;
    if MoneyRange(fee) then fee else MAX_MONEY
  }

  /** The subsidy part of GetBlockValue; an invalid target mints nothing. */
  function Subsidy(bits: Target.Bits): nat {
    match Target.GetMint(bits)
    case Some(mint) => mint
    case None => 0
  }

  // ---------- Transactions ----------

  /** What CheckTransaction accepts. */
  ghost predicate TxChecks(tx: Tx) {
    && tx.vin != [] && tx.vout != [] && tx.size <= MAX_BLOCK_SIZE
    && (forall i :: 0 <= i < |tx.vout| ==> MIN_TXOUT_AMOUNT <= tx.vout[i].value)
    && ValueOut(tx.vout) <= MAX_MONEY
    && DistinctInputs(tx.vin)
    && (if tx.IsCoinBase() then 2 <= |tx.vin[0].scriptSig| <= 100
        else forall i :: 0 <= i < |tx.vin| ==> !tx.vin[i].prevout.IsNull())
  }

  /** Positive outputs: every prefix is worth at least each of its outputs and at most the whole. */
  lemma {:induction false} ValueOutGrows(vout: seq<TxOut>, i: nat)
    requires forall k :: 0 <= k < |vout| ==> 0 <= vout[k].value
    requires i <= |vout|
    ensures 0 <= ValueOut(vout[..i]) <= ValueOut(vout)
    ensures i > 0 ==> vout[i - 1].value <= ValueOut(vout)
  {
    if i < |vout| {
      var init := vout[..|vout| - 1];
      ValueOutGrows(init, i);
      assert init[..i] == vout[..i];
    } else if i > 0 {
      assert vout[..i] == vout;
      ValueOutGrows(vout[..i - 1], i - 1);
      assert vout[..i - 1][..i - 1] == vout[..i - 1];
    } else {
      assert vout[..i] == vout;
    }
  }

  method CheckTransaction(tx: Tx) returns (ok: bool)
    ensures ok <==> TxChecks(tx)
  {
    if |tx.vin| == 0 || |tx.vout| == 0 || tx.size > MAX_BLOCK_SIZE {
      return false;
    }
    var valueOut := 0;
    for i := 0 to |tx.vout|
      invariant valueOut == ValueOut(tx.vout[..i])
      invariant forall k :: 0 <= k < i ==> MIN_TXOUT_AMOUNT <= tx.vout[k].value
      invariant MoneyRange(valueOut)
    {
      if tx.vout[i].value < MIN_TXOUT_AMOUNT {
        return false;
      }
      assert tx.vout[..i + 1][..i] == tx.vout[..i];
      valueOut := valueOut + tx.vout[i].value;
      if tx.vout[i].value > MAX_MONEY || !MoneyRange(valueOut) {
        PrefixTooLarge(tx, i + 1);
        return false;
      }
    }
    assert tx.vout[..|tx.vout|] == tx.vout;
    var seen: set<OutPoint> := {};
    for i := 0 to |tx.vin|
      invariant seen == set k | 0 <= k < i :: tx.vin[k].prevout
      invariant forall j, k :: 0 <= j < k < i ==> tx.vin[j].prevout != tx.vin[k].prevout
    {
      if tx.vin[i].prevout in seen {
        return false;
      }
      seen := seen + {tx.vin[i].prevout};
    }
    if tx.IsCoinBase() {
      return 2 <= |tx.vin[0].scriptSig| <= 100;
    }
    for i := 0 to |tx.vin|
      invariant forall k :: 0 <= k < i ==> !tx.vin[k].prevout.IsNull()
    {
      if tx.vin[i].prevout.IsNull() {
        return false;
      }
    }
    return true;
  }

  lemma PrefixTooLarge(tx: Tx, i: nat)
    requires 0 < i <= |tx.vout|
    requires tx.vout[i - 1].value > MAX_MONEY || ValueOut(tx.vout[..i]) > MAX_MONEY
    ensures !TxChecks(tx)
  {
    if TxChecks(tx) {
      ValueOutGrows(tx.vout, i);
    }
  }

  lemma TxChecksImplyOutputs(tx: Tx)
    requires TxChecks(tx)
    ensures HasOutputs(tx) && DistinctInputs(tx.vin)
  {
  }

  // ---------- Inputs ----------

  /** One input passes the inexpensive checks of CheckInputs. */
  predicate InputOk(m: Utxo, out: OutPoint, height: int)
    requires Available(m, out)
  {
    && (m[out.hash].coinBase ==> height - m[out.hash].height >= COINBASE_MATURITY)
    && MoneyRange(OutputFor(m, out).value)
  }

  predicate InputValuesOk(m: Utxo, tx: Tx, height: int)
    requires HaveInputs(m, tx.vin)
  {
    && (forall i :: 0 <= i < |tx.vin| ==> InputOk(m, tx.vin[i].prevout, height))
    && ValueIn(m, tx.vin) <= MAX_MONEY
  }

  /** What CheckInputs accepts, for a transaction that is not a coinbase, in the block at the given height. */
  predicate InputsOk(m: Utxo, tx: Tx, height: int, verify: Verifier) {
    && HaveInputs(m, tx.vin)
    && InputValuesOk(m, tx, height)
    && MinFee(tx.size) <= ValueIn(m, tx.vin) - ValueOut(tx.vout) <= MAX_MONEY
    && (forall i :: 0 <= i < |tx.vin| ==> verify(OutputFor(m, tx.vin[i].prevout), tx, i))
  }

  lemma {:induction false} ValueInGrows(m: Utxo, vin: seq<TxIn>, i: nat)
    requires HaveInputs(m, vin) && i <= |vin|
    requires forall k :: 0 <= k < |vin| ==> 0 <= OutputFor(m, vin[k].prevout).value
    ensures 0 <= ValueIn(m, vin[..i]) <= ValueIn(m, vin)
    decreases |vin|
  {
    if i < |vin| {
      var init := vin[..|vin| - 1];
      ValueInGrows(m, init, i);
      assert init[..i] == vin[..i];
    } else if i > 0 {
      assert vin[..i] == vin;
      ValueInGrows(m, vin[..i - 1], i - 1);
      assert vin[..i - 1][..i - 1] == vin[..i - 1];
    } else {
      assert vin[..i] == vin;
    }
  }

  // ---------- Blocks ----------

  /** Fees of the transactions of a block, the coinbase excepted. */
  ghost function Fees(m: Utxo, txs: seq<Tx>, height: int): int
    requires InputsFound(m, txs, height)
  {
    if txs == [] then 0
    else
      var last := |txs| - 1;
      PrefixInputsFound(m, txs, height, last);
      Fees(m, txs[..last], height)
        + if txs[last].IsCoinBase() then 0
          else ValueIn(ApplyTxs(m, txs[..last], height), txs[last].vin) - ValueOut(txs[last].vout)
  }

  /** What the modelled part of CheckBlock accepts. */
  ghost predicate BlockChecks(txs: seq<Tx>) {
    && 0 < |txs| <= MAX_BLOCK_SIZE
    && CoinBaseFirst(txs)
    && (forall i :: 0 <= i < |txs| ==> TxChecks(txs[i]))
    && DistinctTxids(txs)
  }

  ghost predicate SpendOkAt(m: Utxo, txs: seq<Tx>, height: int, verify: Verifier, i: nat)
    requires i < |txs|
  {
    txs[i].IsCoinBase() || InputsOk(ApplyTxs(m, txs[..i], height), txs[i], height, verify)
  }

  ghost predicate SpendsOkUpTo(m: Utxo, txs: seq<Tx>, height: int, verify: Verifier, i: nat)
    requires i <= |txs|
  {
    i == 0 || (SpendsOkUpTo(m, txs, height, verify, i - 1) && SpendOkAt(m, txs, height, verify, i - 1))
  }

  ghost predicate SpendsOk(m: Utxo, txs: seq<Tx>, height: int, verify: Verifier) {
    SpendsOkUpTo(m, txs, height, verify, |txs|)
  }

  lemma {:induction false} SpendsOkAt(m: Utxo, txs: seq<Tx>, height: int, verify: Verifier, i: nat, n: nat)
    requires i < n <= |txs| && SpendsOkUpTo(m, txs, height, verify, n)
    ensures SpendOkAt(m, txs, height, verify, i)
  {
    if i < n - 1 {
      SpendsOkAt(m, txs, height, verify, i, n - 1);
    }
  }

  lemma SpendOkFindsInputs(m: Utxo, txs: seq<Tx>, height: int, verify: Verifier, i: nat)
    requires i < |txs| && SpendOkAt(m, txs, height, verify, i)
    ensures txs[i].IsCoinBase() || HaveInputs(ApplyTxs(m, txs[..i], height), txs[i].vin)
  {
  }

  lemma BlockChecksImplyOutputs(txs: seq<Tx>)
    requires BlockChecks(txs)
    ensures forall i :: 0 <= i < |txs| ==> HasOutputs(txs[i]) && DistinctInputs(txs[i].vin)
  {
    forall i | 0 <= i < |txs|
      ensures HasOutputs(txs[i]) && DistinctInputs(txs[i].vin)
    {
      TxChecksImplyOutputs(txs[i]);
    }
  }

  lemma SpendsFindInputs(m: Utxo, txs: seq<Tx>, height: int, verify: Verifier)
    requires SpendsOk(m, txs, height, verify)
    ensures InputsFound(m, txs, height)
  {
    forall i | 0 <= i < |txs| && !txs[i].IsCoinBase()
      ensures HaveInputs(ApplyTxs(m, txs[..i], height), txs[i].vin)
    {
      SpendsOkAt(m, txs, height, verify, i, |txs|);
    }
  }

  /** The coinbase takes no more than subsidy and fees allow. */
  ghost predicate CoinBaseOk(m: Utxo, block: Block, height: int)
    requires block.txs != [] && InputsFound(m, block.txs, height)
  {
    ValueOut(block.txs[0].vout)
      <= Subsidy(block.bits) + Fees(m, block.txs, height) - MinFee(block.txs[0].size) + MIN_TX_FEE
  }

  /** What ConnectBlock accepts on top of a ledger. */
  ghost predicate BlockOk(m: Utxo, block: Block, height: int, verify: Verifier) {
    && BlockChecks(block.txs)
    && NoOverwrite(m, block.txs)
    && SpendsOk(m, block.txs, height, verify)
    && (SpendsFindInputs(m, block.txs, height, verify); CoinBaseOk(m, block, height))
  }

  lemma BlockOkConnects(m: Utxo, txs: seq<Tx>, height: int, verify: Verifier)
    requires BlockChecks(txs) && NoOverwrite(m, txs) && SpendsOk(m, txs, height, verify)
    ensures Connects(m, txs, height)
  {
    SpendsFindInputs(m, txs, height, verify);
    BlockChecksImplyOutputs(txs);
  }

  /** Outputs less inputs of the whole block are the coinbase's outputs less the fees. */
  lemma {:induction false} NetValue(m: Utxo, txs: seq<Tx>, height: int)
    requires CoinBaseFirst(txs) && InputsFound(m, txs, height)
    ensures BlockValueOut(txs) - BlockValueIn(m, txs, height)
         == (if txs == [] then 0 else ValueOut(txs[0].vout)) - Fees(m, txs, height)
  {
    if txs != [] {
      var last := |txs| - 1;
      PrefixInputsFound(m, txs, height, last);
      NetValue(m, txs[..last], height);
      assert last > 0 ==> txs[..last][0] == txs[0];
    }
  }

  /** A connected block raises the money supply by at most the mint value of its target. */
  lemma SupplyBoundedByMint(m: Utxo, block: Block, height: int, verify: Verifier)
    requires WellFormed(m) && height != 0 && BlockOk(m, block, height, verify)
    ensures Total(ApplyTxs(m, block.txs, height)) <= Total(m) + Subsidy(block.bits)
  {
    BlockOkConnects(m, block.txs, height, verify);
    ConnectRaisesTotal(m, block.txs, height);
    NetValue(m, block.txs, height);
  }

  // ---------- What the rules amount to ----------

  /** A cent for every started thousand bytes, up to all the money there is. */
  lemma MinFeeMeans(size: nat)
    ensures MinFee(size)
              == if size < 200_000_000_000_000 then (1 + size / 1000) * 1_000_000 else 200_000_000_000_000_000
  {
  }

  /** The output that input i names is in the ledger, of a legal value, if from a coinbase then from 3000 blocks below,
      and passes the script check. */
  ghost predicate Spendable(m: Utxo, tx: Tx, height: int, verify: Verifier, i: nat)
    requires i < |tx.vin|
  {
    var out := tx.vin[i].prevout;
    && out.hash in m && out.n < |m[out.hash].vout|
    && 0 <= m[out.hash].vout[out.n].value <= 200_000_000_000_000_000
    && (m[out.hash].coinBase ==> height - m[out.hash].height >= 3000)
    && verify(m[out.hash].vout[out.n], tx, i)
  }

  /** A spend is accepted if and only if every output it names may be spent, and what goes in is legal and exceeds what
      comes out by the fee at least. */
  lemma SpendMeans(m: Utxo, tx: Tx, height: int, verify: Verifier)
    ensures InputsOk(m, tx, height, verify)
       <==> && (forall i :: 0 <= i < |tx.vin| ==> Spendable(m, tx, height, verify, i))
            && HaveInputs(m, tx.vin) && ValueIn(m, tx.vin) <= 200_000_000_000_000_000
            && MinFee(tx.size) <= ValueIn(m, tx.vin) - ValueOut(tx.vout) <= 200_000_000_000_000_000
  {
    hide MinFee, ValueIn, ValueOut;
    if HaveInputs(m, tx.vin) {
      forall i | 0 <= i < |tx.vin|
        ensures Spendable(m, tx, height, verify, i)
           <==> InputOk(m, tx.vin[i].prevout, height) && verify(OutputFor(m, tx.vin[i].prevout), tx, i)
      {
        assert Available(m, tx.vin[i].prevout);
      }
    }
  }

  /** The form of a transaction that CheckTransaction accepts. */
  lemma TxMeans(tx: Tx)
    ensures TxChecks(tx)
       <==> && |tx.vin| > 0 && |tx.vout| > 0 && tx.size <= 1_000_000
            && (forall i :: 0 <= i < |tx.vout| ==> tx.vout[i].value >= 1_000_000)
            && ValueOut(tx.vout) <= 200_000_000_000_000_000
            && (forall i, j :: 0 <= i < j < |tx.vin| ==> tx.vin[i].prevout != tx.vin[j].prevout)
            && (if |tx.vin| == 1 && tx.vin[0].prevout == OutPoint(0, 0xffff_ffff)
                then 2 <= |tx.vin[0].scriptSig| <= 100
                else forall i :: 0 <= i < |tx.vin| ==> tx.vin[i].prevout != OutPoint(0, 0xffff_ffff))
  {
    hide ValueOut;
    assert forall i :: 0 <= i < |tx.vin| ==>
             (tx.vin[i].prevout.IsNull() <==> tx.vin[i].prevout == OutPoint(0, 0xffff_ffff));
  }

  /** The mint value by the target: nothing below the least length, and else 999 coins over the square of the target,
      rounded down to the cent. */
  lemma SubsidyMeans(bits: Target.Bits)
    ensures bits < 0x600_0000 ==> Subsidy(bits) == 0
    ensures bits >= 0x600_0000 ==>
              && Target.GetMint(bits) == Some(Subsidy(bits)) && Subsidy(bits) % 1_000_000 == 0
              && Subsidy(bits) * bits * bits <= 99_900_000_000 * 0x1_0000_0000_0000
              && 99_900_000_000 * 0x1_0000_0000_0000 < (Subsidy(bits) + 1_000_001) * bits * bits
  {
    if bits >= 0x600_0000 {
      Target.MintIsInverseSquare(bits);
    }
  }

  /** A block that passes the other checks is accepted if and only if it raises the money supply by no more than the
      mint value, less a cent for every full thousand bytes of its coinbase. */
  lemma AcceptedByRise(m: Utxo, block: Block, height: int, verify: Verifier)
    requires WellFormed(m) && height != 0
    requires BlockChecks(block.txs) && NoOverwrite(m, block.txs) && SpendsOk(m, block.txs, height, verify)
    ensures BlockOk(m, block, height, verify)
       <==> Total(ApplyTxs(m, block.txs, height)) - Total(m)
            <= Subsidy(block.bits) - block.txs[0].size / 1000 * 1_000_000
  {
    BlockOkConnects(m, block.txs, height, verify);
    ConnectRaisesTotal(m, block.txs, height);
    NetValue(m, block.txs, height);
    CoinBaseIsSmall(block.txs);
    MinFeeMeans(block.txs[0].size);
    hide Subsidy, MinFee, Fees, InputsFound, NoOverwrite, SpendsOkUpTo;
  }

  lemma CoinBaseIsSmall(txs: seq<Tx>)
    requires BlockChecks(txs)
    ensures txs != [] && txs[0].size <= 1_000_000
  {
    assert TxChecks(txs[0]);
  }

  /** A block with nothing but a coinbase. */
  lemma CoinBaseOnly(m: Utxo, block: Block, height: int, verify: Verifier)
    requires |block.txs| == 1 && BlockChecks(block.txs) && NoOverwrite(m, block.txs)
    ensures BlockOk(m, block, height, verify)
       <==> ValueOut(block.txs[0].vout) <= Subsidy(block.bits) - block.txs[0].size / 1000 * 1_000_000
  {
    var txs := block.txs;
    assert txs[..0] == [] && txs[0].IsCoinBase();
    assert SpendsOkUpTo(m, txs, height, verify, 0);
    assert SpendsOk(m, txs, height, verify);
    SpendsFindInputs(m, txs, height, verify);
    assert Fees(m, txs, height) == 0;
    CoinBaseIsSmall(txs);
    MinFeeMeans(txs[0].size);
    hide Subsidy, MinFee;
  }

  /** The rise of the money supply by an accepted block, times the square of its target, is at most 999 coins times
      2^48. */
  lemma RiseIsInverseSquare(m: Utxo, block: Block, height: int, verify: Verifier)
    requires WellFormed(m) && height != 0 && BlockOk(m, block, height, verify)
    ensures var rise := Total(ApplyTxs(m, block.txs, height)) - Total(m);
            if block.bits < 0x600_0000 then rise <= 0
            else rise * block.bits * block.bits <= 99_900_000_000 * 0x1_0000_0000_0000
  {
    SupplyBoundedByMint(m, block, height, verify);
    SubsidyMeans(block.bits);
    hide BlockOk, Subsidy, Total, ApplyTxs;
    ScaleLe(Total(ApplyTxs(m, block.txs, height)) - Total(m), Subsidy(block.bits), block.bits);
  }

  // ---------- The rules see the live ledger only ----------

  lemma {:induction false} ValueInByLive(m: Utxo, m': Utxo, vin: seq<TxIn>)
    requires Live(m) == Live(m') && HaveInputs(m, vin)
    ensures HaveInputs(m', vin) && ValueIn(m', vin) == ValueIn(m, vin)
    ensures forall i :: 0 <= i < |vin| ==> m'[vin[i].prevout.hash] == m[vin[i].prevout.hash]
    decreases |vin|
  {
    hide Live;
    forall i | 0 <= i < |vin|
      ensures Available(m', vin[i].prevout) && m'[vin[i].prevout.hash] == m[vin[i].prevout.hash]
    {
      AvailableByLive(m, m', vin[i].prevout);
    }
    if vin != [] {
      ValueInByLive(m, m', vin[..|vin| - 1]);
    }
  }

  lemma InputsOkByLive(m: Utxo, m': Utxo, tx: Tx, height: int, verify: Verifier)
    requires Live(m) == Live(m') && InputsOk(m, tx, height, verify)
    ensures InputsOk(m', tx, height, verify)
  {
    hide Live, MinFee;
    ValueInByLive(m, m', tx.vin);
    forall i | 0 <= i < |tx.vin|
      ensures InputOk(m', tx.vin[i].prevout, height) && verify(OutputFor(m', tx.vin[i].prevout), tx, i)
    {
      assert InputOk(m, tx.vin[i].prevout, height) && verify(OutputFor(m, tx.vin[i].prevout), tx, i);
    }
  }

  lemma {:induction false} SpendsOkByLive(m: Utxo, m': Utxo, txs: seq<Tx>, height: int, verify: Verifier, i: nat)
    requires Live(m) == Live(m') && i <= |txs| && SpendsOkUpTo(m, txs, height, verify, i)
    ensures SpendsOkUpTo(m', txs, height, verify, i)
  {
    hide Live, InputsOk;
    if i > 0 {
      SpendsOkByLive(m, m', txs, height, verify, i - 1);
      assert SpendOkAt(m, txs, height, verify, i - 1);
      if !txs[i - 1].IsCoinBase() {
        ApplyTxsByLive(m, m', txs[..i - 1], height);
        InputsOkByLive(ApplyTxs(m, txs[..i - 1], height), ApplyTxs(m', txs[..i - 1], height), txs[i - 1], height,
                       verify);
      }
    }
  }

  lemma {:induction false} FeesByLive(m: Utxo, m': Utxo, txs: seq<Tx>, height: int)
    requires Live(m) == Live(m') && InputsFound(m, txs, height) && InputsFound(m', txs, height)
    ensures Fees(m', txs, height) == Fees(m, txs, height)
    decreases |txs|
  {
    hide Live;
    if txs != [] {
      var last := |txs| - 1;
      PrefixInputsFound(m, txs, height, last);
      PrefixInputsFound(m', txs, height, last);
      FeesByLive(m, m', txs[..last], height);
      if !txs[last].IsCoinBase() {
        ApplyTxsByLive(m, m', txs[..last], height);
        ValueInByLive(ApplyTxs(m, txs[..last], height), ApplyTxs(m', txs[..last], height), txs[last].vin);
      }
    }
  }

  /** Whether a block is acceptable depends only on the unspent outputs it is put on top of. */
  lemma BlockOkByLive(m: Utxo, m': Utxo, block: Block, height: int, verify: Verifier)
    requires Live(m) == Live(m') && BlockOk(m, block, height, verify)
    ensures BlockOk(m', block, height, verify)
  {
    hide Live, BlockChecks, SpendsOkUpTo, InputsFound, Fees;
    SpendsOkByLive(m, m', block.txs, height, verify, |block.txs|);
    SpendsFindInputs(m, block.txs, height, verify);
    SpendsFindInputs(m', block.txs, height, verify);
    FeesByLive(m, m', block.txs, height);
    assert block.txs != [] by {
      NotEmpty(block.txs);
    }
  }

  lemma NotEmpty(txs: seq<Tx>)
    requires BlockChecks(txs)
    ensures txs != []
  {
  }
}
