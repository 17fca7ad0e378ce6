/**
 The default proposal handlers. The proposer verifies candidates on a state that also carries
 the effects of verified transactions it then leaves out; a per-signer sequence map makes up
 for that. The result below is that a validator on the same committed state always accepts.
 */
module Proposals {
  import opened Prelude

  type Address = string

  type Sequences = map<Address, U64>

  datatype Signer = Signer(address: Address, sequence: U64)

  /** `signers` is `None` when extracting them fails; `gas` is `None` for a tx without a gas limit. */
  datatype MemTx = MemTx(signers: Option<seq<Signer>>, gas: Option<U64>, wellFormed: bool, body: string)

  datatype Removal = Removed | NotFound | RemovalFailed

  /** `noOp`: there is no mempool, or one that does nothing. */
  datatype HandlerEnv = HandlerEnv(
    noOp: bool,
    encode: MemTx -> Option<Bytes>,
    decode: Bytes -> Option<MemTx>,
    remove: MemTx -> Removal)

  /** `x + 1` and `x - 1` on `uint64`. */
  function Succ(x: U64): (r: U64) {
    if x == MAX_U64 then 0 else x + 1
  }

  function Pred(x: U64): (r: U64)
    ensures Succ(r) == x
  {
    if x == 0 then MAX_U64 else x - 1
  }

  // ---------------------------------------------------------------- the ante handler

  predicate Distinct(signers: seq<Signer>) {
    forall i, j :: 0 <= i < j < |signers| ==> signers[i].address != signers[j].address
  }

  function Addresses(signers: seq<Signer>): (r: set<Address>) {
    set i | 0 <= i < |signers| :: signers[i].address
  }

  /** SigVerification: the checks that do not depend on the state, then every signer's sequence. */
  predicate Verifies(state: Sequences, tx: MemTx) {
    && tx.wellFormed && tx.signers.Some? && Distinct(tx.signers.value)
    && (forall i :: 0 <= i < |tx.signers.value| ==>
          var s := tx.signers.value[i]; s.address in state && state[s.address] == s.sequence)
  }

  /** IncrementSequence: every signer's sequence goes up by one. */
  function Bumped(state: Sequences, signers: seq<Signer>): (r: Sequences)
    ensures r.Keys == state.Keys
  {
    map a | a in state :: if a in Addresses(signers) then Succ(state[a]) else state[a]
  }

  // ---------------------------------------------------------------- ProcessProposal

  function GasLimit(tx: MemTx): (g: U64) {
    if tx.gas.Some? then tx.gas.value else 0
  }

  /** A validator's state while it walks through a proposal: sequences and total gas, modulo 2^64. */
  datatype Walk = Walk(state: Sequences, gas: U64)

  function ProcessOne(env: HandlerEnv, maxGas: int, w: Walk, raw: Bytes): (r: Option<Walk>) {
    var tx := env.decode(raw);
    if tx.None? || !Verifies(w.state, tx.value) then None
    else
      var state := Bumped(w.state, tx.value.signers.value);
      if maxGas <= 0 then Some(Walk(state, w.gas))
      else
        var gas := ToU64(w.gas + GasLimit(tx.value));
        if gas > maxGas then None else Some(Walk(state, gas))
  }

  /** Where the walk ends, or `None` if some transaction is refused. */
  function Processed(env: HandlerEnv, maxGas: int, w: Walk, txs: seq<Bytes>): (r: Option<Walk>) {
    if txs == [] then Some(w)
    else
      var w' := Processed(env, maxGas, w, txs[..|txs| - 1]);
      if w'.None? then None else ProcessOne(env, maxGas, w'.value, txs[|txs| - 1])
  }

  lemma {:induction false} RefusedPrefix(env: HandlerEnv, maxGas: int, w: Walk, txs: seq<Bytes>, i: nat)
    requires i <= |txs| && Processed(env, maxGas, w, txs[..i]).None?
    ensures Processed(env, maxGas, w, txs).None?
    decreases |txs| - i
  {
    if i < |txs| {
      assert txs[..i + 1][..i] == txs[..i];
      RefusedPrefix(env, maxGas, w, txs, i + 1);
    } else {
      assert txs[..i] == txs;
    }
  }

  /** What a validator accepts: anything without a mempool, else what verifies in turn within the gas limit. */
  predicate Accepts(env: HandlerEnv, maxGas: int, committed: Sequences, txs: seq<Bytes>) {
    env.noOp || Processed(env, maxGas, Walk(committed, 0), txs).Some?
  }

  // ---------------------------------------------------------------- the transaction selector

  datatype Selection = Selection(bytes: U64, gas: U64, txs: seq<Bytes>)

  const NOTHING_SELECTED: Selection := Selection(0, 0, [])

  function Select(sel: Selection, maxBytes: U64, maxGas: U64, gas: U64, raw: Bytes): (r: Selection) {
    var size := ToU64(|raw|);
    if ToU64(size + sel.bytes) > maxBytes then sel
    else if maxGas == 0 then Selection(ToU64(size + sel.bytes), sel.gas, sel.txs + [raw])
    else if ToU64(gas + sel.gas) > maxGas then sel
    else Selection(ToU64(size + sel.bytes), ToU64(gas + sel.gas), sel.txs + [raw])
  }

  predicate Full(sel: Selection, maxBytes: U64, maxGas: U64) {
    sel.bytes >= maxBytes || (maxGas > 0 && sel.gas >= maxGas)
  }

  class DefaultTxSelector {
    var totalTxBytes: U64
    var totalTxGas: U64
    var selectedTxs: seq<Bytes>

    function Abs(): (s: Selection)
      reads this
    {
      Selection(totalTxBytes, totalTxGas, selectedTxs)
    }

    constructor ()
      ensures Abs() == NOTHING_SELECTED
    {
      totalTxBytes, totalTxGas, selectedTxs := 0, 0, [];
    }

    method Clear()
      modifies this
      ensures Abs() == NOTHING_SELECTED
    {
      totalTxBytes, totalTxGas, selectedTxs := 0, 0, [];
    }

    method SelectTxForProposal(maxTxBytes: U64, maxBlockGas: U64, tx: MemTx, raw: Bytes) returns (stop: bool)
      modifies this
      ensures Abs() == Select(old(Abs()), maxTxBytes, maxBlockGas, GasLimit(tx), raw)
      ensures stop == Full(Abs(), maxTxBytes, maxBlockGas)
      ensures
        var gas := if tx.gas.Some? then tx.gas.value else 0;
        var fits := old(totalTxBytes) + |raw| <= maxTxBytes && (maxBlockGas > 0 ==> old(totalTxGas) + gas <= maxBlockGas);
        old(totalTxBytes) + |raw| < TWO_64 && old(totalTxGas) + gas < TWO_64 ==>
          && selectedTxs == old(selectedTxs) + (if fits then [raw] else [])
          && totalTxBytes == old(totalTxBytes) + (if fits then |raw| else 0)
          && totalTxGas == old(totalTxGas) + (if fits && maxBlockGas > 0 then gas else 0)
      ensures stop <==> totalTxBytes >= maxTxBytes || (maxBlockGas > 0 && totalTxGas >= maxBlockGas)
    {
      var txSize := ToU64(|raw|);
      var txGasLimit := if tx.gas.Some? then tx.gas.value else 0;
      if ToU64(txSize + totalTxBytes) <= maxTxBytes {
        if maxBlockGas > 0 {
          if ToU64(txGasLimit + totalTxGas) <= maxBlockGas {
            totalTxGas := ToU64(totalTxGas + txGasLimit);
            totalTxBytes := ToU64(totalTxBytes + txSize);
            selectedTxs := selectedTxs + [raw];
          }
        } else {
          totalTxBytes := ToU64(totalTxBytes + txSize);
          selectedTxs := selectedTxs + [raw];
        }
      }
      stop := totalTxBytes >= maxTxBytes || (maxBlockGas > 0 && totalTxGas >= maxBlockGas);
    }
  }

  // ---------------------------------------------------------------- the sequence map

  /**
   The invariant that relates the prepare state, the state reached from the selected transactions
   alone, and the map: the map holds, for every signer it knows, one less than that signer's next
   sequence in the selected-only state; and signers it does not know are alike in both states.
   */
  predicate Related(prepared: Sequences, selected: Sequences, known: Sequences) {
    && prepared.Keys == selected.Keys
    && known.Keys <= selected.Keys
    && (forall a :: a in known ==> Succ(known[a]) == selected[a])
    && (forall a :: a in selected && a !in known ==> prepared[a] == selected[a])
  }

  /** Every signer the map knows continues its sequence. */
  predicate Continues(known: Sequences, signers: seq<Signer>) {
    forall i :: 0 <= i < |signers| && signers[i].address in known ==>
      Succ(known[signers[i].address]) == signers[i].sequence
  }

  lemma AddressesOfLast(signers: seq<Signer>)
    requires signers != []
    ensures Addresses(signers) == Addresses(signers[..|signers| - 1]) + {signers[|signers| - 1].address}
  {
    var n := |signers| - 1;
    forall i | 0 <= i < |signers|
      ensures signers[i].address in Addresses(signers[..n]) + {signers[n].address}
    {
      if i < n {
        assert signers[..n][i] == signers[i];
      }
    }
    forall i | 0 <= i < n
      ensures signers[..n][i].address in Addresses(signers)
    {
      assert signers[..n][i] == signers[i];
    }
  }

  /** The map from signer to sequence that the handler builds for one transaction. */
  function SignerSeqs(signers: seq<Signer>): (m: Sequences)
    ensures m.Keys == Addresses(signers)
  {
    if signers == [] then map[]
    else
      var n := |signers| - 1;
      var rest := SignerSeqs(signers[..n]);
      assert Addresses(signers) == Addresses(signers[..n]) + {signers[n].address} by {
        AddressesOfLast(signers);
      }
      rest[signers[n].address := signers[n].sequence]
  }

  lemma {:induction false} SignerSeqsAt(signers: seq<Signer>, i: nat)
    requires Distinct(signers) && i < |signers|
    ensures signers[i].address in SignerSeqs(signers) && SignerSeqs(signers)[signers[i].address] == signers[i].sequence
  {
    var n := |signers| - 1;
    if i == n {
    } else {
      SignerSeqsAt(signers[..n], i);
    }
  }

  /** How the map changes after a verified transaction that was selected, or was not. */
  function Learn(known: Sequences, txSeqs: Sequences, added: bool): (r: Sequences) {
    map a | a in known.Keys + txSeqs.Keys ::
      if a in txSeqs && added then txSeqs[a]
      else if a in known then known[a]
      else Pred(txSeqs[a])
  }

  /** A transaction that verifies on the prepare state also verifies on the selected-only state. */
  lemma VerifiesWithoutTheRest(prepared: Sequences, selected: Sequences, known: Sequences, tx: MemTx)
    requires Related(prepared, selected, known) && Verifies(prepared, tx) && Continues(known, tx.signers.value)
    ensures Verifies(selected, tx)
  {
  }

  /** One signer of the invariant, after a verified transaction. */
  lemma SignerAfter(prepared: Sequences, selected: Sequences, known: Sequences, tx: MemTx, added: bool, a: Address)
    requires Related(prepared, selected, known) && Verifies(prepared, tx) && Continues(known, tx.signers.value)
    requires a in Addresses(tx.signers.value)
    ensures
      var known' := Learn(known, SignerSeqs(tx.signers.value), added);
      var selected' := if added then Bumped(selected, tx.signers.value) else selected;
      a in known' && a in selected' && Succ(known'[a]) == selected'[a]
  {
    var signers := tx.signers.value;
    var i :| 0 <= i < |signers| && signers[i].address == a;
    SignerSeqsAt(signers, i);
    hide SignerSeqs;
  }

  /** Nothing changes for an account that did not sign. */
  lemma OtherAfter(
    prepared: Sequences, selected: Sequences, known: Sequences, signers: seq<Signer>, added: bool, a: Address)
    requires Related(prepared, selected, known) && a !in Addresses(signers)
    ensures
      var known' := Learn(known, SignerSeqs(signers), added);
      && (a in known' <==> a in known)
      && (a in known ==> known'[a] == known[a])
      && (a in selected ==> Bumped(prepared, signers)[a] == prepared[a] && Bumped(selected, signers)[a] == selected[a])
  {
    hide SignerSeqs, Addresses;
  }

  /** The invariant survives a verified transaction, selected or not. */
  lemma RelatedAfter(prepared: Sequences, selected: Sequences, known: Sequences, tx: MemTx, added: bool)
    requires Related(prepared, selected, known) && Verifies(prepared, tx) && Continues(known, tx.signers.value)
    ensures
      var signers := tx.signers.value;
      Related(Bumped(prepared, signers), if added then Bumped(selected, signers) else selected,
              Learn(known, SignerSeqs(signers), added))
  {
    var signers := tx.signers.value;
    hide SignerSeqs, Addresses, Verifies, Continues, Succ, Learn, Bumped;
    var selected' := if added then Bumped(selected, signers) else selected;
    var known' := Learn(known, SignerSeqs(signers), added);
    forall a: Address
      ensures a in known' ==> a in selected' && Succ(known'[a]) == selected'[a]
      ensures a in selected' && a !in known' ==> Bumped(prepared, signers)[a] == selected'[a]
    {
      if a in Addresses(signers) {
        SignerAfter(prepared, selected, known, tx, added, a);
      } else {
        OtherAfter(prepared, selected, known, signers, added, a);
      }
    }
  }

  // ---------------------------------------------------------------- PrepareProposal

  predicate RoundTrips(env: HandlerEnv, candidates: seq<MemTx>) {
    forall i :: 0 <= i < |candidates| ==>
      var raw := env.encode(candidates[i]); raw.Some? ==> env.decode(raw.value) == Some(candidates[i])
  }

  function TotalBytes(txs: seq<Bytes>): (n: nat) {
    if txs == [] then 0 else TotalBytes(txs[..|txs| - 1]) + |txs[|txs| - 1]|
  }

  function TotalGas(env: HandlerEnv, txs: seq<Bytes>): (n: nat) {
    if txs == [] then 0
    else
      var tx := env.decode(txs[|txs| - 1]);
      TotalGas(env, txs[..|txs| - 1]) + if tx.Some? then GasLimit(tx.value) else 0
  }

  /** Sizes and gas limits below 2^63, where the handler's `uint64` sums cannot wrap. */
  predicate Small(env: HandlerEnv, maxTxBytes: U64, candidates: seq<MemTx>) {
    && maxTxBytes < TWO_63
    && (forall i :: 0 <= i < |candidates| ==>
          var raw := env.encode(candidates[i]);
          GasLimit(candidates[i]) < TWO_63 && (raw.Some? ==> |raw.value| < TWO_63))
  }

  predicate InBudget(env: HandlerEnv, sel: Selection, maxTxBytes: U64, maxGas: int) {
    && sel.bytes == TotalBytes(sel.txs) <= maxTxBytes
    && (maxGas > 0 ==> sel.gas == TotalGas(env, sel.txs) <= maxGas)
  }

  lemma SelectionInBudget(env: HandlerEnv, sel: Selection, maxTxBytes: U64, maxGas: int, tx: MemTx, raw: Bytes)
    requires maxTxBytes < TWO_63 && maxGas < TWO_63 && GasLimit(tx) < TWO_63 && |raw| < TWO_63
    requires env.decode(raw) == Some(tx) && InBudget(env, sel, maxTxBytes, maxGas)
    ensures InBudget(env, Select(sel, maxTxBytes, ToU64(maxGas), GasLimit(tx), raw), maxTxBytes, maxGas)
  {
    hide ToU64;
    var sel' := Select(sel, maxTxBytes, ToU64(maxGas), GasLimit(tx), raw);
    if sel'.txs != sel.txs {
      assert sel'.txs == sel.txs + [raw] && sel'.txs[..|sel'.txs| - 1] == sel.txs;
    }
  }

  /** The selector and the validator count gas alike. */
  lemma ProcessSelected(env: HandlerEnv, maxGas: int, sel: Selection, maxBytes: U64, tx: MemTx, raw: Bytes, w: Walk)
    requires -TWO_63 <= maxGas < TWO_63 && (maxGas > 0 ==> w.gas == sel.gas)
    requires env.decode(raw) == Some(tx) && Verifies(w.state, tx)
    requires Select(sel, maxBytes, ToU64(maxGas), GasLimit(tx), raw).txs == sel.txs + [raw]
    ensures
      var gas := Select(sel, maxBytes, ToU64(maxGas), GasLimit(tx), raw).gas;
      ProcessOne(env, maxGas, w, raw) ==
      Some(Walk(Bumped(w.state, tx.signers.value), if maxGas > 0 then gas else w.gas))
  {
    hide Verifies, Bumped, ToU64;
    if maxGas > 0 {
      assert ToU64(maxGas) == maxGas;
      assert GasLimit(tx) + sel.gas == w.gas + GasLimit(tx);
      assert sel.txs != sel.txs + [raw];
    }
  }

  /** Selecting a transaction keeps the proposal acceptable, provided it verifies on the selected-only state. */
  lemma SelectionAccepted(env: HandlerEnv, maxGas: int, start: Walk, sel: Selection, maxBytes: U64, tx: MemTx, raw: Bytes, state: Sequences)
    requires -TWO_63 <= maxGas < TWO_63
    requires Processed(env, maxGas, start, sel.txs) == Some(Walk(state, if maxGas > 0 then sel.gas else start.gas))
    requires env.decode(raw) == Some(tx) && Verifies(state, tx)
    ensures
      var sel' := Select(sel, maxBytes, ToU64(maxGas), GasLimit(tx), raw);
      var state' := if |sel'.txs| != |sel.txs| then Bumped(state, tx.signers.value) else state;
      Processed(env, maxGas, start, sel'.txs) == Some(Walk(state', if maxGas > 0 then sel'.gas else start.gas))
  {
    var sel' := Select(sel, maxBytes, ToU64(maxGas), GasLimit(tx), raw);
    var w := Walk(state, if maxGas > 0 then sel.gas else start.gas);
    hide Verifies, Bumped, ProcessOne;
    if |sel'.txs| != |sel.txs| {
      assert sel'.txs == sel.txs + [raw];
      ProcessSelected(env, maxGas, sel, maxBytes, tx, raw, w);
      hide Select;
      assert sel'.txs[..|sel'.txs| - 1] == sel.txs;
    } else {
      assert sel' == sel;
    }
  }

  lemma ContinuesOneMore(known: Sequences, signers: seq<Signer>, i: nat)
    requires i < |signers| && Continues(known, signers[..i])
    requires signers[i].address in known ==> Succ(known[signers[i].address]) == signers[i].sequence
    ensures Continues(known, signers[..i + 1])
  {
    hide Succ;
    var longer := signers[..i + 1];
    forall k | 0 <= k < i
      ensures longer[k] == signers[..i][k]
    {
    }
    assert longer[i] == signers[i];
  }

  /** The first loop over a candidate's signers: build its map, or find a signer that does not continue. */
  method CheckSigners(known: Sequences, signers: seq<Signer>) returns (shouldAdd: bool, txSeqs: Sequences)
    ensures shouldAdd <==> Continues(known, signers)
    ensures shouldAdd ==> txSeqs == SignerSeqs(signers)
  {
    txSeqs := map[];
    hide Succ, Addresses;
    for i := 0 to |signers|
      invariant Continues(known, signers[..i]) && txSeqs == SignerSeqs(signers[..i])
    {
      assert signers[..i + 1][..i] == signers[..i];
      var s := signers[i];
      if s.address in known && Succ(known[s.address]) != s.sequence {
        return false, txSeqs;
      }
      ContinuesOneMore(known, signers, i);
      txSeqs := txSeqs[s.address := s.sequence];
    }
    assert signers[..|signers|] == signers;
    shouldAdd := true;
  }

  lemma LearnOneMore(known: Sequences, txSeqs: Sequences, added: bool, todo: set<Address>, sender: Address)
    requires todo <= txSeqs.Keys && sender in todo
    ensures
      var r := Learn(known, txSeqs - todo, added);
      Learn(known, txSeqs - (todo - {sender}), added) ==
      (if added then r[sender := txSeqs[sender]]
       else if sender in r then r else r[sender := Pred(txSeqs[sender])])
  {
  }

  /** The second loop, over the candidate's map, in whatever order the map is iterated. */
  method UpdateKnown(known: Sequences, txSeqs: Sequences, added: bool) returns (r: Sequences)
    ensures r == Learn(known, txSeqs, added)
  {
    r := known;
    var todo := txSeqs.Keys;
    while todo != {}
      invariant todo <= txSeqs.Keys
      invariant r == Learn(known, txSeqs - todo, added)
      decreases |todo|
    {
      var sender :| sender in todo;
      if added {
        r := r[sender := txSeqs[sender]];
      } else if sender !in r {
        r := r[sender := Pred(txSeqs[sender])];
      }
      LearnOneMore(known, txSeqs, added, todo, sender);
      todo := todo - {sender};
    }
    assert txSeqs - todo == txSeqs;
  }

  // ---------------------------------------------------------------- the handler over a whole mempool

  /** The prepare state, the sequence map, the selection, whether it is full, and the transactions to remove. */
  datatype Prep = Prep(prepared: Sequences, known: Sequences, sel: Selection, stopped: bool, invalid: seq<MemTx>)

  datatype Limits = Limits(maxTxBytes: U64, maxGas: int)

  /** What one candidate does; `None` when its signers cannot be extracted. */
  function Consider(env: HandlerEnv, limits: Limits, p: Prep, tx: MemTx): (r: Option<Prep>) {
    if p.stopped then Some(p)
    else if tx.signers.None? then None
    else if !Continues(p.known, tx.signers.value) then Some(p)
    else
      var raw := env.encode(tx);
      if raw.None? || !Verifies(p.prepared, tx) then Some(p.(invalid := p.invalid + [tx]))
      else
        var sel := Select(p.sel, limits.maxTxBytes, ToU64(limits.maxGas), GasLimit(tx), raw.value);
        var stopped := Full(sel, limits.maxTxBytes, ToU64(limits.maxGas));
        Some(Prep(Bumped(p.prepared, tx.signers.value),
                  if stopped then p.known
                  else Learn(p.known, SignerSeqs(tx.signers.value), |sel.txs| != |p.sel.txs|),
                  sel, stopped, p.invalid))
  }

  function Considered(env: HandlerEnv, limits: Limits, committed: Sequences, candidates: seq<MemTx>): (r: Option<Prep>) {
    if candidates == [] then Some(Prep(committed, map[], NOTHING_SELECTED, false, []))
    else
      var n := |candidates| - 1;
      var before := Considered(env, limits, committed, candidates[..n]);
      if before.None? then None else Consider(env, limits, before.value, candidates[n])
  }

  predicate AllRemoved(env: HandlerEnv, txs: seq<MemTx>) {
    forall i :: 0 <= i < |txs| ==> !env.remove(txs[i]).RemovalFailed?
  }

  /** The proposal, or `None` for an error. */
  function Prepared(env: HandlerEnv, limits: Limits, committed: Sequences, candidates: seq<MemTx>): (r: Option<seq<Bytes>>) {
    var p := Considered(env, limits, committed, candidates);
    if p.None? || !AllRemoved(env, p.value.invalid) then None else Some(p.value.sel.txs)
  }

  /** The selected transactions alone lead a validator to `selected`, which the map describes. */
  predicate Sound(env: HandlerEnv, maxGas: int, committed: Sequences, p: Prep, selected: Sequences) {
    && (!p.stopped ==> Related(p.prepared, selected, p.known))
    && Processed(env, maxGas, Walk(committed, 0), p.sel.txs) == Some(Walk(selected, if maxGas > 0 then p.sel.gas else 0))
  }

  lemma ConsiderSound(env: HandlerEnv, limits: Limits, committed: Sequences, p: Prep, tx: MemTx, selected: Sequences)
    returns (selected': Sequences)
    requires -TWO_63 <= limits.maxGas < TWO_63 && Sound(env, limits.maxGas, committed, p, selected)
    requires env.encode(tx).Some? ==> env.decode(env.encode(tx).value) == Some(tx)
    requires Consider(env, limits, p, tx).Some?
    ensures Sound(env, limits.maxGas, committed, Consider(env, limits, p, tx).value, selected')
  {
    hide Select, Full, Learn, Bumped, SignerSeqs, Continues, Verifies, Related, Processed, ToU64, Addresses;
    selected' := selected;
    if !p.stopped && Continues(p.known, tx.signers.value) && env.encode(tx).Some? && Verifies(p.prepared, tx) {
      var raw, p' := env.encode(tx).value, Consider(env, limits, p, tx).value;
      var added := |p'.sel.txs| != |p.sel.txs|;
      VerifiesWithoutTheRest(p.prepared, selected, p.known, tx);
      SelectionAccepted(env, limits.maxGas, Walk(committed, 0), p.sel, limits.maxTxBytes, tx, raw, selected);
      RelatedAfter(p.prepared, selected, p.known, tx, added);
      selected' := if added then Bumped(selected, tx.signers.value) else selected;
    }
  }

  lemma {:induction false} ConsideredSound(env: HandlerEnv, limits: Limits, committed: Sequences, candidates: seq<MemTx>)
    returns (selected: Sequences)
    requires -TWO_63 <= limits.maxGas < TWO_63 && RoundTrips(env, candidates)
    requires Considered(env, limits, committed, candidates).Some?
    ensures Sound(env, limits.maxGas, committed, Considered(env, limits, committed, candidates).value, selected)
    decreases |candidates|
  {
    if candidates == [] {
      selected := committed;
    } else {
      hide Consider, Sound;
      var n := |candidates| - 1;
      selected := ConsideredSound(env, limits, committed, candidates[..n]);
      var before := Considered(env, limits, committed, candidates[..n]).value;
      selected := ConsiderSound(env, limits, committed, before, candidates[n], selected);
    }
  }

  lemma {:induction false} ConsideredInBudget(env: HandlerEnv, limits: Limits, committed: Sequences, candidates: seq<MemTx>)
    requires limits.maxGas < TWO_63 && RoundTrips(env, candidates) && Small(env, limits.maxTxBytes, candidates)
    requires Considered(env, limits, committed, candidates).Some?
    ensures InBudget(env, Considered(env, limits, committed, candidates).value.sel, limits.maxTxBytes, limits.maxGas)
    decreases |candidates|
  {
    if candidates == [] {
    } else {
      hide Select, Full, Learn, Bumped, SignerSeqs, Continues, Verifies, ToU64, Addresses, InBudget;
      var n := |candidates| - 1;
      ConsideredInBudget(env, limits, committed, candidates[..n]);
      var p, tx := Considered(env, limits, committed, candidates[..n]).value, candidates[n];
      if env.encode(tx).Some? {
        SelectionInBudget(env, p.sel, limits.maxTxBytes, limits.maxGas, tx, env.encode(tx).value);
      }
    }
  }

  /**
   Whatever the handler proposes, a validator on the same committed sequences accepts; and when no
   sum can wrap, the proposal stays within the byte and gas limits.
   */
  lemma ProposalAccepted(env: HandlerEnv, limits: Limits, committed: Sequences, candidates: seq<MemTx>)
    requires -TWO_63 <= limits.maxGas < TWO_63 && RoundTrips(env, candidates)
    requires Prepared(env, limits, committed, candidates).Some?
    ensures
      var txs := Prepared(env, limits, committed, candidates).value;
      && Processed(env, limits.maxGas, Walk(committed, 0), txs).Some?
      && (Small(env, limits.maxTxBytes, candidates) ==>
            && TotalBytes(txs) <= limits.maxTxBytes
            && (limits.maxGas > 0 ==> TotalGas(env, txs) <= limits.maxGas))
  {
    hide Considered, Processed, Related, RoundTrips, Small;
    var selected := ConsideredSound(env, limits, committed, candidates);
    if Small(env, limits.maxTxBytes, candidates) {
      ConsideredInBudget(env, limits, committed, candidates);
    }
  }

  /** After an error, or once the selection is full, later candidates change nothing. */
  lemma {:induction false} ConsideredEnds(env: HandlerEnv, limits: Limits, committed: Sequences, candidates: seq<MemTx>, i: nat)
    requires i <= |candidates|
    requires
      var p := Considered(env, limits, committed, candidates[..i]);
      p.None? || p.value.stopped
    ensures Considered(env, limits, committed, candidates) == Considered(env, limits, committed, candidates[..i])
    decreases |candidates|
  {
    if i == |candidates| {
      assert candidates[..i] == candidates;
    } else {
      hide Select, Full, Learn, Bumped, SignerSeqs, Continues, Verifies, ToU64;
      var n := |candidates| - 1;
      assert candidates[..n][..i] == candidates[..i];
      ConsideredEnds(env, limits, committed, candidates[..n], i);
    }
  }

  // ---------------------------------------------------------------- turn by turn, in exact sums

  /** Where the handler is between two candidates. */
  datatype Turn = Turn(prepared: Sequences, known: Sequences, chosen: seq<Bytes>, full: bool, invalid: seq<MemTx>)

  /** A gas total within the limit. A negative limit is converted to `uint64`, and the total wraps with it. */
  predicate GasRoom(maxGas: int, total: nat) {
    if maxGas > 0 then total <= maxGas else if maxGas == 0 then true else total % TWO_64 <= TWO_64 + maxGas
  }

  predicate GasFull(maxGas: int, total: nat) {
    if maxGas > 0 then total >= maxGas else if maxGas == 0 then false else total % TWO_64 >= TWO_64 + maxGas
  }

  /** There is room for `raw` after the chosen transactions. */
  predicate Room(env: HandlerEnv, limits: Limits, chosen: seq<Bytes>, gas: U64, raw: Bytes) {
    TotalBytes(chosen) + |raw| <= limits.maxTxBytes && GasRoom(limits.maxGas, TotalGas(env, chosen) + gas)
  }

  predicate FullBlock(env: HandlerEnv, limits: Limits, chosen: seq<Bytes>) {
    TotalBytes(chosen) >= limits.maxTxBytes || GasFull(limits.maxGas, TotalGas(env, chosen))
  }

  /** Every signer's sequence goes up by one, modulo 2^64, and no other. */
  predicate Incremented(signers: seq<Signer>, s: Sequences, s': Sequences) {
    && s'.Keys == s.Keys
    && (forall a :: a in s ==> s'[a] == if a in Addresses(signers) then (s[a] + 1) % TWO_64 else s[a])
  }

  /** The map now holds the signers' sequences, or, if nothing was added, one less for those it did not know. */
  predicate Learned(known: Sequences, signers: seq<Signer>, added: bool, known': Sequences) {
    && known'.Keys == known.Keys + Addresses(signers)
    && (forall a :: a in known && !(added && a in Addresses(signers)) ==> known'[a] == known[a])
    && (forall i :: 0 <= i < |signers| && added ==> known'[signers[i].address] == signers[i].sequence)
    && (forall i :: 0 <= i < |signers| && !added && signers[i].address !in known ==>
          known'[signers[i].address] == (signers[i].sequence + MAX_U64) % TWO_64)
  }

  /**
   The turn of one candidate. A full block takes nothing more. A candidate that does not continue the
   sequences the map knows is skipped; one that does not encode or verify is to be removed; any other
   is chosen exactly when there is room for it, and tells whether the block is now full.
   */
  predicate TurnOk(env: HandlerEnv, limits: Limits, tx: MemTx, a: Turn, b: Turn) {
    if a.full then b == a
    else
      && tx.signers.Some?
      && var signers := tx.signers.value;
         if exists i :: 0 <= i < |signers| && signers[i].address in a.known
                        && (a.known[signers[i].address] + 1) % TWO_64 != signers[i].sequence then
           b == a
         else if env.encode(tx).None? || !Verifies(a.prepared, tx) then
           b == a.(invalid := a.invalid + [tx])
         else
           var raw := env.encode(tx).value;
           var added := Room(env, limits, a.chosen, GasLimit(tx), raw);
           && b.chosen == (if added then a.chosen + [raw] else a.chosen)
           && b.full == FullBlock(env, limits, b.chosen)
           && b.invalid == a.invalid
           && Incremented(signers, a.prepared, b.prepared)
           && (!b.full ==> Learned(a.known, signers, added, b.known))
  }

  /**
   The proposal is what is chosen when every candidate has had its turn. It is an error instead when a
   candidate's signers cannot be extracted before the block is full, or a transaction to be removed
   cannot be removed.
   */
  predicate ChosenInTurn(
    env: HandlerEnv, limits: Limits, committed: Sequences, candidates: seq<MemTx>, turns: seq<Turn>, r: Option<seq<Bytes>>)
  {
    && 0 < |turns| <= |candidates| + 1 && turns[0] == Turn(committed, map[], [], false, [])
    && (forall i :: 0 <= i < |turns| - 1 ==> TurnOk(env, limits, candidates[i], turns[i], turns[i + 1]))
    && var last := turns[|turns| - 1];
       if |turns| <= |candidates| then
         !last.full && candidates[|turns| - 1].signers.None? && r.None?
       else if exists i :: 0 <= i < |last.invalid| && env.remove(last.invalid[i]).RemovalFailed? then r.None?
       else r == Some(last.chosen)
  }

  /** The selector's counters are the exact sums, or, for a negative gas limit, the sum modulo 2^64. */
  predicate Counts(env: HandlerEnv, limits: Limits, sel: Selection) {
    && sel.bytes == TotalBytes(sel.txs) <= limits.maxTxBytes
    && (limits.maxGas > 0 ==> sel.gas == TotalGas(env, sel.txs) <= limits.maxGas)
    && (limits.maxGas < 0 ==> sel.gas == TotalGas(env, sel.txs) % TWO_64)
  }

  lemma TotalsGrow(env: HandlerEnv, txs: seq<Bytes>, raw: Bytes)
    ensures TotalBytes(txs + [raw]) == TotalBytes(txs) + |raw|
    ensures TotalGas(env, txs + [raw]) ==
            TotalGas(env, txs) + if env.decode(raw).Some? then GasLimit(env.decode(raw).value) else 0
  {
    assert (txs + [raw])[..|txs|] == txs;
  }

  lemma ModAdd(a: nat, b: nat)
    ensures (a % TWO_64 + b) % TWO_64 == (a + b) % TWO_64
  {
    assert a == a / TWO_64 * TWO_64 + a % TWO_64;
  }

  /** The selector, whose sums are `uint64`, chooses by the exact sums. */
  lemma SelectExactly(env: HandlerEnv, limits: Limits, sel: Selection, tx: MemTx, raw: Bytes)
    requires limits.maxTxBytes < TWO_63 && -TWO_63 <= limits.maxGas < TWO_63 && GasLimit(tx) < TWO_63 && |raw| < TWO_63
    requires env.decode(raw) == Some(tx) && Counts(env, limits, sel)
    ensures
      var sel' := Select(sel, limits.maxTxBytes, ToU64(limits.maxGas), GasLimit(tx), raw);
      && sel'.txs == (if Room(env, limits, sel.txs, GasLimit(tx), raw) then sel.txs + [raw] else sel.txs)
      && Counts(env, limits, sel')
      && (Full(sel', limits.maxTxBytes, ToU64(limits.maxGas)) <==> FullBlock(env, limits, sel'.txs))
  {
    TotalsGrow(env, sel.txs, raw);
    ModAdd(TotalGas(env, sel.txs), GasLimit(tx));
    assert limits.maxGas < 0 ==> ToU64(limits.maxGas) == TWO_64 + limits.maxGas;
    hide TotalBytes, TotalGas;
  }

  lemma BumpedIs(s: Sequences, signers: seq<Signer>)
    ensures Incremented(signers, s, Bumped(s, signers))
  {
    hide Addresses;
  }

  lemma PredIs(x: U64)
    ensures Pred(x) == (x + MAX_U64) % TWO_64
  {
  }

  lemma LearnAt(known: Sequences, signers: seq<Signer>, added: bool, i: nat)
    requires Distinct(signers) && i < |signers|
    ensures
      var a, known' := signers[i].address, Learn(known, SignerSeqs(signers), added);
      && a in Addresses(signers) && a in known'
      && (added ==> known'[a] == signers[i].sequence)
      && (!added && a !in known ==> known'[a] == (signers[i].sequence + MAX_U64) % TWO_64)
  {
    hide SignerSeqs, Pred, Distinct, Addresses;
    SignerSeqsAt(signers, i);
    PredIs(signers[i].sequence);
    var txSeqs, a := SignerSeqs(signers), signers[i].address;
    assert Learn(known, txSeqs, added)[a] == if added then txSeqs[a] else if a in known then known[a] else Pred(txSeqs[a]);
  }

  lemma LearnIs(known: Sequences, signers: seq<Signer>, added: bool)
    requires Distinct(signers)
    ensures Learned(known, signers, added, Learn(known, SignerSeqs(signers), added))
  {
    var known' := Learn(known, SignerSeqs(signers), added);
    assert known'.Keys == known.Keys + Addresses(signers) by {
      hide SignerSeqs, Addresses, Pred;
    }
    assert forall a :: a in known && !(added && a in Addresses(signers)) ==> known'[a] == known[a] by {
      hide SignerSeqs, Addresses, Pred;
    }
    hide SignerSeqs, Learn, Addresses, Distinct;
    forall i | 0 <= i < |signers|
      ensures signers[i].address in known'
      ensures added ==> known'[signers[i].address] == signers[i].sequence
      ensures !added && signers[i].address !in known ==>
                known'[signers[i].address] == (signers[i].sequence + MAX_U64) % TWO_64
    {
      LearnAt(known, signers, added, i);
    }
  }

  lemma ContinuesIs(known: Sequences, signers: seq<Signer>)
    ensures !Continues(known, signers) <==>
            exists i :: 0 <= i < |signers| && signers[i].address in known
                        && (known[signers[i].address] + 1) % TWO_64 != signers[i].sequence
  {
  }

  function TurnOf(p: Prep): (t: Turn) {
    Turn(p.prepared, p.known, p.sel.txs, p.stopped, p.invalid)
  }

  lemma ConsiderIsTurn(env: HandlerEnv, limits: Limits, p: Prep, tx: MemTx)
    requires limits.maxTxBytes < TWO_63 && -TWO_63 <= limits.maxGas < TWO_63 && Counts(env, limits, p.sel)
    requires GasLimit(tx) < TWO_63
    requires env.encode(tx).Some? ==> |env.encode(tx).value| < TWO_63 && env.decode(env.encode(tx).value) == Some(tx)
    ensures
      var r := Consider(env, limits, p, tx);
      if r.None? then !p.stopped && tx.signers.None?
      else Counts(env, limits, r.value.sel) && TurnOk(env, limits, tx, TurnOf(p), TurnOf(r.value))
  {
    hide Select, Full, Learn, Bumped, SignerSeqs, ToU64, Addresses, Counts, Room, FullBlock, Incremented, Learned, Continues;
    if tx.signers.Some? {
      var signers := tx.signers.value;
      ContinuesIs(p.known, signers);
      BumpedIs(p.prepared, signers);
      if env.encode(tx).Some? {
        SelectExactly(env, limits, p.sel, tx, env.encode(tx).value);
      }
      if Distinct(signers) {
        LearnIs(p.known, signers, true);
        LearnIs(p.known, signers, false);
      }
    }
  }

  lemma {:induction false} ConsideredTurns(env: HandlerEnv, limits: Limits, committed: Sequences, candidates: seq<MemTx>)
    returns (turns: seq<Turn>)
    requires limits.maxTxBytes < TWO_63 && -TWO_63 <= limits.maxGas < TWO_63
    requires RoundTrips(env, candidates) && Small(env, limits.maxTxBytes, candidates)
    ensures
      var p := Considered(env, limits, committed, candidates);
      && 0 < |turns| <= |candidates| + 1 && turns[0] == Turn(committed, map[], [], false, [])
      && (forall i :: 0 <= i < |turns| - 1 ==> TurnOk(env, limits, candidates[i], turns[i], turns[i + 1]))
      && if p.None? then |turns| <= |candidates| && !turns[|turns| - 1].full && candidates[|turns| - 1].signers.None?
         else |turns| == |candidates| + 1 && turns[|candidates|] == TurnOf(p.value) && Counts(env, limits, p.value.sel)
    decreases |candidates|
  {
    hide Consider, TurnOk;
    if candidates == [] {
      turns := [Turn(committed, map[], [], false, [])];
    } else {
      var n := |candidates| - 1;
      turns := ConsideredTurns(env, limits, committed, candidates[..n]);
      var before := Considered(env, limits, committed, candidates[..n]);
      forall i | 0 <= i < |turns| - 1
        ensures TurnOk(env, limits, candidates[i], turns[i], turns[i + 1])
      {
        assert candidates[..n][i] == candidates[i];
      }
      if before.Some? {
        ConsiderIsTurn(env, limits, before.value, candidates[n]);
        var r := Consider(env, limits, before.value, candidates[n]);
        if r.Some? {
          turns := turns + [TurnOf(r.value)];
        }
      }
    }
  }

  /** The handler chooses in turn. */
  lemma PreparedInTurn(env: HandlerEnv, limits: Limits, committed: Sequences, candidates: seq<MemTx>)
    returns (turns: seq<Turn>)
    requires -TWO_63 <= limits.maxGas < TWO_63 && RoundTrips(env, candidates) && Small(env, limits.maxTxBytes, candidates)
    ensures ChosenInTurn(env, limits, committed, candidates, turns, Prepared(env, limits, committed, candidates))
  {
    hide Considered, TurnOk, RoundTrips, Counts;
    turns := ConsideredTurns(env, limits, committed, candidates);
  }

  /** What is chosen once stays chosen, in its place. */
  lemma {:induction false} ChosenStays(
    env: HandlerEnv, limits: Limits, committed: Sequences, candidates: seq<MemTx>, turns: seq<Turn>, r: Option<seq<Bytes>>, i: nat)
    requires ChosenInTurn(env, limits, committed, candidates, turns, r) && r.Some? && i < |turns|
    ensures |turns[i].chosen| <= |r.value| && r.value[..|turns[i].chosen|] == turns[i].chosen
    decreases |turns| - i
  {
    hide Room, FullBlock, Learned, Incremented, Verifies;
    if i == |turns| - 1 {
      assert r.value[..|r.value|] == r.value;
    } else {
      ChosenStays(env, limits, committed, candidates, turns, r, i + 1);
      assert TurnOk(env, limits, candidates[i], turns[i], turns[i + 1]);
      var n := |turns[i].chosen|;
      assert r.value[..n] == r.value[..|turns[i + 1].chosen|][..n];
    }
  }

  /**
   A transaction that verifies on the committed state and fits into an empty block is proposed when it
   comes first, unless the handler fails.
   */
  lemma FirstIsProposed(env: HandlerEnv, limits: Limits, committed: Sequences, candidates: seq<MemTx>)
    requires -TWO_63 <= limits.maxGas < TWO_63 && RoundTrips(env, candidates) && Small(env, limits.maxTxBytes, candidates)
    requires candidates != [] && Verifies(committed, candidates[0])
    requires
      var raw := env.encode(candidates[0]);
      raw.Some? && |raw.value| <= limits.maxTxBytes && (limits.maxGas > 0 ==> GasLimit(candidates[0]) <= limits.maxGas)
    requires Prepared(env, limits, committed, candidates).Some?
    ensures
      var txs := Prepared(env, limits, committed, candidates).value;
      txs != [] && Some(txs[0]) == env.encode(candidates[0])
  {
    var r, raw := Prepared(env, limits, committed, candidates), env.encode(candidates[0]).value;
    hide Prepared, RoundTrips, Learned, Incremented, FullBlock;
    var turns := PreparedInTurn(env, limits, committed, candidates);
    assert TurnOk(env, limits, candidates[0], turns[0], turns[1]);
    assert Room(env, limits, [], GasLimit(candidates[0]), raw);
    assert turns[1].chosen == [raw];
    ChosenStays(env, limits, committed, candidates, turns, r, 1);
    assert r.value[..1][0] == r.value[0];
  }

  // ---------------------------------------------------------------- without a mempool

  /** The requested transactions go through the selector until it is full; `None` when one does not decode. */
  function SelectRequested(env: HandlerEnv, limits: Limits, sel: Selection, txs: seq<Bytes>): (r: Option<Selection>)
    decreases |txs|
  {
    if txs == [] then Some(sel)
    else
      var tx := env.decode(txs[0]);
      if tx.None? then None
      else
        var sel' := Select(sel, limits.maxTxBytes, ToU64(limits.maxGas), GasLimit(tx.value), txs[0]);
        if Full(sel', limits.maxTxBytes, ToU64(limits.maxGas)) then Some(sel')
        else SelectRequested(env, limits, sel', txs[1..])
  }

  predicate SmallRequest(env: HandlerEnv, limits: Limits, txs: seq<Bytes>) {
    && limits.maxTxBytes < TWO_63
    && (forall i :: 0 <= i < |txs| ==>
          |txs[i]| < TWO_63 && (env.decode(txs[i]).Some? ==> GasLimit(env.decode(txs[i]).value) < TWO_63))
  }

  /** The limits hold without a mempool too. */
  lemma {:induction false} RequestedInBudget(env: HandlerEnv, limits: Limits, sel: Selection, txs: seq<Bytes>)
    requires limits.maxGas < TWO_63 && SmallRequest(env, limits, txs) && InBudget(env, sel, limits.maxTxBytes, limits.maxGas)
    requires SelectRequested(env, limits, sel, txs).Some?
    ensures InBudget(env, SelectRequested(env, limits, sel, txs).value, limits.maxTxBytes, limits.maxGas)
    decreases |txs|
  {
    if txs == [] {
    } else {
      hide Select, Full, InBudget, ToU64, GasLimit;
      var tx := env.decode(txs[0]).value;
      SelectionInBudget(env, sel, limits.maxTxBytes, limits.maxGas, tx, txs[0]);
      var sel' := Select(sel, limits.maxTxBytes, ToU64(limits.maxGas), GasLimit(tx), txs[0]);
      if !Full(sel', limits.maxTxBytes, ToU64(limits.maxGas)) {
        RequestedInBudget(env, limits, sel', txs[1..]);
      }
    }
  }

  /**
   Without a mempool the requested transactions have their turns until the block is full, each chosen
   exactly when there is room for it; one that does not decode before that is an error.
   */
  predicate RequestInTurn(
    env: HandlerEnv, limits: Limits, start: seq<Bytes>, requested: seq<Bytes>, turns: seq<seq<Bytes>>, r: Option<seq<Bytes>>)
  {
    && 0 < |turns| <= |requested| + 1 && turns[0] == start
    && (forall i :: 0 <= i < |turns| - 1 ==>
          && env.decode(requested[i]).Some? && (i > 0 ==> !FullBlock(env, limits, turns[i]))
          && var fits := Room(env, limits, turns[i], GasLimit(env.decode(requested[i]).value), requested[i]);
             turns[i + 1] == if fits then turns[i] + [requested[i]] else turns[i])
    && var k := |turns| - 1;
       if k == |requested| || (k > 0 && FullBlock(env, limits, turns[k])) then r == Some(turns[k])
       else env.decode(requested[k]).None? && r.None?
  }

  lemma {:induction false} RequestedTurns(env: HandlerEnv, limits: Limits, sel: Selection, txs: seq<Bytes>)
    returns (turns: seq<seq<Bytes>>)
    requires -TWO_63 <= limits.maxGas < TWO_63 && SmallRequest(env, limits, txs) && Counts(env, limits, sel)
    ensures
      var r := SelectRequested(env, limits, sel, txs);
      RequestInTurn(env, limits, sel.txs, txs, turns, if r.None? then None else Some(r.value.txs))
    decreases |txs|
  {
    hide Select, Full, Counts, ToU64, GasLimit, Room, FullBlock;
    if txs == [] || env.decode(txs[0]).None? {
      turns := [sel.txs];
    } else {
      var tx := env.decode(txs[0]).value;
      SelectExactly(env, limits, sel, tx, txs[0]);
      var sel' := Select(sel, limits.maxTxBytes, ToU64(limits.maxGas), GasLimit(tx), txs[0]);
      if Full(sel', limits.maxTxBytes, ToU64(limits.maxGas)) {
        turns := [sel.txs, sel'.txs];
      } else {
        var rest := RequestedTurns(env, limits, sel', txs[1..]);
        turns := [sel.txs] + rest;
        forall i | 0 < i < |turns| - 1
          ensures turns[i] == rest[i - 1] && txs[i] == txs[1..][i - 1]
        {
        }
      }
    }
  }

  lemma NothingInBudget(env: HandlerEnv, limits: Limits)
    ensures InBudget(env, NOTHING_SELECTED, limits.maxTxBytes, limits.maxGas) && Counts(env, limits, NOTHING_SELECTED)
  {
  }

  /** Limits, sizes and gas limits below 2^63, and candidates that decode to themselves. */
  predicate NoWrapping(env: HandlerEnv, limits: Limits, requested: seq<Bytes>, candidates: seq<MemTx>) {
    && -TWO_63 <= limits.maxGas < TWO_63
    && SmallRequest(env, limits, requested)
    && RoundTrips(env, candidates) && Small(env, limits.maxTxBytes, candidates)
  }

  /** The transactions of a proposal request, from the mempool or without one; `None` is an error. */
  function Proposed(
    env: HandlerEnv, limits: Limits, committed: Sequences, requested: seq<Bytes>, candidates: seq<MemTx>): (r: Option<seq<Bytes>>)
  {
    if env.noOp then
      var sel := SelectRequested(env, limits, NOTHING_SELECTED, requested);
      if sel.None? then None else Some(sel.value.txs)
    else Prepared(env, limits, committed, candidates)
  }

  // ---------------------------------------------------------------- what a validator accepts

  predicate ValidOn(env: HandlerEnv, raw: Bytes, s: Sequences, s': Sequences) {
    var tx := env.decode(raw);
    && tx.Some? && tx.value.signers.Some? && Verifies(s, tx.value)
    && Incremented(tx.value.signers.value, s, s')
  }

  /** The transactions decode and verify one after the other, each on the state its predecessors leave. */
  predicate ValidInTurn(env: HandlerEnv, committed: Sequences, txs: seq<Bytes>, states: seq<Sequences>) {
    && |states| == |txs| + 1 && states[0] == committed
    && forall i :: 0 <= i < |txs| ==> ValidOn(env, txs[i], states[i], states[i + 1])
  }

  /** And their gas limits add up to at most the maximum, if there is one. */
  ghost predicate Acceptable(env: HandlerEnv, maxGas: int, committed: Sequences, txs: seq<Bytes>) {
    && (maxGas > 0 ==> TotalGas(env, txs) <= maxGas)
    && exists states: seq<Sequences> :: ValidInTurn(env, committed, txs, states)
  }

  predicate SmallGas(env: HandlerEnv, txs: seq<Bytes>) {
    forall i :: 0 <= i < |txs| && env.decode(txs[i]).Some? ==> GasLimit(env.decode(txs[i]).value) < TWO_63
  }

  lemma IncrementedIs(signers: seq<Signer>, s: Sequences, s': Sequences)
    ensures Incremented(signers, s, s') <==> s' == Bumped(s, signers)
  {
    hide Addresses;
    BumpedIs(s, signers);
    if Incremented(signers, s, s') {
      assert forall a :: a in s ==> s'[a] == Bumped(s, signers)[a];
    }
  }

  /** One transaction of the walk: it is valid on the state, and its gas limit still fits. */
  lemma ProcessOneExactly(env: HandlerEnv, maxGas: int, w: Walk, raw: Bytes, s': Sequences, total: nat)
    requires maxGas < TWO_63 && (maxGas > 0 ==> w.gas == total <= maxGas)
    requires env.decode(raw).Some? ==> GasLimit(env.decode(raw).value) < TWO_63
    ensures
      var gas := total + if env.decode(raw).Some? then GasLimit(env.decode(raw).value) else 0;
      && (ValidOn(env, raw, w.state, s') && (maxGas > 0 ==> gas <= maxGas) ==>
            ProcessOne(env, maxGas, w, raw) == Some(Walk(s', if maxGas > 0 then gas else w.gas)))
      && (ProcessOne(env, maxGas, w, raw).Some? && ProcessOne(env, maxGas, w, raw).value.state == s' ==>
            && ValidOn(env, raw, w.state, s')
            && (maxGas > 0 ==> ProcessOne(env, maxGas, w, raw).value.gas == gas <= maxGas))
  {
    hide Bumped, Incremented, Distinct;
    if env.decode(raw).Some? && env.decode(raw).value.signers.Some? {
      IncrementedIs(env.decode(raw).value.signers.value, w.state, s');
    }
  }

  lemma {:induction false} AcceptedIsAcceptable(env: HandlerEnv, maxGas: int, committed: Sequences, txs: seq<Bytes>)
    returns (states: seq<Sequences>)
    requires maxGas < TWO_63 && SmallGas(env, txs) && Processed(env, maxGas, Walk(committed, 0), txs).Some?
    ensures ValidInTurn(env, committed, txs, states)
    ensures
      var w := Processed(env, maxGas, Walk(committed, 0), txs).value;
      states[|txs|] == w.state && (maxGas > 0 ==> w.gas == TotalGas(env, txs) <= maxGas)
    decreases |txs|
  {
    hide ValidOn, ProcessOne;
    if txs == [] {
      states := [committed];
    } else {
      var n := |txs| - 1;
      var before := AcceptedIsAcceptable(env, maxGas, committed, txs[..n]);
      var w0 := Processed(env, maxGas, Walk(committed, 0), txs[..n]).value;
      var w := Processed(env, maxGas, Walk(committed, 0), txs).value;
      states := before + [w.state];
      ProcessOneExactly(env, maxGas, w0, txs[n], w.state, TotalGas(env, txs[..n]));
      forall i | 0 <= i < n
        ensures ValidOn(env, txs[i], states[i], states[i + 1])
      {
        assert ValidOn(env, txs[..n][i], before[i], before[i + 1]);
      }
    }
  }

  lemma {:induction false} AcceptableIsAccepted(
    env: HandlerEnv, maxGas: int, committed: Sequences, txs: seq<Bytes>, states: seq<Sequences>)
    requires maxGas < TWO_63 && SmallGas(env, txs) && ValidInTurn(env, committed, txs, states)
    requires maxGas > 0 ==> TotalGas(env, txs) <= maxGas
    ensures Processed(env, maxGas, Walk(committed, 0), txs) ==
            Some(Walk(states[|txs|], if maxGas > 0 then TotalGas(env, txs) else 0))
    decreases |txs|
  {
    hide ValidOn, ProcessOne;
    if txs == [] {
    } else {
      var n := |txs| - 1;
      forall i | 0 <= i < n
        ensures ValidOn(env, txs[..n][i], states[..n + 1][i], states[..n + 1][i + 1])
      {
        assert ValidOn(env, txs[i], states[i], states[i + 1]);
      }
      AcceptableIsAccepted(env, maxGas, committed, txs[..n], states[..n + 1]);
      var w0 := Processed(env, maxGas, Walk(committed, 0), txs[..n]).value;
      ProcessOneExactly(env, maxGas, w0, txs[n], states[n + 1], TotalGas(env, txs[..n]));
    }
  }

  /**
   What a validator with a mempool accepts, exactly: transactions that verify in turn and whose gas
   limits stay within the maximum together.
   */
  lemma AcceptsExactly(env: HandlerEnv, maxGas: int, committed: Sequences, txs: seq<Bytes>)
    ensures maxGas < TWO_63 && SmallGas(env, txs) ==>
              (Accepts(env, maxGas, committed, txs) <==> env.noOp || Acceptable(env, maxGas, committed, txs))
  {
    hide Processed, ValidInTurn, TotalGas, SmallGas;
    if maxGas >= TWO_63 || !SmallGas(env, txs) {
      return;
    }
    if Processed(env, maxGas, Walk(committed, 0), txs).Some? {
      var states := AcceptedIsAcceptable(env, maxGas, committed, txs);
    }
    if Acceptable(env, maxGas, committed, txs) {
      var states: seq<Sequences> :| ValidInTurn(env, committed, txs, states);
      AcceptableIsAccepted(env, maxGas, committed, txs, states);
    }
  }

  // ---------------------------------------------------------------- the handler object

  /** The handler keeps one selector for all proposals and relies on finding it empty. */
  class DefaultProposalHandler {
    const env: HandlerEnv
    const selector: DefaultTxSelector

    ghost predicate Valid()
      reads selector
    {
      selector.Abs() == NOTHING_SELECTED
    }

    constructor (env: HandlerEnv)
      ensures this.env == env && fresh(selector) && Valid()
    {
      this.env := env;
      this.selector := new DefaultTxSelector();
    }

    /** `candidates` is the iteration order of the mempool. On every path the selector is left empty. */
    method PrepareProposal(limits: Limits, committed: Sequences, requested: seq<Bytes>, candidates: seq<MemTx>)
      returns (r: Option<seq<Bytes>>)
      requires Valid()
      modifies selector
      ensures Valid() && r == Proposed(env, limits, committed, requested, candidates)
      ensures r.Some? && -TWO_63 <= limits.maxGas < TWO_63 && RoundTrips(env, candidates) ==>
                Accepts(env, limits.maxGas, committed, r.value)
      ensures r.Some? && NoWrapping(env, limits, requested, candidates) ==>
                && TotalBytes(r.value) <= limits.maxTxBytes
                && (limits.maxGas > 0 ==> TotalGas(env, r.value) <= limits.maxGas)
      ensures !env.noOp && NoWrapping(env, limits, requested, candidates) ==>
                exists turns: seq<Turn> :: ChosenInTurn(env, limits, committed, candidates, turns, r)
      ensures env.noOp && NoWrapping(env, limits, requested, candidates) ==>
                exists turns: seq<seq<Bytes>> :: RequestInTurn(env, limits, [], requested, turns, r)
    {
      hide ChosenInTurn, RequestInTurn, Counts, Prepared, SelectRequested, RoundTrips, Processed, Small, SmallRequest, TotalBytes, TotalGas;
      if env.noOp {
        r := SelectFromRequest(limits, requested);
        if NoWrapping(env, limits, requested, candidates) {
          NothingInBudget(env, limits);
          ghost var turns := RequestedTurns(env, limits, NOTHING_SELECTED, requested);
          if r.Some? {
            RequestedInBudget(env, limits, NOTHING_SELECTED, requested);
          }
        }
      } else {
        r := SelectFromMempool(limits, committed, candidates);
        if r.Some? && -TWO_63 <= limits.maxGas < TWO_63 && RoundTrips(env, candidates) {
          ProposalAccepted(env, limits, committed, candidates);
        }
        if NoWrapping(env, limits, requested, candidates) {
          ghost var turns := PreparedInTurn(env, limits, committed, candidates);
        }
      }
      selector.Clear();
    }

    method SelectFromRequest(limits: Limits, requested: seq<Bytes>) returns (r: Option<seq<Bytes>>)
      requires Valid()
      modifies selector
      ensures
        var sel := SelectRequested(env, limits, NOTHING_SELECTED, requested);
        r == if sel.None? then None else Some(sel.value.txs)
    {
      hide Select, Full, ToU64, GasLimit;
      var stopped, i := false, 0;
      while i < |requested| && !stopped
        invariant i <= |requested|
        invariant SelectRequested(env, limits, NOTHING_SELECTED, requested) ==
                  if stopped then Some(selector.Abs()) else SelectRequested(env, limits, selector.Abs(), requested[i..])
        decreases |requested| - i
      {
        assert requested[i..][1..] == requested[i + 1..];
        var tx := env.decode(requested[i]);
        if tx.None? {
          return None;
        }
        stopped := selector.SelectTxForProposal(limits.maxTxBytes, ToU64(limits.maxGas), tx.value, requested[i]);
        i := i + 1;
      }
      r := Some(selector.selectedTxs);
    }

    method SelectFromMempool(limits: Limits, committed: Sequences, candidates: seq<MemTx>) returns (r: Option<seq<Bytes>>)
      requires Valid()
      modifies selector
      ensures r == Prepared(env, limits, committed, candidates)
    {
      hide Select, Full, Learn, Bumped, SignerSeqs, Continues, Verifies, ToU64, Addresses;
      var maxBlockGas := ToU64(limits.maxGas);
      var prepared: Sequences, known: Sequences := committed, map[];
      var selectedTxsNums := 0;
      var invalidTxs: seq<MemTx> := [];
      var i, going := 0, true;
      while i < |candidates| && going
        invariant i <= |candidates|
        invariant going ==> selectedTxsNums == |selector.selectedTxs|
        invariant Considered(env, limits, committed, candidates[..i]) ==
                  Some(Prep(prepared, known, selector.Abs(), !going, invalidTxs))
        decreases |candidates| - i
      {
        var memTx := candidates[i];
        assert candidates[..i + 1][..i] == candidates[..i];
        i := i + 1;
        if memTx.signers.None? {
          ConsideredEnds(env, limits, committed, candidates, i);
          return None;
        }
        var shouldAdd, txSeqs := CheckSigners(known, memTx.signers.value);
        if shouldAdd {
          var raw := env.encode(memTx);
          if raw.None? || !Verifies(prepared, memTx) {
            invalidTxs := invalidTxs + [memTx];
          } else {
            prepared := Bumped(prepared, memTx.signers.value);
            var stop := selector.SelectTxForProposal(limits.maxTxBytes, maxBlockGas, memTx, raw.value);
            if stop {
              going := false;
            } else {
              known := UpdateKnown(known, txSeqs, |selector.selectedTxs| != selectedTxsNums);
              selectedTxsNums := |selector.selectedTxs|;
            }
          }
        }
      }
      if going {
        assert candidates[..i] == candidates;
      } else {
        ConsideredEnds(env, limits, committed, candidates, i);
      }
      for k := 0 to |invalidTxs|
        invariant AllRemoved(env, invalidTxs[..k])
      {
        if env.remove(invalidTxs[k]).RemovalFailed? {
          return None;
        }
      }
      r := Some(selector.selectedTxs);
    }

    method ProcessProposal(maxGas: int, committed: Sequences, txs: seq<Bytes>) returns (accept: bool)
      ensures accept <==> Accepts(env, maxGas, committed, txs)
      ensures maxGas < TWO_63 && SmallGas(env, txs) ==> (accept <==> env.noOp || Acceptable(env, maxGas, committed, txs))
    {
      AcceptsExactly(env, maxGas, committed, txs);
      hide Bumped, ToU64, Acceptable, SmallGas, Distinct;
      if env.noOp {
        return true;
      }
      var state: Sequences, totalGas: U64 := committed, 0;
      for i := 0 to |txs|
        invariant Processed(env, maxGas, Walk(committed, 0), txs[..i]) == Some(Walk(state, totalGas))
      {
        assert txs[..i + 1][..i] == txs[..i];
        var tx := env.decode(txs[i]);
        if tx.None? || !Verifies(state, tx.value) {
          RefusedPrefix(env, maxGas, Walk(committed, 0), txs, i + 1);
          return false;
        }
        state := Bumped(state, tx.value.signers.value);
        if maxGas > 0 {
          totalGas := ToU64(totalGas + GasLimit(tx.value));
          if totalGas > maxGas {
            RefusedPrefix(env, maxGas, Walk(committed, 0), txs, i + 1);
            return false;
          }
        }
      }
      assert txs[..|txs|] == txs;
      accept := true;
    }
  }

  // ---------------------------------------------------------------- what is removed from the mempool

  /**
   The prepare state runs ahead of the selected transactions for some signer of `tx`, and that is
   all that is wrong with it: what the handler itself can see.
   */
  predicate RunsAhead(p: Prep, tx: MemTx)
    requires tx.signers.Some?
  {
    var signers := tx.signers.value;
    && tx.wellFormed && Distinct(signers)
    && (forall i :: 0 <= i < |signers| ==> signers[i].address in p.prepared)
    && (forall i :: 0 <= i < |signers| && signers[i].address !in p.known ==>
          p.prepared[signers[i].address] == signers[i].sequence)
    && (exists i :: 0 <= i < |signers| && signers[i].address in p.known && p.prepared[signers[i].address] != signers[i].sequence)
  }

  lemma RefusedButValid(prepared: Sequences, selected: Sequences, p: Prep, tx: MemTx)
    requires p.prepared == prepared && Related(prepared, selected, p.known)
    requires tx.signers.Some? && Continues(p.known, tx.signers.value) && !Verifies(prepared, tx)
    ensures Verifies(selected, tx) <==> RunsAhead(p, tx)
  {
    hide Succ;
    var signers := tx.signers.value;
    if RunsAhead(p, tx) {
      forall i | 0 <= i < |signers|
        ensures signers[i].address in selected && selected[signers[i].address] == signers[i].sequence
      {
        if signers[i].address in p.known {
          assert Succ(p.known[signers[i].address]) == signers[i].sequence;
        }
      }
    }
    if Verifies(selected, tx) {
      var i :| 0 <= i < |signers| && prepared[signers[i].address] != signers[i].sequence;
      assert signers[i].address in p.known;
    }
  }

  lemma RoundTripsPrefix(env: HandlerEnv, candidates: seq<MemTx>, i: nat)
    requires RoundTrips(env, candidates) && i <= |candidates|
    ensures RoundTrips(env, candidates[..i])
  {
  }

  /**
   A candidate that the handler removes from the mempool is valid on top of the transactions
   selected so far, for a validator, exactly when the prepare state runs ahead of them.
   */
  lemma RemovedThoughValid(env: HandlerEnv, limits: Limits, committed: Sequences, candidates: seq<MemTx>, i: nat)
    requires -TWO_63 <= limits.maxGas < TWO_63 && RoundTrips(env, candidates) && i < |candidates|
    requires Considered(env, limits, committed, candidates[..i]).Some?
    requires
      var p, tx := Considered(env, limits, committed, candidates[..i]).value, candidates[i];
      Consider(env, limits, p, tx) == Some(p.(invalid := p.invalid + [tx])) && env.encode(tx).Some?
    ensures
      var p, tx := Considered(env, limits, committed, candidates[..i]).value, candidates[i];
      var w := Processed(env, limits.maxGas, Walk(committed, 0), p.sel.txs);
      w.Some? && tx.signers.Some? && (Verifies(w.value.state, tx) <==> RunsAhead(p, tx))
  {
    hide Considered, RoundTrips, Processed, Verifies, Continues, Related, RunsAhead, Select, Learn, Bumped, SignerSeqs;
    assert RoundTrips(env, candidates[..i]) by {
      RoundTripsPrefix(env, candidates, i);
    }
    var p, tx := Considered(env, limits, committed, candidates[..i]).value, candidates[i];
    var selected := ConsideredSound(env, limits, committed, candidates[..i]);
    assert p.invalid + [tx] != p.invalid by {
      assert |p.invalid + [tx]| == |p.invalid| + 1;
    }
    RefusedButValid(p.prepared, selected, p, tx);
  }

  // A concrete case: two transactions with the same sequence, the first too large for the block.

  const LARGE: MemTx := MemTx(Some([Signer("a", 5)]), None, true, "large")

  const SMALL: MemTx := MemTx(Some([Signer("a", 5)]), None, true, "small")

  function TwoTxs(): (env: HandlerEnv) {
    HandlerEnv(
      false,
      (tx: MemTx) => Some(if tx.body == "large" then [0, 0, 0] else [0]),
      (raw: Bytes) => Some(if |raw| == 3 then LARGE else SMALL),
      (tx: MemTx) => Removed)
  }

  /** The small transaction is removed from the mempool although a validator would accept it. */
  lemma ValidTxRemoved()
    ensures
      var limits, committed := Limits(2, 0), map["a" := 5];
      && Considered(TwoTxs(), limits, committed, [LARGE, SMALL]).Some?
      && Considered(TwoTxs(), limits, committed, [LARGE, SMALL]).value.invalid == [SMALL]
      && Accepts(TwoTxs(), 0, committed, [[0]])
  {
    var env, limits, committed := TwoTxs(), Limits(2, 0), map["a" := 5];
    var start := Prep(committed, map[], NOTHING_SELECTED, false, []);
    assert Considered(env, limits, committed, []) == Some(start);
    assert |"large"| == 5 && |"small"| == 5 && "large"[0] == 'l' && "small"[0] == 's';
    var signers := [Signer("a", 5)];
    assert Addresses(signers) == {"a"} by {
      assert signers[0].address == "a";
    }
    var after := Prep(map["a" := 6], map["a" := 4], NOTHING_SELECTED, false, []);
    assert Consider(env, limits, start, LARGE) == Some(after) by {
      assert Bumped(committed, signers) == map["a" := 6];
      assert SignerSeqs(signers) == map["a" := 5] by {
        assert signers[..0] == [];
      }
      assert Learn(map[], map["a" := 5], false) == map["a" := 4];
    }
    assert Consider(env, limits, after, SMALL) == Some(after.(invalid := [SMALL])) by {
      assert signers[0].sequence == 5 && after.prepared["a"] == 6;
      assert [] + [SMALL] == [SMALL];
    }
    var both, one := [LARGE, SMALL], [LARGE];
    assert both[..1] == one && one[..0] == [];
    assert Considered(env, limits, committed, [LARGE]) == Some(after);
    var proposal: seq<Bytes> := [[0]];
    assert proposal[..0] == [];
    var none: seq<Bytes> := [];
    assert Processed(env, 0, Walk(committed, 0), none) == Some(Walk(committed, 0));
    assert Verifies(committed, SMALL);
  }
}
