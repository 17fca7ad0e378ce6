/**
 Validation of vote extensions: the extended commit must mirror the last commit, every commit
 vote must carry a valid extension signature, and the signers must hold more than two thirds of
 the voting power. Public keys and signature verification are a parameter.
 */
module VoteExtensions {
  import opened Prelude

  type Address = Bytes

  datatype Validator = Validator(address: Address, power: int)

  datatype Vote = Vote(validator: Validator, commit: bool, extension: Bytes, signature: Bytes)

  datatype ExtendedCommit = ExtendedCommit(round: int, votes: seq<Vote>)

  datatype LastCommit = LastCommit(round: int, votes: seq<Validator>)

  /** `enableHeight` is `None` when the ABCI consensus parameters are missing. */
  datatype Context = Context(
    enableHeight: Option<int>,
    height: int,
    chainId: string,
    signed: (Address, Bytes, int, int, string, Bytes) -> bool)

  // ---------------------------------------------------------------- the extended commit against the last commit

  /** `bytes.Compare` */
  function Compare(a: Bytes, b: Bytes): (r: int)
    ensures -1 <= r <= 1
    decreases |a|
  {
    if a == [] then (if b == [] then 0 else -1)
    else if b == [] then 1
    else if a[0] < b[0] then -1
    else if a[0] > b[0] then 1
    else Compare(a[1..], b[1..])
  }

  /** The order of votes: descending power, then ascending address; `int64` arithmetic. */
  function CompareVotes(a: Vote, b: Vote): (r: int) {
    if a.validator.power == b.validator.power then Compare(a.validator.address, b.validator.address)
    else ToI64(-ToI64(a.validator.power - b.validator.power))
  }

  predicate Sorted(votes: seq<Vote>) {
    forall i :: 0 < i < |votes| ==> CompareVotes(votes[i], votes[i - 1]) >= 0
  }

  predicate DistinctAddresses(votes: seq<Vote>) {
    forall i, j :: 0 <= i < j < |votes| ==> votes[i].validator.address != votes[j].validator.address
  }

  predicate Mirrors(ec: ExtendedCommit, lc: LastCommit) {
    && ec.round == lc.round
    && |ec.votes| == |lc.votes|
    && (forall i :: 0 <= i < |ec.votes| ==> ec.votes[i].validator == lc.votes[i])
  }

  method ValidateAgainstLastCommit(ec: ExtendedCommit, lc: LastCommit) returns (ok: bool)
    ensures ok <==> Mirrors(ec, lc) && Sorted(ec.votes) && DistinctAddresses(ec.votes)
  {
    if ec.round != lc.round || |ec.votes| != |lc.votes| {
      return false;
    }
    var k := |ec.votes| - 1;
    while k > 0
      invariant forall i :: k < i < |ec.votes| && 0 < i ==> CompareVotes(ec.votes[i], ec.votes[i - 1]) >= 0
    {
      if CompareVotes(ec.votes[k], ec.votes[k - 1]) < 0 {
        return false;
      }
      k := k - 1;
    }
    var seen: set<Address> := {};
    for i := 0 to |ec.votes|
      invariant seen == set j | 0 <= j < i :: ec.votes[j].validator.address
      invariant DistinctAddresses(ec.votes[..i])
      invariant forall j :: 0 <= j < i ==> ec.votes[j].validator == lc.votes[j]
    {
      var vote := ec.votes[i];
      if vote.validator.address in seen {
        return false;
      }
      seen := seen + {vote.validator.address};
      if vote.validator.address != lc.votes[i].address || vote.validator.power != lc.votes[i].power {
        return false;
      }
    }
    assert ec.votes[..|ec.votes|] == ec.votes;
    ok := true;
  }

  // ---------------------------------------------------------------- voting power

  function TotalPower(vs: seq<Validator>): (p: int) {
    if vs == [] then 0 else TotalPower(vs[..|vs| - 1]) + vs[|vs| - 1].power
  }

  /** The power of the validators whose address is in `who`. */
  function PowerOf(vs: seq<Validator>, who: set<Address>): (p: int) {
    if vs == [] then 0
    else
      var last := vs[|vs| - 1];
      PowerOf(vs[..|vs| - 1], who) + if last.address in who then last.power else 0
  }

  function Validators(votes: seq<Vote>): (vs: seq<Validator>)
    ensures |vs| == |votes| && forall i :: 0 <= i < |vs| ==> vs[i] == votes[i].validator
  {
    seq(|votes|, i requires 0 <= i < |votes| => votes[i].validator)
  }

  function CommitPower(votes: seq<Vote>): (p: int) {
    if votes == [] then 0
    else
      var last := votes[|votes| - 1];
      CommitPower(votes[..|votes| - 1]) + if last.commit then last.validator.power else 0
  }

  /** Powers are non-negative and twice their sum fits in an `int64`. */
  predicate PowersFit(vs: seq<Validator>) {
    (forall i :: 0 <= i < |vs| ==> vs[i].power >= 0) && 2 * TotalPower(vs) < TWO_63
  }

  /** The validators who cast a commit vote. */
  function Signers(ec: ExtendedCommit): (who: set<Address>) {
    set i | 0 <= i < |ec.votes| && ec.votes[i].commit :: ec.votes[i].validator.address
  }

  predicate Enabled(ctx: Context) {
    ctx.enableHeight.Some? && ctx.height > ctx.enableHeight.value && ctx.enableHeight.value != 0
  }

  /** A commit vote with a non-empty, valid signature over its extension, at the previous height. */
  predicate SignedVote(ctx: Context, round: int, v: Vote) {
    v.signature != [] && ctx.signed(v.validator.address, v.extension, ctx.height - 1, round, ctx.chainId, v.signature)
  }

  predicate AllSigned(ctx: Context, ec: ExtendedCommit) {
    forall i :: 0 <= i < |ec.votes| && ec.votes[i].commit ==> SignedVote(ctx, ec.round, ec.votes[i])
  }

  /** No commit vote carries an extension or a signature over one. */
  predicate NoExtensions(ec: ExtendedCommit) {
    forall i :: 0 <= i < |ec.votes| && ec.votes[i].commit ==> ec.votes[i].extension == [] && ec.votes[i].signature == []
  }

  /** What success means: stated about sets of validators and their power, not about the loop. */
  predicate SuperMajority(ctx: Context, ec: ExtendedCommit, lc: LastCommit) {
    && Mirrors(ec, lc) && Sorted(ec.votes) && DistinctAddresses(ec.votes)
    && Enabled(ctx)
    && AllSigned(ctx, ec)
    && 3 * PowerOf(lc.votes, Signers(ec)) > 2 * TotalPower(lc.votes)
  }

  lemma {:induction false} TotalPowerGrows(vs: seq<Validator>, i: nat)
    requires i <= |vs| && forall k :: 0 <= k < |vs| ==> vs[k].power >= 0
    ensures 0 <= TotalPower(vs[..i]) <= TotalPower(vs)
    decreases |vs|
  {
    if i == |vs| {
      assert vs[..i] == vs;
      if i > 0 {
        TotalPowerGrows(vs[..i - 1], i - 1);
        assert vs[..i - 1][..i - 1] == vs[..i - 1];
      }
    } else {
      TotalPowerGrows(vs[..|vs| - 1], i);
      assert vs[..|vs| - 1][..i] == vs[..i];
    }
  }

  lemma {:induction false} PowerOfBounds(vs: seq<Validator>, who: set<Address>)
    requires forall k :: 0 <= k < |vs| ==> vs[k].power >= 0
    ensures 0 <= PowerOf(vs, who) <= TotalPower(vs)
    decreases |vs|
  {
    if vs == [] {
    } else {
      PowerOfBounds(vs[..|vs| - 1], who);
    }
  }

  /** With distinct addresses, the power of the commit votes is the power of the set of their signers. */
  lemma {:induction false} CommitPowerIsSignerPower(ec: ExtendedCommit, n: nat)
    requires n <= |ec.votes| && DistinctAddresses(ec.votes)
    ensures CommitPower(ec.votes[..n]) == PowerOf(Validators(ec.votes)[..n], Signers(ec))
    decreases n
  {
    if n == 0 {
    } else {
      CommitPowerIsSignerPower(ec, n - 1);
      assert ec.votes[..n][..n - 1] == ec.votes[..n - 1];
      assert Validators(ec.votes)[..n][..n - 1] == Validators(ec.votes)[..n - 1];
      assert ec.votes[n - 1].commit <==> ec.votes[n - 1].validator.address in Signers(ec);
    }
  }

  /** The sums the loop computes, in `int64`, are the exact ones. */
  lemma {:induction false} CommitPowerBounds(votes: seq<Vote>, i: nat)
    requires i <= |votes| && PowersFit(Validators(votes))
    ensures 0 <= CommitPower(votes[..i]) <= TotalPower(Validators(votes)[..i]) < TWO_63
    decreases i
  {
    var vs := Validators(votes);
    TotalPowerGrows(vs, i);
    if i == 0 {
    } else {
      CommitPowerBounds(votes, i - 1);
      assert votes[..i][..i - 1] == votes[..i - 1] && vs[..i][..i - 1] == vs[..i - 1];
    }
  }

  /** The loop over the votes: the two power sums, or `None` at the first unacceptable vote. */
  method Tally(ctx: Context, ec: ExtendedCommit) returns (r: Option<(int, int)>)
    ensures PowersFit(Validators(ec.votes)) && r.Some? ==>
              && r.value.0 == TotalPower(Validators(ec.votes))
              && r.value.1 == if Enabled(ctx) then CommitPower(ec.votes) else 0
    ensures Enabled(ctx) ==> (r.Some? <==> AllSigned(ctx, ec))
    ensures !Enabled(ctx) ==> (r.Some? <==> NoExtensions(ec))
  {
    hide ToI64, PowersFit, Enabled, SignedVote;
    ghost var vs := Validators(ec.votes);
    var totalVP, sumVP := 0, 0;
    for i := 0 to |ec.votes|
      invariant PowersFit(vs) ==> totalVP == TotalPower(vs[..i])
      invariant PowersFit(vs) ==> sumVP == if Enabled(ctx) then CommitPower(ec.votes[..i]) else 0
      invariant Enabled(ctx) ==>
                  forall k :: 0 <= k < i && ec.votes[k].commit ==> SignedVote(ctx, ec.round, ec.votes[k])
      invariant !Enabled(ctx) ==>
                  forall k :: 0 <= k < i && ec.votes[k].commit ==> ec.votes[k].extension == [] && ec.votes[k].signature == []
    {
      assert ec.votes[..i + 1][..i] == ec.votes[..i] && vs[..i + 1][..i] == vs[..i];
      if PowersFit(vs) {
        CommitPowerBounds(ec.votes, i + 1);
      }
      var vote := ec.votes[i];
      totalVP := ToI64(totalVP + vote.validator.power);
      if vote.commit {
        if Enabled(ctx) {
          if !SignedVote(ctx, ec.round, vote) {
            return None;
          }
          sumVP := ToI64(sumVP + vote.validator.power);
        } else if |vote.extension| > 0 || |vote.signature| > 0 {
          return None;
        }
      }
    }
    assert ec.votes[..|ec.votes|] == ec.votes && vs[..|ec.votes|] == vs;
    r := Some((totalVP, sumVP));
  }

  /**
   ValidateVoteExtensions succeeds exactly when extensions are enabled and the distinct validators
   whose signatures verify hold strictly more than two thirds of the power of the last commit.
   In particular it never succeeds while extensions are disabled.
   */
  method ValidateVoteExtensions(ctx: Context, ec: ExtendedCommit, lc: LastCommit) returns (ok: bool)
    ensures PowersFit(lc.votes) ==> (ok <==> SuperMajority(ctx, ec, lc))
  {
    hide ToI64, Sorted, DistinctAddresses, Enabled, AllSigned, TotalPower, CommitPower, PowerOf, Signers;
    ok := ValidateAgainstLastCommit(ec, lc);
    if !ok {
      return;
    }
    ghost var vs := Validators(ec.votes);
    assert vs == lc.votes;
    var tally := Tally(ctx, ec);
    if tally.None? {
      return false;
    }
    var (totalVP, sumVP) := tally.value;
    assert ec.votes[..|ec.votes|] == ec.votes && vs[..|ec.votes|] == vs;
    CommitPowerIsSignerPower(ec, |ec.votes|);
    if PowersFit(vs) {
      CommitPowerBounds(ec.votes, |ec.votes|);
      PowerOfBounds(vs, Signers(ec));
    }
    if totalVP <= 0 {
      return false;
    }
    var requiredVP := ToI64(Quo(ToI64(totalVP * 2), 3) + 1);
    ok := sumVP >= requiredVP;
  }

  // ---------------------------------------------------------------- quorum intersection

  lemma {:induction false} InclusionExclusion(vs: seq<Validator>, a: set<Address>, b: set<Address>)
    ensures PowerOf(vs, a) + PowerOf(vs, b) == PowerOf(vs, a + b) + PowerOf(vs, a * b)
    decreases |vs|
  {
    if vs == [] {
    } else {
      InclusionExclusion(vs[..|vs| - 1], a, b);
    }
  }

  /** Two successes against the same last commit share validators holding more than one third of its power. */
  lemma QuorumsIntersect(
    ctx: Context, ctx': Context, ec: ExtendedCommit, ec': ExtendedCommit, lc: LastCommit)
    requires PowersFit(lc.votes)
    requires SuperMajority(ctx, ec, lc) && SuperMajority(ctx', ec', lc)
    ensures 3 * PowerOf(lc.votes, Signers(ec) * Signers(ec')) > TotalPower(lc.votes)
    ensures forall a :: a in Signers(ec) * Signers(ec') ==>
              exists i :: && 0 <= i < |ec.votes| && ec.votes[i].validator.address == a
                          && SignedVote(ctx, ec.round, ec.votes[i]) && SignedVote(ctx', ec'.round, ec'.votes[i])
  {
    InclusionExclusion(lc.votes, Signers(ec), Signers(ec'));
    PowerOfBounds(lc.votes, Signers(ec) + Signers(ec'));
    forall a | a in Signers(ec) * Signers(ec')
      ensures exists i :: && 0 <= i < |ec.votes| && ec.votes[i].validator.address == a
                          && SignedVote(ctx, ec.round, ec.votes[i]) && SignedVote(ctx', ec'.round, ec'.votes[i])
    {
      var i :| 0 <= i < |ec.votes| && ec.votes[i].commit && ec.votes[i].validator.address == a;
      var j :| 0 <= j < |ec'.votes| && ec'.votes[j].commit && ec'.votes[j].validator.address == a;
      assert ec.votes[i].validator == lc.votes[i] == ec'.votes[i].validator;
      assert i == j;
      assert SignedVote(ctx, ec.round, ec.votes[i]) && SignedVote(ctx', ec'.round, ec'.votes[i]);
    }
  }
}
