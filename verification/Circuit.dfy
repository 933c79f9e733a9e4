/** The statement proved in zero knowledge: a private holding of at least the threshold under a root. */
module Circuit {
  import opened Bytes
  import opened Types
  import opened Merkle

  datatype Witness = Witness(
    account: Account,
    index: nat,
    siblings: seq<Digest>,
    root: Digest,
    context: GateContext,
    presenter: Digest,
    issuedAt: u64)

  datatype CircuitError =
    | ZeroThreshold | MissingPresenterKey | IssuedAfterExpiry | WrongProgramOwner
    | InvalidTokenHolding | WrongTokenDefinition | InsufficientBalance | InvalidMembershipProof

  function NewJournal(sha: Hash, c: GateContext, root: Digest, presenter: Digest, issuedAt: u64): Journal {
    Journal(JOURNAL_VERSION, ContextHash(sha, c), c.owner, c.definitionId, c.threshold, root, presenter, issuedAt,
            c.expiresAt)
  }

  function Evaluate(sha: Hash, w: Witness): Result<Journal, CircuitError> {
    if w.context.threshold == 0 then Err(ZeroThreshold)
    else if w.presenter == ZERO_DIGEST then Err(MissingPresenterKey)
    else if w.context.expiresAt.Some? && w.issuedAt > w.context.expiresAt.value then Err(IssuedAfterExpiry)
    else if w.account.owner != w.context.owner then Err(WrongProgramOwner)
    else
      match DecodeHolding(w.account.data)
      case Err(_) => Err(InvalidTokenHolding)
      case Ok(holding) =>
        if holding.definitionId != w.context.definitionId then Err(WrongTokenDefinition)
        else if holding.balance < w.context.threshold then Err(InsufficientBalance)
        else if !Verifies(sha, Commitment(sha, w.account), w.index, w.siblings, w.root) then Err(InvalidMembershipProof)
        else Ok(NewJournal(sha, w.context, w.root, w.presenter, w.issuedAt))
  }

  /** The account holds `balance` tokens of the context's definition and is committed under the root. */
  predicate Holds(sha: Hash, w: Witness, balance: u128) {
    && w.account.owner == w.context.owner
    && w.account.data == EncodeHolding(Holding(w.context.definitionId, balance))
    && Verifies(sha, Commitment(sha, w.account), w.index, w.siblings, w.root)
  }

  predicate WellTimed(w: Witness) {
    && w.presenter != ZERO_DIGEST
    && (w.context.expiresAt.Some? ==> w.issuedAt <= w.context.expiresAt.value)
  }

  /** The checks succeed exactly for witnesses of a positive threshold that the holding meets. */
  lemma EvaluateExact(sha: Hash, w: Witness, j: Journal)
    ensures Evaluate(sha, w) == Ok(j) <==>
            && j == NewJournal(sha, w.context, w.root, w.presenter, w.issuedAt)
            && WellTimed(w)
            && exists balance: u128 :: balance >= w.context.threshold > 0 && Holds(sha, w, balance)
  {
    if Evaluate(sha, w).Ok? {
      var h := DecodeHolding(w.account.data).value;
      HoldingRoundTrip(h, w.account.data);
      assert Holds(sha, w, h.balance);
    }
    if balance: u128 :| balance >= w.context.threshold > 0 && Holds(sha, w, balance) {
      HoldingRoundTrip(Holding(w.context.definitionId, balance), w.account.data);
    }
  }

  /** What is wrong with a witness that is refused for this reason. */
  ghost predicate FailsCheck(sha: Hash, w: Witness, reason: CircuitError) {
    match reason
    case ZeroThreshold => w.context.threshold == 0
    case MissingPresenterKey => w.presenter == ZERO_DIGEST
    case IssuedAfterExpiry => w.context.expiresAt.Some? && w.issuedAt > w.context.expiresAt.value
    case WrongProgramOwner => w.account.owner != w.context.owner
    case InvalidTokenHolding => !exists h :: w.account.data == EncodeHolding(h)
    case WrongTokenDefinition =>
      exists h :: w.account.data == EncodeHolding(h) && h.definitionId != w.context.definitionId
    case InsufficientBalance => exists h :: w.account.data == EncodeHolding(h) && h.balance < w.context.threshold
    case InvalidMembershipProof => !Verifies(sha, Commitment(sha, w.account), w.index, w.siblings, w.root)
  }

  /** Every refusal names a check that the witness fails. */
  lemma WitnessExplained(sha: Hash, w: Witness)
    requires Evaluate(sha, w).Err?
    ensures FailsCheck(sha, w, Evaluate(sha, w).error)
  {
    var decoded := DecodeHolding(w.account.data);
    if decoded.Ok? {
      HoldingRoundTrip(decoded.value, w.account.data);
    } else {
      forall h: Holding ensures w.account.data != EncodeHolding(h) { HoldingRoundTrip(h, w.account.data); }
    }
  }

  /**
   * The journal repeats the context's policy and the witness's root, presenter and time, and nothing of the
   * account.
   */
  lemma JournalOf(sha: Hash, w: Witness, j: Journal)
    requires Evaluate(sha, w) == Ok(j)
    ensures j.version == JOURNAL_VERSION && j.contextHash == ContextHash(sha, w.context)
    ensures j.owner == w.context.owner && j.definitionId == w.context.definitionId && j.threshold == w.context.threshold
    ensures j.root == w.root && j.presenter == w.presenter && j.issuedAt == w.issuedAt
    ensures j.expiresAt == w.context.expiresAt
  {
    EvaluateExact(sha, w, j);
  }
}
