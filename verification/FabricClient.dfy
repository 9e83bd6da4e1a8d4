/** The ledger client: the two-read activity check and the retry loops. */
module FabricClient {
  import opened Wrappers
  import opened Arithmetic
  import opened Ledger

  // ---- verify_credential_active.

  datatype Inactive = Missing | Revoked | Expired

  /** The check as it runs: the revocation flag from one ledger state, the expiry from a later one. */
  function VerifyActive(first: State, second: State, id: string, now: int): (res: Result<bool, Inactive>) {
    match GetMetadata(first, id)
    case None => Err(Missing)
    case Some(m) =>
      if m.revoked then Err(Revoked)
      else match GetMetadata(second, id)
        case None => Err(Missing)
        case Some(m') => if now > m'.expiresAt then Err(Expired) else Ok(true)
  }

  /** Metadata only ever changes in its flag between two records of its id. */
  lemma {:induction false} MetadataFrame(s: State, txs: seq<Tx>, id: string)
    requires Valid(s) && !Recorded(txs, id)
    ensures Valid(ApplyAll(s, txs))
    ensures GetMetadata(s, id).Some? <==> GetMetadata(ApplyAll(s, txs), id).Some?
    ensures GetMetadata(s, id).Some? ==>
            GetMetadata(ApplyAll(s, txs), id).value.(revoked := false) == GetMetadata(s, id).value.(revoked := false)
  {
    if txs != [] {
      var n := |txs| - 1;
      MetadataFrame(s, txs[..n], id);
      ApplyValid(ApplyAll(s, txs[..n]), txs[n]);
      ApplyFrame(ApplyAll(s, txs[..n]), txs[n], id);
    }
  }

  /** With any transactions between the two reads, none of them a record of an existing id, the call returns what it
      would have returned at the instant of its first read; in particular Ok(true) exactly when the credential
      existed then, was unrevoked, and does not expire before the clock value read later. */
  lemma VerifyActiveLinearizable(s: State, txs: seq<Tx>, id: string, now: int)
    requires Valid(s) && (GetMetadata(s, id).Some? ==> !Recorded(txs, id))
    ensures VerifyActive(s, ApplyAll(s, txs), id, now) == VerifyActive(s, s, id, now)
    ensures VerifyActive(s, ApplyAll(s, txs), id, now) == Ok(true) <==>
            GetMetadata(s, id).Some? && id !in RevokedIds(s) && now <= GetMetadata(s, id).value.expiresAt
  {
    RevokedMeans(s, id);
    if GetMetadata(s, id).Some? {
      MetadataFrame(s, txs, id);
    }
  }

  /** The expiry that the last record of the id sets, or e when there is none. */
  function LastExpiry(txs: seq<Tx>, id: string, e: int): (e': int) {
    if txs == [] then e
    else
      var n := |txs| - 1;
      if txs[n].Record? && txs[n].id == id then txs[n].expiresAt else LastExpiry(txs[..n], id, e)
  }

  /** An existing credential stays, with the expiry of its last record. */
  lemma {:induction false} ExpiryAfter(s: State, txs: seq<Tx>, id: string)
    requires Valid(s) && GetMetadata(s, id).Some?
    ensures Valid(ApplyAll(s, txs)) && GetMetadata(ApplyAll(s, txs), id).Some?
    ensures GetMetadata(ApplyAll(s, txs), id).value.expiresAt == LastExpiry(txs, id, GetMetadata(s, id).value.expiresAt)
  {
    if txs != [] {
      var n := |txs| - 1;
      ExpiryAfter(s, txs[..n], id);
      ApplyValid(ApplyAll(s, txs[..n]), txs[n]);
      ApplyFrame(ApplyAll(s, txs[..n]), txs[n], id);
    }
  }

  /** With any transactions at all between the reads: the answer is that of the first read exactly when the id was
      missing or revoked then, or the expiry last recorded is on the same side of the clock as the first one. */
  lemma ReissueBetweenReads(s: State, txs: seq<Tx>, id: string, now: int)
    requires Valid(s)
    ensures VerifyActive(s, ApplyAll(s, txs), id, now) == VerifyActive(s, s, id, now) <==>
            match GetMetadata(s, id)
            case None => true
            case Some(m) => m.revoked || (now > LastExpiry(txs, id, m.expiresAt) <==> now > m.expiresAt)
    ensures VerifyActive(s, ApplyAll(s, txs), id, now) == Ok(true) <==>
            GetMetadata(s, id).Some? && id !in RevokedIds(s)
            && now <= LastExpiry(txs, id, GetMetadata(s, id).value.expiresAt)
  {
    RevokedMeans(s, id);
    if GetMetadata(s, id).Some? {
      ExpiryAfter(s, txs, id);
    }
  }

  /** A concrete case: expired at the first read, re-issued before the second, reported active. */
  lemma ReissueReportsActive(now: int)
    ensures
      var s := Apply(INITIAL, Record("a", "s", "i", "d", now - 1, None));
      && VerifyActive(s, s, "a", now) == Err(Expired)
      && VerifyActive(s, ApplyAll(s, [Record("a", "s", "i", "d", now, None)]), "a", now) == Ok(true)
  {
    var first, again := Record("a", "s", "i", "d", now - 1, None), Record("a", "s", "i", "d", now, None);
    ApplyValid(INITIAL, first);
    ApplyFrame(INITIAL, first, "a");
    assert [again][..0] == [];
    ApplyFrame(Apply(INITIAL, first), again, "a");
  }

  // ---- get_endorsements_with_retry.

  datatype Endorsement = Endorsed | Exhausted | UnexpectedExit | Overflow

  /** The number of failures before the first success. */
  function Failures(replies: seq<bool>): (n: nat)
    ensures n <= |replies|
  {
    if replies == [] || replies[0] then 0 else 1 + Failures(replies[1..])
  }

  lemma {:induction false} FailuresAt(replies: seq<bool>, k: nat)
    requires k < |replies| && k <= Failures(replies)
    ensures replies[k] <==> k == Failures(replies)
  {
    if k > 0 { FailuresAt(replies[1..], k - 1); }
  }

  lemma {:induction false} Pow2Monotone(a: nat, b: nat)
    requires a <= b
    ensures Pow2(a) <= Pow2(b)
    decreases b
  {
    if a < b { Pow2Monotone(a, b - 1); }
  }

  /** The step from 2^57 to 2^58 is the one that takes 100 * 2^k past 2^64. */
  lemma LastFit(p: nat, q: nat, w: nat)
    requires p * 128 == w && q == 2 * p && w > 0
    ensures 100 * p < w <= 100 * q
  {
  }

  /** 100 * 2^k fits 64 bits exactly up to k = 57. */
  lemma BackoffFits(k: nat)
    ensures 100 * Pow2(k) < U64 <==> k <= 57
  {
    Pow2Is64();
    Pow2Sum(57, 7);
    Pow2Sum(57, 1);
    LastFit(Pow2(57), Pow2(58), Pow2(64));
    if k <= 57 {
      Pow2Monotone(k, 57);
    } else {
      Pow2Monotone(58, k);
    }
  }

  /** The retry loop with 64-bit checked backoff: at most `maxRetries` calls, doubling sleeps, a trailing error only
      for zero retries, and an overflow exactly when 59 calls fail and more than 59 were allowed. */
  method GetEndorsementsWithRetry(replies: seq<bool>, maxRetries: nat)
    returns (res: Endorsement, calls: nat, slept: nat)
    requires |replies| >= maxRetries
    ensures calls <= maxRetries
    ensures res == UnexpectedExit <==> maxRetries == 0
    ensures res == Overflow <==> maxRetries >= 60 && Failures(replies) >= 59
    ensures res == Endorsed <==> Failures(replies) < maxRetries && Failures(replies) < 59
    ensures res == Endorsed ==> calls == Failures(replies) + 1 && slept == 100 * (Pow2(Failures(replies)) - 1)
    ensures res == Exhausted ==> calls == maxRetries && slept == 100 * (Pow2(maxRetries - 1) - 1)
    ensures res == Overflow ==> calls == 59 && slept == 100 * (Pow2(58) - 1)
  {
    var retries := 0;
    calls, slept := 0, 0;
    while retries < maxRetries
      invariant retries <= maxRetries && calls == retries && retries <= Failures(replies)
      invariant retries <= 58 && slept == 100 * (Pow2(retries) - 1)
      invariant maxRetries > 0 ==> retries < maxRetries
    {
      FailuresAt(replies, retries);
      calls := calls + 1;
      if replies[retries] { return Endorsed, calls, slept; }
      retries := retries + 1;
      if retries >= maxRetries { return Exhausted, calls, slept; }
      BackoffFits(retries - 1);
      var backoff := 100 * Pow2(retries - 1);
      if backoff >= U64 { return Overflow, calls, slept; }
      slept := slept + backoff;
    }
    res := UnexpectedExit;
  }

  // ---- wait_for_transaction_commit.

  const POLL_INTERVAL: nat := 500

  /** A status code, or none when the request failed. */
  type Status = Option<int>

  predicate Undecided(st: Status) { st.None? || st.value < 0 }

  datatype CommitResult = Committed | Rejected(code: int) | TimedOut

  predicate Spaced(times: seq<nat>) {
    forall i :: 0 < i < |times| ==> times[i] >= times[i - 1] + POLL_INTERVAL
  }

  lemma {:induction false} SpacedBound(times: seq<nat>, i: nat)
    requires Spaced(times) && i < |times|
    ensures times[i] >= i * POLL_INTERVAL
  {
    if i > 0 { SpacedBound(times, i - 1); }
  }

  /** Polling until a decision or the timeout, with the elapsed time seen at each round: at most 2T + 1 polls, the
      answer is the first decisive status, and a timeout only after the window has passed undecided. */
  method WaitForTransactionCommit(times: seq<nat>, statuses: seq<Status>, timeoutSecs: nat)
    returns (res: CommitResult, polls: nat)
    requires Spaced(times) && |times| == |statuses| && |times| >= 2 * timeoutSecs + 2
    ensures polls <= 2 * timeoutSecs + 1
    ensures forall i :: 0 <= i < polls ==> times[i] <= 1000 * timeoutSecs
    ensures forall i :: 0 <= i < polls - 1 ==> Undecided(statuses[i])
    ensures res == TimedOut ==> times[polls] > 1000 * timeoutSecs && (polls > 0 ==> Undecided(statuses[polls - 1]))
    ensures res == Committed ==> polls > 0 && statuses[polls - 1] == Some(0)
    ensures res.Rejected? ==> polls > 0 && statuses[polls - 1] == Some(res.code) && res.code > 0
  {
    polls := 0;
    while true
      invariant polls <= 2 * timeoutSecs + 1
      invariant forall i :: 0 <= i < polls ==> times[i] <= 1000 * timeoutSecs && Undecided(statuses[i])
      decreases 2 * timeoutSecs + 1 - polls
    {
      SpacedBound(times, polls);
      if times[polls] > 1000 * timeoutSecs { return TimedOut, polls; }
      var st := statuses[polls];
      polls := polls + 1;
      if st.Some? {
        if st.value == 0 { return Committed, polls; }
        if st.value > 0 { return Rejected(st.value), polls; }
      }
    }
  }
}
