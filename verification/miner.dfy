/** The nonce search (`getNonce`): try nonces 0, 1, 2, ... in turn; build the
    payload, hash it and run the bit check; stop at the first nonce that passes.
    SHA-256 of the payload's bytes is a parameter of the search: any function
    from strings to 32-byte digests. */
module Miner {
  import BitCheck
  import Payload

  /** Nonce n solves the challenge: the digest of its payload meets the
      difficulty. */
  predicate Solves(data: seq<Payload.Entry>, difficulty: int, hash: string -> BitCheck.Digest, n: nat)
    requires Payload.AllWellFormed(data)
  {
    BitCheck.CheckBitHash(hash(Payload.Canonical(data, n)), difficulty) == BitCheck.Returned(true)
  }

  /** n is the first solving nonce: it solves and no smaller nonce does. */
  predicate FirstSolution(data: seq<Payload.Entry>, difficulty: int, hash: string -> BitCheck.Digest, n: nat)
    requires Payload.AllWellFormed(data)
  {
    Solves(data, difficulty, hash, n) && forall j: nat :: j < n ==> !Solves(data, difficulty, hash, j)
  }

  /** `getNonce`. The search itself is unbounded; the ghost nonce `known`,
      one that solves, is what makes it terminate, and the result never
      passes it. */
  method GetNonce(data: seq<Payload.Entry>, difficulty: int, hash: string -> BitCheck.Digest, ghost known: nat)
    returns (nonce: nat)
    requires Payload.AllWellFormed(data)
    requires Solves(data, difficulty, hash, known)
    ensures Solves(data, difficulty, hash, nonce)
    ensures forall j: nat :: j < nonce ==> !Solves(data, difficulty, hash, j)
    ensures nonce <= known
    ensures difficulty <= 0 ==> nonce == 0
  {
    SolvesWithinDigest(data, difficulty, hash, known);
    nonce := 0;
    while true
      invariant nonce <= known
      invariant difficulty <= 0 ==> nonce == 0
      invariant forall j: nat :: j < nonce ==> !Solves(data, difficulty, hash, j)
      decreases known - nonce
    {
      var payload := Payload.ConstructPayload(data, nonce);
      var digest := hash(payload);
      var outcome := BitCheck.CheckBitHash(digest, difficulty);
      // A solving nonce exists, so the difficulty is at most 256 and the
      // check cannot panic.
      assert !outcome.IndexPanic?;
      if outcome == BitCheck.Returned(true) {
        return;
      }
      nonce := nonce + 1;
    }
  }

  /** The first solving nonce is unique, so the search is deterministic:
      the same data, difficulty and hash always give the same nonce. */
  lemma FirstSolutionUnique(data: seq<Payload.Entry>, difficulty: int, hash: string -> BitCheck.Digest, n: nat, m: nat)
    requires Payload.AllWellFormed(data)
    requires FirstSolution(data, difficulty, hash, n)
    requires FirstSolution(data, difficulty, hash, m)
    ensures n == m
  {
  }

  /** A solving nonce needs a difficulty within the 256 bits of the digest:
      no nonce can solve a larger one. */
  lemma SolvesWithinDigest(data: seq<Payload.Entry>, difficulty: int, hash: string -> BitCheck.Digest, n: nat)
    requires Payload.AllWellFormed(data)
    requires Solves(data, difficulty, hash, n)
    ensures difficulty <= BitCheck.DigestBits
  {
  }
}
