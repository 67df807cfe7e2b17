/**
 The OAuth `state` token of index.py. A token is a 10-character seed followed by
 the hex SHA-256 digest of the seed and a server-side pepper; verification
 recomputes the token from its first 10 characters. The digest function `sha`
 and the `pepper` are parameters: SHA-256 itself is not modelled, only that its
 hex digest has 64 characters where a lemma needs it.
 */
module StateToken {
  import opened Wrappers

  /** The characters a seed is drawn from (note: no 'c'). */
  const SeedAlphabet: string := "0123456789abdef"

  const SeedLength: nat := 10

  /** Length of a SHA-256 hex digest. */
  const DigestLength: nat := 64

  /** A seed `get_random_state_seed` can produce. */
  predicate IsSeed(s: string) {
    |s| == SeedLength && forall i :: 0 <= i < |s| ==> s[i] in SeedAlphabet
  }

  /** `sha` behaves like a hex digest: every output has 64 characters. */
  ghost predicate DigestSized(sha: string -> string) {
    forall s :: |sha(s)| == DigestLength
  }

  /**
   A random seed: 10 characters, each chosen (nondeterministically here,
   `random.choice` in index.py) from the seed alphabet.
   */
  method RandomStateSeed() returns (seed: string)
    ensures IsSeed(seed)
    ensures 'c' !in seed
  {
    seed := "";
    var i := 0;
    while i < SeedLength
      invariant i <= SeedLength
      invariant |seed| == i
      invariant forall k :: 0 <= k < |seed| ==> seed[k] in SeedAlphabet
    {
      assert SeedAlphabet[0] in SeedAlphabet;
      var c :| c in SeedAlphabet;
      seed := seed + [c];
      i := i + 1;
    }
  }

  /** The token for a seed: the seed followed by the digest of seed and pepper. */
  function StateFromSeed(seed: string, sha: string -> string, pepper: string): (state: string)
    ensures |state| == |seed| + |sha(seed + pepper)|
    ensures state[..|seed|] == seed
  {
    seed + sha(seed + pepper)
  }

  /** Python's `s[:n]`. */
  function Take(s: string, n: nat): (r: string)
    ensures |r| == if |s| < n then |s| else n
    ensures r == s[..|r|]
  {
    if |s| <= n then s else s[..n]
  }

  /**
   `verify_state`: a missing or empty token is rejected; otherwise the token is
   accepted exactly when it equals the token recomputed from its first 10
   characters.
   */
  function VerifyState(stateIn: Option<string>, sha: string -> string, pepper: string): (ok: bool)
    ensures stateIn.None? ==> !ok
    ensures stateIn == Some("") ==> !ok
  {
    match stateIn
    case None => false
    case Some(t) =>
      if t == "" then false
      else StateFromSeed(Take(t, SeedLength), sha, pepper) == t
  }

  /** Every token issued for a 10-character seed verifies. */
  lemma RoundTrip(seed: string, sha: string -> string, pepper: string)
    requires |seed| == SeedLength
    ensures VerifyState(Some(StateFromSeed(seed, sha, pepper)), sha, pepper)
  {
  }

  /**
   With a 64-character digest, the accepted tokens are exactly the tokens
   issued for 10-character seeds; each is 74 characters long.
   */
  lemma AcceptsExactlyIssued(t: string, sha: string -> string, pepper: string)
    requires DigestSized(sha)
    ensures VerifyState(Some(t), sha, pepper) <==> exists seed :: |seed| == SeedLength && t == StateFromSeed(seed, sha, pepper)
    ensures VerifyState(Some(t), sha, pepper) ==> |t| == SeedLength + DigestLength
  {
  }

  /**
   A token is fixed by its first 10 characters: changing any later character,
   or its length, while keeping those 10 makes an accepted token rejected.
   */
  lemma ForgeryRejected(t: string, forged: string, sha: string -> string, pepper: string)
    requires VerifyState(Some(t), sha, pepper)
    requires Take(forged, SeedLength) == Take(t, SeedLength)
    requires forged != t
    ensures !VerifyState(Some(forged), sha, pepper)
  {
  }
}
