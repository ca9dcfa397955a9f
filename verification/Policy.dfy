/** Policy matching of a proof's public inputs, and the eligibility it grants. */
module Policy {
  import opened Wrappers
  import opened Bytes

  datatype GateError =
    | ConfigMissing | InvalidConfig | WrongNetwork | WrongVerifier | InvalidTerms | OrderConflict
    | OrderMissing | Expired | InvalidProof | InvalidPolicy | InvalidBinding | InvalidState
    | InvalidReceipt | ReceiptUsed | InsufficientReserve | Arithmetic | FundingUsed
    | EligibilityMissing | InvalidSubject
    // Traps of the host that undo the whole call.
    | Unauthorized | TransferFailed

  datatype Result<+T> = Ok(value: T) | Err(error: GateError)

  const U64_MAX: nat := 0xffff_ffff_ffff_ffff

  /** A 32-byte value, read as a big-endian number; 0 is the all-zero value. */
  type Word = nat

  datatype Grant = Grant(proofTime: nat, validUntil: nat)

  /** The part of the configuration that constrains public inputs. Commitments are opaque values. */
  datatype PolicyConfig = PolicyConfig(
    certificateRoot: Word,
    circuitRoot: Word,
    domainHash: Word,
    scopeHash: Word,
    ageCommitment: Word,
    bindingOf: Word -> Word,
    nationalities: Option<Word>,
    issuers: Option<Word>,
    sanctions: Option<Word>,
    maxProofAge: nat,
    validUntil: nat)

  // ------------------------------------------------------------------------- narrowing

  /** `narrow_u64` on the bytes: the leading 24 must be zero, the trailing 8 are the result. */
  function NarrowBytes(bytes: seq<Byte>): Result<nat>
    requires |bytes| == 32
  {
    if exists i :: 0 <= i < 24 && bytes[i] != 0 then Err(InvalidPolicy) else Ok(BigEndian(bytes[24..]))
  }

  function NarrowU64(value: Word): Result<nat> {
    if value > U64_MAX then Err(InvalidPolicy) else Ok(value)
  }

  /** The byte test accepts exactly the values that fit 64 bits, and returns them unchanged. */
  lemma NarrowBytesIsNarrowU64(bytes: seq<Byte>)
    requires |bytes| == 32
    ensures NarrowBytes(bytes) == NarrowU64(BigEndian(bytes))
  {
    var head, tail := bytes[..24], bytes[24..];
    assert bytes == head + tail;
    BigEndianConcat(head, tail);
    BigEndianBounds(tail);
    BigEndianZero(head);
    assert Pow256(4) == 0x1_0000_0000;
    assert Pow256(8) == 256 * (256 * (256 * (256 * Pow256(4))));
    assert Pow256(8) == U64_MAX + 1;
    if BigEndian(head) > 0 {
      assert BigEndian(head) * Pow256(8) >= Pow256(8);
    }
    assert forall i :: 0 <= i < 24 ==> head[i] == bytes[i];
  }

  // ------------------------------------------------------------------ commitment matching

  function Optional(o: Option<Word>): seq<Word> {
    match o
    case None => []
    case Some(v) => [v]
  }

  /** The parameter commitments a proof for challenge `digest` must carry, in any order. */
  function Expected(c: PolicyConfig, digest: Word): (e: seq<Word>)
    ensures 2 <= |e| <= 5
  {
    [c.ageCommitment, c.bindingOf(digest)] + Optional(c.nationalities) + Optional(c.issuers) + Optional(c.sanctions)
  }

  lemma RemoveOne(s: seq<Word>, i: nat)
    requires i < |s|
    ensures multiset(s) == multiset(s[..i] + s[i + 1..]) + multiset{s[i]}
  {
    assert s == s[..i] + [s[i]] + s[i + 1..];
  }

  method FirstIndexOf(s: seq<Word>, x: Word) returns (r: Option<nat>)
    ensures r.None? ==> x !in s
    ensures r.Some? ==> r.value < |s| && s[r.value] == x && x !in s[..r.value]
  {
    for i := 0 to |s|
      invariant x !in s[..i]
    {
      if s[i] == x {
        return Some(i);
      }
    }
    return None;
  }

  /**
   The search-and-remove loop: every actual commitment must be found among the expected ones still
   unused. It accepts exactly the permutations of the expected list, duplicates counted.
   */
  method MatchCommitments(expectedList: seq<Word>, actual: seq<Word>) returns (ok: bool)
    requires |actual| == |expectedList|
    ensures ok <==> multiset(actual) == multiset(expectedList)
  {
    var expected := expectedList;
    for i := 0 to |actual|
      invariant |expected| == |expectedList| - i
      invariant multiset(expectedList) == multiset(actual[..i]) + multiset(expected)
    {
      assert actual[..i + 1] == actual[..i] + [actual[i]];
      var position := FirstIndexOf(expected, actual[i]);
      if position.None? {
        CannotMatch(expectedList, expected, actual, i);
        return false;
      }
      RemoveOne(expected, position.value);
      expected := expected[..position.value] + expected[position.value + 1..];
    }
    assert actual[..|actual|] == actual && expected == [];
    return true;
  }

  lemma CannotMatch(all: seq<Word>, rest: seq<Word>, actual: seq<Word>, i: nat)
    requires i < |actual|
    requires multiset(all) == multiset(actual[..i]) + multiset(rest)
    requires actual[i] !in rest
    ensures multiset(actual) != multiset(all)
  {
    var x := actual[i];
    assert actual == actual[..i] + [x] + actual[i + 1..];
    assert multiset(actual)[x] > multiset(actual[..i])[x];
  }

  // ------------------------------------------------------------------------- eligibility

  predicate Matches(c: PolicyConfig, digest: Word, inputs: seq<Word>)
    requires |inputs| == 8 + |Expected(c, digest)|
  {
    multiset(inputs[5..5 + |Expected(c, digest)|]) == multiset(Expected(c, digest))
  }

  /** What `check_eligibility` decides, in the order it decides it. */
  function Check(c: PolicyConfig, digest: Word, issuedAfter: nat, expiresAt: nat, now: nat, inputs: seq<Word>): Result<Grant>
    requires |inputs| == 8 + |Expected(c, digest)|
  {
    var count := |Expected(c, digest)|;
    if inputs[0] != c.certificateRoot || inputs[1] != c.circuitRoot
       || inputs[3] != c.domainHash || inputs[4] != c.scopeHash then Err(InvalidPolicy)
    else if inputs[2] > U64_MAX then Err(InvalidPolicy)
    else if inputs[2] < issuedAfter || inputs[2] > now || now - inputs[2] >= c.maxProofAge then Err(Expired)
    else if !Matches(c, digest, inputs) then Err(InvalidBinding)
    else if inputs[5 + count] != 2 || inputs[6 + count] == 0 || inputs[7 + count] != 0 then Err(InvalidPolicy)
    else if inputs[2] + c.maxProofAge > U64_MAX then Err(Arithmetic)
    else Ok(Grant(inputs[2], Min(Min(inputs[2] + c.maxProofAge, expiresAt), c.validUntil)))
  }

  function Min(a: nat, b: nat): nat { if a < b then a else b }

  method CollectExpected(c: PolicyConfig, digest: Word) returns (expected: seq<Word>)
    ensures expected == Expected(c, digest)
  {
    expected := [c.ageCommitment, c.bindingOf(digest)];
    if c.nationalities.Some? { expected := expected + [c.nationalities.value]; }
    if c.issuers.Some? { expected := expected + [c.issuers.value]; }
    if c.sanctions.Some? { expected := expected + [c.sanctions.value]; }
  }

  /** `check_eligibility` */
  method CheckEligibility(c: PolicyConfig, digest: Word, issuedAfter: nat, expiresAt: nat, now: nat, inputs: seq<Word>)
    returns (r: Result<Grant>)
    requires |inputs| == 8 + |Expected(c, digest)|
    ensures r == Check(c, digest, issuedAfter, expiresAt, now, inputs)
  {
    hide Expected, Min;
    if inputs[0] != c.certificateRoot || inputs[1] != c.circuitRoot
       || inputs[3] != c.domainHash || inputs[4] != c.scopeHash {
      return Err(InvalidPolicy);
    }
    var proofTime := NarrowU64(inputs[2]);
    if proofTime.Err? {
      return Err(proofTime.error);
    }
    var at := proofTime.value;
    if at < issuedAfter || at > now || now - at >= c.maxProofAge {
      return Err(Expired);
    }
    var expected := CollectExpected(c, digest);
    var count := |expected|;
    var matched := MatchCommitments(expected, inputs[5..5 + count]);
    if !matched {
      return Err(InvalidBinding);
    }
    var nullifierType := NarrowU64(inputs[5 + count]);
    if nullifierType.Err? {
      return Err(nullifierType.error);
    }
    if nullifierType.value != 2 || inputs[6 + count] == 0 || inputs[7 + count] != 0 {
      return Err(InvalidPolicy);
    }
    if at + c.maxProofAge > U64_MAX {
      return Err(Arithmetic);
    }
    return Ok(Grant(at, Min(Min(at + c.maxProofAge, expiresAt), c.validUntil)));
  }

  // ------------------------------------------------------------------- stored grants

  /** What the vault keeps of an accepted proof: the grant with the later proof time. */
  function Newer(stored: Option<Grant>, g: Grant): Grant {
    if stored.Some? && stored.value.proofTime >= g.proofTime then stored.value else g
  }

  function StoreAll(stored: Option<Grant>, gs: seq<Grant>): Option<Grant>
    decreases |gs|
  {
    if gs == [] then stored else StoreAll(Some(Newer(stored, gs[0])), gs[1..])
  }

  /** Grants of one policy: the expiry is a function of the proof time. */
  predicate OfPolicy(c: PolicyConfig, g: Grant) {
    g.validUntil == Min(Min(g.proofTime + c.maxProofAge, c.validUntil), c.validUntil)
  }

  lemma CheckedIsOfPolicy(c: PolicyConfig, digest: Word, now: nat, inputs: seq<Word>)
    requires |inputs| == 8 + |Expected(c, digest)|
    requires Check(c, digest, 0, c.validUntil, now, inputs).Ok?
    ensures OfPolicy(c, Check(c, digest, 0, c.validUntil, now, inputs).value)
  {
    hide Expected,Matches;
  }

  /**
   An accepted proof is younger than the maximum age and never already expired: its grant runs out
   with that age or with the policy, whichever comes first, and after now while the policy is current.
   */
  lemma AcceptedProofIsFresh(c: PolicyConfig, digest: Word, now: nat, inputs: seq<Word>)
    requires |inputs| == 8 + |Expected(c, digest)|
    requires Check(c, digest, 0, c.validUntil, now, inputs).Ok?
    ensures var g := Check(c, digest, 0, c.validUntil, now, inputs).value;
            && g.proofTime <= now < g.proofTime + c.maxProofAge <= U64_MAX
            && g.validUntil <= c.validUntil && g.validUntil <= g.proofTime + c.maxProofAge
            && (now < c.validUntil <==> now < g.validUntil)
  {
    hide Expected, Matches;
  }

  // ------------------------------------------------------------- what an accepted proof says

  /** The parameter commitments of the policy that do not depend on the customer. */
  function Constraints(c: PolicyConfig): multiset<Word> {
    multiset{c.ageCommitment}
    + (if c.nationalities.Some? then multiset{c.nationalities.value} else multiset{})
    + (if c.issuers.Some? then multiset{c.issuers.value} else multiset{})
    + (if c.sanctions.Some? then multiset{c.sanctions.value} else multiset{})
  }

  function ParameterCount(c: PolicyConfig): nat {
    2 + (if c.nationalities.Some? then 1 else 0) + (if c.issuers.Some? then 1 else 0) + (if c.sanctions.Some? then 1 else 0)
  }

  /** Both roots, the domain and the scope, exactly the policy's commitments, and a salted nullifier. */
  predicate Carries(c: PolicyConfig, digest: Word, inputs: seq<Word>) {
    var n := ParameterCount(c);
    && |inputs| == 8 + n
    && inputs[0] == c.certificateRoot && inputs[1] == c.circuitRoot
    && inputs[3] == c.domainHash && inputs[4] == c.scopeHash
    && multiset(inputs[5..5 + n]) == Constraints(c) + multiset{c.bindingOf(digest)}
    && inputs[5 + n] == 2 && inputs[6 + n] != 0 && inputs[7 + n] == 0
  }

  lemma ExpectedIsParameters(c: PolicyConfig, digest: Word)
    ensures |Expected(c, digest)| == ParameterCount(c)
    ensures multiset(Expected(c, digest)) == Constraints(c) + multiset{c.bindingOf(digest)}
  {
  }

  /**
   A proof is accepted if and only if it carries what the policy asks for this challenge and its time is
   in the past, not before the given one, and younger than the maximum age. Its grant starts there and
   ends with the age, the given end or the policy, whichever comes first.
   */
  lemma AcceptedExactly(c: PolicyConfig, digest: Word, issuedAfter: nat, expiresAt: nat, now: nat, inputs: seq<Word>)
    requires |inputs| == 8 + |Expected(c, digest)|
    ensures Check(c, digest, issuedAfter, expiresAt, now, inputs).Ok?
            <==> && Carries(c, digest, inputs)
                 && issuedAfter <= inputs[2] <= now < inputs[2] + c.maxProofAge <= U64_MAX
    ensures Check(c, digest, issuedAfter, expiresAt, now, inputs).Ok? ==>
              var g := Check(c, digest, issuedAfter, expiresAt, now, inputs).value;
              && g.proofTime == inputs[2]
              && g.validUntil <= inputs[2] + c.maxProofAge && g.validUntil <= expiresAt && g.validUntil <= c.validUntil
              && (g.validUntil == inputs[2] + c.maxProofAge || g.validUntil == expiresAt || g.validUntil == c.validUntil)
  {
    hide Expected, Constraints, ParameterCount;
    ExpectedIsParameters(c, digest);
  }

  ghost predicate Injective(f: Word -> Word) {
    forall x, y :: f(x) == f(y) ==> x == y
  }

  lemma CancelCommon(m: multiset<Word>, x: Word, y: Word)
    requires m + multiset{x} == m + multiset{y}
    ensures x == y
  {
    assert (m + multiset{x})[x] == m[x] + 1;
  }

  /** The binding commitment ties a proof to one challenge. */
  lemma ProofHasOneChallenge(c: PolicyConfig, a: Word, b: Word, inputs: seq<Word>)
    requires Injective(c.bindingOf) && Carries(c, a, inputs) && Carries(c, b, inputs)
    ensures a == b
  {
    hide Constraints;
    CancelCommon(Constraints(c), c.bindingOf(a), c.bindingOf(b));
  }

  /** Any sequence of accepted proofs leaves the one with the greatest proof time. */
  lemma {:induction false} StoresGreatest(stored: Option<Grant>, gs: seq<Grant>)
    requires stored.Some? || gs != []
    ensures StoreAll(stored, gs).Some?
    ensures var r := StoreAll(stored, gs).value;
            && ((stored.Some? && r == stored.value) || r in gs)
            && (stored.Some? ==> stored.value.proofTime <= r.proofTime)
            && forall i :: 0 <= i < |gs| ==> gs[i].proofTime <= r.proofTime
    decreases |gs|
  {
    if gs != [] {
      StoresGreatest(Some(Newer(stored, gs[0])), gs[1..]);
      assert forall i :: 1 <= i < |gs| ==> gs[i] == gs[1..][i - 1];
    }
  }

  /** The result does not depend on the order in which the proofs were submitted. */
  lemma OrderIndependent(c: PolicyConfig, gs: seq<Grant>, hs: seq<Grant>)
    requires gs != [] && multiset(gs) == multiset(hs)
    requires forall i :: 0 <= i < |gs| ==> OfPolicy(c, gs[i])
    ensures StoreAll(None, gs) == StoreAll(None, hs)
  {
    assert |gs| == |multiset(gs)| == |multiset(hs)| == |hs|;
    StoresGreatest(None, gs);
    StoresGreatest(None, hs);
    var a, b := StoreAll(None, gs).value, StoreAll(None, hs).value;
    assert a in multiset(gs) && b in multiset(hs);
    assert a in hs && b in gs;
    var i :| 0 <= i < |hs| && hs[i] == a;
    var j :| 0 <= j < |gs| && gs[j] == b;
    var k :| 0 <= k < |gs| && gs[k] == a;
    assert a.proofTime == b.proofTime;
    assert OfPolicy(c, gs[j]) && OfPolicy(c, gs[k]);
  }

  /** The stored expiry never decreases. */
  lemma ExpiryMonotone(c: PolicyConfig, stored: Grant, gs: seq<Grant>)
    requires OfPolicy(c, stored) && forall i :: 0 <= i < |gs| ==> OfPolicy(c, gs[i])
    ensures StoreAll(Some(stored), gs).Some?
    ensures StoreAll(Some(stored), gs).value.validUntil >= stored.validUntil
  {
    StoresGreatest(Some(stored), gs);
    var r := StoreAll(Some(stored), gs).value;
    if r != stored {
      var i :| 0 <= i < |gs| && gs[i] == r;
      assert OfPolicy(c, gs[i]);
    }
  }

  // ---------------------------------------------------------------------- country lists

  /** A three-letter code as its bytes. */
  datatype Code = Code(a: Byte, b: Byte, c: Byte)

  predicate UpperCase(x: Code) {
    65 <= x.a <= 90 && 65 <= x.b <= 90 && 65 <= x.c <= 90
  }

  predicate Before(x: Code, y: Code) {
    x.a < y.a || (x.a == y.a && (x.b < y.b || (x.b == y.b && x.c < y.c)))
  }

  /** A code is upper case exactly if its bytes are letters from A to Z, and the order is that of the alphabet. */
  lemma AlphabeticalOrder(x: Code, y: Code)
    ensures UpperCase(x) <==> 'A' <= x.a as char <= 'Z' && 'A' <= x.b as char <= 'Z' && 'A' <= x.c as char <= 'Z'
    ensures Before(x, y) <==> x.a * 65536 + x.b * 256 + x.c < y.a * 65536 + y.b * 256 + y.c
  {
  }

  /** `valid_countries`: at most ten upper-case codes in strictly ascending order, hence no repeats. */
  method ValidCountries(codes: seq<Code>) returns (ok: bool)
    ensures ok <==>
            && |codes| <= 10
            && (forall i :: 0 <= i < |codes| ==> UpperCase(codes[i]))
            && (forall i, j :: 0 <= i < j < |codes| ==> Before(codes[i], codes[j]))
  {
    if |codes| > 10 {
      return false;
    }
    var previous: Option<Code> := None;
    for k := 0 to |codes|
      invariant previous == if k == 0 then None else Some(codes[k - 1])
      invariant forall i :: 0 <= i < k ==> UpperCase(codes[i])
      invariant forall i, j :: 0 <= i < j < k ==> Before(codes[i], codes[j])
    {
      if !UpperCase(codes[k]) || (previous.Some? && !Before(previous.value, codes[k])) {
        return false;
      }
      previous := Some(codes[k]);
    }
    return true;
  }
}
