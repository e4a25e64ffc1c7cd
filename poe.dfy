/** The proof-of-existence claim registry: its data model and the three
    dispatchable calls as pure transitions over the `Proofs` storage map.

    `Proofs` maps a claim (a byte string of at most `MaxClaimLength` bytes)
    to the account that owns it and the block number at which it was
    last created or transferred. Every call validates its input, looks the
    claim up, checks policy, and only then writes the map and deposits one
    event. A call's effect is described by a `Step`: the dispatch result,
    the map afterwards, and the events it deposited (none on an error).
 */
module Poe {

  newtype u8 = x: int | 0 <= x < 0x100
  newtype u32 = x: int | 0 <= x < 0x1_0000_0000

  /** Block numbers come from the runtime's clock; modelled unbounded. */
  type BlockNumber = nat

  datatype Option<T> = None | Some(value: T)

  /** What a deposited event records; the claim is the caller's raw bytes. */
  datatype Event<A> =
    | ClaimCreated(who: A, claim: seq<u8>)
    | ClaimRevoked(who: A, claim: seq<u8>)
    | ClaimTransfered(owner: A, sender: A, claim: seq<u8>)

  datatype Error = ProofAlreadyExist | ClaimTooLong | ClaimNotExist | NotClaimOwner

  datatype DispatchResult = Ok | Err(error: Error)

  /** The storage map: claim bytes to (owner, block number). */
  type Proofs<A> = map<seq<u8>, (A, BlockNumber)>

  datatype Step<A> = Step(result: DispatchResult, proofs: Proofs<A>, deposited: seq<Event<A>>)

  /** A claim fits the bound when it is no longer than `maxClaimLength`. */
  predicate Fits(maxClaimLength: u32, claim: seq<u8>)
  {
    |claim| <= maxClaimLength as int
  }

  /** The fallible conversion of a raw byte vector into a bounded one. */
  function TryIntoBounded(maxClaimLength: u32, claim: seq<u8>): (r: Option<seq<u8>>)
    ensures r.Some? <==> |claim| <= maxClaimLength as int
    ensures r.Some? ==> r.value == claim && |r.value| <= maxClaimLength as int
  {
    if |claim| <= maxClaimLength as int then Some(claim) else None
  }

  /** `create_claim`: record `sender` as the owner of a new claim at block `now`. */
  function CreateClaim<A>(maxClaimLength: u32, proofs: Proofs<A>, sender: A, claim: seq<u8>, now: BlockNumber): (r: Step<A>)
    // failure atomicity: an error writes nothing and deposits nothing
    ensures r.result.Err? ==> r.proofs == proofs && r.deposited == []
    // the length check comes first, whoever the caller and whatever is stored
    ensures r.result == Err(ClaimTooLong) <==> !Fits(maxClaimLength, claim)
    // uniqueness, for any caller
    ensures r.result == Err(ProofAlreadyExist) <==> Fits(maxClaimLength, claim) && claim in proofs
    ensures r.result.Ok? <==> Fits(maxClaimLength, claim) && claim !in proofs
    // success: exactly one entry is added, no other entry changes
    ensures r.result.Ok? ==>
      && r.proofs.Keys == proofs.Keys + {claim}
      && r.proofs[claim] == (sender, now)
      && (forall c :: c in proofs ==> r.proofs[c] == proofs[c])
      && r.deposited == [ClaimCreated(sender, claim)]
  {
    match TryIntoBounded(maxClaimLength, claim)
    case None => Step(Err(ClaimTooLong), proofs, [])
    case Some(bounded) =>
      if bounded in proofs then Step(Err(ProofAlreadyExist), proofs, [])
      else Step(Ok, proofs[bounded := (sender, now)], [ClaimCreated(sender, claim)])
  }

  /** `revoke_claim`: the owner removes its claim. */
  function RevokeClaim<A(==)>(maxClaimLength: u32, proofs: Proofs<A>, sender: A, claim: seq<u8>): (r: Step<A>)
    ensures r.result.Err? ==> r.proofs == proofs && r.deposited == []
    ensures r.result == Err(ClaimTooLong) <==> !Fits(maxClaimLength, claim)
    // existence is checked before ownership
    ensures r.result == Err(ClaimNotExist) <==> Fits(maxClaimLength, claim) && claim !in proofs
    ensures r.result == Err(NotClaimOwner) <==>
      Fits(maxClaimLength, claim) && claim in proofs && proofs[claim].0 != sender
    ensures r.result.Ok? <==> Fits(maxClaimLength, claim) && claim in proofs && proofs[claim].0 == sender
    // success: exactly the claim's entry is removed, no other entry changes
    ensures r.result.Ok? ==>
      && r.proofs.Keys == proofs.Keys - {claim}
      && (forall c :: c in r.proofs ==> r.proofs[c] == proofs[c])
      && r.deposited == [ClaimRevoked(sender, claim)]
  {
    match TryIntoBounded(maxClaimLength, claim)
    case None => Step(Err(ClaimTooLong), proofs, [])
    case Some(bounded) =>
      if bounded !in proofs then Step(Err(ClaimNotExist), proofs, [])
      else
        var (owner, _) := proofs[bounded];
        if owner != sender then Step(Err(NotClaimOwner), proofs, [])
        else Step(Ok, proofs - {bounded}, [ClaimRevoked(sender, claim)])
  }

  /** `transfer_claim`: the owner hands its claim to `dest`; the entry is
      overwritten with `(dest, now)`, not deleted. */
  function TransferClaim<A(==)>(maxClaimLength: u32, proofs: Proofs<A>, sender: A, claim: seq<u8>, dest: A, now: BlockNumber): (r: Step<A>)
    ensures r.result.Err? ==> r.proofs == proofs && r.deposited == []
    ensures r.result == Err(ClaimTooLong) <==> !Fits(maxClaimLength, claim)
    ensures r.result == Err(ClaimNotExist) <==> Fits(maxClaimLength, claim) && claim !in proofs
    ensures r.result == Err(NotClaimOwner) <==>
      Fits(maxClaimLength, claim) && claim in proofs && proofs[claim].0 != sender
    ensures r.result.Ok? <==> Fits(maxClaimLength, claim) && claim in proofs && proofs[claim].0 == sender
    // success: no key is added or removed, only the claim's entry changes,
    // and the event's previous owner is the sender itself
    ensures r.result.Ok? ==>
      && r.proofs.Keys == proofs.Keys
      && r.proofs[claim] == (dest, now)
      && (forall c :: c in proofs && c != claim ==> r.proofs[c] == proofs[c])
      && r.deposited == [ClaimTransfered(sender, sender, claim)]
  {
    match TryIntoBounded(maxClaimLength, claim)
    case None => Step(Err(ClaimTooLong), proofs, [])
    case Some(bounded) =>
      if bounded !in proofs then Step(Err(ClaimNotExist), proofs, [])
      else
        var (owner, _) := proofs[bounded];
        if owner != sender then Step(Err(NotClaimOwner), proofs, [])
        else Step(Ok, proofs[bounded := (dest, now)], [ClaimTransfered(owner, sender, claim)])
  }

  // ---------------------------------------------------------------------
  // The registry invariant: what the event log says about the map.

  /** The most recent event in `events` about `claim`, if any. */
  function LastEventFor<A>(events: seq<Event<A>>, claim: seq<u8>): (r: Option<Event<A>>)
    ensures r.Some? ==> r.value in events && r.value.claim == claim
    ensures r.None? <==> forall i :: 0 <= i < |events| ==> events[i].claim != claim
    decreases |events|
  {
    if events == [] then None
    else if events[|events| - 1].claim == claim then Some(events[|events| - 1])
    else LastEventFor(events[..|events| - 1], claim)
  }

  /** A claim is live when its most recent event is not a revocation. */
  predicate Live<A>(events: seq<Event<A>>, claim: seq<u8>)
  {
    var e := LastEventFor(events, claim);
    e.Some? && !e.value.ClaimRevoked?
  }

  /** Every stored key fits the bound (the key type is a bounded vector). */
  ghost predicate KeysBounded<A>(maxClaimLength: u32, proofs: Proofs<A>)
  {
    forall c :: c in proofs ==> Fits(maxClaimLength, c)
  }

  /** The stored keys are exactly the claims the event log shows as live. */
  ghost predicate KeysExplained<A>(proofs: Proofs<A>, events: seq<Event<A>>)
  {
    forall c :: c in proofs <==> Live(events, c)
  }

  /** A claim whose last event is its creation is owned by its creator. */
  ghost predicate CreatorsOwn<A>(proofs: Proofs<A>, events: seq<Event<A>>)
  {
    forall c :: c in proofs && LastEventFor(events, c).Some? && LastEventFor(events, c).value.ClaimCreated? ==>
      proofs[c].0 == LastEventFor(events, c).value.who
  }

  ghost predicate Inv<A>(maxClaimLength: u32, proofs: Proofs<A>, events: seq<Event<A>>)
  {
    KeysBounded(maxClaimLength, proofs) && KeysExplained(proofs, events) && CreatorsOwn(proofs, events)
  }

  /** Appending an event changes the last event of its own claim only. */
  lemma LastEventForAppend<A>(events: seq<Event<A>>, e: Event<A>, claim: seq<u8>)
    ensures LastEventFor(events + [e], claim) ==
      if e.claim == claim then Some(e) else LastEventFor(events, claim)
  {
  }

  lemma EmptyInv<A>(maxClaimLength: u32)
    ensures Inv<A>(maxClaimLength, map[], [])
  {
  }

  lemma CreateClaimPreservesInv<A>(maxClaimLength: u32, proofs: Proofs<A>, events: seq<Event<A>>,
                                   sender: A, claim: seq<u8>, now: BlockNumber)
    requires Inv(maxClaimLength, proofs, events)
    ensures var st := CreateClaim(maxClaimLength, proofs, sender, claim, now);
            Inv(maxClaimLength, st.proofs, events + st.deposited)
  {
    var st := CreateClaim(maxClaimLength, proofs, sender, claim, now);
    if st.result.Ok? {
      var e := ClaimCreated(sender, claim);
      forall c ensures LastEventFor(events + [e], c) == if c == claim then Some(e) else LastEventFor(events, c) {
        LastEventForAppend(events, e, c);
      }
    } else {
      assert events + st.deposited == events;
    }
  }

  lemma RevokeClaimPreservesInv<A>(maxClaimLength: u32, proofs: Proofs<A>, events: seq<Event<A>>,
                                   sender: A, claim: seq<u8>)
    requires Inv(maxClaimLength, proofs, events)
    ensures var st := RevokeClaim(maxClaimLength, proofs, sender, claim);
            Inv(maxClaimLength, st.proofs, events + st.deposited)
  {
    var st := RevokeClaim(maxClaimLength, proofs, sender, claim);
    if st.result.Ok? {
      var e := ClaimRevoked(sender, claim);
      forall c ensures LastEventFor(events + [e], c) == if c == claim then Some(e) else LastEventFor(events, c) {
        LastEventForAppend(events, e, c);
      }
    } else {
      assert events + st.deposited == events;
    }
  }

  lemma TransferClaimPreservesInv<A>(maxClaimLength: u32, proofs: Proofs<A>, events: seq<Event<A>>,
                                     sender: A, claim: seq<u8>, dest: A, now: BlockNumber)
    requires Inv(maxClaimLength, proofs, events)
    ensures var st := TransferClaim(maxClaimLength, proofs, sender, claim, dest, now);
            Inv(maxClaimLength, st.proofs, events + st.deposited)
  {
    var st := TransferClaim(maxClaimLength, proofs, sender, claim, dest, now);
    if st.result.Ok? {
      var e := ClaimTransfered(sender, sender, claim);
      forall c ensures LastEventFor(events + [e], c) == if c == claim then Some(e) else LastEventFor(events, c) {
        LastEventForAppend(events, e, c);
      }
    } else {
      assert events + st.deposited == events;
    }
  }

  // ---------------------------------------------------------------------
  // Properties of call sequences.

  /** Once created, a claim cannot be created again by anyone. */
  lemma CreateTwiceFails<A>(maxClaimLength: u32, proofs: Proofs<A>, alice: A, bob: A,
                            claim: seq<u8>, t1: BlockNumber, t2: BlockNumber)
    requires CreateClaim(maxClaimLength, proofs, alice, claim, t1).result.Ok?
    ensures var p1 := CreateClaim(maxClaimLength, proofs, alice, claim, t1).proofs;
            CreateClaim(maxClaimLength, p1, bob, claim, t2) == Step(Err(ProofAlreadyExist), p1, [])
  {
  }

  /** After the owner revokes a claim, anyone may create it afresh. */
  lemma RevokeThenCreate<A>(maxClaimLength: u32, proofs: Proofs<A>, alice: A, bob: A,
                            claim: seq<u8>, now: BlockNumber)
    requires RevokeClaim(maxClaimLength, proofs, alice, claim).result.Ok?
    ensures var p1 := RevokeClaim(maxClaimLength, proofs, alice, claim).proofs;
            var st := CreateClaim(maxClaimLength, p1, bob, claim, now);
            st.result.Ok? && st.proofs[claim] == (bob, now) && st.proofs.Keys == proofs.Keys
  {
  }

  /** Creating then transferring leaves exactly one entry for the claim,
      owned by the destination. */
  lemma CreateThenTransfer<A>(maxClaimLength: u32, proofs: Proofs<A>, alice: A, bob: A,
                              claim: seq<u8>, t1: BlockNumber, t2: BlockNumber)
    requires CreateClaim(maxClaimLength, proofs, alice, claim, t1).result.Ok?
    ensures var p1 := CreateClaim(maxClaimLength, proofs, alice, claim, t1).proofs;
            var st := TransferClaim(maxClaimLength, p1, alice, claim, bob, t2);
            st.result.Ok? && st.proofs.Keys == proofs.Keys + {claim} && st.proofs[claim] == (bob, t2)
  {
  }

  /** A transfer to oneself is accepted and only refreshes the block number. */
  lemma SelfTransferRefreshes<A>(maxClaimLength: u32, proofs: Proofs<A>, sender: A,
                                 claim: seq<u8>, now: BlockNumber)
    requires Fits(maxClaimLength, claim) && claim in proofs && proofs[claim].0 == sender
    ensures TransferClaim(maxClaimLength, proofs, sender, claim, sender, now) ==
            Step(Ok, proofs[claim := (sender, now)], [ClaimTransfered(sender, sender, claim)])
  {
  }
}
