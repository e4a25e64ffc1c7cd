/** The pallet as runtime storage: the `Proofs` map and the event log are
    fields that the three dispatchable calls update in place, each after
    all of its checks have passed. Each call's new state is the `Step` the
    matching function of module Poe computes from the old state.
 */
module PoePallet {
  import opened Poe

  class Pallet<A(==)> {
    /** The configured `MaxClaimLength`; fixed for the pallet's lifetime. */
    const maxClaimLength: u32
    var proofs: Proofs<A>
    var events: seq<Event<A>>

    ghost predicate Valid()
      reads this
    {
      Inv(maxClaimLength, proofs, events)
    }

    /** Genesis: no claim stored and no event deposited. */
    constructor (maxClaimLength: u32)
      ensures this.maxClaimLength == maxClaimLength
      ensures proofs == map[] && events == []
      ensures Valid()
    {
      this.maxClaimLength := maxClaimLength;
      proofs := map[];
      events := [];
      EmptyInv<A>(maxClaimLength);
    }

    method CreateClaim(sender: A, claim: seq<u8>, now: BlockNumber) returns (r: DispatchResult)
      requires Valid()
      modifies this
      ensures Valid()
      ensures var st := Poe.CreateClaim(maxClaimLength, old(proofs), sender, claim, now);
              r == st.result && proofs == st.proofs && events == old(events) + st.deposited
    {
      CreateClaimPreservesInv(maxClaimLength, proofs, events, sender, claim, now);
      var bounded := TryIntoBounded(maxClaimLength, claim);
      if bounded.None? {
        return Err(ClaimTooLong);
      }
      if bounded.value in proofs {
        return Err(ProofAlreadyExist);
      }
      proofs := proofs[bounded.value := (sender, now)];
      events := events + [ClaimCreated(sender, claim)];
      r := Ok;
    }

    method RevokeClaim(sender: A, claim: seq<u8>) returns (r: DispatchResult)
      requires Valid()
      modifies this
      ensures Valid()
      ensures var st := Poe.RevokeClaim(maxClaimLength, old(proofs), sender, claim);
              r == st.result && proofs == st.proofs && events == old(events) + st.deposited
    {
      RevokeClaimPreservesInv(maxClaimLength, proofs, events, sender, claim);
      var bounded := TryIntoBounded(maxClaimLength, claim);
      if bounded.None? {
        return Err(ClaimTooLong);
      }
      if bounded.value !in proofs {
        return Err(ClaimNotExist);
      }
      var (owner, _) := proofs[bounded.value];
      if owner != sender {
        return Err(NotClaimOwner);
      }
      proofs := proofs - {bounded.value};
      events := events + [ClaimRevoked(sender, claim)];
      r := Ok;
    }

    method TransferClaim(sender: A, claim: seq<u8>, dest: A, now: BlockNumber) returns (r: DispatchResult)
      requires Valid()
      modifies this
      ensures Valid()
      ensures var st := Poe.TransferClaim(maxClaimLength, old(proofs), sender, claim, dest, now);
              r == st.result && proofs == st.proofs && events == old(events) + st.deposited
    {
      TransferClaimPreservesInv(maxClaimLength, proofs, events, sender, claim, dest, now);
      var bounded := TryIntoBounded(maxClaimLength, claim);
      if bounded.None? {
        return Err(ClaimTooLong);
      }
      if bounded.value !in proofs {
        return Err(ClaimNotExist);
      }
      var (owner, _) := proofs[bounded.value];
      if owner != sender {
        return Err(NotClaimOwner);
      }
      proofs := proofs[bounded.value := (dest, now)];
      events := events + [ClaimTransfered(owner, sender, claim)];
      r := Ok;
    }
  }

  /** A run against a fresh pallet with `MaxClaimLength = 4`: Alice creates a
      claim, Bob cannot create it again, Alice transfers it to Carol, Alice
      can then no longer revoke it, Carol can. */
  method EndToEnd<A(==)>(alice: A, bob: A, carol: A)
    returns (r1: DispatchResult, r2: DispatchResult, r3: DispatchResult, r4: DispatchResult,
             r5: DispatchResult, log: seq<Event<A>>, stored: bool)
    requires alice != carol
    ensures r1 == Ok && r2 == Err(ProofAlreadyExist) && r3 == Ok && r4 == Err(NotClaimOwner) && r5 == Ok
    ensures log == [ClaimCreated(alice, [1, 2, 3, 4]), ClaimTransfered(alice, alice, [1, 2, 3, 4]),
                    ClaimRevoked(carol, [1, 2, 3, 4])]
    ensures !stored
  {
    var p := new Pallet<A>(4);
    var c: seq<u8> := [1, 2, 3, 4];
    r1 := p.CreateClaim(alice, c, 1);
    r2 := p.CreateClaim(bob, c, 2);
    r3 := p.TransferClaim(alice, c, carol, 3);
    r4 := p.RevokeClaim(alice, c);
    r5 := p.RevokeClaim(carol, c);
    log := p.events;
    stored := c in p.proofs;
  }
}
