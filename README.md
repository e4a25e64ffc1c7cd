# Proof-of-existence pallet, modelled in Dafny

This project models the proof-of-existence (PoE) pallet of a Substrate runtime. The pallet is a registry of claims. A claim is a byte string of at most `MaxClaimLength` bytes. The storage map `Proofs` maps each claim to its owner account and the block number at which the claim was last created or transferred. Three dispatchable calls change that map:

- `create_claim` stores a new claim for the sender.
- `revoke_claim` lets the owner remove a claim.
- `transfer_claim` lets the owner hand a claim to another account.

Every call does its checks in a fixed order: the length, then existence, then ownership. It writes storage and deposits an event only after the last check has passed.

Files:

- `poe.dfy`, module `Poe`: the types (`Event`, `Error`, `DispatchResult`, the `Proofs` map) and the three calls as pure transitions. Each transition returns a `Step`: the dispatch result, the map afterwards, and the events deposited. The single-call properties are the `ensures` of these functions: failure atomicity, which error arises when, the exact new map, and the event. The module also defines the registry invariant `Inv`, proves that each call preserves it, and proves properties of call sequences.
- `pallet.dfy`, module `PoePallet`: the class `Pallet`. Its fields `proofs` and `events` are the runtime storage and the event log. Its methods update them in place with the same early returns as the pallet's code. Each method's new state is tied to the matching `Poe` transition of the old state, and each keeps `Valid()`, which is `Inv`. `EndToEnd` is a client that runs a five-call scenario on a fresh pallet, using only the method contracts.

`Inv` combines three facts:

- every stored key fits `MaxClaimLength` (the key type is a bounded vector);
- the stored keys are exactly the claims whose most recent event in the log is not a revocation;
- a claim whose last event is its creation is owned by its creator.

The account type is a type parameter with equality. The sender is an already-authenticated account, and the current block number `now` is a parameter.

Where the code and its comments differ, the model follows the code. At pallets/poe/src/lib.rs:134 the comment says the entry is deleted. The code at line 135 overwrites it with `(dest, now)`, and `TransferClaim` models that overwrite. A transfer to oneself is not rejected: it succeeds and refreshes the block number (`SelfTransferRefreshes`).

## Model

| member | source | states |
|---|---|---|
| `Poe.TryIntoBounded` | pallets/poe/src/lib.rs:74-76 | the conversion to a bounded vector succeeds exactly when the claim has at most `MaxClaimLength` bytes (a claim of exactly that length passes), and it keeps the bytes unchanged |
| `Poe.CreateClaim` | pallets/poe/src/lib.rs:70-89 | `ClaimTooLong` exactly when the claim is too long; `ProofAlreadyExist` exactly when it fits and is already stored, whoever the caller; on any error the map is unchanged and no event is deposited; on success the key set gains exactly the claim, which maps to `(sender, now)`, no other entry changes, and only `ClaimCreated(sender, claim)` is deposited |
| `Poe.RevokeClaim` | pallets/poe/src/lib.rs:92-113 | `ClaimTooLong`, then `ClaimNotExist` for an absent claim, then `NotClaimOwner` for a stored claim owned by someone else, each exactly in its case; errors change nothing and deposit nothing; success happens exactly when the sender owns the stored claim, and it then removes exactly that key, leaves all other entries unchanged and deposits only `ClaimRevoked(sender, claim)` |
| `Poe.TransferClaim` | pallets/poe/src/lib.rs:116-141 | the same error cases and order as revoke, with no effect on error; on success the key set is unchanged, the claim maps to `(dest, now)`, every other entry is unchanged, and the one event is `ClaimTransfered(sender, sender, claim)`, so its owner field equals the sender |
| `Poe.EmptyInv` | pallets/poe/src/lib.rs:34-41 | the empty map with an empty event log satisfies the registry invariant |
| `Poe.CreateClaimPreservesInv` | pallets/poe/src/lib.rs:70-89 | `create_claim` preserves the registry invariant: keys stay bounded, the key set stays the set of claims live in the log, creators own what they last created |
| `Poe.RevokeClaimPreservesInv` | pallets/poe/src/lib.rs:92-113 | `revoke_claim` preserves the registry invariant |
| `Poe.TransferClaimPreservesInv` | pallets/poe/src/lib.rs:116-141 | `transfer_claim` preserves the registry invariant |
| `Poe.CreateTwiceFails` | pallets/poe/src/lib.rs:79-84 | after a successful create, a second create of the same bytes by any caller fails with `ProofAlreadyExist` and changes nothing |
| `Poe.RevokeThenCreate` | pallets/poe/src/lib.rs:79-110 | after a successful revoke, any caller can create the same claim again and becomes its owner |
| `Poe.CreateThenTransfer` | pallets/poe/src/lib.rs:79-135 | create followed by a transfer to `bob` leaves exactly one entry for the claim, owned by `bob` at the transfer's block |
| `Poe.SelfTransferRefreshes` | pallets/poe/src/lib.rs:116-141 | a transfer with `dest == sender` by the owner succeeds and only refreshes the block number |
| `PoePallet.Pallet.constructor` | pallets/poe/src/lib.rs:34-41 | a new pallet starts with an empty `Proofs` map and an empty event log, and satisfies the invariant |
| `PoePallet.Pallet.CreateClaim` | pallets/poe/src/lib.rs:70-89 | the in-place call returns the result of `Poe.CreateClaim`, its map becomes that step's map, the log gains exactly that step's events, and the invariant is kept |
| `PoePallet.Pallet.RevokeClaim` | pallets/poe/src/lib.rs:92-113 | the in-place call agrees with `Poe.RevokeClaim` on result, map and appended events, and keeps the invariant |
| `PoePallet.Pallet.TransferClaim` | pallets/poe/src/lib.rs:116-141 | the in-place call agrees with `Poe.TransferClaim` on result, map and appended events, and keeps the invariant |
| `PoePallet.EndToEnd` | pallets/poe/src/lib.rs:68-142 | with `MaxClaimLength = 4`: Alice's create succeeds, Bob's create of the same claim fails with `ProofAlreadyExist`, Alice's transfer to Carol succeeds, Alice's revoke then fails with `NotClaimOwner`, Carol's revoke succeeds; the log is exactly the three events and the claim is no longer stored |

## Left out

- Origin authentication (`ensure_signed`, lines 72, 94, 122) is done by the system pallet; the model takes the sender as an already-authenticated account, so the `BadOrigin` error is not modelled.
- The block number (`block_number()`, lines 83, 135) comes from the system pallet's clock; it is a parameter. It is modelled as an unbounded natural number. The code does not check that it grows, so the model claims no ordering between timestamps.
- The `Blake2_128Concat` key hasher (line 38) is a storage-layout detail; the map is keyed by the exact bytes.
- Macro and runtime plumbing is not modelled: the pallet attributes, `generate_store`, the empty `Hooks` implementation (line 64), the `RuntimeEvent` conversion (line 25), the weight annotations and the post-dispatch info of the result.
- Persistence, and the ordering of calls by the host runtime, belong to the runtime; the model treats calls as applied one at a time, in the order its methods are called.
