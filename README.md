# Kitties pallet registry, modelled in Dafny

This project models the kitty registry of a Substrate FRAME pallet. The pallet keeps three storage items:

- `KittyCount`: a `u32` count of minted kitties.
- `Kitties`: a map from dna (a 32-byte hash) to a `Kitty` record. A record holds the dna, the owner, a `u32` price, a gender and a creation date.
- `KittiesOwned`: a map from account to a bounded list of dna. The list holds at most `MaxOwned` entries. An account with no entry reads as an empty list.

Two dispatchables change this state:

- `create_kitty` mints a new kitty for the caller.
- `transfer` moves a kitty from the caller to another account.

Files:

- `bounded_vec.dfy` (module `BoundedVec`): the three list operations the pallet uses on a `BoundedVec`. They are `try_push`, the `iter().position` search and `swap_remove`.
- `kitty_index.dfy` (module `KittyIndex`): the stored values, the error and event enums, and `get_gender`.
  - `Consistent` states that `Kitties` and `KittiesOwned` describe the same ownership.
  - `Bounded` states the `MaxOwned` bound on every list.
  - Value-level lemmas prove that a mint and a transfer preserve both predicates.
- `kitties.dfy` (module `Kitties`): class `Pallet`. Its fields are the three storage items plus the deposited events, and `maxOwned` is a constant set at construction.
  - The queries `is_exceed_max_kitty` and `is_kitty_owner` are functions.
  - `mint`, `create_kitty`, `transfer_kitty_to` and `transfer` are methods. Their contracts state the result and the whole new state.
  - `Valid()` is the pallet invariant. It combines the list bound, the two maps' consistency, and the count being equal to the number of records.
- `kitty_scenarios.dfy` (module `KittyScenarios`): call sequences proved from the method contracts alone.
  - `MintUpToMaxOwned` mints `MaxOwned` times for one account and then hits the limit, as the pallet's unit test at pallets/kitties/src/tests.rs:32-47 does.
  - `TwoOwnerScenario` runs mint, mint, refused mint, transfer, refused repeat transfer and refused self-transfer under an assumed `MaxOwned = 2`. It chains steps that the unit tests check one at a time (pallets/kitties/src/tests.rs:16-28, 82, 104 and 116); no single unit test runs this sequence.

The host's randomness (`T::Randomness::random`) and clock (`T::Time::now`) are parameters of `Mint` and `CreateKitty`: the new dna and the current moment. The signed origin is reduced to the account `who`.

Behaviours of the pallet that the model keeps as written:

- `transfer_kitty_to` does not roll back when its final push fails. It leaves the swap-removal and the owner rewrite in place. `TransferKittyTo` models that partial write. `Transfer` proves that its own checks rule the failure out.
- `mint` does not check that a dna is fresh. When the owner's list has room, a colliding dna is pushed onto that owner's list, overwrites the stored record (whose owner becomes the minting account), and still increments the count. If another account already holds the dna, it stays in that account's list too. The invariant `Valid()` is therefore proved to survive `Mint` and `CreateKitty` only for a dna not yet registered.
- `create_kitty` returns unit, not the new dna. Only `mint` returns the dna.

## Model

| member | source | states |
|---|---|---|
| `KittyIndex.GetGender` | pallets/kitties/src/lib.rs:173-179 | The gender is `Male` exactly when the dna's first byte is even, and `Female` exactly when it is odd. |
| `Kitties.Pallet.IsExceedMaxKitty` | pallets/kitties/src/lib.rs:167-171 | It holds exactly when the owner's list, with an absent entry read as empty, has at least `MaxOwned` elements. This holds whenever the `len() as u32` cast is exact, and so always under the list bound. |
| `Kitties.Pallet.IsKittyOwner` | pallets/kitties/src/lib.rs:181-186 | Fails with `KittyNoExist` exactly when the dna has no record. Otherwise it says whether the record's owner is the given account. |
| `Kitties.Pallet.constructor` | pallets/kitties/src/lib.rs:81-91 | Genesis state: count 0, both maps empty, no events. It satisfies the pallet invariant. |
| `Kitties.Pallet.Mint` | pallets/kitties/src/lib.rs:188-212 | Fails with `KittyCountOverflow` at `u32::MAX`, then with `ExceedMaxKitty` if the owner's list is full, changing nothing in either case. Otherwise it returns the dna, increments the count by one, stores the record (owner, price, `GetGender(dna)`, time), and appends the dna at the end of the owner's list only. The invariant survives for a fresh dna. |
| `Kitties.Pallet.CreateKitty` | pallets/kitties/src/lib.rs:125-142 | Checks in order: a full owner list gives `ExceedMaxKitty`, then count overflow gives `KittyCountOverflow`. Each failure leaves all state unchanged. Success has `Mint`'s effects plus one `KittyCreated(who, dna)` event. `PriceMustGreaterThanZero` can never be returned. |
| `Kitties.Pallet.TransferKittyTo` | pallets/kitties/src/lib.rs:214-235 | Returns `KittyNoExist` without writing when the record is missing or its dna is absent from the owner's list. Otherwise the first occurrence is swap-removed and the owner field rewritten. Then the dna is pushed onto `to`'s list, or the call fails with `ExceedMaxKitty` while keeping the first two writes. |
| `Kitties.Pallet.Transfer` | pallets/kitties/src/lib.rs:144-159 | Checks in order `KittyNoExist`, `NotKittyOwner`, `TransferToYourself`, `ExceedMaxKitty`. Every failure leaves all state unchanged. Under the invariant, success happens exactly when all four checks pass. On success the count is unchanged and only the record's owner changes, to `to`. The dna is swap-removed from `who`'s list and appended to `to`'s, and a `KittyTransferred` event is deposited. The invariant is kept. |
| `BoundedVec.TryPush` | pallets/kitties/src/lib.rs:205 | The push succeeds exactly when the list is below the bound. It then yields the list with the element at the end, still within the bound. |
| `BoundedVec.FirstIndex` | pallets/kitties/src/lib.rs:220 | For an element that occurs in the list, gives an index holding it with no earlier occurrence. |
| `BoundedVec.Position` | pallets/kitties/src/lib.rs:220 | The linear scan returns `None` exactly when the element is absent. Otherwise it returns the index of its first occurrence. |
| `BoundedVec.SwapRemove` | pallets/kitties/src/lib.rs:221 | The result is one shorter, every other index keeps its element, and the last element fills the vacated index. |
| `BoundedVec.SwapRemovePermutes` | pallets/kitties/src/lib.rs:219-226 | What remains after `swap_remove(i)` is, as a multiset, the old list less one copy of the removed element. |
| `BoundedVec.SwapRemoveMembers` | pallets/kitties/src/lib.rs:219-226 | In a list without duplicates, the result holds exactly the old members other than the removed one. |
| `BoundedVec.SwapRemoveNoDuplicates` | pallets/kitties/src/lib.rs:219-226 | In a list without duplicates, the result has no duplicates and no longer holds the removed element. |
| `BoundedVec.NoDuplicatesCount` | pallets/kitties/src/lib.rs:91 | In a list without duplicates, a member occurs exactly once and a non-member zero times. |
| `BoundedVec.AppendNoDuplicates` | pallets/kitties/src/lib.rs:232 | Pushing an element the list does not hold keeps it free of duplicates. |
| `KittyIndex.OwnedIn` | pallets/kitties/src/lib.rs:89-91 | The `kitties_owned` getter over a `ValueQuery` map: a stored account yields its list, an absent account yields the empty list. |
| `KittyScenarios.TwoOwnerScenario` | pallets/kitties/src/tests.rs:16-28 | Under an assumed `MaxOwned = 2`, the six calls (two mints, a mint over capacity, a transfer, its repeat by the former owner, a self-transfer) return success, success, `ExceedMaxKitty`, success, `NotKittyOwner` and `TransferToYourself`, in that order. |
| `KittyIndex.ListedExactlyOnce` | pallets/kitties/src/lib.rs:87-91 | Under `Consistent`, a kitty's dna occurs exactly once in its owner's list and zero times in every other account's list. |
| `KittyIndex.AppendKeepsBounded` | pallets/kitties/src/lib.rs:205 | A push onto a list below the bound keeps every list within `MaxOwned`. |
| `KittyIndex.TransferKeepsBounded` | pallets/kitties/src/lib.rs:148-154 | Removing the dna from `from` leaves `to`'s list as it was (because `from != to`), so after the capacity check the final push fits and every list stays within `MaxOwned`. |
| `KittyIndex.MintKeepsConsistent` | pallets/kitties/src/lib.rs:188-212 | Storing a record for a fresh dna, with the gender its dna gives, and appending the dna to the owner's list keeps the registry and the index consistent. |
| `KittyIndex.TransferKeepsConsistent` | pallets/kitties/src/lib.rs:214-235 | A consistent index lists the kitty under its owner. Swap-removing it there, rewriting the owner to another account and appending it to that account's list keeps the registry and the index consistent. |
| `KittyIndex.TransferMovesOneDna` | pallets/kitties/src/lib.rs:219-232 | After a transfer, `from`'s list is one shorter and no longer holds the dna; as a multiset it is the old list minus that dna. `to`'s list is the old one with the dna appended, and every other account's list is unchanged. |
| `KittyScenarios.MintUpToMaxOwned` | pallets/kitties/src/tests.rs:32-47 | From an empty list, `MaxOwned` calls to `create_kitty` all succeed. The owner's list then holds exactly those dna in order and the count has grown by `MaxOwned`. The next call fails with `ExceedMaxKitty`. |

## Left out

- `generate_dna` (pallets/kitties/src/lib.rs:163-165) and `T::Time::now` are host calls. The dna and the moment they yield are parameters of `Mint` and `CreateKitty`.
- Dna collisions: `mint` performs no uniqueness check, and the model adds none. The overwrite is modelled as it happens. The pallet invariant is proved to survive a mint only when the dna is fresh.
- FRAME's transactional storage layer is framework behaviour and is not modelled. Instead, the contracts of `Mint`, `CreateKitty` and `Transfer` show that every failure leaves the state untouched.
- `ensure_signed`, origins, the weight annotations and the weight tables (weights.rs) are left out, as are the benchmark harness and the test scaffolding. They are dispatch and metering glue with no registry logic.
- The `log::info/warn/error` lines and the `fmt::Debug` implementation produce only diagnostics.
- The `Encode`/`Decode`/`TypeInfo` derives and the `Twox64Concat` hashers concern storage encoding only.
- The `TestHash` event is never deposited. The errors `NoneValue` and `DnaAlreadyExist` are declared but never returned.
- Account identities are natural numbers and moments are natural numbers. The pallet only compares accounts for equality and stores moments unchanged.
