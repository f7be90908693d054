/**
 * The values the kitties pallet stores (`Kitty`, `Gender`, the error and
 * event enums), the pure `get_gender`, and the consistency that the two
 * storage maps `Kitties` and `KittiesOwned` keep between them, with the
 * proofs that a mint and a transfer preserve it.
 */
module KittyIndex {
  import opened BoundedVec

  newtype u8 = x: int | 0 <= x < 0x100
  newtype u32 = x: int | 0 <= x < 0x1_0000_0000

  const U32_MAX: u32 := 0xFFFF_FFFF

  /** `T::Hash` of the runtime: a 32-byte H256. */
  const DNA_LENGTH := 32
  type Dna = s: seq<u8> | |s| == DNA_LENGTH witness seq(DNA_LENGTH, _ => 0 as u8)

  /** An account; the pallet only compares accounts for equality. */
  type AccountId = nat
  /** `Moment` of the runtime's `Time`. */
  type Moment = nat
  /** `KittyPrice`. */
  type Price = u32

  datatype Gender = Male | Female

  datatype Kitty = Kitty(dna: Dna, owner: AccountId, price: Price, gender: Gender, createdDate: Moment)

  datatype Error =
    | NoneValue              // declared, never returned
    | KittyCountOverflow
    | KittyNoExist
    | TransferToYourself
    | DnaAlreadyExist        // declared, never returned
    | NotKittyOwner
    | ExceedMaxKitty
    | PriceMustGreaterThanZero

  datatype Result<T> = Ok(value: T) | Err(error: Error)

  datatype Event =
    | KittyCreated(owner: AccountId, dna: Dna)
    | KittyTransferred(from: AccountId, to: AccountId, dna: Dna)

  /** `get_gender`: even first byte of the dna gives a male, odd a female. */
  function GetGender(dna: Dna): (g: Gender)
    ensures g == Male <==> dna[0] % 2 == 0
    ensures g == Female <==> dna[0] % 2 == 1
  {
    if dna[0] % 2 == 0 then Male else Female
  }

  /** `kitties_owned(a)`: `KittiesOwned` is a `ValueQuery`, so an absent account reads as empty. */
  function OwnedIn(owned: map<AccountId, seq<Dna>>, a: AccountId): (r: seq<Dna>)
    ensures a in owned ==> r == owned[a]
    ensures a !in owned ==> r == []
  {
    if a in owned then owned[a] else []
  }

  /** The index after `dna` is pushed onto the end of `a`'s list. */
  function AppendTo(owned: map<AccountId, seq<Dna>>, a: AccountId, dna: Dna): map<AccountId, seq<Dna>> {
    owned[a := OwnedIn(owned, a) + [dna]]
  }

  /** The index after the first `dna` in `a`'s list is swap-removed. */
  function RemoveFrom(owned: map<AccountId, seq<Dna>>, a: AccountId, dna: Dna): map<AccountId, seq<Dna>>
    requires dna in OwnedIn(owned, a)
  {
    owned[a := SwapRemove(OwnedIn(owned, a), FirstIndex(OwnedIn(owned, a), dna))]
  }

  /** The `BoundedVec<_, MaxOwned>` bound on every stored list. */
  ghost predicate Bounded(owned: map<AccountId, seq<Dna>>, maxOwned: u32) {
    forall a | a in owned :: |owned[a]| <= maxOwned as int
  }

  /**
   * The registry and the ownership index describe the same ownership:
   * every record sits under its own dna with the gender that dna gives,
   * every listed dna has a record naming the list's account as owner,
   * every record's dna is listed under its owner, and no list repeats a dna.
   */
  ghost predicate Consistent(kitties: map<Dna, Kitty>, owned: map<AccountId, seq<Dna>>) {
    && (forall d | d in kitties :: kitties[d].dna == d && kitties[d].gender == GetGender(d))
    && (forall a, d | a in owned && d in owned[a] :: d in kitties && kitties[d].owner == a)
    && (forall d | d in kitties :: d in OwnedIn(owned, kitties[d].owner))
    && (forall a | a in owned :: NoDuplicates(owned[a]))
  }

  /** Under `Consistent`, a kitty's dna occurs exactly once in its owner's list and in no other. */
  lemma ListedExactlyOnce(kitties: map<Dna, Kitty>, owned: map<AccountId, seq<Dna>>, d: Dna, a: AccountId)
    requires Consistent(kitties, owned) && d in kitties
    ensures multiset(OwnedIn(owned, a))[d] == if a == kitties[d].owner then 1 else 0
  {
    if a in owned {
      NoDuplicatesCount(owned[a], d);
    }
  }

  /** Appending to one list never shrinks or breaks the bound of the others. */
  lemma AppendKeepsBounded(owned: map<AccountId, seq<Dna>>, maxOwned: u32, a: AccountId, dna: Dna)
    requires Bounded(owned, maxOwned) && |OwnedIn(owned, a)| < maxOwned as int
    ensures Bounded(AppendTo(owned, a, dna), maxOwned)
  {
  }

  /** Moving a dna to another account that has room keeps every list within the bound. */
  lemma TransferKeepsBounded(owned: map<AccountId, seq<Dna>>, maxOwned: u32, from: AccountId, to: AccountId, dna: Dna)
    requires Bounded(owned, maxOwned) && from != to && dna in OwnedIn(owned, from)
    requires |OwnedIn(owned, to)| < maxOwned as int
    ensures OwnedIn(RemoveFrom(owned, from, dna), to) == OwnedIn(owned, to)
    ensures Bounded(AppendTo(RemoveFrom(owned, from, dna), to, dna), maxOwned)
  {
  }

  /** A mint of a fresh dna keeps the registry and the index consistent. */
  lemma MintKeepsConsistent(kitties: map<Dna, Kitty>, owned: map<AccountId, seq<Dna>>, k: Kitty)
    requires Consistent(kitties, owned)
    requires k.dna !in kitties && k.gender == GetGender(k.dna)
    ensures Consistent(kitties[k.dna := k], AppendTo(owned, k.owner, k.dna))
  {
  }

  /** A transfer of a listed kitty to another account keeps the registry and the index consistent. */
  lemma TransferKeepsConsistent(kitties: map<Dna, Kitty>, owned: map<AccountId, seq<Dna>>, dna: Dna, to: AccountId)
    requires Consistent(kitties, owned) && dna in kitties && kitties[dna].owner != to
    ensures dna in OwnedIn(owned, kitties[dna].owner)
    ensures Consistent(kitties[dna := kitties[dna].(owner := to)],
                       AppendTo(RemoveFrom(owned, kitties[dna].owner, dna), to, dna))
  {
    var from := kitties[dna].owner;
    var fromList := OwnedIn(owned, from);
    var i := FirstIndex(fromList, dna);
    var removed := RemoveFrom(owned, from, dna);
    var kitties' := kitties[dna := kitties[dna].(owner := to)];
    var owned' := AppendTo(removed, to, dna);
    assert NoDuplicates(fromList);
    SwapRemoveNoDuplicates(fromList, i);
    SwapRemoveMembers(fromList, i);
    var toList := OwnedIn(owned, to);
    assert OwnedIn(removed, to) == toList;
    assert dna !in toList;
    if to in owned {
      assert NoDuplicates(toList);
    }
    AppendNoDuplicates(toList, dna);
    forall a, d | a in owned' && d in owned'[a] ensures d in kitties' && kitties'[d].owner == a {
      if a == to && d != dna {
        assert d in toList;
      }
    }
    forall d | d in kitties' ensures d in OwnedIn(owned', kitties'[d].owner) {
      if d != dna {
        assert d in OwnedIn(owned, kitties[d].owner);
      }
    }
  }

  /** The list moves: one dna leaves `from`, the same dna arrives at `to`, and no other list changes. */
  lemma TransferMovesOneDna(owned: map<AccountId, seq<Dna>>, from: AccountId, to: AccountId, dna: Dna)
    requires from != to && dna in OwnedIn(owned, from) && NoDuplicates(OwnedIn(owned, from))
    ensures var owned' := AppendTo(RemoveFrom(owned, from, dna), to, dna);
      && |OwnedIn(owned', from)| == |OwnedIn(owned, from)| - 1
      && |OwnedIn(owned', to)| == |OwnedIn(owned, to)| + 1
      && dna !in OwnedIn(owned', from)
      && OwnedIn(owned', to) == OwnedIn(owned, to) + [dna]
      && multiset(OwnedIn(owned', from)) == multiset(OwnedIn(owned, from)) - multiset{dna}
      && forall a :: a != from && a != to ==> OwnedIn(owned', a) == OwnedIn(owned, a)
  {
    var fromList := OwnedIn(owned, from);
    var i := FirstIndex(fromList, dna);
    SwapRemoveNoDuplicates(fromList, i);
    SwapRemovePermutes(fromList, i);
  }
}
