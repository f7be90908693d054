/**
 * The kitties pallet: its three storage items as the fields of one object,
 * its queries as functions and its two dispatchables `create_kitty` and
 * `transfer`, with the helpers `mint` and `transfer_kitty_to`, as methods.
 * The randomness that yields a new dna and the clock that dates it are
 * parameters; the signed origin is reduced to the account `who`.
 */
module Kitties {
  import opened BoundedVec
  import opened KittyIndex

  class Pallet {
    /** `T::MaxOwned::get()`. */
    const maxOwned: u32
    /** `KittyCount`. */
    var kittyCount: u32
    /** `Kitties`: dna to record. */
    var kitties: map<Dna, Kitty>
    /** `KittiesOwned`: account to its list of dna, read through `OwnedIn`. */
    var kittiesOwned: map<AccountId, seq<Dna>>
    /** The events the pallet has deposited, oldest first. */
    var events: seq<Event>

    /** The `BoundedVec` bound, which the list type itself guarantees. */
    ghost predicate Bounded()
      reads this
    {
      KittyIndex.Bounded(kittiesOwned, maxOwned)
    }

    /** The pallet's invariant: bounded lists, one ownership view, one count per record. */
    ghost predicate Valid()
      reads this
    {
      && Bounded()
      && Consistent(kitties, kittiesOwned)
      && kittyCount as int == |kitties|
    }

    /** Genesis: every storage item at its default. */
    constructor (maxOwned: u32)
      ensures this.maxOwned == maxOwned
      ensures kittyCount == 0 && kitties == map[] && kittiesOwned == map[] && events == []
      ensures Valid()
    {
      this.maxOwned := maxOwned;
      kittyCount := 0;
      kitties := map[];
      kittiesOwned := map[];
      events := [];
    }

    /**
     * `is_exceed_max_kitty`: the owner's list length, cast to `u32`, is at
     * least `MaxOwned`. While the list is bounded the cast loses nothing.
     */
    function IsExceedMaxKitty(owner: AccountId): (r: bool)
      reads this
      ensures |OwnedIn(kittiesOwned, owner)| < 0x1_0000_0000 ==>
                (r <==> |OwnedIn(kittiesOwned, owner)| >= maxOwned as int)
      ensures Bounded() ==> (r <==> |OwnedIn(kittiesOwned, owner)| >= maxOwned as int)
    {
      |OwnedIn(kittiesOwned, owner)| % 0x1_0000_0000 >= maxOwned as int
    }

    /** `is_kitty_owner`: fails for an unknown dna, else says whether `owner` holds it. */
    function IsKittyOwner(owner: AccountId, dna: Dna): (r: Result<bool>)
      reads this
      ensures r.Err? <==> dna !in kitties
      ensures r.Err? ==> r.error == KittyNoExist
      ensures r.Ok? ==> (r.value <==> kitties[dna].owner == owner)
    {
      if dna in kitties then Ok(kitties[dna].owner == owner) else Err(KittyNoExist)
    }

    /**
     * `mint`: checks the count for overflow, pushes the dna onto the owner's
     * list, stores the record and bumps the count. Both failures happen
     * before the first write. A dna that is already registered is not
     * refused: its record is overwritten and the count still grows.
     */
    method Mint(owner: AccountId, price: Price, dna: Dna, now: Moment) returns (r: Result<Dna>)
      modifies this
      ensures old(kittyCount) == U32_MAX ==> r == Err(KittyCountOverflow)
      ensures old(kittyCount) < U32_MAX && |old(OwnedIn(kittiesOwned, owner))| >= maxOwned as int ==>
                r == Err(ExceedMaxKitty)
      ensures r.Ok? <==> old(kittyCount) < U32_MAX && |old(OwnedIn(kittiesOwned, owner))| < maxOwned as int
      ensures r.Err? ==> unchanged(this)
      ensures r.Ok? ==>
                && r.value == dna
                && kittyCount as int == old(kittyCount) as int + 1
                && kitties == old(kitties)[dna := Kitty(dna, owner, price, GetGender(dna), now)]
                && kittiesOwned == AppendTo(old(kittiesOwned), owner, dna)
                && events == old(events)
      ensures old(Bounded()) ==> Bounded()
      ensures old(Valid()) && dna !in old(kitties) ==> Valid()
    {
      var kitty := Kitty(dna, owner, price, GetGender(dna), now);
      if kittyCount == U32_MAX {
        return Err(KittyCountOverflow);
      }
      var newCount := kittyCount + 1;
      var pushed := TryPush(OwnedIn(kittiesOwned, owner), dna, maxOwned as int);
      if pushed.None? {
        return Err(ExceedMaxKitty);
      }
      ghost var owned0, kitties0 := kittiesOwned, kitties;
      kittiesOwned := kittiesOwned[owner := pushed.value];
      kitties := kitties[dna := kitty];
      kittyCount := newCount;
      if KittyIndex.Bounded(owned0, maxOwned) {
        AppendKeepsBounded(owned0, maxOwned, owner, dna);
      }
      if Consistent(kitties0, owned0) && dna !in kitties0 {
        MintKeepsConsistent(kitties0, owned0, kitty);
      }
      return Ok(dna);
    }

    /**
     * `create_kitty`: refuses an owner whose list is full, then mints and
     * deposits `KittyCreated`. Every failure leaves the state as it was.
     */
    method CreateKitty(who: AccountId, price: Price, dna: Dna, now: Moment) returns (r: Result<()>)
      requires Bounded()
      modifies this
      ensures |old(OwnedIn(kittiesOwned, who))| >= maxOwned as int ==> r == Err(ExceedMaxKitty)
      ensures |old(OwnedIn(kittiesOwned, who))| < maxOwned as int && old(kittyCount) == U32_MAX ==>
                r == Err(KittyCountOverflow)
      ensures r.Ok? <==> |old(OwnedIn(kittiesOwned, who))| < maxOwned as int && old(kittyCount) < U32_MAX
      ensures r.Err? ==> unchanged(this)
      ensures r.Ok? ==>
                && kittyCount as int == old(kittyCount) as int + 1
                && kitties == old(kitties)[dna := Kitty(dna, who, price, GetGender(dna), now)]
                && kittiesOwned == AppendTo(old(kittiesOwned), who, dna)
                && events == old(events) + [KittyCreated(who, dna)]
      ensures Bounded()
      ensures old(Valid()) && dna !in old(kitties) ==> Valid()
    {
      if IsExceedMaxKitty(who) {
        return Err(ExceedMaxKitty);
      }
      // The price is unsigned, so the `price >= 0` check cannot fail and
      // `PriceMustGreaterThanZero` is never returned.
      assert price >= 0;
      var minted := Mint(who, price, dna, now);
      if minted.Err? {
        return Err(minted.error);
      }
      events := events + [KittyCreated(who, minted.value)];
      return Ok(());
    }

    /**
     * `transfer_kitty_to`: swap-removes the dna from its recorded owner's
     * list, rewrites the record's owner and pushes the dna onto `to`'s list.
     * The last push can fail after the first two writes, leaving them in
     * place; only a caller's earlier checks keep that from happening.
     */
    method TransferKittyTo(to: AccountId, dna: Dna) returns (r: Result<()>)
      modifies this
      ensures dna !in old(kitties) ==> r == Err(KittyNoExist) && unchanged(this)
      ensures dna in old(kitties) && dna !in old(OwnedIn(kittiesOwned, kitties[dna].owner)) ==>
                r == Err(KittyNoExist) && unchanged(this)
      ensures dna in old(kitties) && dna in old(OwnedIn(kittiesOwned, kitties[dna].owner)) ==>
                var from := old(kitties[dna].owner);
                var removed := RemoveFrom(old(kittiesOwned), from, dna);
                && kitties == old(kitties)[dna := old(kitties[dna]).(owner := to)]
                && kittyCount == old(kittyCount)
                && events == old(events)
                && if |OwnedIn(removed, to)| < maxOwned as int
                   then r == Ok(()) && kittiesOwned == AppendTo(removed, to, dna)
                   else r == Err(ExceedMaxKitty) && kittiesOwned == removed
    {
      if dna !in kitties {
        return Err(KittyNoExist);
      }
      var kitty := kitties[dna];
      var prevOwner := kitty.owner;
      var list := OwnedIn(kittiesOwned, prevOwner);
      var pos := Position(list, dna);
      if pos.None? {
        return Err(KittyNoExist);
      }
      kittiesOwned := kittiesOwned[prevOwner := SwapRemove(list, pos.value)];
      kitty := kitty.(owner := to);
      kitties := kitties[dna := kitty];
      var pushed := TryPush(OwnedIn(kittiesOwned, to), dna, maxOwned as int);
      if pushed.None? {
        return Err(ExceedMaxKitty);
      }
      kittiesOwned := kittiesOwned[to := pushed.value];
      return Ok(());
    }

    /**
     * `transfer`: checks, in this order, that the kitty exists, that `who`
     * owns it, that `to` is someone else and that `to` has room, then moves
     * it and deposits `KittyTransferred`. Every failure leaves the state as
     * it was; a consistent state never reaches the defensive `KittyNoExist`
     * of the index search.
     */
    method Transfer(who: AccountId, to: AccountId, dna: Dna) returns (r: Result<()>)
      requires Bounded()
      modifies this
      ensures dna !in old(kitties) ==> r == Err(KittyNoExist)
      ensures dna in old(kitties) && old(kitties[dna].owner) != who ==> r == Err(NotKittyOwner)
      ensures dna in old(kitties) && old(kitties[dna].owner) == who && who == to ==> r == Err(TransferToYourself)
      ensures && dna in old(kitties) && old(kitties[dna].owner) == who && who != to
              && |old(OwnedIn(kittiesOwned, to))| >= maxOwned as int
              ==> r == Err(ExceedMaxKitty)
      ensures r.Err? ==> unchanged(this)
      ensures r.Ok? <==>
                && dna in old(kitties) && old(kitties[dna].owner) == who && who != to
                && |old(OwnedIn(kittiesOwned, to))| < maxOwned as int
                && dna in old(OwnedIn(kittiesOwned, who))
      ensures r.Ok? ==>
                && kittyCount == old(kittyCount)
                && kitties == old(kitties)[dna := old(kitties[dna]).(owner := to)]
                && kittiesOwned == AppendTo(RemoveFrom(old(kittiesOwned), who, dna), to, dna)
                && events == old(events) + [KittyTransferred(who, to, dna)]
      ensures old(Valid()) ==> (r.Ok? <==> dna in old(kitties) && old(kitties[dna].owner) == who && who != to &&
                                           |old(OwnedIn(kittiesOwned, to))| < maxOwned as int)
      ensures Bounded()
      ensures old(Valid()) ==> Valid()
    {
      var isOwner := IsKittyOwner(who, dna);
      if isOwner.Err? {
        return Err(isOwner.error);
      }
      if !isOwner.value {
        return Err(NotKittyOwner);
      }
      if who == to {
        return Err(TransferToYourself);
      }
      if IsExceedMaxKitty(to) {
        return Err(ExceedMaxKitty);
      }
      ghost var kitties0, owned0 := kitties, kittiesOwned;
      ghost var valid0 := Valid();
      if dna in OwnedIn(owned0, who) {
        TransferKeepsBounded(owned0, maxOwned, who, to, dna);
      }
      if valid0 {
        TransferKeepsConsistent(kitties0, owned0, dna, to);
        assert kitties0[dna := kitties0[dna].(owner := to)].Keys == kitties0.Keys;
      }
      r := TransferKittyTo(to, dna);
      if r.Err? {
        return r;
      }
      events := events + [KittyTransferred(who, to, dna)];
    }
  }
}
