/**
 * Client-side consequences of the pallet's contracts, proved from the method
 * specifications alone: the mint-until-full sequence of the pallet's unit
 * tests, and one scenario that chains steps those tests check one at a time.
 */
module KittyScenarios {
  import opened KittyIndex
  import opened Kitties

  /**
   * An owner with no kitties can be given exactly `MaxOwned` of them, one
   * `create_kitty` per dna, and the next `create_kitty` is refused with
   * `ExceedMaxKitty`.
   */
  method MintUpToMaxOwned(p: Pallet, who: AccountId, dnas: seq<Dna>, now: Moment) returns (last: Result<()>)
    requires p.Bounded() && OwnedIn(p.kittiesOwned, who) == []
    requires |dnas| == p.maxOwned as int + 1
    requires p.kittyCount as int + p.maxOwned as int < U32_MAX as int
    modifies p
    ensures OwnedIn(p.kittiesOwned, who) == dnas[..p.maxOwned]
    ensures p.kittyCount as int == old(p.kittyCount) as int + p.maxOwned as int
    ensures last == Err(ExceedMaxKitty)
  {
    var n := 0;
    while n < p.maxOwned as int
      invariant 0 <= n <= p.maxOwned as int
      invariant p.Bounded()
      invariant OwnedIn(p.kittiesOwned, who) == dnas[..n]
      invariant p.kittyCount as int == old(p.kittyCount) as int + n
    {
      assert dnas[..n + 1] == dnas[..n] + [dnas[n]];
      var r := p.CreateKitty(who, 1, dnas[n], now);
      assert r.Ok?;
      n := n + 1;
    }
    last := p.CreateKitty(who, 1, dnas[n], now);
  }

  /**
   * With an assumed `MaxOwned = 2`: two mints for one account succeed, a
   * third is refused, a transfer moves one kitty, repeating it is refused
   * because the sender no longer owns the kitty, and a transfer to oneself
   * is refused. `r0` to `r5` are the six outcomes in call order.
   */
  method TwoOwnerScenario(dna1: Dna, dna2: Dna, dna3: Dna) returns (r0: Result<()>, r1: Result<()>, r2: Result<()>, r3: Result<()>, r4: Result<()>, r5: Result<()>)
    requires dna1 != dna2 && dna1 != dna3 && dna2 != dna3
    ensures r0.Ok? && r1.Ok? && r3.Ok?
    ensures r2 == Err(ExceedMaxKitty)
    ensures r4 == Err(NotKittyOwner)
    ensures r5 == Err(TransferToYourself)
  {
    var p := new Pallet(2);
    r0 := p.CreateKitty(1, 0, dna1, 10);
    assert OwnedIn(map[], 1) == [];
    assert r0.Ok?;
    assert OwnedIn(p.kittiesOwned, 1) == [dna1];
    r1 := p.CreateKitty(1, 1, dna2, 11);
    assert r1.Ok?;
    assert p.kittyCount == 2 && OwnedIn(p.kittiesOwned, 1) == [dna1, dna2];
    r2 := p.CreateKitty(1, 1, dna3, 12);
    assert r2 == Err(ExceedMaxKitty);
    assert p.kittyCount == 2;
    assert OwnedIn(p.kittiesOwned, 2) == [];
    r3 := p.Transfer(1, 2, dna1);
    assert r3.Ok?;
    assert p.kittyCount == 2 && p.kitties[dna1].owner == 2;
    assert |OwnedIn(p.kittiesOwned, 1)| == 1 && OwnedIn(p.kittiesOwned, 2) == [dna1];
    r4 := p.Transfer(1, 2, dna1);
    assert r4 == Err(NotKittyOwner);
    r5 := p.Transfer(2, 2, dna1);
    assert r5 == Err(TransferToYourself);
  }
}
