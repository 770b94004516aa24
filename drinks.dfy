/**
 * The water-fountain reward (`scan_code` in qrCodes/views.py): a scan is rewarded unless the
 * user's latest drink is less than the cooldown ago; a rewarded scan records a drink event and
 * raises the balance by the value of a drink. Times are seconds.
 */
module Drinks {
  import opened Basics
  import opened Wallet

  /** The `scan_code` responses; `ServerError` is the 500 of an unknown fountain id. */
  datatype ScanReply = CooldownRedirect | DrinkRegistered | ServerError

  /** The latest drink (`order_by('-drank_on').first()`) was less than `cooldown` before `now`. */
  predicate OnCooldown(drinks: seq<int>, now: int, cooldown: int)
  {
    drinks != [] && now - Max(drinks) < cooldown
  }

  /**
   * `scan_code` at time `now` for fountain `fountainId` (None when the `id` parameter is absent),
   * with `DRINKING_COOLDOWN` and `VALUE_OF_DRINK` as `cooldown` and `value`.
   */
  method ScanCode(a: Account, fountains: set<nat>, fountainId: Option<nat>, now: int, cooldown: int, value: int)
    returns (r: ScanReply)
    requires a.Valid()
    modifies a
    ensures a.Valid()
    ensures OnCooldown(old(a.drinks), now, cooldown) ==> r == CooldownRedirect && a.View() == old(a.View())
    ensures !OnCooldown(old(a.drinks), now, cooldown) && (fountainId.None? || fountainId.value !in fountains) ==>
              r == ServerError && a.View() == old(a.View())
    ensures !OnCooldown(old(a.drinks), now, cooldown) && fountainId.Some? && fountainId.value in fountains ==>
              r == DrinkRegistered && a.View() == Saved(old(a.View()).(drinks := old(a.drinks) + [now]), old(a.coins) + value)
  {
    if a.drinks != [] {
      var last := Max(a.drinks);
      if now - last < cooldown {
        return CooldownRedirect;
      }
    }
    assert !OnCooldown(old(a.drinks), now, cooldown);
    if fountainId.None? || fountainId.value !in fountains {
      return ServerError;
    }
    Record(a, now, value);
    r := DrinkRegistered;
  }

  /** `drinkEvent.objects.create` followed by the balance increase and `profile.save()`. */
  method Record(a: Account, now: int, value: int)
    requires a.Valid()
    modifies a
    ensures a.Valid()
    ensures a.View() == Saved(old(a.View()).(drinks := old(a.drinks) + [now]), old(a.coins) + value)
  {
    a.drinks := a.drinks + [now];
    a.SaveProfile(a.coins + value);
  }

  /** A scan exactly one cooldown after the latest drink is rewarded, and so is a first scan. */
  lemma CooldownBoundary(drinks: seq<int>, now: int, cooldown: int)
    ensures drinks == [] ==> !OnCooldown(drinks, now, cooldown)
    ensures drinks != [] && now - Max(drinks) >= cooldown ==> !OnCooldown(drinks, now, cooldown)
    ensures drinks != [] && now - Max(drinks) < cooldown ==> OnCooldown(drinks, now, cooldown)
  {
  }

  /**
   * After a rewarded scan, no scan is rewarded before the cooldown has passed since it, whatever
   * the earlier drinks, and the reward is recorded in the ledger when positive.
   */
  lemma {:induction false} RewardedScanStartsCooldown(v: AccountView, now: int, later: int, cooldown: int, value: int)
    requires now <= later < now + cooldown
    ensures OnCooldown(v.drinks + [now], later, cooldown)
    ensures value > 0 ==> Saved(v.(drinks := v.drinks + [now]), v.coins + value).earned == v.earned + [value]
  {
    var d := v.drinks + [now];
    assert d[|d| - 1] == now;
    SavedRecords(v.(drinks := d), value);
  }

  /** The latest drink is no earlier than any drink, so a drink within the cooldown of any drink blocks a scan. */
  lemma AnyRecentDrinkBlocks(drinks: seq<int>, i: nat, now: int, cooldown: int)
    requires i < |drinks| && now - drinks[i] < cooldown
    ensures OnCooldown(drinks, now, cooldown)
  {
  }
}
