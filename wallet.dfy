/**
 * A user's profile and the rows that hang off it: the coin balance, the owned
 * card quantities, and the earned-coins ledger that the profile's pre-save hook
 * (Accounts/signals.py) appends to whenever a save raises the stored balance.
 * Every view that changes the balance goes through `SaveProfile` or `SaveUser`.
 */
module Wallet {
  import opened Basics

  /** `Profile.defaultpfp`. */
  const DefaultPicture: string := "/pfp1.png"

  /**
   * The ledger rows `track_coin_addition` creates when a profile is saved with balance
   * `incoming` over the stored balance `stored`; `isUpdate` says whether the profile
   * already has a primary key.
   */
  function CoinAddition(isUpdate: bool, stored: int, incoming: int): (added: seq<int>)
    ensures |added| <= 1
    ensures added != [] <==> isUpdate && incoming > stored
    ensures AllPositive(added)
    ensures added != [] ==> stored + added[0] == incoming
  {
    if isUpdate && incoming > stored then [incoming - stored] else []
  }

  /** Everything an account holds, as one value, so that a step can say what it leaves alone. */
  datatype AccountView = AccountView(
    username: string,
    userFirstName: string,
    userLastName: string,
    firstName: string,
    lastName: string,
    bio: string,
    picture: string,
    coins: int,
    owned: map<CardId, int>,
    earned: seq<int>,
    drinks: seq<int>,
    disposals: seq<int>)

  /** The account after the profile is saved with balance `newCoins`. */
  function Saved(v: AccountView, newCoins: int): AccountView
  {
    v.(coins := newCoins, earned := v.earned + CoinAddition(true, v.coins, newCoins))
  }

  /** The account after `user.save()`: the user's names are copied onto the profile, which is saved with `newCoins`. */
  function UserSaved(v: AccountView, newCoins: int): AccountView
  {
    Saved(v.(firstName := v.userFirstName, lastName := v.userLastName), newCoins)
  }

  /** The ledger invariant: every entry is a positive increase, and together they cover the balance. */
  predicate LedgerSound(v: AccountView)
  {
    AllPositive(v.earned) && v.coins <= Sum(v.earned)
  }

  class Account {
    /** The `auth.User` row. */
    const username: string
    var userFirstName: string
    var userLastName: string
    /** The `Profile` row. */
    var firstName: string
    var lastName: string
    var bio: string
    var picture: string
    var coins: int
    /** `ownsCard.quantity` per card that has a row. */
    var owned: map<CardId, int>
    /** `UserEarntCoins.score` of this user's rows, oldest first. */
    var earned: seq<int>
    /** `drinkEvent.drank_on` of this user's rows, in creation order. */
    var drinks: seq<int>
    /** `GlassDisposalEntry.coins_awarded` of this user's rows. */
    var disposals: seq<int>

    function View(): AccountView
      reads this
    {
      AccountView(username, userFirstName, userLastName, firstName, lastName, bio, picture,
                  coins, owned, earned, drinks, disposals)
    }

    ghost predicate Valid()
      reads this
    {
      AllPositive(earned) && coins <= Sum(earned)
    }

    /**
     * A new user: the post-save hook (created branch) makes a profile carrying the user's
     * names and the field defaults; that first save has no primary key yet, so nothing is recorded.
     */
    constructor (name: string, first: string, last: string)
      ensures Valid()
      ensures View() == AccountView(name, first, last, first, last, "", DefaultPicture, 0, map[], [], [], [])
    {
      username := name;
      userFirstName, userLastName := first, last;
      firstName, lastName := first, last;
      bio, picture := "", DefaultPicture;
      coins := 0;
      owned := map[];
      earned := CoinAddition(false, 0, 0);
      drinks, disposals := [], [];
    }

    /** `profile.save()` with the in-memory balance `newCoins`. */
    method SaveProfile(newCoins: int)
      requires Valid()
      modifies this
      ensures Valid()
      ensures View() == Saved(old(View()), newCoins)
    {
      SavedKeepsLedgerSound(View(), newCoins);
      earned := earned + CoinAddition(true, coins, newCoins);
      coins := newCoins;
    }

    /**
     * `user.save()` on an existing user whose cached profile holds `newCoins`: the post-save
     * hook (update branch) copies the user's names onto the profile and saves it.
     */
    method SaveUser(newCoins: int)
      requires Valid()
      modifies this
      ensures Valid()
      ensures View() == UserSaved(old(View()), newCoins)
    {
      firstName, lastName := userFirstName, userLastName;
      SaveProfile(newCoins);
    }
  }

  /** A save keeps every ledger entry positive and the ledger total at or above the balance. */
  lemma SavedKeepsLedgerSound(v: AccountView, newCoins: int)
    requires LedgerSound(v)
    ensures LedgerSound(Saved(v, newCoins))
  {
    var added := CoinAddition(true, v.coins, newCoins);
    if added != [] {
      SumAppend(v.earned, added[0]);
    } else {
      assert v.earned + added == v.earned;
    }
  }

  /** Saving a raised balance records exactly the raise; saving a lowered or equal one records nothing. */
  lemma SavedRecords(v: AccountView, amount: int)
    ensures amount > 0 ==> Saved(v, v.coins + amount).earned == v.earned + [amount]
    ensures amount <= 0 ==> Saved(v, v.coins + amount).earned == v.earned
    ensures Saved(v, v.coins + amount).coins == v.coins + amount
  {
    if amount <= 0 {
      assert v.earned + [] == v.earned;
    }
  }

  /** The account after saving the balances in `balances`, one save each, in order. */
  function SaveAll(v: AccountView, balances: seq<int>): AccountView
    decreases |balances|
  {
    if balances == [] then v else SaveAll(Saved(v, balances[0]), balances[1..])
  }

  /** Sum of the rises along a walk through balances that starts at `start`. */
  function Rises(start: int, balances: seq<int>): int
    decreases |balances|
  {
    if balances == [] then 0
    else (if balances[0] > start then balances[0] - start else 0) + Rises(balances[0], balances[1..])
  }

  /**
   * The ledger grows by exactly the sum of the increases: decreases are never recorded
   * and never offset earlier increases.
   */
  lemma {:induction false} LedgerRecordsIncreases(v: AccountView, balances: seq<int>)
    ensures Sum(SaveAll(v, balances).earned) == Sum(v.earned) + Rises(v.coins, balances)
    ensures balances != [] ==> SaveAll(v, balances).coins == balances[|balances| - 1]
    decreases |balances|
  {
    if balances != [] {
      var w := Saved(v, balances[0]);
      LedgerRecordsIncreases(w, balances[1..]);
      var added := CoinAddition(true, v.coins, balances[0]);
      if added != [] {
        SumAppend(v.earned, added[0]);
      } else {
        assert v.earned + added == v.earned;
      }
    }
  }

  /** Adding 100 coins and then spending them leaves a ledger total of 100. */
  lemma AddThenSpendScenario(v: AccountView)
    requires v.earned == [] && v.coins == 0
    ensures Sum(SaveAll(v, [100, 0]).earned) == 100
    ensures SaveAll(v, [100, 0]).coins == 0
  {
    LedgerRecordsIncreases(v, [100, 0]);
  }
}
