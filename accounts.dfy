/**
 * Account set-up and the profile page (Accounts/utils.py, Accounts/views.py): a new user gets a
 * garden and one zero-quantity ownership row per catalog card; the profile form overwrites the
 * bio and, when one is chosen, the picture; `user_info` reports the picture as a media URL.
 */
module Accounts {
  import opened Basics
  import Wallet
  import Garden

  const PicturePrefix: string := "/media/pfps/"

  /** The `pfp_url` of `user_info`: the media path of the picture, or '' when there is none. */
  function PfpUrl(picture: string): (url: string)
    ensures url == "" <==> picture == ""
    ensures url != "" ==> |url| == |PicturePrefix| + |picture| && url[..|PicturePrefix|] == PicturePrefix && url[|PicturePrefix|..] == picture
  {
    if picture != "" then PicturePrefix + picture else ""
  }

  /** The `user_info` response. */
  datatype UserInfo = UserInfo(username: string, pfpUrl: string, coins: int)

  function GetUserInfo(a: Wallet.Account): (r: UserInfo)
    reads a
    ensures r.username == a.username && r.coins == a.coins
    ensures r.pfpUrl == PfpUrl(a.picture)
    ensures r.pfpUrl == "" <==> a.picture == ""
  {
    UserInfo(a.username, PfpUrl(a.picture), a.coins)
  }

  /** The `profile` POST response: a redirect, or the 500 of saving a missing bio into a non-null column. */
  datatype ProfileReply = Redirect | ServerError

  /**
   * `profile` POST with the posted `bio` and `profile_picture` (None when the key is absent).
   * The bio is always overwritten; the picture only when a non-empty one is posted; the balance is
   * saved as stored, so no ledger row is added.
   */
  method ProfilePost(a: Wallet.Account, bio: Option<string>, picture: Option<string>) returns (r: ProfileReply)
    requires a.Valid()
    modifies a
    ensures a.Valid()
    ensures bio.None? ==> r == ServerError && a.View() == old(a.View())
    ensures bio.Some? ==> r == Redirect && a.View() == old(a.View()).(
      bio := bio.value,
      picture := if picture.Some? && picture.value != "" then picture.value else old(a.picture))
  {
    if bio.None? {
      return ServerError;
    }
    a.bio := bio.value;
    if picture.Some? && picture.value != "" {
      a.picture := picture.value;
    }
    assert a.earned + Wallet.CoinAddition(true, a.coins, a.coins) == a.earned;
    a.SaveProfile(a.coins);
    r := Redirect;
  }

  /**
   * `createOwnsDb`: one ownership row per catalog card, at the default quantity 0. The user's
   * other rows and fields are left as they were.
   */
  method CreateOwns(a: Wallet.Account, catalog: seq<CardId>)
    modifies a
    ensures a.View() == old(a.View()).(owned := a.owned)
    ensures forall c :: c in a.owned <==> c in old(a.owned) || c in catalog
    ensures forall c :: c in catalog ==> a.owned[c] == 0
    ensures forall c :: c in old(a.owned) && c !in catalog ==> a.owned[c] == old(a.owned)[c]
  {
    for i := 0 to |catalog|
      invariant a.View() == old(a.View()).(owned := a.owned)
      invariant forall c :: c in a.owned <==> c in old(a.owned) || c in catalog[..i]
      invariant forall c :: c in catalog[..i] ==> a.owned[c] == 0
      invariant forall c :: c in old(a.owned) && c !in catalog[..i] ==> a.owned[c] == old(a.owned)[c]
    {
      assert catalog[..i + 1] == catalog[..i] + [catalog[i]];
      a.owned := a.owned[catalog[i] := 0];
    }
    assert catalog[..|catalog|] == catalog;
  }

  /** A new user's inventory: exactly the catalog cards, each at quantity 0. */
  function InitialInventory(catalog: seq<CardId>): (owned: map<CardId, int>)
    ensures owned.Keys == set c | c in catalog
    ensures forall c :: c in owned ==> owned[c] == 0
  {
    map c | c in catalog :: 0
  }

  /**
   * `signup` with the submitted form: a valid form creates the user (and, through the post-save
   * hook, the profile), then the garden of `gardenSize` with id `userId`, then the ownership rows.
   */
  method Signup(valid: bool, userId: UserId, name: string, first: string, last: string,
                gardenSize: nat, catalog: seq<CardId>)
    returns (account: Wallet.Account?, garden: Garden.GardenGrid?)
    ensures !valid ==> account == null && garden == null
    ensures valid ==> account != null && garden != null
    ensures valid ==> fresh(account) && account.Valid()
    ensures valid ==> account.View() == Wallet.AccountView(name, first, last, first, last, "", Wallet.DefaultPicture,
                                                           0, InitialInventory(catalog), [], [], [])
    ensures valid ==> fresh(garden) && fresh(garden.squares) && garden.Valid()
    ensures valid ==> garden.owner == userId && garden.size == gardenSize
    ensures valid ==> forall i :: 0 <= i < garden.squares.Length ==> garden.squares[i] == None
  {
    if !valid {
      return null, null;
    }
    var a := new Wallet.Account(name, first, last);
    var g := new Garden.GardenGrid(userId, gardenSize);
    CreateOwns(a, catalog);
    assert a.owned == InitialInventory(catalog);
    account, garden := a, g;
  }

  /**
   * The available list of the `profile` page: inventory cards shown on no square, whatever their
   * quantity.
   */
  function ProfileAvailable(a: Wallet.Account, g: Garden.GardenGrid): (cards: set<CardId>)
    reads a, g, g.squares
    ensures forall c :: c in cards <==> c in a.owned && forall i :: 0 <= i < g.squares.Length ==> g.squares[i] != Some(c)
  {
    Garden.AvailableCards(a.owned, g.squares[..], false)
  }
}
