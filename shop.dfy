/**
 * The coin-spending and coin-earning views of the card shop (EcoWorld/views.py): buying a
 * pack, the store's buy-and-open request, opening a pack, and completing a challenge.
 * The weighted draw of `openPack` is the parameter `drawn`: any card the draw may yield.
 */
module Shop {
  import opened Basics
  import opened Wallet
  import Challenges

  /** A `pack` row; the draw probabilities are left out. */
  datatype Pack = Pack(title: string, cost: int, image: string)

  datatype HttpMethod = Get | Post | OtherMethod

  /** The responses of `buy_pack`. */
  datatype BuyReply = Purchased | InvalidPack | InsufficientCoins | MethodNotAllowed

  function BuyStatus(r: BuyReply): int
  {
    match r
    case Purchased => 200
    case InvalidPack => 400
    case InsufficientCoins => 400
    case MethodNotAllowed => 405
  }

  /**
   * The responses of `store`; `ServerError` is the 500 Django returns when a `get` raises, and
   * `InvalidRequest` the plain 200 "Invalid request" answer to any other method.
   */
  datatype StoreReply = CardDrawn(card: CardId) | StoreInsufficientCoins | StorePage | InvalidRequest | ServerError

  /** The responses of `pack_opening_page`. */
  datatype OpeningReply = OpeningPage(card: CardId) | InvalidPackId

  /** The responses of `completeChallenge`. */
  datatype CompletionReply = ChallengeCompleted | InvalidRequestType | CompletionError

  /**
   * Paying `cost` out of the balance: refused (None) when the cost exceeds the balance, so a
   * cost equal to the balance is accepted; otherwise the profile is saved with the lower balance.
   */
  function Debit(v: AccountView, cost: int): (r: Option<AccountView>)
    ensures r.Some? <==> cost <= v.coins
    ensures r.Some? ==> r.value.coins == v.coins - cost
    ensures r.Some? && v.coins >= 0 ==> r.value.coins >= 0
    ensures r.Some? && cost >= 0 ==> r.value.earned == v.earned
    ensures r.Some? ==> r.value.(coins := v.coins, earned := v.earned) == v
  {
    if cost > v.coins then None
    else
      var w := Saved(v, v.coins - cost);
      assert cost >= 0 ==> CoinAddition(true, v.coins, v.coins - cost) == [];
      Some(w)
  }

  /** One more unit of `card`, its ownership row created at quantity 0 first if it has none. */
  function Credit(owned: map<CardId, int>, card: CardId): (r: map<CardId, int>)
    ensures r.Keys == owned.Keys + {card}
    ensures r[card] == (if card in owned then owned[card] else 0) + 1
    ensures forall c :: c in owned && c != card ==> r[c] == owned[c]
  {
    owned[card := (if card in owned then owned[card] else 0) + 1]
  }

  /** `buy_pack`: debits the pack's cost and nothing else; never touches the inventory. */
  method BuyPack(u: Account, packs: map<PackId, Pack>, isPost: bool, packId: Option<PackId>) returns (r: BuyReply)
    requires u.Valid()
    modifies u
    ensures u.Valid()
    ensures !isPost ==> r == MethodNotAllowed && u.View() == old(u.View())
    ensures isPost && (packId.None? || packId.value !in packs) ==> r == InvalidPack && u.View() == old(u.View())
    ensures isPost && packId.Some? && packId.value in packs && Debit(old(u.View()), packs[packId.value].cost).None? ==>
              r == InsufficientCoins && u.View() == old(u.View())
    ensures isPost && packId.Some? && packId.value in packs && Debit(old(u.View()), packs[packId.value].cost).Some? ==>
              r == Purchased && u.View() == Debit(old(u.View()), packs[packId.value].cost).value
  {
    if !isPost {
      return MethodNotAllowed;
    }
    if packId.None? || packId.value !in packs {
      return InvalidPack;
    }
    var selected := packs[packId.value];
    if selected.cost > u.coins {
      return InsufficientCoins;
    }
    u.SaveProfile(u.coins - selected.cost);
    r := Purchased;
  }

  /**
   * `store`: a POST debits the pack's cost, saves the profile, then adds one unit to the
   * existing ownership row of the drawn card. An unknown pack makes `get` raise before
   * anything changes; a drawn card without a row makes `get` raise after the debit was saved.
   */
  method Store(u: Account, packs: map<PackId, Pack>, m: HttpMethod, packId: PackId, drawn: CardId) returns (r: StoreReply)
    requires u.Valid()
    modifies u
    ensures u.Valid()
    ensures m == Get ==> r == StorePage && u.View() == old(u.View())
    ensures m == OtherMethod ==> r == InvalidRequest && u.View() == old(u.View())
    ensures m == Post && packId !in packs ==> r == ServerError && u.View() == old(u.View())
    ensures m == Post && packId in packs && Debit(old(u.View()), packs[packId].cost).None? ==>
              r == StoreInsufficientCoins && u.View() == old(u.View())
    ensures m == Post && packId in packs && Debit(old(u.View()), packs[packId].cost).Some? && drawn !in old(u.owned) ==>
              r == ServerError && u.View() == Debit(old(u.View()), packs[packId].cost).value
    ensures m == Post && packId in packs && Debit(old(u.View()), packs[packId].cost).Some? && drawn in old(u.owned) ==>
              r == CardDrawn(drawn) &&
              u.View() == Debit(old(u.View()), packs[packId].cost).value.(owned := Credit(old(u.owned), drawn))
  {
    if m == Get {
      return StorePage;
    } else if m == OtherMethod {
      return InvalidRequest;
    }
    if packId !in packs {
      return ServerError;
    }
    r := Checkout(u, packs[packId].cost, drawn);
  }

  /** The POST branch of `store` once the pack is found: debit, save, then credit the drawn card's row. */
  method Checkout(u: Account, cost: int, drawn: CardId) returns (r: StoreReply)
    requires u.Valid()
    modifies u
    ensures u.Valid()
    ensures Debit(old(u.View()), cost).None? ==> r == StoreInsufficientCoins && u.View() == old(u.View())
    ensures Debit(old(u.View()), cost).Some? && drawn !in old(u.owned) ==>
              r == ServerError && u.View() == Debit(old(u.View()), cost).value
    ensures Debit(old(u.View()), cost).Some? && drawn in old(u.owned) ==>
              r == CardDrawn(drawn) && u.View() == Debit(old(u.View()), cost).value.(owned := Credit(old(u.owned), drawn))
  {
    if cost > u.coins {
      return StoreInsufficientCoins;
    }
    ghost var debited := Debit(u.View(), cost).value;
    u.SaveProfile(u.coins - cost);
    assert u.View() == debited;
    if drawn !in u.owned {
      return ServerError;
    }
    u.owned := Credit(u.owned, drawn);
    assert u.View() == debited.(owned := Credit(debited.owned, drawn));
    r := CardDrawn(drawn);
  }

  /**
   * `pack_opening_page`: adds one unit of the drawn card, creating its row at quantity 0 first;
   * the balance is not touched (the cost is taken by `buy_pack`).
   */
  method PackOpening(u: Account, packs: map<PackId, Pack>, packId: Option<PackId>, drawn: CardId) returns (r: OpeningReply)
    requires u.Valid()
    modifies u
    ensures u.Valid()
    ensures (packId.None? || packId.value !in packs) ==> r == InvalidPackId && u.View() == old(u.View())
    ensures packId.Some? && packId.value in packs ==>
              r == OpeningPage(drawn) && u.View() == old(u.View()).(owned := Credit(old(u.owned), drawn))
  {
    if packId.None? || packId.value !in packs {
      return InvalidPackId;
    }
    u.owned := Credit(u.owned, drawn);
    r := OpeningPage(drawn);
  }

  /**
   * `completeChallenge`: credits the challenge's worth through `user.save()` and stamps the
   * row submitted today. Neither an earlier submission nor the row's owner is checked.
   */
  method CompleteChallenge(u: Account, board: Challenges.ChallengeBoard, isPost: bool, id: nat, today: int)
    returns (r: CompletionReply)
    requires u.Valid() && board.Valid()
    modifies u, board
    ensures u.Valid() && board.Valid()
    ensures board.objectives == old(board.objectives) && board.nextId == old(board.nextId)
    ensures !isPost ==> r == InvalidRequestType && u.View() == old(u.View()) && board.ongoing == old(board.ongoing)
    ensures isPost && Challenges.FindById(old(board.ongoing), id).None? ==>
              r == CompletionError && u.View() == old(u.View()) && board.ongoing == old(board.ongoing)
    ensures isPost && Challenges.FindById(old(board.ongoing), id).Some? ==>
              r == ChallengeCompleted &&
              board.ongoing == Challenges.MarkSubmitted(old(board.ongoing), id, today) &&
              u.View() == UserSaved(old(u.View()),
                                old(u.coins) + Challenges.FindById(old(board.ongoing), id).value.challenge.worth)
  {
    if !isPost {
      return InvalidRequestType;
    }
    r := Complete(u, board, id, today);
  }

  /** The POST branch of `completeChallenge`: look the row up, pay its worth, stamp it. */
  method Complete(u: Account, board: Challenges.ChallengeBoard, id: nat, today: int) returns (r: CompletionReply)
    requires u.Valid() && board.Valid()
    modifies u, board
    ensures u.Valid() && board.Valid()
    ensures board.objectives == old(board.objectives) && board.nextId == old(board.nextId)
    ensures var found := Challenges.FindById(old(board.ongoing), id);
            if found.None? then
              r == CompletionError && u.View() == old(u.View()) && board.ongoing == old(board.ongoing)
            else
              r == ChallengeCompleted &&
              board.ongoing == Challenges.MarkSubmitted(old(board.ongoing), id, today) &&
              u.View() == UserSaved(old(u.View()), old(u.coins) + found.value.challenge.worth) &&
              u.coins == old(u.coins) + found.value.challenge.worth
  {
    var found := Challenges.FindById(board.ongoing, id);
    if found.None? {
      return CompletionError;
    }
    PayAndStamp(u, board, found.value.challenge.worth, id, today);
    r := ChallengeCompleted;
  }

  /** `user.save()` with the worth added, then the row's submission stamp. */
  method PayAndStamp(u: Account, board: Challenges.ChallengeBoard, worth: int, id: nat, today: int)
    requires u.Valid() && board.Valid()
    modifies u, board
    ensures u.Valid() && board.Valid()
    ensures board.objectives == old(board.objectives) && board.nextId == old(board.nextId)
    ensures board.ongoing == Challenges.MarkSubmitted(old(board.ongoing), id, today)
    ensures u.View() == UserSaved(old(u.View()), old(u.coins) + worth)
    ensures u.coins == old(u.coins) + worth
  {
    u.SaveUser(u.coins + worth);
    board.Submit(id, today);
  }

  /** Completing the same challenge twice pays its worth twice: there is no repeat guard. */
  method CompleteTwice(u: Account, board: Challenges.ChallengeBoard, id: nat, today: int)
    requires u.Valid() && board.Valid()
    requires Challenges.FindById(board.ongoing, id).Some?
    modifies u, board
    ensures u.coins == old(u.coins) + 2 * Challenges.FindById(old(board.ongoing), id).value.challenge.worth
  {
    ghost var worth := Challenges.FindById(board.ongoing, id).value.challenge.worth;
    Challenges.FindAfterMark(board.ongoing, id, today);
    var first := Complete(u, board, id, today);
    assert Challenges.FindById(board.ongoing, id).value.challenge.worth == worth;
    var second := Complete(u, board, id, today);
  }
}
