/**
 * The glass-disposal reward (`submit_disposal` in glassDisposal/views.py): a valid submission of
 * at least one bottle records an entry awarding `bottle_count` times the per-bottle reward and
 * raises the balance by that award.
 */
module Disposal {
  import opened Wallet

  /** A redirect to the thank-you page carrying the award, or the form page again. */
  datatype DisposalReply = ThankYou(coinsEarned: int) | FormPage

  /** `coins_awarded` of an entry. */
  function Award(bottleCount: int, rewardPerBottle: int): int
  {
    bottleCount * rewardPerBottle
  }

  /** The form accepts a submission whose other fields are valid and whose bottle count is at least 1. */
  predicate FormValid(fieldsValid: bool, bottleCount: int)
  {
    fieldsValid && bottleCount >= 1
  }

  /**
   * `submit_disposal`; `fieldsValid` stands for the image, latitude and longitude checks and
   * `rewardPerBottle` for `GLASS_DISPOSAL_REWARD_PER_BOTTLE`.
   */
  method SubmitDisposal(a: Account, isPost: bool, fieldsValid: bool, bottleCount: int, rewardPerBottle: int)
    returns (r: DisposalReply)
    requires a.Valid()
    modifies a
    ensures a.Valid()
    ensures !(isPost && FormValid(fieldsValid, bottleCount)) ==> r == FormPage && a.View() == old(a.View())
    ensures isPost && FormValid(fieldsValid, bottleCount) ==>
              r == ThankYou(Award(bottleCount, rewardPerBottle)) &&
              a.View() == Saved(old(a.View()).(disposals := old(a.disposals) + [r.coinsEarned]), old(a.coins) + r.coinsEarned)
  {
    if !isPost || !FormValid(fieldsValid, bottleCount) {
      return FormPage;
    }
    var awarded := Award(bottleCount, rewardPerBottle);
    a.disposals := a.disposals + [awarded];
    a.SaveProfile(a.coins + awarded);
    r := ThankYou(awarded);
  }

  /**
   * An accepted submission earns at least the per-bottle reward, grows with the bottle count, and
   * a positive award adds exactly that award to the ledger.
   */
  lemma AwardBounds(v: AccountView, bottleCount: int, rewardPerBottle: int)
    requires FormValid(true, bottleCount) && rewardPerBottle >= 0
    ensures Award(bottleCount, rewardPerBottle) >= rewardPerBottle
    ensures Award(bottleCount + 1, rewardPerBottle) == Award(bottleCount, rewardPerBottle) + rewardPerBottle
    ensures rewardPerBottle > 0 ==>
              Saved(v, v.coins + Award(bottleCount, rewardPerBottle)).earned == v.earned + [Award(bottleCount, rewardPerBottle)]
  {
    assert (bottleCount - 1) * rewardPerBottle >= 0;
    SavedRecords(v, Award(bottleCount, rewardPerBottle));
  }
}
