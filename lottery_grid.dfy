/**
 * The player's 37-number grid: picking numbers, clearing, and handing six numbers to the purchase
 * callback. Buying is asynchronous, so it is modelled as two steps: `StartPurchase` runs the checks
 * and marks the grid as submitting; `FinishPurchase` runs when the callback settles.
 */
module LotteryGrid {
  import opened Wrappers
  import opened Schema
  import opened Selection

  datatype GridError = NeedSixNumbers | InsufficientBalance

  /** `handlePurchase`'s checks, in the order it makes them. */
  function PurchaseCheck(count: nat, userBalance: int): Option<GridError> {
    if count != Picks then Some(NeedSixNumbers)
    else if userBalance < TicketPrice then Some(InsufficientBalance)
    else None
  }

  /** The purchase button is enabled: six picks, not disabled, not submitting, enough balance. */
  predicate PurchaseEnabled(count: nat, disabled: bool, submitting: bool, userBalance: int) {
    !(count != Picks || disabled || submitting || userBalance < TicketPrice)
  }

  /** The clear button is enabled: something picked, not disabled, not submitting. */
  predicate ClearEnabled(count: nat, disabled: bool, submitting: bool) {
    !(count == 0 || disabled || submitting)
  }

  /**
   * The button and the handler agree: the button is enabled exactly when the handler's checks pass
   * and the grid is neither disabled nor submitting. The handler itself does not look at either flag.
   */
  lemma ButtonMatchesChecks(count: nat, disabled: bool, submitting: bool, userBalance: int)
    ensures PurchaseEnabled(count, disabled, submitting, userBalance) <==>
              PurchaseCheck(count, userBalance).None? && !disabled && !submitting
    ensures userBalance < TicketPrice ==> !PurchaseEnabled(count, disabled, submitting, userBalance)
  {
  }

  class Grid {
    const disabled: bool
    const userBalance: int
    var selected: seq<int>
    var isSubmitting: bool

    ghost predicate Valid()
      reads this
    {
      ValidSelection(selected)
    }

    /** The "numbers remaining" counter. */
    function Remaining(): (n: int)
      reads this
      requires Valid()
      ensures 0 <= n <= Picks
      ensures n == 0 <==> |selected| == Picks
    {
      Picks - |selected|
    }

    constructor (disabled: bool, userBalance: int)
      ensures Valid()
      ensures this.disabled == disabled && this.userBalance == userBalance
      ensures selected == [] && !isSubmitting
    {
      this.disabled := disabled;
      this.userBalance := userBalance;
      selected := [];
      isSubmitting := false;
    }

    /** `toggleNumber(num)`: ignored while disabled or submitting. */
    method ToggleNumber(num: int)
      requires Valid()
      requires Lowest <= num <= Highest
      modifies this
      ensures Valid()
      ensures selected == if disabled || old(isSubmitting) then old(selected) else Toggle(old(selected), num)
      ensures isSubmitting == old(isSubmitting)
    {
      if disabled || isSubmitting {
        return;
      }
      ToggleKeepsValid(selected, num);
      selected := Toggle(selected, num);
    }

    /** `clearSelection`: empties the selection unless disabled or submitting. */
    method ClearSelection()
      requires Valid()
      modifies this
      ensures Valid()
      ensures selected == if disabled || old(isSubmitting) then old(selected) else []
      ensures isSubmitting == old(isSubmitting)
    {
      if !disabled && !isSubmitting {
        selected := [];
      }
    }

    /**
     * The synchronous part of `handlePurchase`: on a failed check an error is shown and nothing changes;
     * otherwise the grid becomes submitting and the selection is what goes to `onPurchaseTicket`.
     */
    method StartPurchase() returns (r: Result)
      requires Valid()
      modifies this
      ensures Valid()
      ensures selected == old(selected)
      ensures PurchaseCheck(|old(selected)|, userBalance).Some? ==>
                r == Refused(PurchaseCheck(|old(selected)|, userBalance).value) && isSubmitting == old(isSubmitting)
      ensures PurchaseCheck(|old(selected)|, userBalance).None? ==> r == Submitted(old(selected)) && isSubmitting
    {
      var check := PurchaseCheck(|selected|, userBalance);
      if check.Some? {
        return Refused(check.value);
      }
      isSubmitting := true;
      r := Submitted(selected);
    }

    /** The `finally` of `handlePurchase`: a purchase that went through clears the picks; a failed one keeps them. */
    method FinishPurchase(succeeded: bool)
      requires Valid()
      modifies this
      ensures Valid()
      ensures selected == if succeeded then [] else old(selected)
      ensures !isSubmitting
    {
      if succeeded {
        selected := [];
      }
      isSubmitting := false;
    }
  }

  datatype Result = Refused(error: GridError) | Submitted(numbers: seq<int>)

  /** What the grid hands to the purchase callback is always six distinct grid numbers in ascending order. */
  lemma SubmittedIsATicket(selected: seq<int>, userBalance: int)
    requires ValidSelection(selected)
    requires PurchaseCheck(|selected|, userBalance).None?
    ensures |selected| == Picks && StrictlyIncreasing(selected) && OnGrid(selected)
  {
  }
}
