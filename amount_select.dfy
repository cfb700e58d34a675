/** The amount field of the new-transaction form: a leading sign chooses
    between expense and income (src/app/home/transactions/new/amountSelect.tsx). */
module AmountInput {
  import opened Strings

  /** The two pieces of state `handleAmountChange` writes. */
  datatype AmountState = AmountState(amount: string, isExpense: bool)

  /** `handleAmountChange`: a leading '+' marks income and a leading '-' an
      expense, and that one character is dropped; any other input is the
      amount as typed and leaves the expense flag alone. */
  function HandleAmountChange(value: string, isExpense: bool): (r: AmountState)
    ensures StartsWith(value, '+') ==> r.amount == value[1..] && !r.isExpense
    ensures StartsWith(value, '-') ==> r.amount == value[1..] && r.isExpense
    ensures !StartsWith(value, '+') && !StartsWith(value, '-') ==> r == AmountState(value, isExpense)
  {
    if StartsWith(value, '+') then AmountState(value[1..], false)
    else if StartsWith(value, '-') then AmountState(value[1..], true)
    else AmountState(value, isExpense)
  }

  /** The sign character that stands for an expense flag. */
  function SignOf(isExpense: bool): char {
    if isExpense then '-' else '+'
  }

  /** Nothing typed is lost: a signed input is the sign of the new flag
      followed by the new amount, and an unsigned one is the amount itself. */
  lemma InputRecovered(value: string, isExpense: bool)
    ensures var r := HandleAmountChange(value, isExpense);
      if StartsWith(value, '+') || StartsWith(value, '-') then [SignOf(r.isExpense)] + r.amount == value
      else r.amount == value
  {
  }

  /** Only one sign is stripped: "+-5" keeps "-5" as the amount and is income. */
  lemma OneSignStripped(isExpense: bool)
    ensures HandleAmountChange("+-5", isExpense) == AmountState("-5", false)
  {
  }

  /** Feeding the stored amount back in changes nothing once it has no
      leading sign. */
  lemma UnsignedIsFixed(value: string, isExpense: bool)
    requires !StartsWith(value, '+') && !StartsWith(value, '-')
    ensures HandleAmountChange(HandleAmountChange(value, isExpense).amount, isExpense) == AmountState(value, isExpense)
  {
  }
}
