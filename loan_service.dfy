/**
 * Taking out a personal loan and paying down a liability. Both change the
 * player's cash and liability list in place and report success with a
 * boolean; a rejected call changes nothing.
 */
module LoanService {
  import opened Wrappers
  import opened Money
  import opened FinancialData
  import opened Collections
  import opened PlayerData

  /** Personal loans carry a fixed 10% annual rate. */
  const PERSONAL_LOAN_RATE: real := 0.10

  /** Index of the first liability with the given id (`FirstOrDefault`), if any. */
  function FindLiability(ls: seq<Liability>, id: Guid): (r: Option<nat>)
    reads ls
    ensures r.Some? ==> r.value < |ls| && ls[r.value].Id == id
    ensures r.Some? ==> forall k :: 0 <= k < r.value ==> ls[k].Id != id
    ensures r.None? ==> forall k :: 0 <= k < |ls| ==> ls[k].Id != id
  {
    if |ls| == 0 then None
    else if ls[0].Id == id then Some(0)
    else match FindLiability(ls[1..], id)
      case None => None
      case Some(k) => Some(k + 1)
  }

  /**
   * Borrows `amount` for `term` years (1 to 5) at 10%: appends a new
   * "Personal Loan" liability and credits the cash at once. The new
   * liability's monthly payment is added to the player's expenses.
   */
  method TakeOutLoan(player: Player, amount: real, term: int, id: Guid) returns (ok: bool)
    modifies player`Cash, player.Liabilities
    ensures ok <==> amount > 0.0 && 1 <= term <= 5
    ensures player.Liabilities == old(player.Liabilities) && player.Profession == old(player.Profession)
    ensures player.Assets == old(player.Assets) && player.NumberOfChildren == old(player.NumberOfChildren)
    ensures player.StockPositions == old(player.StockPositions) && player.DividendIncome == old(player.DividendIncome)
    ensures player.Id == old(player.Id) && player.Name == old(player.Name) && player.BoardSpaceId == old(player.BoardSpaceId)
    ensures !ok ==> player.Cash == old(player.Cash) && player.Liabilities.Items == old(player.Liabilities.Items)
    ensures ok ==> player.Cash == old(player.Cash) + amount
    ensures ok ==> |player.Liabilities.Items| == |old(player.Liabilities.Items)| + 1
    ensures ok ==> player.Liabilities.Items[..|old(player.Liabilities.Items)|] == old(player.Liabilities.Items)
    ensures ok ==> var loan := player.Liabilities.Items[|old(player.Liabilities.Items)|];
                   fresh(loan) && loan.Id == id && loan.Name == "Personal Loan" &&
                   loan.Terms() == LoanTerms(amount, PERSONAL_LOAN_RATE, term * PAYMENTS_PER_ROUND)
    ensures ok && old(AllPaymentsDefined(player.Liabilities.Items)) ==>
              AllPaymentsDefined(player.Liabilities.Items) &&
              SumExpenses(player.Liabilities.Items) ==
                old(SumExpenses(player.Liabilities.Items)) + player.Liabilities.Items[|old(player.Liabilities.Items)|].Expense() &&
              player.Expenses() == old(player.Expenses()) + player.Liabilities.Items[|old(player.Liabilities.Items)|].Expense()
  {
    if amount <= 0.0 {
      return false;
    }
    if term < 1 || term > 5 {
      return false;
    }
    var liability := new Liability(id, "Personal Loan", amount, PERSONAL_LOAN_RATE, term * PAYMENTS_PER_ROUND);
    player.Liabilities.Add(liability);
    player.Cash := player.Cash + amount;
    assert player.Liabilities.Items[|old(player.Liabilities.Items)|] == liability;
    if old(AllPaymentsDefined(player.Liabilities.Items)) {
      NonNegativeRateDefined(liability.Terms());
      ExpensesAfterAppend(player, liability);
    }
    return true;
  }

  /**
   * Pays `amount` off the liability with the given id, but never more than its
   * balance. Rejected when the amount is not positive, the id is unknown, or
   * the capped amount exceeds the cash. On success cash and balance drop by
   * the same amount, and the liability leaves the list once its balance is
   * down to zero.
   */
  method PayOffLoan(player: Player, liabilityId: Guid, amount: real) returns (ok: bool)
    modifies player`Cash, player.Liabilities, player.Liabilities.Items`Amount
    ensures player.Liabilities == old(player.Liabilities) && player.Profession == old(player.Profession)
    ensures player.Assets == old(player.Assets) && player.NumberOfChildren == old(player.NumberOfChildren)
    ensures player.StockPositions == old(player.StockPositions) && player.DividendIncome == old(player.DividendIncome)
    ensures forall l :: l in old(player.Liabilities.Items) ==> l.Id == old(l.Id) && l.Name == old(l.Name)
    ensures forall l :: l in old(player.Liabilities.Items) ==> l.InterestRate == old(l.InterestRate) && l.Term == old(l.Term)
    ensures player.Id == old(player.Id) && player.Name == old(player.Name) && player.BoardSpaceId == old(player.BoardSpaceId)
    ensures var found := old(FindLiability(player.Liabilities.Items, liabilityId));
            ok <==> amount > 0.0 && found.Some? &&
                    Min(amount, old(player.Liabilities.Items[found.value].Amount)) <= old(player.Cash)
    ensures !ok ==> player.Cash == old(player.Cash) && player.Liabilities.Items == old(player.Liabilities.Items)
    ensures !ok ==> forall l :: l in old(player.Liabilities.Items) ==> l.Amount == old(l.Amount)
    ensures ok ==>
              var i := old(FindLiability(player.Liabilities.Items, liabilityId)).value;
              var paid := old(player.Liabilities.Items)[i];
              var applied := Min(amount, old(paid.Amount));
              && player.Cash == old(player.Cash) - applied
              && paid.Amount == old(paid.Amount) - applied
              && player.Cash - paid.Amount == old(player.Cash - paid.Amount)
              && player.Cash >= 0.0
              && (forall l :: l in old(player.Liabilities.Items) && l != paid ==> l.Amount == old(l.Amount))
              && (player.Liabilities.Items ==
                    if paid.Amount <= 0.0 then old(player.Liabilities.Items)[..i] + old(player.Liabilities.Items)[i + 1..]
                    else old(player.Liabilities.Items))
              && (old(paid.Amount) >= 0.0 ==> (paid.Amount <= 0.0 <==> amount >= old(paid.Amount)))
    ensures ok && old(AllPaymentsDefined(player.Liabilities.Items)) ==>
              var paid := old(player.Liabilities.Items)[old(FindLiability(player.Liabilities.Items, liabilityId)).value];
              paid !in player.Liabilities.Items ==>
                AllPaymentsDefined(player.Liabilities.Items) &&
                player.Expenses() == old(player.Expenses()) - old(paid.Expense())
  {
    if amount <= 0.0 {
      return false;
    }
    var found := FindLiability(player.Liabilities.Items, liabilityId);
    if found.None? {
      return false;
    }
    var liability := player.Liabilities.Items[found.value];
    var applied := Min(amount, liability.Amount);
    if applied > player.Cash {
      return false;
    }
    assert liability !in player.Liabilities.Items[..found.value];
    ApplyPayment(player, found.value, liability, applied);
    if liability !in player.Liabilities.Items && old(AllPaymentsDefined(player.Liabilities.Items)) {
      ExpensesAfterRemove(player, found.value);
    }
    return true;
  }

  /**
   * The update of an accepted payment: cash and the balance of the liability
   * at index `i` both fall by `applied`, and a balance that reaches zero or
   * below takes the liability off the list.
   */
  method ApplyPayment(player: Player, i: nat, liability: Liability, applied: real)
    requires i < |player.Liabilities.Items| && player.Liabilities.Items[i] == liability
    requires liability !in player.Liabilities.Items[..i]
    modifies player`Cash, player.Liabilities, liability`Amount
    ensures player.Liabilities == old(player.Liabilities) && player.Profession == old(player.Profession)
    ensures player.Assets == old(player.Assets) && player.NumberOfChildren == old(player.NumberOfChildren)
    ensures player.StockPositions == old(player.StockPositions) && player.DividendIncome == old(player.DividendIncome)
    ensures player.Id == old(player.Id) && player.Name == old(player.Name) && player.BoardSpaceId == old(player.BoardSpaceId)
    ensures player.Cash == old(player.Cash) - applied
    ensures var paid := old(player.Liabilities.Items)[i];
            && paid.Amount == old(paid.Amount) - applied
            && paid.Id == old(paid.Id) && paid.Name == old(paid.Name)
            && paid.InterestRate == old(paid.InterestRate) && paid.Term == old(paid.Term)
            && player.Liabilities.Items ==
                 if paid.Amount <= 0.0 then old(player.Liabilities.Items)[..i] + old(player.Liabilities.Items)[i + 1..]
                 else old(player.Liabilities.Items)
    ensures forall l :: l in old(player.Liabilities.Items) && l != old(player.Liabilities.Items)[i] ==> unchanged(l)
  {
    player.Cash := player.Cash - applied;
    liability.Amount := liability.Amount - applied;
    if liability.Amount <= 0.0 {
      assert IndexOf(old(player.Liabilities.Items), liability) == i;
      var _ := player.Liabilities.Remove(liability);
    }
  }
}
