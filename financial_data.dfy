/**
 * The financial entities of the game: assets a player owns, liabilities
 * (installment loans and revolving credit lines) with their monthly payment
 * and the one-month amortization step, and purchase offers.
 */
module FinancialData {
  import opened Wrappers
  import opened Money

  /** Identifiers are random GUIDs in the server; here they are plain integers. */
  type Guid = int

  const PAYMENTS_PER_ROUND: int := 12
  const MORTGAGE_TERM: int := 30 * PAYMENTS_PER_ROUND
  const CAR_LOAN_TERM: int := 5 * PAYMENTS_PER_ROUND
  const STUDENT_LOANS_TERM: int := 20 * PAYMENTS_PER_ROUND
  const CREDIT_CARD_TERM: int := 0

  /** An annual amount spread over the `PAYMENTS_PER_ROUND` (twelve) monthly payments of a year. */
  function PerPayment(annual: real): (m: real)
    ensures m * PAYMENTS_PER_ROUND as real == annual
    ensures annual > 0.0 <==> m > 0.0
  {
    annual / 12.0
  }

  datatype AssetType = mlm1 | mlm2 | business | twoOne | threeTwo | apartment | cd | land | gold

  /** An asset. `Equity` is what the owner paid in; the rest of `Value` is borrowed. */
  datatype Asset = Asset(
    Id: Guid,
    Name: string,
    Type: AssetType,
    Quantity: Option<int>,
    Equity: real,
    Value: real,
    RateOfReturn: real)
  {
    /** The part of the value financed by a loan. */
    function LoanAmount(): (r: real)
      ensures Equity + r == Value
      ensures Value == Equity <==> r == 0.0
    {
      Value - Equity
    }

    /** Monthly income: one twelfth of the annual return on the whole value. */
    function Income(): (r: real)
      ensures r * PAYMENTS_PER_ROUND as real == Value * RateOfReturn
      ensures Value >= 0.0 && RateOfReturn >= 0.0 ==> r >= 0.0
      ensures RateOfReturn == 0.0 ==> r == 0.0
    {
      Value * (RateOfReturn / PAYMENTS_PER_ROUND as real)
    }
  }

  /** What a market buyer offers for assets of one type. */
  datatype PurchaseOffer = PurchaseOffer(Name: string, Type: AssetType, Price: real)

  /** The financial state of a liability: balance, annual rate and months left. */
  datatype LoanTerms = LoanTerms(Amount: real, InterestRate: real, Term: int)

  function Pow(b: real, n: nat): real
  {
    if n == 0 then 1.0 else b * Pow(b, n - 1)
  }

  lemma {:induction false} PowAtLeastBase(b: real, n: nat)
    requires b >= 1.0 && n >= 1
    ensures Pow(b, n) >= b
  {
    if n > 1 {
      PowAtLeastBase(b, n - 1);
      var p := Pow(b, n - 1);
      assert Pow(b, n) == b * p;
      assert p >= 1.0;
      assert b * p >= b * 1.0;
    }
  }

  /**
   * The source's amortizing branch divides by `1 - (1 + r)^(-n)`; it is only
   * meaningful when `1 + r` is not zero and `(1 + r)^n` is not one.
   */
  predicate PaymentDefined(l: LoanTerms)
  {
    var r := PerPayment(l.InterestRate);
    l.Amount <= 0.0 || l.Term <= 0 || l.InterestRate == 0.0 ||
    (1.0 + r != 0.0 && Pow(1.0 + r, l.Term) != 1.0)
  }

  /**
   * The level monthly payment `amount * r / (1 - (1 + r)^(-n))` of an
   * installment loan, computed exactly.
   */
  function AnnuityPayment(amount: real, r: real, n: nat): real
    requires n >= 1 && 1.0 + r != 0.0 && Pow(1.0 + r, n) != 1.0
  {
    PowNonZero(1.0 + r, n);
    amount * r / (1.0 - 1.0 / Pow(1.0 + r, n))
  }

  lemma {:induction false} PowNonZero(b: real, n: nat)
    requires b != 0.0
    ensures Pow(b, n) != 0.0
  {
    if n > 0 {
      PowNonZero(b, n - 1);
    }
  }

  /** For a positive rate the level payment is at least the month's interest. */
  lemma AnnuityCoversInterest(amount: real, r: real, n: nat)
    requires n >= 1 && r > 0.0 && amount >= 0.0
    ensures Pow(1.0 + r, n) > 1.0
    ensures AnnuityPayment(amount, r, n) >= amount * r
  {
    PowAtLeastBase(1.0 + r, n);
    var q := Pow(1.0 + r, n);
    var denom := 1.0 - 1.0 / q;
    assert 0.0 < 1.0 / q < 1.0;
    assert 0.0 < denom <= 1.0;
    assert amount * r >= 0.0;
    assert (amount * r / denom) * denom == amount * r;
  }

  /** The month's interest on the balance: a twelfth of the annual interest. */
  function MonthlyInterest(l: LoanTerms): real
  {
    PerPayment(l.Amount * l.InterestRate)
  }

  /** The month's interest is the balance times the monthly rate. */
  lemma MonthlyInterestAtMonthlyRate(l: LoanTerms)
    ensures MonthlyInterest(l) == l.Amount * PerPayment(l.InterestRate)
  {
    assert (l.Amount * PerPayment(l.InterestRate)) * 12.0 == l.Amount * (PerPayment(l.InterestRate) * 12.0);
  }

  /**
   * The amount `Liability.Expense` rounds: nothing on a cleared balance, the
   * month's interest on a revolving line with a positive rate, nothing on a
   * revolving line without one, an even split of an interest-free loan over
   * the months left, and the level annuity payment otherwise.
   */
  function ExactPayment(l: LoanTerms): real
    requires PaymentDefined(l)
  {
    if l.Amount <= 0.0 then 0.0
    else if l.Term <= 0 && l.InterestRate > 0.0 then MonthlyInterest(l)
    else if l.Term <= 0 then 0.0
    else if l.InterestRate == 0.0 then l.Amount / l.Term as real
    else AnnuityPayment(l.Amount, PerPayment(l.InterestRate), l.Term)
  }

  /**
   * The branches of `ExactPayment`: nothing on a cleared balance; on a
   * revolving line the month's interest at a positive rate and nothing
   * otherwise; an interest-free loan splits its balance evenly over the
   * months left; and an interest-bearing balance always pays at least its
   * (positive) month's interest.
   */
  lemma ExactPaymentCases(l: LoanTerms)
    requires PaymentDefined(l)
    ensures l.Amount <= 0.0 ==> ExactPayment(l) == 0.0
    ensures l.Amount > 0.0 && l.Term <= 0 ==> ExactPayment(l) == if l.InterestRate > 0.0 then MonthlyInterest(l) else 0.0
    ensures l.Amount > 0.0 && l.Term > 0 && l.InterestRate == 0.0 ==> ExactPayment(l) * l.Term as real == l.Amount
    ensures l.Amount > 0.0 && l.InterestRate > 0.0 ==> ExactPayment(l) >= MonthlyInterest(l) > 0.0
  {
    MonthlyInterestPositive(l);
    if l.Amount > 0.0 && l.Term > 0 && l.InterestRate > 0.0 {
      MonthlyInterestAtMonthlyRate(l);
      AnnuityCoversInterest(l.Amount, PerPayment(l.InterestRate), l.Term);
    }
  }

  /** A positive balance at a positive rate accrues positive interest. */
  lemma MonthlyInterestPositive(l: LoanTerms)
    ensures l.Amount > 0.0 && l.InterestRate > 0.0 ==> MonthlyInterest(l) > 0.0
  {
    if l.Amount > 0.0 && l.InterestRate > 0.0 {
      assert l.Amount * l.InterestRate > 0.0;
    }
  }

  /**
   * `Liability.Expense`: the payment due this month, in whole cents and
   * within half a cent of the exact amount. Every branch of the source rounds
   * its amount; rounding the zero of the other branches changes nothing.
   */
  function Payment(l: LoanTerms): (e: real)
    requires PaymentDefined(l)
    ensures IsCents(e)
    ensures -0.005 <= e - ExactPayment(l) <= 0.005
    ensures l.Amount <= 0.0 || (l.Term <= 0 && l.InterestRate <= 0.0) ==> e == 0.0
  {
    assert IsCents(0.0);
    Round2(ExactPayment(l))
  }

  /** A revolving line (no term left) pays the month's interest, rounded to cents. */
  lemma InterestOnlyPayment(l: LoanTerms)
    requires l.InterestRate > 0.0 && l.Amount > 0.0 && l.Term <= 0
    ensures PaymentDefined(l)
    ensures Payment(l) == Round2(MonthlyInterest(l))
  {
    assert ExactPayment(l) == MonthlyInterest(l);
  }

  /**
   * With a non-negative rate the payment is never negative, and on an
   * interest-bearing balance it covers at least the month's interest
   * (rounded to cents).
   */
  lemma PaymentCoversInterest(l: LoanTerms)
    requires l.InterestRate >= 0.0
    ensures PaymentDefined(l)
    ensures Payment(l) >= 0.0
    ensures l.Amount > 0.0 && l.InterestRate > 0.0 ==> Payment(l) >= Round2(MonthlyInterest(l))
  {
    NonNegativeRateDefined(l);
    if l.Amount > 0.0 {
      if l.Term <= 0 {
        if l.InterestRate > 0.0 {
          InterestOnlyPayment(l);
          Round2Sign(MonthlyInterest(l));
        }
      } else if l.InterestRate == 0.0 {
        assert ExactPayment(l) == l.Amount / l.Term as real;
        Round2Sign(l.Amount / l.Term as real);
      } else {
        AnnuityCovers(l);
        Round2Monotone(MonthlyInterest(l), ExactPayment(l));
        Round2Sign(MonthlyInterest(l));
      }
    }
  }

  /** On an amortizing loan with a positive rate the exact payment is at least the month's interest, which is not negative. */
  lemma AnnuityCovers(l: LoanTerms)
    requires l.InterestRate > 0.0 && l.Amount > 0.0 && l.Term > 0
    ensures PaymentDefined(l)
    ensures ExactPayment(l) >= MonthlyInterest(l) >= 0.0
  {
    NonNegativeRateDefined(l);
    MonthlyInterestAtMonthlyRate(l);
    AnnuityCoversInterest(l.Amount, PerPayment(l.InterestRate), l.Term);
    assert ExactPayment(l) == AnnuityPayment(l.Amount, PerPayment(l.InterestRate), l.Term);
  }

  /** The balance after one month's interest has accrued on it: exactly the month's interest is added. */
  function Accrued(l: LoanTerms): (a: real)
    ensures a == l.Amount + MonthlyInterest(l)
  {
    MonthlyInterestAtMonthlyRate(l);
    var r := PerPayment(l.InterestRate);
    assert l.Amount * (1.0 + r) == l.Amount * 1.0 + l.Amount * r;
    if l.InterestRate == 0.0 then l.Amount else l.Amount * (1.0 + r)
  }

  /**
   * `Liability.ApplyMonthlyAmortization` on values: the new terms and whether
   * the liability is now paid off. Nothing happens without a term left; a
   * step either pays the liability off (balance zero) or leaves more than a
   * cent owing with at least one month to go.
   */
  function AmortizationStep(l: LoanTerms): (result: (LoanTerms, bool))
    requires PaymentDefined(l)
    ensures l.Term <= 0 ==> result == (l, false)
    ensures l.Term > 0 ==> result.0.Term == l.Term - 1
    ensures result.0.InterestRate == l.InterestRate
    ensures result.1 <==> l.Term > 0 && result.0.Amount == 0.0
    ensures l.Term > 0 && !result.1 ==> result.0.Amount > 0.01 && result.0.Term > 0
  {
    if l.Term <= 0 then (l, false)
    else
      var amount := Accrued(l) - Payment(l);
      var term := l.Term - 1;
      if amount <= 0.01 || term <= 0 then (LoanTerms(0.0, l.InterestRate, term), true)
      else (LoanTerms(amount, l.InterestRate, term), false)
  }

  /**
   * What one step does to a liability with months left, in terms of the old
   * terms: the new balance is the old one (grown by the monthly rate when
   * there is one) minus the payment, that is the old balance plus the
   * month's interest minus the payment. The step pays off exactly when that
   * balance is at most a cent or this was the last month; then the balance
   * is zero, and otherwise it is the new balance.
   */
  lemma AmortizationStepBalance(l: LoanTerms)
    requires PaymentDefined(l)
    ensures l.Term > 0 ==>
              var next := (if l.InterestRate == 0.0 then l.Amount else l.Amount * (1.0 + PerPayment(l.InterestRate))) - Payment(l);
              && next == l.Amount + MonthlyInterest(l) - Payment(l)
              && (AmortizationStep(l).1 <==> next <= 0.01 || l.Term == 1)
              && AmortizationStep(l).0 ==
                   if next <= 0.01 || l.Term == 1 then LoanTerms(0.0, l.InterestRate, l.Term - 1)
                   else LoanTerms(next, l.InterestRate, l.Term - 1)
  {
  }

  /** For a non-negative rate the amortizing formula is always defined. */
  lemma NonNegativeRateDefined(l: LoanTerms)
    requires l.InterestRate >= 0.0
    ensures PaymentDefined(l)
  {
    var r := PerPayment(l.InterestRate);
    if l.Amount > 0.0 && l.Term > 0 && l.InterestRate > 0.0 {
      PowAtLeastBase(1.0 + r, l.Term);
    }
  }

  /**
   * One step never lets the balance grow by more than half a cent: the
   * payment covers at least the month's interest, up to rounding.
   */
  lemma StepBalanceBound(l: LoanTerms)
    requires l.InterestRate >= 0.0 && l.Amount > 0.0
    ensures PaymentDefined(l)
    ensures AmortizationStep(l).0.Amount <= l.Amount + 0.005
  {
    PaymentCoversInterest(l);
    if l.Term > 0 {
      var next := AmortizationStep(l).0;
      assert next.Amount == 0.0 || next.Amount == Accrued(l) - Payment(l);
      if l.InterestRate == 0.0 {
        assert MonthlyInterest(l) == 0.0;
      }
    }
  }

  /** A paid-off liability stays paid off on every later step. */
  lemma StaysPaidOff(l: LoanTerms)
    requires l.InterestRate >= 0.0 && l.Amount == 0.0 && l.Term > 0
    ensures PaymentDefined(l)
    ensures AmortizationStep(l) == (LoanTerms(0.0, l.InterestRate, l.Term - 1), true)
  {
    NonNegativeRateDefined(l);
  }

  /** The terms after `k` consecutive amortization steps. */
  function Amortized(l: LoanTerms, k: nat): (r: LoanTerms)
    requires l.InterestRate >= 0.0
    ensures r.InterestRate == l.InterestRate
    decreases k
  {
    NonNegativeRateDefined(l);
    if k == 0 then l else Amortized(AmortizationStep(l).0, k - 1)
  }

  lemma {:induction false} TermCountsDown(l: LoanTerms, k: nat)
    requires l.InterestRate >= 0.0 && k <= l.Term
    ensures Amortized(l, k).Term == l.Term - k
    decreases k
  {
    if k > 0 {
      NonNegativeRateDefined(l);
      TermCountsDown(AmortizationStep(l).0, k - 1);
    }
  }

  /**
   * A liability with `n >= 1` months left is paid off by its `n`-th monthly
   * step: that step reports "paid off", and afterwards both the balance and
   * the term are zero, whatever the rate and balance were.
   */
  lemma {:induction false} PaidOffAfterTerm(l: LoanTerms)
    requires l.InterestRate >= 0.0 && l.Term >= 1
    ensures var last := Amortized(l, l.Term - 1);
            last.InterestRate >= 0.0 && last.Term == 1 && PaymentDefined(last) &&
            AmortizationStep(last).1 && AmortizationStep(last).0 == Amortized(l, l.Term)
    ensures Amortized(l, l.Term) == LoanTerms(0.0, l.InterestRate, 0)
    decreases l.Term
  {
    NonNegativeRateDefined(l);
    var next := AmortizationStep(l).0;
    if l.Term == 1 {
      assert Amortized(l, 0) == l;
      assert Amortized(l, 1) == Amortized(next, 0) == next;
    } else {
      PaidOffAfterTerm(next);
      assert Amortized(l, l.Term - 1) == Amortized(next, next.Term - 1);
      assert Amortized(l, l.Term) == Amortized(next, next.Term);
    }
  }

  class Liability {
    var Id: Guid
    var Name: string
    var Amount: real
    var InterestRate: real
    var Term: int

    constructor (id: Guid, name: string, amount: real, interestRate: real, term: int)
      ensures Id == id && Name == name
      ensures Amount == amount && InterestRate == interestRate && Term == term
    {
      Id, Name := id, name;
      Amount, InterestRate, Term := amount, interestRate, term;
    }

    function Terms(): LoanTerms
      reads this
    {
      LoanTerms(Amount, InterestRate, Term)
    }

    /** The payment due this month. */
    function Expense(): (e: real)
      reads this
      requires PaymentDefined(Terms())
      ensures e == Payment(Terms())
    {
      Payment(Terms())
    }

    /** Advances the liability by one monthly payment; reports whether it is paid off. */
    method ApplyMonthlyAmortization() returns (paidOff: bool)
      requires PaymentDefined(Terms())
      modifies this`Amount, this`Term
      ensures (Terms(), paidOff) == AmortizationStep(old(Terms()))
      ensures Id == old(Id) && Name == old(Name)
    {
      ghost var before := Terms();
      if Term <= 0 {
        return false;
      }
      var monthlyPayment := Expense();
      assert monthlyPayment == Payment(before);
      if InterestRate == 0.0 {
        assert Accrued(before) == Amount;
        Amount := Amount - monthlyPayment;
      } else {
        var r := PerPayment(InterestRate);
        assert Accrued(before) == Amount * (1.0 + r);
        Amount := Amount * (1.0 + r) - monthlyPayment;
      }
      Term := Term - 1;
      if Amount <= 0.01 || Term <= 0 {
        Amount := 0.0;
        return true;
      }
      return false;
    }
  }
}
