/**
 * A player and the profession template they choose. Income, taxes, child
 * expenses, expenses and net income are derived from the player's state on
 * every read, never stored.
 */
module PlayerData {
  import opened Money
  import opened FinancialData
  import opened Collections
  import opened StockMarketData

  /** A starting template: salary, savings, recurring expenses and starter assets and liabilities. */
  class Profession {
    var Name: string
    var Salary: real
    var ChildExpense: real
    var OtherExpenses: real
    var Savings: real
    var Assets: List<Asset>
    var Liabilities: List<Liability>

    constructor (name: string, salary: real, childExpense: real, otherExpenses: real, savings: real,
                 assets: seq<Asset>, liabilities: seq<Liability>)
      ensures Name == name && Salary == salary && ChildExpense == childExpense
      ensures OtherExpenses == otherExpenses && Savings == savings
      ensures fresh(Assets) && fresh(Liabilities)
      ensures Assets.Items == assets && Liabilities.Items == liabilities
    {
      Name, Salary, ChildExpense, OtherExpenses, Savings := name, salary, childExpense, otherExpenses, savings;
      Assets := new List<Asset>.Of(assets);
      Liabilities := new List<Liability>.Of(liabilities);
    }
  }

  /** The monthly income of a list of assets. */
  function SumIncome(assets: seq<Asset>): real
  {
    if |assets| == 0 then 0.0 else SumIncome(assets[..|assets| - 1]) + assets[|assets| - 1].Income()
  }

  /** Income is additive over asset lists. */
  lemma {:induction false} SumIncomeAppend(a: seq<Asset>, b: seq<Asset>)
    ensures SumIncome(a + b) == SumIncome(a) + SumIncome(b)
    decreases |b|
  {
    if |b| > 0 {
      assert (a + b)[..|a + b| - 1] == a + b[..|b| - 1];
      SumIncomeAppend(a, b[..|b| - 1]);
    } else {
      assert a + b == a;
    }
  }

  /** Assets that each yield a non-negative income yield a non-negative total. */
  lemma {:induction false} SumIncomeNonNegative(assets: seq<Asset>)
    requires forall a :: a in assets ==> a.Income() >= 0.0
    ensures SumIncome(assets) >= 0.0
    decreases |assets|
  {
    if |assets| > 0 {
      assert forall a :: a in assets[..|assets| - 1] ==> a in assets;
      SumIncomeNonNegative(assets[..|assets| - 1]);
    }
  }

  /** The financial terms of each liability of a list, in order. */
  function TermsOf(ls: seq<Liability>): (ts: seq<LoanTerms>)
    reads ls
    ensures |ts| == |ls| && forall k :: 0 <= k < |ls| ==> ts[k] == ls[k].Terms()
  {
    seq(|ls|, k reads ls requires 0 <= k < |ls| => ls[k].Terms())
  }

  predicate AllDefined(ts: seq<LoanTerms>)
  {
    forall k :: 0 <= k < |ts| ==> PaymentDefined(ts[k])
  }

  predicate AllPaymentsDefined(ls: seq<Liability>)
    reads ls
  {
    AllDefined(TermsOf(ls))
  }

  /** The monthly payment of each of a list of terms, in order. */
  function Payments(ts: seq<LoanTerms>): (ps: seq<real>)
    requires AllDefined(ts)
    ensures |ps| == |ts| && forall k :: 0 <= k < |ts| ==> ps[k] == Payment(ts[k])
  {
    seq(|ts|, k requires 0 <= k < |ts| && AllDefined(ts) => Payment(ts[k]))
  }

  /** The sum of the monthly payments of a list of liabilities. */
  function SumExpenses(ls: seq<Liability>): real
    reads ls
    requires AllPaymentsDefined(ls)
  {
    Sum(Payments(TermsOf(ls)))
  }

  /** Liabilities that carry no negative interest rate. */
  predicate NonNegativeRates(ls: seq<Liability>)
    reads ls
  {
    forall k :: 0 <= k < |ls| ==> ls[k].InterestRate >= 0.0
  }

  /** Without negative rates every payment is defined and the liability expenses are never negative. */
  lemma SumExpensesNonNegative(ls: seq<Liability>)
    requires NonNegativeRates(ls)
    ensures AllPaymentsDefined(ls) && SumExpenses(ls) >= 0.0
  {
    var ts := TermsOf(ls);
    forall k | 0 <= k < |ts|
      ensures PaymentDefined(ts[k]) && Payment(ts[k]) >= 0.0
    {
      PaymentCoversInterest(ts[k]);
    }
    SumNonNegative(Payments(ts));
  }

  /** Adding a liability adds exactly its monthly payment. */
  lemma SumExpensesAppend(ls: seq<Liability>, l: Liability)
    requires AllPaymentsDefined(ls) && PaymentDefined(l.Terms())
    ensures AllPaymentsDefined(ls + [l])
    ensures SumExpenses(ls + [l]) == SumExpenses(ls) + l.Expense()
  {
    var ts := TermsOf(ls);
    assert TermsOf(ls + [l]) == ts + [l.Terms()];
    assert Payments(ts + [l.Terms()]) == Payments(ts) + [Payment(l.Terms())];
    SumAppend(Payments(ts), Payment(l.Terms()));
  }

  /** Removing a liability subtracts exactly its monthly payment. */
  lemma SumExpensesRemove(ls: seq<Liability>, i: nat)
    requires i < |ls| && AllPaymentsDefined(ls)
    ensures AllPaymentsDefined(ls[..i] + ls[i + 1..])
    ensures SumExpenses(ls[..i] + ls[i + 1..]) == SumExpenses(ls) - ls[i].Expense()
  {
    var ts := TermsOf(ls);
    assert TermsOf(ls[..i] + ls[i + 1..]) == ts[..i] + ts[i + 1..];
    PaymentsRemove(ts, i);
  }

  /** Dropping the terms at index `i` drops exactly their payment from the total. */
  lemma PaymentsRemove(ts: seq<LoanTerms>, i: nat)
    requires i < |ts| && AllDefined(ts)
    ensures AllDefined(ts[..i] + ts[i + 1..])
    ensures Sum(Payments(ts[..i] + ts[i + 1..])) == Sum(Payments(ts)) - Payment(ts[i])
  {
    var rest := ts[..i] + ts[i + 1..];
    forall k | 0 <= k < |rest| ensures rest[k] == ts[if k < i then k else k + 1] && PaymentDefined(rest[k]) {
      assert PaymentDefined(ts[if k < i then k else k + 1]);
    }
    var ps, qs := Payments(ts), Payments(rest);
    forall k | 0 <= k < |qs| ensures qs[k] == (ps[..i] + ps[i + 1..])[k] {
      assert qs[k] == ps[if k < i then k else k + 1];
    }
    assert qs == ps[..i] + ps[i + 1..];
    SumRemove(ps, i);
  }

  class Player {
    var Id: Guid
    var Name: string
    var BoardSpaceId: int
    var Profession: Profession?
    var Assets: List<Asset>
    var Liabilities: List<Liability>
    var NumberOfChildren: int
    var Cash: real
    var StockPositions: seq<StockPosition>
    var DividendIncome: real

    /** A new player: on the first space, no profession, no cash, no children, nothing owned. */
    constructor (id: Guid, name: string)
      ensures Id == id && Name == name
      ensures BoardSpaceId == 1 && Profession == null
      ensures NumberOfChildren == 0 && Cash == 0.0
      ensures fresh(Assets) && fresh(Liabilities) && Assets.Items == [] && Liabilities.Items == []
      ensures StockPositions == [] && DividendIncome == 0.0
    {
      Id, Name := id, name;
      BoardSpaceId := 1;
      Profession := null;
      Assets := new List<Asset>();
      Liabilities := new List<Liability>();
      NumberOfChildren := 0;
      Cash := 0.0;
      StockPositions := [];
      DividendIncome := 0.0;
    }

    /** Asset income plus salary (no salary without a profession). Dividend income is not part of it. */
    function Income(): (r: real)
      reads this, Assets, Profession
      ensures r == SumIncome(Assets.Items) + (if Profession == null then 0.0 else Profession.Salary)
      ensures (forall a :: a in Assets.Items ==> a.Income() >= 0.0) ==>
                r >= (if Profession == null then 0.0 else Profession.Salary)
    {
      SumIncomeNonNegativeIf(Assets.Items);
      SumIncome(Assets.Items) + (if Profession == null then 0.0 else Profession.Salary)
    }

    /** Taxes are exactly a fifth of income. */
    function Taxes(): (r: real)
      reads this, Assets, Profession
      ensures 5.0 * r == Income()
    {
      Income() * 0.20
    }

    /** Per-child cost times the number of children; nothing without a profession. */
    function ChildExpenses(): (r: real)
      reads this`Profession, this`NumberOfChildren, Profession
      ensures Profession == null || NumberOfChildren == 0 ==> r == 0.0
      ensures Profession != null && NumberOfChildren > 0 ==> r / NumberOfChildren as real == Profession.ChildExpense
      ensures NumberOfChildren >= 0 && (Profession != null ==> Profession.ChildExpense >= 0.0) ==> r >= 0.0
    {
      (if Profession == null then 0.0 else Profession.ChildExpense) * NumberOfChildren as real
    }

    /**
     * Liability payments plus child expenses plus the profession's other
     * expenses (taxes are not included). Without a profession only the
     * liabilities cost anything; with no negative rate, child count or
     * profession cost, expenses are never negative and never below the
     * liability payments.
     */
    function Expenses(): (r: real)
      reads this`Liabilities, this`Profession, this`NumberOfChildren, Liabilities, Liabilities.Items, Profession
      requires AllPaymentsDefined(Liabilities.Items)
      ensures Profession == null ==> r == SumExpenses(Liabilities.Items)
      ensures NumberOfChildren >= 0 && (Profession != null ==> Profession.ChildExpense >= 0.0 && Profession.OtherExpenses >= 0.0) ==>
                r >= SumExpenses(Liabilities.Items)
      ensures NonNegativeRates(Liabilities.Items) && NumberOfChildren >= 0 &&
              (Profession != null ==> Profession.ChildExpense >= 0.0 && Profession.OtherExpenses >= 0.0) ==>
                r >= 0.0
    {
      SumExpensesNonNegativeIf(Liabilities.Items);
      SumExpenses(Liabilities.Items) + FixedExpenses()
    }

    /** The expenses that do not come from liabilities: children and the profession's other costs. */
    function FixedExpenses(): real
      reads this`Profession, this`NumberOfChildren, Profession
    {
      ChildExpenses() + (if Profession == null then 0.0 else Profession.OtherExpenses)
    }

    /** What is left of income after expenses. */
    function NetIncome(): (r: real)
      reads this, Assets, Liabilities, Liabilities.Items, Profession
      requires AllPaymentsDefined(Liabilities.Items)
      ensures r + Expenses() == Income()
    {
      Income() - Expenses()
    }

    /**
     * Takes on a profession: its savings become the player's cash, and the
     * player's asset and liability lists become the profession's own list
     * objects (shared, not copied).
     */
    method SetProfession(profession: Profession)
      modifies this
      ensures Profession == profession && Cash == profession.Savings
      ensures Assets == profession.Assets && Liabilities == profession.Liabilities
      ensures Income() == SumIncome(profession.Assets.Items) + profession.Salary
      ensures Id == old(Id) && Name == old(Name) && BoardSpaceId == old(BoardSpaceId)
      ensures NumberOfChildren == old(NumberOfChildren)
      ensures StockPositions == old(StockPositions) && DividendIncome == old(DividendIncome)
    {
      Profession := profession;
      Cash := profession.Savings;
      Assets := profession.Assets;
      Liabilities := profession.Liabilities;
    }
  }

  lemma SumExpensesNonNegativeIf(ls: seq<Liability>)
    requires AllPaymentsDefined(ls)
    ensures NonNegativeRates(ls) ==> SumExpenses(ls) >= 0.0
  {
    if NonNegativeRates(ls) {
      SumExpensesNonNegative(ls);
    }
  }

  lemma SumIncomeNonNegativeIf(assets: seq<Asset>)
    ensures (forall a :: a in assets ==> a.Income() >= 0.0) ==> SumIncome(assets) >= 0.0
  {
    if forall a :: a in assets ==> a.Income() >= 0.0 {
      SumIncomeNonNegative(assets);
    }
  }

  /**
   * Appending a liability to a player's list, with nothing else about the
   * player's expenses changing, raises the player's total expenses by exactly
   * the new liability's payment.
   */
  twostate lemma ExpensesAfterAppend(p: Player, new l: Liability)
    requires old(AllPaymentsDefined(p.Liabilities.Items)) && PaymentDefined(l.Terms())
    requires p.Liabilities == old(p.Liabilities) && p.Profession == old(p.Profession)
    requires p.NumberOfChildren == old(p.NumberOfChildren)
    requires p.Profession != null ==> unchanged(p.Profession)
    requires p.Liabilities.Items == old(p.Liabilities.Items) + [l]
    requires forall x :: x in old(p.Liabilities.Items) ==> unchanged(x)
    ensures AllPaymentsDefined(p.Liabilities.Items)
    ensures SumExpenses(p.Liabilities.Items) == old(SumExpenses(p.Liabilities.Items)) + l.Expense()
    ensures p.Expenses() == old(p.Expenses()) + l.Expense()
  {
    var ls := old(p.Liabilities.Items);
    var ts := old(TermsOf(ls));
    forall k | 0 <= k < |ls|
      ensures ls[k].Terms() == old(ls[k].Terms())
    {
      assert ls[k] in ls;
    }
    assert TermsOf(ls) == ts;
    SumExpensesAppend(ls, l);
    assert p.FixedExpenses() == old(p.FixedExpenses());
  }

  /**
   * Removing the liability at index `i` from a player's list, with nothing
   * else about the player's expenses changing, lowers the player's total
   * expenses by exactly that liability's payment.
   */
  twostate lemma ExpensesAfterRemove(p: Player, new i: nat)
    requires old(AllPaymentsDefined(p.Liabilities.Items)) && i < |old(p.Liabilities.Items)|
    requires old(p.Liabilities.Items[i]) !in p.Liabilities.Items
    requires p.Liabilities == old(p.Liabilities) && p.Profession == old(p.Profession)
    requires p.NumberOfChildren == old(p.NumberOfChildren)
    requires p.Profession != null ==> unchanged(p.Profession)
    requires p.Liabilities.Items == old(p.Liabilities.Items)[..i] + old(p.Liabilities.Items)[i + 1..]
    requires forall l :: l in old(p.Liabilities.Items) && l != old(p.Liabilities.Items[i]) ==> unchanged(l)
    ensures AllPaymentsDefined(p.Liabilities.Items)
    ensures p.Expenses() == old(p.Expenses()) - old(p.Liabilities.Items[i].Expense())
  {
    var ls := old(p.Liabilities.Items);
    var ts := old(TermsOf(ls));
    var rest := p.Liabilities.Items;
    assert forall k :: 0 <= k < |rest| ==> rest[k] == ls[if k < i then k else k + 1];
    forall k | 0 <= k < |rest|
      ensures rest[k].Terms() == old(rest[k].Terms())
    {
      assert rest[k] in rest && rest[k] in ls;
    }
    assert TermsOf(rest) == ts[..i] + ts[i + 1..];
    PaymentsRemove(ts, i);
    assert p.FixedExpenses() == old(p.FixedExpenses());
  }
}
