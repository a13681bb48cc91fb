/** The fee-collection page: one student's fee line items, the "Total Due"
    and "Selected" figures, the per-row "Due" amount, the list of categories
    chosen for batch payment, and the two buttons that copy a total into the
    payment amount field. */
module FeeCollection {
  import opened Options
  import opened Lists
  import opened Strings
  import opened Badges

  /** One billable category of a student's fees. Amounts are whole currency
      units; `status` is "paid", "pending" or "partial"; `paidAmount` is
      absent for pending items. */
  datatype FeeItem = FeeItem(
    category: string,
    amount: int,
    status: string,
    dueDate: string,
    paidAmount: Option<int>)

  /** `fee.paidAmount || 0`. */
  function PaidSoFar(fee: FeeItem): int
  {
    fee.paidAmount.GetOr(0)
  }

  /** `fee.amount - (fee.paidAmount || 0)`: what is still owed on one item. */
  function Outstanding(fee: FeeItem): int
  {
    fee.amount - PaidSoFar(fee)
  }

  predicate IsUnpaid(fee: FeeItem)
  {
    fee.status != "paid"
  }

  /** The data invariant of a fee item: no more paid than charged. */
  predicate WellFormed(fee: FeeItem)
  {
    PaidSoFar(fee) <= fee.amount
  }

  predicate AllWellFormed(fees: seq<FeeItem>)
  {
    forall k :: 0 <= k < |fees| ==> WellFormed(fees[k])
  }

  /** No two rows share a category (the rows are keyed by category). */
  predicate DistinctCategories(fees: seq<FeeItem>)
  {
    forall i, j :: 0 <= i < j < |fees| ==> fees[i].category != fees[j].category
  }

  /** `fees.reduce((sum, fee) => sum + fee.amount - (fee.paidAmount || 0), 0)`:
      a left fold, so the last item is added last. */
  function SumOutstanding(fees: seq<FeeItem>): int
  {
    if fees == [] then 0
    else SumOutstanding(fees[..|fees| - 1]) + Outstanding(fees[|fees| - 1])
  }

  /** "Total Due": the outstanding amounts of the items not marked paid. */
  function TotalDue(fees: seq<FeeItem>): int
  {
    SumOutstanding(Filter(fees, IsUnpaid))
  }

  /** "Selected": the outstanding amounts of the items whose category is in
      the selection, whatever their status. */
  function TotalSelected(fees: seq<FeeItem>, selected: seq<string>): int
  {
    SumOutstanding(Filter(fees, (fee: FeeItem) => fee.category in selected))
  }

  /** The "Due" line of one row: shown only for an item not marked paid, and
      then it is the amount minus what has been paid. */
  function RowDue(fee: FeeItem): (due: Option<int>)
    ensures due.Some? <==> fee.status != "paid"
    ensures due.Some? ==> due.value + PaidSoFar(fee) == fee.amount
  {
    if IsUnpaid(fee) then Some(Outstanding(fee)) else None
  }

  /** Reference definition: the sum of the "Due" lines shown in the rows. */
  function SumRowDues(fees: seq<FeeItem>): int
  {
    if fees == [] then 0 else RowDue(fees[0]).GetOr(0) + SumRowDues(fees[1..])
  }

  /** The mock student's fee structure. */
  const MockFeeStructure: seq<FeeItem> := [
    FeeItem("Tuition Fee", 15000, "pending", "2024-01-31", None),
    FeeItem("Transport Fee", 3000, "paid", "2024-01-31", Some(3000)),
    FeeItem("Laboratory Fee", 2000, "partial", "2024-01-31", Some(1000)),
    FeeItem("Library Fee", 1500, "pending", "2024-01-31", None),
    FeeItem("Sports Fee", 2500, "pending", "2024-01-31", None)
  ]

  /** The badge classes of a fee status on this page. */
  function FeeStatusColor(status: string): (badge: string)
    ensures badge == MutedBadge <==> status !in {"paid", "partial", "pending"}
    ensures badge == SuccessBadge <==> status == "paid"
    ensures badge == WarningBadge <==> status == "partial"
    ensures badge == DestructiveBadge <==> status == "pending"
  {
    match status
    case "paid" => SuccessBadge
    case "partial" => WarningBadge
    case "pending" => DestructiveBadge
    case _ => MutedBadge
  }

  /** `selectedFees` after a checkbox change: checking appends the category,
      unchecking removes every occurrence of it and keeps the rest in order. */
  function UpdateSelection(selected: seq<string>, category: string, checked: bool): (r: seq<string>)
    ensures checked ==> r == selected + [category]
    ensures !checked ==> category !in r && IsSubsequence(r, selected)
    ensures !checked ==> forall c :: c != category ==> multiset(r)[c] == multiset(selected)[c]
  {
    if checked then selected + [category]
    else
      WithoutIsSubsequence(selected, category);
      Without(selected, category)
  }

  // ---------------------------------------------------------------------
  // Lemmas about the totals

  lemma {:induction false} SumOutstandingAppend(a: seq<FeeItem>, b: seq<FeeItem>)
    ensures SumOutstanding(a + b) == SumOutstanding(a) + SumOutstanding(b)
    decreases |b|
  {
    if b == [] {
      assert a + b == a;
    } else {
      SumOutstandingAppend(a, b[..|b| - 1]);
      assert (a + b)[..|a + b| - 1] == a + b[..|b| - 1];
    }
  }

  /** Splitting off the first item of a filtered list. */
  lemma SumFilterCons(fees: seq<FeeItem>, p: FeeItem -> bool)
    requires fees != []
    ensures SumOutstanding(Filter(fees, p))
         == (if p(fees[0]) then Outstanding(fees[0]) else 0) + SumOutstanding(Filter(fees[1..], p))
  {
    var head := if p(fees[0]) then [fees[0]] else [];
    SumOutstandingAppend(head, Filter(fees[1..], p));
  }

  /** "Total Due" is the sum of the "Due" lines of the rows: paid items add
      nothing and every other item adds its amount minus what was paid. */
  lemma {:induction false} TotalDueIsSumOfRowDues(fees: seq<FeeItem>)
    ensures TotalDue(fees) == SumRowDues(fees)
  {
    if fees != [] {
      SumFilterCons(fees, IsUnpaid);
      TotalDueIsSumOfRowDues(fees[1..]);
    }
  }

  lemma {:induction false} SumRowDuesNonNegative(fees: seq<FeeItem>)
    requires AllWellFormed(fees)
    ensures SumRowDues(fees) >= 0
  {
    if fees != [] {
      SumRowDuesNonNegative(fees[1..]);
    }
  }

  /** With no item paid beyond its amount, "Total Due" is never negative. */
  lemma TotalDueNonNegative(fees: seq<FeeItem>)
    requires AllWellFormed(fees)
    ensures TotalDue(fees) >= 0
  {
    TotalDueIsSumOfRowDues(fees);
    SumRowDuesNonNegative(fees);
  }

  /** The mock fee structure owes 15000 + (2000 - 1000) + 1500 + 2500. */
  lemma MockTotalDue()
    ensures TotalDue(MockFeeStructure) == 20000
  {
    TotalDueIsSumOfRowDues(MockFeeStructure);
    var s := MockFeeStructure;
    assert s[1..][1..][1..][1..][1..] == [];
  }

  /** Nothing selected, nothing to pay. */
  lemma TotalSelectedEmpty(fees: seq<FeeItem>)
    ensures TotalSelected(fees, []) == 0
  {
    FilterKeepsNone(fees, (fee: FeeItem) => fee.category in []);
  }

  /** "Selected" depends only on which categories are selected, not on their
      order or on repetitions. */
  lemma TotalSelectedDependsOnMembership(fees: seq<FeeItem>, s1: seq<string>, s2: seq<string>)
    requires forall c :: c in s1 <==> c in s2
    ensures TotalSelected(fees, s1) == TotalSelected(fees, s2)
  {
    FilterCongruent(fees, (fee: FeeItem) => fee.category in s1, (fee: FeeItem) => fee.category in s2);
  }

  /** Selecting exactly the categories of the unpaid items gives "Total Due". */
  lemma TotalSelectedOfAllUnpaid(fees: seq<FeeItem>, selected: seq<string>)
    requires forall k :: 0 <= k < |fees| ==> (fees[k].category in selected <==> IsUnpaid(fees[k]))
    ensures TotalSelected(fees, selected) == TotalDue(fees)
  {
    FilterCongruent(fees, (fee: FeeItem) => fee.category in selected, IsUnpaid);
  }

  /** When no paid item's category is selected and nothing is overpaid,
      "Selected" never exceeds "Total Due". */
  lemma {:induction false} TotalSelectedAtMostTotalDue(fees: seq<FeeItem>, selected: seq<string>)
    requires AllWellFormed(fees)
    requires forall k :: 0 <= k < |fees| && !IsUnpaid(fees[k]) ==> fees[k].category !in selected
    ensures TotalSelected(fees, selected) <= TotalDue(fees)
  {
    if fees != [] {
      var p := (fee: FeeItem) => fee.category in selected;
      SumFilterCons(fees, p);
      SumFilterCons(fees, IsUnpaid);
      assert WellFormed(fees[0]);
      TotalSelectedAtMostTotalDue(fees[1..], selected);
    }
  }

  /** `category` is the category of a row whose checkbox is enabled. */
  ghost predicate IsSelectable(fees: seq<FeeItem>, category: string)
  {
    exists k :: 0 <= k < |fees| && fees[k].category == category && IsUnpaid(fees[k])
  }

  /** A selection made through the enabled checkboxes of rows with distinct
      categories stays within "Total Due". */
  lemma SelectableWithinTotalDue(fees: seq<FeeItem>, selected: seq<string>)
    requires AllWellFormed(fees) && DistinctCategories(fees)
    requires forall c :: c in selected ==> IsSelectable(fees, c)
    ensures TotalSelected(fees, selected) <= TotalDue(fees)
  {
    forall k | 0 <= k < |fees| && fees[k].category in selected
      ensures IsUnpaid(fees[k])
    {
      var j :| 0 <= j < |fees| && fees[j].category == fees[k].category && IsUnpaid(fees[j]);
      assert j == k;
    }
    TotalSelectedAtMostTotalDue(fees, selected);
  }

  // ---------------------------------------------------------------------
  // The page state

  /** The state of the page for the selected student: the student's fee
      items, the categories chosen for payment and the payment amount field. */
  class FeeCollectionPage {
    const feeStructure: seq<FeeItem>
    var selectedFees: seq<string>
    var paymentAmount: string

    /** Every selected category appears once and belongs to an unpaid row. */
    ghost predicate Valid()
      reads this
    {
      && DistinctCategories(feeStructure)
      && NoDuplicates(selectedFees)
      && forall c :: c in selectedFees ==> IsSelectable(feeStructure, c)
    }

    constructor (fees: seq<FeeItem>)
      ensures feeStructure == fees && selectedFees == [] && paymentAmount == ""
      ensures DistinctCategories(fees) ==> Valid()
    {
      feeStructure := fees;
      selectedFees := [];
      paymentAmount := "";
    }

    function TotalDueNow(): int
      reads this
    {
      TotalDue(feeStructure)
    }

    function TotalSelectedNow(): int
      reads this
    {
      TotalSelected(feeStructure, selectedFees)
    }

    /** On a valid page whose items are not overpaid, "Selected" never
        exceeds "Total Due". */
    lemma SelectedWithinDue()
      requires Valid() && AllWellFormed(feeStructure)
      ensures TotalSelectedNow() <= TotalDueNow()
    {
      SelectableWithinTotalDue(feeStructure, selectedFees);
    }

    /** "Pay Selected" is disabled exactly when "Selected" is zero. */
    function PaySelectedDisabled(): bool
      reads this
    {
      TotalSelectedNow() == 0
    }

    /** A checkbox changed. Through the UI the category is that of an unpaid
        row and `checked` is the negation of its current membership; such a
        change keeps the selection valid. */
    method HandleFeeSelection(category: string, checked: bool)
      modifies this
      ensures selectedFees == UpdateSelection(old(selectedFees), category, checked)
      ensures paymentAmount == old(paymentAmount)
      ensures (old(Valid()) && IsSelectable(feeStructure, category)
               && checked == (category !in old(selectedFees))) ==> Valid()
    {
      selectedFees := UpdateSelection(selectedFees, category, checked);
      if !checked && old(Valid()) {
        WithoutKeepsNoDuplicates(old(selectedFees), category);
      }
    }

    /** "Pay Selected": when enabled, the amount field becomes "Selected". */
    method ClickPaySelected()
      modifies this
      ensures selectedFees == old(selectedFees)
      ensures paymentAmount == if old(PaySelectedDisabled()) then old(paymentAmount)
                               else IntToString(old(TotalSelectedNow()))
      ensures !old(PaySelectedDisabled()) ==> ParseInt(paymentAmount) == TotalSelectedNow()
      ensures old(Valid()) && AllWellFormed(feeStructure) && !old(PaySelectedDisabled()) ==>
                ParseInt(paymentAmount) <= TotalDueNow()
    {
      if Valid() && AllWellFormed(feeStructure) {
        SelectedWithinDue();
      }
      if !PaySelectedDisabled() {
        paymentAmount := IntToString(TotalSelectedNow());
      }
    }

    /** "Pay All Due": the amount field becomes "Total Due". */
    method ClickPayAllDue()
      modifies this
      ensures selectedFees == old(selectedFees)
      ensures paymentAmount == IntToString(TotalDueNow())
      ensures ParseInt(paymentAmount) == TotalDueNow()
    {
      paymentAmount := IntToString(TotalDueNow());
    }
  }
}
