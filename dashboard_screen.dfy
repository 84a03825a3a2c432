/** The dashboard screen (app/dashboard.tsx): the income/expense filter over the
    transaction list and the balance visibility toggle. */
module DashboardScreen {

  datatype Kind = Income | Expense

  datatype Transaction = Transaction(id: int, title: string, amount: real, kind: Kind)

  /** The transactions whose type is the active tab, in their original order. */
  function FilterByKind(txs: seq<Transaction>, activeTab: Kind): (r: seq<Transaction>)
    ensures |r| <= |txs|
    ensures forall i :: 0 <= i < |r| ==> r[i].kind == activeTab && r[i] in txs
  {
    if txs == [] then []
    else if txs[0].kind == activeTab then [txs[0]] + FilterByKind(txs[1..], activeTab)
    else FilterByKind(txs[1..], activeTab)
  }

  /** Filtering a concatenation filters each part and keeps them in order: the
      filter preserves the original order of what it keeps. */
  lemma {:induction false} FilterAppend(a: seq<Transaction>, b: seq<Transaction>, activeTab: Kind)
    ensures FilterByKind(a + b, activeTab) == FilterByKind(a, activeTab) + FilterByKind(b, activeTab)
  {
    if a != [] {
      assert (a + b)[1..] == a[1..] + b;
      FilterAppend(a[1..], b, activeTab);
    } else {
      assert a + b == b;
    }
  }

  /** Every transaction of the active kind is kept, and nothing else. */
  lemma {:induction false} FilterKeepsExactlyMatching(txs: seq<Transaction>, activeTab: Kind, t: Transaction)
    ensures t in FilterByKind(txs, activeTab) <==> t in txs && t.kind == activeTab
  {
    if txs != [] {
      FilterKeepsExactlyMatching(txs[1..], activeTab, t);
      assert txs == [txs[0]] + txs[1..];
    }
  }

  /** The matching transactions appear exactly as often as in the source list. */
  lemma {:induction false} FilterKeepsMultiplicity(txs: seq<Transaction>, activeTab: Kind, t: Transaction)
    requires t.kind == activeTab
    ensures multiset(FilterByKind(txs, activeTab))[t] == multiset(txs)[t]
  {
    if txs != [] {
      var rest := txs[1..];
      FilterKeepsMultiplicity(rest, activeTab, t);
      assert txs == [txs[0]] + rest;
      assert multiset(txs) == multiset{txs[0]} + multiset(rest);
      if txs[0].kind == activeTab {
        var kept := FilterByKind(rest, activeTab);
        assert multiset([txs[0]] + kept) == multiset{txs[0]} + multiset(kept);
      }
    }
  }

  /** The two tabs split the list: every transaction shows under exactly one of them. */
  lemma {:induction false} TabsPartition(txs: seq<Transaction>)
    ensures |FilterByKind(txs, Income)| + |FilterByKind(txs, Expense)| == |txs|
  {
    if txs != [] {
      TabsPartition(txs[1..]);
    }
  }

  /** Filtering twice by the same tab is filtering once. */
  lemma {:induction false} FilterIdempotent(txs: seq<Transaction>, activeTab: Kind)
    ensures FilterByKind(FilterByKind(txs, activeTab), activeTab) == FilterByKind(txs, activeTab)
  {
    if txs != [] {
      FilterIdempotent(txs[1..], activeTab);
    }
  }

  // ---------------------------------------------------------------------------
  // Balance visibility

  /** `toggleBalance`: the new visibility is the negation of the old. */
  function ToggleBalance(visible: bool): (r: bool)
    ensures r != visible
  {
    !visible
  }

  lemma ToggleTwiceRestores(visible: bool)
    ensures ToggleBalance(ToggleBalance(visible)) == visible
  {
  }

  const BalanceAmountText: string := "R$ 15.456.789"
  const MaskedBalanceText: string := "••••••••"

  /** The balance line: the amount while visible, the mask otherwise. */
  function BalanceText(visible: bool): (s: string)
    ensures !visible ==> s == MaskedBalanceText
    ensures visible ==> s == BalanceAmountText
  {
    if visible then BalanceAmountText else MaskedBalanceText
  }

  /** The amount is never on screen while the balance is hidden. */
  lemma HiddenBalanceNeverShown(visible: bool)
    requires !visible
    ensures BalanceText(visible) != BalanceAmountText
  {
  }
}
