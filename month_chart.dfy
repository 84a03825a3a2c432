/** The monthly-analysis chart (components/Dashboard/Dashboard.tsx): the list of
    the last twelve months and their `YYYY-MM` keys, the month selector's scroll
    offset, the bar selection and the per-bar animation cache. */
module MonthChart {
  import opened Common

  /** A calendar month as a `Date` reports it: the full year and the month index
      0 (January) to 11 (December). */
  datatype YearMonth = YearMonth(year: int, month: int)

  predicate ValidMonth(ym: YearMonth) {
    0 <= ym.month < 12
  }

  /** Months counted from January of year 0. */
  function Ordinal(ym: YearMonth): int {
    ym.year * 12 + ym.month
  }

  /** `new Date(y, m, 1)` accepts any month index and carries the excess into the
      year: the month whose ordinal is `a`. */
  function FromOrdinal(a: int): (ym: YearMonth)
    ensures ValidMonth(ym) && Ordinal(ym) == a
  {
    YearMonth(a / 12, a % 12)
  }

  /** The `Date` constructor reads a year argument from 0 to 99 as 1900 to 1999. */
  function ConstructorYear(y: int): (year: int)
    ensures year == y <==> !(0 <= y <= 99)
    ensures year != y ==> 1900 <= year <= 1999
  {
    if 0 <= y <= 99 then 1900 + y else y
  }

  /** `String(n).padStart(2, '0')`. */
  function Pad2(n: nat): (s: string)
    requires n < 100
    ensures |s| == 2 && AllDigits(s)
  {
    if n < 10 then "0" + Decimal(n)
    else
      assert Decimal(n) == Decimal(n / 10) + [DigitChar(n % 10)];
      Decimal(n)
  }

  /** The `value` of a month entry: the year, a dash, and the 1-based month padded
      to two digits. */
  function MonthKey(ym: YearMonth): (key: string)
    requires ValidMonth(ym)
    ensures |key| == |IntText(ym.year)| + 3 && key[|key| - 3] == '-'
    ensures key[..|key| - 3] == IntText(ym.year)
    ensures AllDigits(key[|key| - 2..]) && DigitsValue(key[|key| - 2..]) == ym.month + 1
  {
    DashSplit(IntText(ym.year), Pad2(ym.month + 1));
    Pad2Value(ym.month + 1);
    IntText(ym.year) + "-" + Pad2(ym.month + 1)
  }

  /** Entry `i` of the list: `new Date(now.getFullYear(), now.getMonth() - i, 1)`. */
  function MonthsAgo(nowYear: int, nowMonth: int, i: int): (ym: YearMonth)
    ensures ValidMonth(ym)
  {
    FromOrdinal(ConstructorYear(nowYear) * 12 + nowMonth - i)
  }

  /** The initial `selectedMonth`, built from `now` directly. */
  function InitialSelectedMonth(nowYear: int, nowMonth: int): (key: string)
    requires 0 <= nowMonth < 12
    ensures key == MonthKey(YearMonth(nowYear, nowMonth))
  {
    IntText(nowYear) + "-" + Pad2(nowMonth + 1)
  }

  /** `generateLast12Months`, reduced to the `value` keys (the labels are locale text). */
  method GenerateLast12Months(nowYear: int, nowMonth: int) returns (months: seq<string>)
    requires 0 <= nowMonth < 12
    ensures |months| == 12
    ensures forall i :: 0 <= i < 12 ==> months[i] == MonthKey(MonthsAgo(nowYear, nowMonth, i))
    ensures forall i, j :: 0 <= i < j < 12 ==> months[i] != months[j]
  {
    months := [];
    for i := 0 to 12
      invariant |months| == i
      invariant forall k :: 0 <= k < i ==> months[k] == MonthKey(MonthsAgo(nowYear, nowMonth, k))
    {
      var date := FromOrdinal(ConstructorYear(nowYear) * 12 + nowMonth - i);
      assert date == MonthsAgo(nowYear, nowMonth, i);
      months := months + [MonthKey(date)];
    }
    ListedKeysDistinct(nowYear, nowMonth, months);
  }

  /** Twelve consecutive month keys counted back from now never repeat. */
  lemma ListedKeysDistinct(nowYear: int, nowMonth: int, months: seq<string>)
    requires |months| == 12
    requires forall i :: 0 <= i < 12 ==> months[i] == MonthKey(MonthsAgo(nowYear, nowMonth, i))
    ensures forall i, j :: 0 <= i < j < 12 ==> months[i] != months[j]
  {
    forall i, j | 0 <= i < j < 12
      ensures months[i] != months[j]
    {
      KeysDistinct(nowYear, nowMonth, i, j);
    }
  }

  /** Entry `i` is `i` months back on the calendar: the same year while the walk has
      not passed January, the year before once it has. */
  lemma MonthsAgoCalendar(nowYear: int, nowMonth: int, i: int)
    requires 0 <= nowMonth < 12 && 0 <= i < 12
    ensures var y := ConstructorYear(nowYear);
            MonthsAgo(nowYear, nowMonth, i)
            == if i <= nowMonth then YearMonth(y, nowMonth - i) else YearMonth(y - 1, nowMonth - i + 12)
  {
    var y := ConstructorYear(nowYear);
    var ym := MonthsAgo(nowYear, nowMonth, i);
    var expected := if i <= nowMonth then YearMonth(y, nowMonth - i) else YearMonth(y - 1, nowMonth - i + 12);
    assert Ordinal(expected) == Ordinal(ym) && ValidMonth(expected);
    OrdinalInjective(ym, expected);
  }

  lemma OrdinalInjective(a: YearMonth, b: YearMonth)
    requires ValidMonth(a) && ValidMonth(b) && Ordinal(a) == Ordinal(b)
    ensures a == b
  {
  }

  lemma Pad2Injective(m: nat, n: nat)
    requires m < 100 && n < 100 && Pad2(m) == Pad2(n)
    ensures m == n
  {
    Pad2Value(m);
    Pad2Value(n);
  }

  lemma Pad2Value(n: nat)
    requires n < 100
    ensures DigitsValue(Pad2(n)) == n
  {
    DecimalRoundTrip(n);
    if n < 10 {
      DigitsValueAppend("0", Decimal(n));
    }
  }

  /** Distinct months have distinct keys. */
  lemma MonthKeyInjective(a: YearMonth, b: YearMonth)
    requires ValidMonth(a) && ValidMonth(b) && MonthKey(a) == MonthKey(b)
    ensures a == b
  {
    var key := MonthKey(a);
    assert IntText(a.year) == key[..|key| - 3] == IntText(b.year);
    IntTextInjective(a.year, b.year);
  }

  /** The two halves of `p + "-" + q` can be read back by position. */
  lemma DashSplit(p: string, q: string)
    ensures (p + "-" + q)[..|p|] == p && (p + "-" + q)[|p| + 1..] == q
  {
  }

  /** The twelve keys are pairwise distinct; entry `i` is strictly later than entry `j`
      whenever `i < j`. */
  lemma KeysDistinct(nowYear: int, nowMonth: int, i: int, j: int)
    requires 0 <= i < j < 12
    ensures Ordinal(MonthsAgo(nowYear, nowMonth, i)) > Ordinal(MonthsAgo(nowYear, nowMonth, j))
    ensures MonthKey(MonthsAgo(nowYear, nowMonth, i)) != MonthKey(MonthsAgo(nowYear, nowMonth, j))
  {
    var a, b := MonthsAgo(nowYear, nowMonth, i), MonthsAgo(nowYear, nowMonth, j);
    if MonthKey(a) == MonthKey(b) {
      MonthKeyInjective(a, b);
      assert false;
    }
  }

  /** The first entry is the initially selected month exactly when the current year
      lies outside 0..99, where the `Date` constructor reinterprets the year. */
  lemma FirstEntryIsInitialSelection(nowYear: int, nowMonth: int)
    requires 0 <= nowMonth < 12
    ensures MonthKey(MonthsAgo(nowYear, nowMonth, 0)) == InitialSelectedMonth(nowYear, nowMonth)
            <==> !(0 <= nowYear <= 99)
  {
    var first := MonthsAgo(nowYear, nowMonth, 0);
    MonthsAgoCalendar(nowYear, nowMonth, 0);
    assert InitialSelectedMonth(nowYear, nowMonth) == MonthKey(YearMonth(nowYear, nowMonth));
    if MonthKey(first) == InitialSelectedMonth(nowYear, nowMonth) {
      MonthKeyInjective(first, YearMonth(nowYear, nowMonth));
    }
  }

  // ---------------------------------------------------------------------------
  // Month selector scroll offset

  /** `findIndex`: the first position holding `target`. */
  function FindIndex(values: seq<string>, target: string): (r: Option<nat>)
    ensures r.Some? <==> target in values
    ensures r.Some? ==> r.value < |values| && values[r.value] == target && target !in values[..r.value]
  {
    if values == [] then None
    else if values[0] == target then Some(0)
    else
      var rest := FindIndex(values[1..], target);
      if rest.Some? then
        assert values[1..][..rest.value] == values[1..rest.value + 1];
        Some(rest.value + 1)
      else None
  }

  /** Width of one month button: its minimum width, padding and gap. */
  const ButtonWidth: int := 80 + 32 + 8

  /** The horizontal scroll position that brings the selected month into view; the
      selector shows the months oldest first. None when the month is not listed,
      in which case no scroll happens. */
  function ScrollOffset(values: seq<string>, selected: string): (r: Option<int>)
    ensures r.Some? <==> selected in values
    ensures r.Some? ==> 0 <= r.value <= (|values| - 1) * ButtonWidth
    ensures r.Some? ==> r.value == if (|values| - 1 - FindIndex(values, selected).value) * ButtonWidth - 40 > 0
                                   then (|values| - 1 - FindIndex(values, selected).value) * ButtonWidth - 40 else 0
  {
    var index := FindIndex(values, selected);
    if index.None? then None
    else
      var reversedIndex := |values| - 1 - index.value;
      var position := reversedIndex * ButtonWidth - 40;
      Some(if position > 0 then position else 0)
  }

  /** On first render the current month is selected and sits at the right end of the
      selector, so the scroll offset is 11 buttons less 40. */
  lemma InitialScrollOffset(nowYear: int, nowMonth: int, months: seq<string>)
    requires 0 <= nowMonth < 12 && !(0 <= nowYear <= 99)
    requires |months| == 12
    requires forall i :: 0 <= i < 12 ==> months[i] == MonthKey(MonthsAgo(nowYear, nowMonth, i))
    ensures ScrollOffset(months, InitialSelectedMonth(nowYear, nowMonth)) == Some(11 * ButtonWidth - 40)
  {
    FirstEntryIsInitialSelection(nowYear, nowMonth);
    var index := FindIndex(months, InitialSelectedMonth(nowYear, nowMonth));
    assert index.Some?;
    assert index.value == 0;
  }

  // ---------------------------------------------------------------------------
  // Bar selection

  datatype Series = Deposits | Withdrawals

  function SeriesName(s: Series): string {
    match s
    case Deposits => "deposits"
    case Withdrawals => "withdrawals"
  }

  /** The identifier of a bar: `${index}-deposits` or `${index}-withdrawals`. */
  function BarId(index: nat, s: Series): (id: string)
    ensures '-' in id
    ensures id[..FirstIndex(id, '-')] == Decimal(index)
    ensures id[FirstIndex(id, '-') + 1..] == SeriesName(s)
  {
    NoDashInDecimal(index);
    FirstDashAfterPrefix(Decimal(index), SeriesName(s));
    DashSplit(Decimal(index), SeriesName(s));
    Decimal(index) + "-" + SeriesName(s)
  }

  /** Pressing a bar: the selected bar is deselected, any other bar becomes selected. */
  function PressBar(selected: Option<string>, barId: string): (r: Option<string>)
    ensures r.None? <==> selected == Some(barId)
    ensures r.Some? ==> r.value == barId
  {
    if selected == Some(barId) then None else Some(barId)
  }

  /** Pressing the chart background clears the selection. */
  function PressBackground(selected: Option<string>): (r: Option<string>)
    ensures r.None?
  {
    None
  }

  /** A bar shows its value label when it is the selected one. */
  predicate ShowsValue(selected: Option<string>, index: nat, s: Series) {
    selected == Some(BarId(index, s))
  }

  lemma BarIdInjective(i: nat, s: Series, j: nat, t: Series)
    requires BarId(i, s) == BarId(j, t)
    ensures i == j && s == t
  {
    NoDashInDecimal(i);
    NoDashInDecimal(j);
    FirstDashAfterPrefix(Decimal(i), SeriesName(s));
    FirstDashAfterPrefix(Decimal(j), SeriesName(t));
    DashSplit(Decimal(i), SeriesName(s));
    DashSplit(Decimal(j), SeriesName(t));
    DecimalInjective(i, j);
  }

  lemma NoDashInDecimal(n: nat)
    ensures '-' !in Decimal(n)
  {
  }

  /** The first dash of `p + "-" + q` is the one after `p` when `p` has none. */
  lemma {:induction false} FirstDashAfterPrefix(p: string, q: string)
    requires '-' !in p
    ensures FirstIndex(p + "-" + q, '-') == |p|
  {
    if p != [] {
      assert (p + "-" + q)[1..] == p[1..] + "-" + q;
      FirstDashAfterPrefix(p[1..], q);
    }
  }

  /** At most one bar of the whole chart shows its value at any time. */
  lemma AtMostOneValueShown(selected: Option<string>, i: nat, s: Series, j: nat, t: Series)
    requires ShowsValue(selected, i, s) && ShowsValue(selected, j, t)
    ensures i == j && s == t
  {
    BarIdInjective(i, s, j, t);
  }

  // ---------------------------------------------------------------------------
  // Animation cache

  /** Height a bar's animated value starts from. */
  const InitialBarHeight: nat := 35

  /** `barAnimations.current`: one animated value per bar key, created on first use.
      An entry stands for the `Animated.Value` object, identified by its starting height. */
  class BarAnimations {
    var values: map<string, nat>

    constructor ()
      ensures values == map[]
    {
      values := map[];
    }

    /** `getBarAnimation`: inserts a fresh entry only when the key is absent and returns
        the key's entry; other keys are untouched. */
    method GetBarAnimation(key: string) returns (v: nat)
      modifies this
      ensures key in values && v == values[key]
      ensures key in old(values) ==> values == old(values)
      ensures key !in old(values) ==> values == old(values)[key := InitialBarHeight]
    {
      if key !in values {
        values := values[key := InitialBarHeight];
      }
      v := values[key];
    }
  }
}
