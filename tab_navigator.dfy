/** The bottom tab navigator (components/BottomTabNavigator/BottomTabNavigator.tsx):
    decorating each tab with its active flag and press handler, and choosing the
    content for the active tab. */
module TabNavigator {

  /** A tab as the caller supplies it. `A` stands for every field other than `id`
      (label, icon and so on), which the navigator copies without looking at. */
  datatype TabItem<A> = TabItem(id: string, attrs: A)

  /** A tab handed to the tab bar: the original tab, whether it is active, and the id
      its `onPress` passes to `onTabChange`. */
  datatype TabWithState<A> = TabWithState(tab: TabItem<A>, isActive: bool, pressTarget: string)

  /** Each tab, in order, marked active when its id is the active one, and with its
      press bound to a change to its own id. */
  function TabsWithState<A>(tabs: seq<TabItem<A>>, activeTab: string): (r: seq<TabWithState<A>>)
    ensures |r| == |tabs|
    ensures forall i :: 0 <= i < |tabs| ==> r[i].tab == tabs[i]
    ensures forall i :: 0 <= i < |tabs| ==> (r[i].isActive <==> tabs[i].id == activeTab)
    ensures forall i :: 0 <= i < |tabs| ==> r[i].pressTarget == tabs[i].id
  {
    seq(|tabs|, i requires 0 <= i < |tabs| =>
      TabWithState(tabs[i], tabs[i].id == activeTab, tabs[i].id))
  }

  predicate UniqueIds<A>(tabs: seq<TabItem<A>>) {
    forall i, j :: 0 <= i < j < |tabs| ==> tabs[i].id != tabs[j].id
  }

  /** With unique ids at most one tab is active, and it is the one whose id is the
      active tab. */
  lemma AtMostOneActive<A>(tabs: seq<TabItem<A>>, activeTab: string, i: int, j: int)
    requires UniqueIds(tabs)
    requires 0 <= i < |tabs| && 0 <= j < |tabs|
    requires TabsWithState(tabs, activeTab)[i].isActive && TabsWithState(tabs, activeTab)[j].isActive
    ensures i == j
  {
  }

  /** Some tab is active exactly when the active id belongs to a tab. */
  lemma SomeTabActive<A>(tabs: seq<TabItem<A>>, activeTab: string)
    ensures (exists i :: 0 <= i < |tabs| && TabsWithState(tabs, activeTab)[i].isActive)
            <==> (exists i :: 0 <= i < |tabs| && tabs[i].id == activeTab)
  {
    var r := TabsWithState(tabs, activeTab);
    if exists i :: 0 <= i < |tabs| && tabs[i].id == activeTab {
      var i :| 0 <= i < |tabs| && tabs[i].id == activeTab;
      assert r[i].isActive;
    }
  }

  // ---------------------------------------------------------------------------
  // Content

  /** What `renderContent` shows. */
  datatype Content =
    | HomeContent
    | Placeholder(title: string, description: string, newTransactionLink: bool)

  /** `renderContent`: the switch on `activeTab`. */
  function RenderContent(activeTab: string): (c: Content)
    ensures c == HomeContent <==> activeTab == "home"
    ensures c.Placeholder? && c.newTransactionLink <==> activeTab == "statement"
    ensures activeTab !in {"home", "statement", "dashboard"}
            <==> c == Placeholder("Erro", "Tab não encontrada", false)
  {
    match activeTab
    case "home" => HomeContent
    case "statement" => Placeholder("Extrato", "Extrato de transações", true)
    case "dashboard" => Placeholder("Dashboard", "Dashboard financeiro (análise dos graficos)", false)
    case _ => Placeholder("Erro", "Tab não encontrada", false)
  }

  /** The content and the tab bar agree: when the active id is one of the three known
      tabs, what is rendered is not the error placeholder. */
  lemma KnownTabsRenderContent(activeTab: string)
    requires activeTab in {"home", "statement", "dashboard"}
    ensures RenderContent(activeTab) != Placeholder("Erro", "Tab não encontrada", false)
  {
  }
}
