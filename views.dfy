/**
 * The tab-bar layouts that web3-utils.js and frontend/web3-utils.js apply
 * (the two files carry the same code for all of them): the reset after a
 * disconnect, the placeholder text, and the layouts for the administrator,
 * for any other user, and for a registered or unregistered user.
 */
module Views {
  import opened Chain
  import opened Dom

  /**
   * `resetTabs()`: every user tab shown, the admin tab hidden, the dashboard
   * active. The registry button is left as it was.
   */
  function ResetTabs(p: Page): (q: Page)
    ensures q.buttons.Keys == p.buttons.Keys && q.contents == p.contents
    ensures forall t :: t in UserTabs && t in p.buttons ==> q.buttons[t] == Flex
    ensures AdminTab in p.buttons ==> q.buttons[AdminTab] == Hidden
    ensures RegistryTab in p.buttons ==> q.buttons[RegistryTab] == p.buttons[RegistryTab]
    ensures q.activeContent == (if DashboardTab in p.contents then Some(DashboardTab) else None)
    ensures q.activeButton == (if DashboardTab in p.buttons then Some(DashboardTab) else None)
    ensures q.creditScore == p.creditScore && q.description == p.description
  {
    SwitchTab(SetOne(SetDisplay(p, UserTabs, Flex), AdminTab, Hidden), DashboardTab)
  }

  /** Resetting twice is resetting once. */
  lemma ResetTabsIdempotent(p: Page)
    ensures ResetTabs(ResetTabs(p)) == ResetTabs(p)
  {
    var q := ResetTabs(p);
    var r := ResetTabs(q);
    assert r.buttons == q.buttons;
  }

  /** `clearAllData()` on the score card: a dash and the prompt to connect. */
  function ClearAllData(p: Page): (q: Page)
    ensures q.creditScore == Dash && q.description == "Connect wallet"
    ensures q.buttons == p.buttons && q.contents == p.contents
    ensures q.activeContent == p.activeContent && q.activeButton == p.activeButton
  {
    p.(creditScore := Dash, description := "Connect wallet")
  }

  /** Clearing the card and resetting the tabs touch disjoint parts of the page. */
  lemma ClearAllDataCommutes(p: Page)
    ensures ResetTabs(ClearAllData(p)) == ClearAllData(ResetTabs(p))
  {
  }

  /** The tabs the administrator layout hides. */
  const AdminHidden: seq<Tab> := [DashboardTab, RequestLoanTab, RegisterTab, CollateralTab]

  /**
   * The administrator layout: admin button shown (and the registry button,
   * in web3-utils.js), the four user tabs of `AdminHidden` hidden, history
   * and loans left alone, and the admin tab made active.
   */
  function AdminLayout(p: Page, withRegistry: bool): (q: Page)
    ensures q.buttons.Keys == p.buttons.Keys && q.contents == p.contents
    ensures AdminTab in p.buttons ==> q.buttons[AdminTab] == Flex
    ensures RegistryTab in p.buttons ==>
      q.buttons[RegistryTab] == if withRegistry then Flex else p.buttons[RegistryTab]
    ensures forall t :: t in AdminHidden ==> !Shown(q, t)
    ensures HistoryTab in p.buttons ==> q.buttons[HistoryTab] == p.buttons[HistoryTab]
    ensures LoansTab in p.buttons ==> q.buttons[LoansTab] == p.buttons[LoansTab]
    ensures q.activeContent == (if AdminTab in p.contents then Some(AdminTab) else None)
    ensures q.activeButton == (if AdminTab in p.buttons then Some(AdminTab) else None)
    ensures q.creditScore == p.creditScore && q.description == p.description
  {
    var shown := SetOne(p, AdminTab, Flex);
    var reg := if withRegistry then SetOne(shown, RegistryTab, Flex) else shown;
    SwitchTab(SetDisplay(reg, AdminHidden, Hidden), AdminTab)
  }

  /** The user layout: admin button hidden, dashboard, loan request and collateral shown. */
  function UserLayout(p: Page): (q: Page)
    ensures q.buttons.Keys == p.buttons.Keys && q.contents == p.contents
    ensures AdminTab in p.buttons ==> q.buttons[AdminTab] == Hidden
    ensures forall t :: t in [DashboardTab, RequestLoanTab, CollateralTab] && t in p.buttons ==>
      q.buttons[t] == Flex
    ensures forall t :: t in p.buttons && t !in [AdminTab, DashboardTab, RequestLoanTab, CollateralTab] ==>
      q.buttons[t] == p.buttons[t]
    ensures q.activeContent == p.activeContent && q.activeButton == p.activeButton
    ensures q.creditScore == p.creditScore && q.description == p.description
  {
    SetDisplay(SetOne(p, AdminTab, Hidden), [DashboardTab, RequestLoanTab, CollateralTab], Flex)
  }

  /** An unregistered user: register button shown, a dash and "Register first". */
  function UnregisteredLayout(p: Page): (q: Page)
    ensures q.buttons.Keys == p.buttons.Keys && q.contents == p.contents
    ensures RegisterTab in p.buttons ==> q.buttons[RegisterTab] == Flex
    ensures forall t :: t in p.buttons && t != RegisterTab ==> q.buttons[t] == p.buttons[t]
    ensures q.creditScore == Dash && q.description == "Register first"
    ensures q.activeContent == p.activeContent && q.activeButton == p.activeButton
  {
    SetOne(p, RegisterTab, Flex).(creditScore := Dash, description := "Register first")
  }

  /**
   * A registered user: register button hidden, and a user on the register
   * tab moved to the dashboard.
   */
  function RegisteredLayout(p: Page): (q: Page)
    ensures q.buttons.Keys == p.buttons.Keys && q.contents == p.contents
    ensures !Shown(q, RegisterTab)
    ensures forall t :: t in p.buttons && t != RegisterTab ==> q.buttons[t] == p.buttons[t]
    ensures p.activeContent == Some(RegisterTab) && RegisterTab in p.contents ==>
      q.activeContent == (if DashboardTab in p.contents then Some(DashboardTab) else None)
    ensures !(p.activeContent == Some(RegisterTab) && RegisterTab in p.contents) ==>
      q.activeContent == p.activeContent && q.activeButton == p.activeButton
    ensures q.creditScore == p.creditScore && q.description == p.description
  {
    var hidden := SetOne(p, RegisterTab, Hidden);
    if RegisterTab in p.contents && p.activeContent == Some(RegisterTab)
    then SwitchTab(hidden, DashboardTab)
    else hidden
  }

  /**
   * Once shown, the registry button stays shown: neither the reset nor any
   * of the user layouts touches it, so a page that showed the administrator
   * view keeps the registry button after the wallet changes.
   */
  lemma RegistryNeverHiddenAgain(p: Page)
    requires Shown(p, RegistryTab)
    ensures Shown(ResetTabs(p), RegistryTab)
    ensures Shown(UserLayout(p), RegistryTab)
    ensures Shown(UnregisteredLayout(UserLayout(p)), RegistryTab)
    ensures Shown(RegisteredLayout(UserLayout(p)), RegistryTab)
    ensures Shown(ClearAllData(ResetTabs(ResetTabs(p))), RegistryTab)
  {
    assert RegistryTab !in [AdminTab, DashboardTab, RequestLoanTab, CollateralTab];
  }
}
