/**
 * The part of the page the dashboard's view logic drives: the tab bar
 * (`[data-tab=…]` buttons and their `style.display`), the tab contents
 * (elements with the tab's id) and which of each carries the `active`
 * class, and the two score fields of the dashboard card.
 */
module Dom {
  import opened Chain

  /**
   * The tabs of the page, each the `data-tab` value of a button and the id
   * of a content element: dashboard, register, history, loans, requestLoan,
   * collateral, admin and registry.
   */
  datatype Tab =
    | DashboardTab | RegisterTab | HistoryTab | LoansTab
    | RequestLoanTab | CollateralTab | AdminTab | RegistryTab

  /** `style.display`: `'none'`, `'flex'`, or `''` (the stylesheet default). */
  datatype Display = Hidden | Flex | Default

  /** The `#creditScore` text: `'-'` or a number. */
  datatype ScoreText = Dash | Number(value: int)

  datatype Page = Page(
    buttons: map<Tab, Display>,   // the tab buttons present, with their display
    contents: set<Tab>,           // the tab contents present
    activeContent: Option<Tab>,   // the content carrying `active`
    activeButton: Option<Tab>,    // the button carrying `active`
    creditScore: ScoreText,       // `#creditScore`
    description: string)          // `#scoreDescription`

  /** The six tabs a regular user works with. */
  const UserTabs: seq<Tab> := [DashboardTab, RegisterTab, HistoryTab, LoansTab, RequestLoanTab, CollateralTab]

  /** The button of tab `t` exists and is not hidden. */
  predicate Shown(p: Page, t: Tab)
  {
    t in p.buttons && p.buttons[t] != Hidden
  }

  /** Only elements that exist can be active. */
  predicate WellFormed(p: Page)
  {
    (p.activeContent.Some? ==> p.activeContent.value in p.contents) &&
    (p.activeButton.Some? ==> p.activeButton.value in p.buttons)
  }

  /**
   * `tabs.forEach(t => { const btn = …; if (btn) btn.style.display = d; })`:
   * every listed button that exists gets display `d`; nothing else changes.
   */
  function SetDisplay(p: Page, tabs: seq<Tab>, d: Display): (q: Page)
    ensures q.buttons.Keys == p.buttons.Keys
    ensures forall t :: t in q.buttons ==> q.buttons[t] == if t in tabs then d else p.buttons[t]
    ensures q == p.(buttons := q.buttons)
  {
    p.(buttons := map t | t in p.buttons :: if t in tabs then d else p.buttons[t])
  }

  /** Setting one button's display, if the button exists. */
  function SetOne(p: Page, t: Tab, d: Display): Page
  {
    SetDisplay(p, [t], d)
  }

  /**
   * `switchTab(name)`: clear `active` everywhere, then set it on the content
   * and on the button of that name, each only if it exists.
   */
  function SwitchTab(p: Page, t: Tab): (q: Page)
    ensures WellFormed(q)
    ensures q.activeContent.Some? <==> t in p.contents
    ensures q.activeButton.Some? <==> t in p.buttons
    ensures q.activeContent.Some? ==> q.activeContent.value == t
    ensures q.activeButton.Some? ==> q.activeButton.value == t
    ensures q.buttons == p.buttons && q.contents == p.contents
    ensures q.creditScore == p.creditScore && q.description == p.description
  {
    p.(activeContent := if t in p.contents then Some(t) else None,
       activeButton := if t in p.buttons then Some(t) else None)
  }

  /** Only the last tab switch matters. */
  lemma SwitchTabLastWins(p: Page, s: Tab, t: Tab)
    ensures SwitchTab(SwitchTab(p, s), t) == SwitchTab(p, t)
  {
  }

  /** Setting a list of buttons twice to the same display is setting it once. */
  lemma SetDisplayIdempotent(p: Page, tabs: seq<Tab>, d: Display)
    ensures SetDisplay(SetDisplay(p, tabs, d), tabs, d) == SetDisplay(p, tabs, d)
  {
    var q := SetDisplay(p, tabs, d);
    var r := SetDisplay(q, tabs, d);
    assert r.buttons == q.buttons;
  }
}
