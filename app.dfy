/**
 * app.js: the dashboard controller's view selection, the administrator
 * request queue and system-wide loan ledger, the staking panel and the
 * classifiers that turn a score, a loan or a history entry into text or a
 * colour. The wallet globals it reads (`userAddress`, `contract`) come in
 * as parameters.
 */
module App {
  import opened Chain
  import opened Reads
  import opened Text
  import opened Rules
  import opened Identity
  import opened Aggregate
  import opened Dom
  import opened Scoring

  // ---------------------------------------------------------------------
  // Score description and registry colour
  // ---------------------------------------------------------------------

  const DescriptionThresholds: seq<int> := [550, 600, 650, 700, 750]

  /** The six descriptions, worst first. */
  const Descriptions: seq<string> := [
    "Very Poor - Significant credit issues",
    "Poor - High risk borrower",
    "Fair - Some credit concerns",
    "Good - Decent creditworthiness",
    "Very Good - Reliable payment history",
    "Excellent - Highly trustworthy borrower"]

  /** `getScoreDescription(score)`: the description of the band the score reaches. */
  function ScoreDescription(score: int): (r: string)
    ensures r == Descriptions[Band(DescriptionThresholds, score)]
  {
    if score >= 750 then "Excellent - Highly trustworthy borrower"
    else if score >= 700 then "Very Good - Reliable payment history"
    else if score >= 650 then "Good - Decent creditworthiness"
    else if score >= 600 then "Fair - Some credit concerns"
    else if score >= 550 then "Poor - High risk borrower"
    else "Very Poor - Significant credit issues"
  }

  /** A higher score never reads worse. */
  lemma ScoreDescriptionMonotone(s: int, t: int)
    requires s <= t
    ensures Rank(Descriptions, ScoreDescription(s)) <= Rank(Descriptions, ScoreDescription(t))
  {
    BandMonotone(DescriptionThresholds, s, t);
    RankOfDistinct(Descriptions, Band(DescriptionThresholds, s));
    RankOfDistinct(Descriptions, Band(DescriptionThresholds, t));
  }

  /** Each description is given to exactly the scores of its band. */
  lemma ScoreDescriptionBands(score: int, k: nat)
    requires k < |Descriptions|
    ensures ScoreDescription(score) == Descriptions[k] <==>
      (k == 0 || DescriptionThresholds[k - 1] <= score) &&
      (k == |DescriptionThresholds| || score < DescriptionThresholds[k])
  {
    BandExact(DescriptionThresholds, score, k);
    RankOfDistinct(Descriptions, k);
    RankOfDistinct(Descriptions, Band(DescriptionThresholds, score));
  }

  /**
   * The colour never splits a description band: two scores with the same
   * description get the same colour.
   */
  lemma ScoreColorFollowsDescription(s: int, t: int)
    requires ScoreDescription(s) == ScoreDescription(t)
    ensures ScoreColor(s) == ScoreColor(t)
  {
    var k := Band(DescriptionThresholds, s);
    ScoreDescriptionBands(s, k);
    ScoreDescriptionBands(t, k);
  }

  // ---------------------------------------------------------------------
  // Financial history styling
  // ---------------------------------------------------------------------

  datatype Style = Style(icon: string, color: string)

  const LoanStyle := Style("\U{1F4B0}", "#60a5fa")
  const RepaymentStyle := Style("\U{2705}", "#4ade80")
  const DefaultStyle := Style("\U{274C}", "#ff6b6b")
  const LateStyle := Style("\U{23F0}", "#ffa500")
  const StakeStyle := Style("\U{1F512}", "#a78bfa")
  const OtherStyle := Style("\U{1F4DD}", "#888")

  /** The keyword tests of the history list, in the order they are tried. */
  function HistoryRules(activityType: string): seq<Rule<Style>>
  {
    [Rule(Contains(activityType, "Loan"), LoanStyle),
     Rule(Contains(activityType, "Repayment"), RepaymentStyle),
     Rule(Contains(activityType, "Default"), DefaultStyle),
     Rule(Contains(activityType, "Late"), LateStyle),
     Rule(Contains(activityType, "Stake"), StakeStyle)]
  }

  /** Icon and colour of a history entry, chosen by keywords of its type. */
  function HistoryStyle(activityType: string): (st: Style)
    ensures Contains(activityType, "Loan") ==> st == LoanStyle
    ensures st == OtherStyle <==>
      !Contains(activityType, "Loan") && !Contains(activityType, "Repayment") &&
      !Contains(activityType, "Default") && !Contains(activityType, "Late") &&
      !Contains(activityType, "Stake")
  {
    if Contains(activityType, "Loan") then LoanStyle
    else if Contains(activityType, "Repayment") then RepaymentStyle
    else if Contains(activityType, "Default") then DefaultStyle
    else if Contains(activityType, "Late") then LateStyle
    else if Contains(activityType, "Stake") then StakeStyle
    else OtherStyle
  }

  /** The style is the first keyword rule that fires, in the order listed. */
  lemma HistoryStyleByRules(activityType: string)
    ensures HistoryStyle(activityType) == FirstMatch(HistoryRules(activityType), OtherStyle)
  {
    var rules := HistoryRules(activityType);
    if Contains(activityType, "Loan") {
      FirstMatchEarliest(rules, OtherStyle, 0);
    } else if Contains(activityType, "Repayment") {
      FirstMatchEarliest(rules, OtherStyle, 1);
    } else if Contains(activityType, "Default") {
      FirstMatchEarliest(rules, OtherStyle, 2);
    } else if Contains(activityType, "Late") {
      FirstMatchEarliest(rules, OtherStyle, 3);
    } else if Contains(activityType, "Stake") {
      FirstMatchEarliest(rules, OtherStyle, 4);
    } else {
      FirstMatchFallback(rules, OtherStyle);
    }
  }

  /**
   * "Loan" is checked first, so any activity whose type names a loan, a
   * loan repayment or a loan default included, is styled as a loan.
   */
  lemma HistoryStyleLoanFirst(before: string, after: string)
    ensures HistoryStyle(before + "Loan" + after) == LoanStyle
  {
    ContainsInfix(before, "Loan", after);
  }

  /** An activity type naming none of the keywords gets the neutral style. */
  lemma HistoryStyleOther(activityType: string)
    requires !Contains(activityType, "Loan") && !Contains(activityType, "Repayment")
    requires !Contains(activityType, "Default") && !Contains(activityType, "Late")
    requires !Contains(activityType, "Stake")
    ensures HistoryStyle(activityType) == OtherStyle
  {
  }

  // ---------------------------------------------------------------------
  // System-wide loan ledger
  // ---------------------------------------------------------------------

  datatype Status = Repaid | Defaulted | Late | Active

  /** The badge of a loan: repaid before defaulted before late. */
  function LoanStatus(l: Loan): (s: Status)
    ensures s == Repaid <==> l.isRepaid
    ensures s == Defaulted <==> !l.isRepaid && l.isDefaulted
    ensures s == Late <==> !l.isRepaid && !l.isDefaulted && l.isLate
    ensures s == Active <==> !l.isRepaid && !l.isDefaulted && !l.isLate
  {
    if l.isRepaid then Repaid
    else if l.isDefaulted then Defaulted
    else if l.isLate then Late
    else Active
  }

  /** The colour of a ledger row: a CSS hex colour, a different one for each status. */
  function StatusColor(s: Status): (c: string)
    ensures |c| == 7 && c[0] == '#'
  {
    match s
    case Repaid => "#4ade80"
    case Defaulted => "#ff6b6b"
    case Late => "#ffa500"
    case Active => "#60a5fa"
  }

  /** The row colour tells the loan's status apart: repaid loans, and only they, are green. */
  lemma StatusColorIdentifiesStatus(l: Loan, m: Loan)
    ensures StatusColor(LoanStatus(l)) == StatusColor(LoanStatus(m)) <==> LoanStatus(l) == LoanStatus(m)
    ensures StatusColor(LoanStatus(l)) == "#4ade80" <==> l.isRepaid
  {
  }

  /** The remaining balance, `totalAmountToRepay - repaidAmount`, not clamped at zero. */
  function Remaining(l: Loan): (r: int)
    ensures r + l.repaidAmount == l.totalAmountToRepay
  {
    l.totalAmountToRepay - l.repaidAmount
  }

  /** The "Remaining" line appears exactly on loans still open: late or active. */
  function ShowsRemaining(l: Loan): (b: bool)
    ensures b <==> LoanStatus(l) == Late || LoanStatus(l) == Active
  {
    !l.isRepaid && !l.isDefaulted
  }

  /** An over-repaid open loan shows a negative remaining balance. */
  lemma RemainingCanBeNegative(l: Loan)
    requires l.repaidAmount > l.totalAmountToRepay && ShowsRemaining(l)
    ensures Remaining(l) < 0
  {
  }

  /** The sort key: `Number(loanId)`. */
  function LoanOrder(o: Owned<Loan>): int
  {
    o.item.loanId
  }

  /**
   * `loadAllSystemLoans()`: every loan of every registered user, tagged
   * with that user, newest (largest id) first. Users whose loans cannot be
   * fetched are skipped; a missing contract or a failing user list shows
   * the error message.
   */
  method LoadAllSystemLoans(hasContainer: bool, contractReady: bool,
                            users: Option<seq<Address>>, fetch: Fetch<Loan>)
    returns (panel: Panel<Owned<Loan>>)
    ensures !hasContainer ==> panel == Untouched
    ensures hasContainer && (!contractReady || users.None?) ==> panel == LoadError
    ensures hasContainer && contractReady && users.Some? ==>
      (panel == NoEntries <==> Flatten(users.value, fetch) == []) &&
      (panel.Entries? ==> panel.items == SortDesc(Flatten(users.value, fetch), LoanOrder))
    ensures panel.Entries? ==>
      NonIncreasing(panel.items, LoanOrder) &&
      multiset(panel.items) == multiset(Flatten(users.value, fetch))
  {
    if !hasContainer {
      return Untouched;
    }
    if !contractReady || users.None? {
      return LoadError;
    }
    var all := users.value;
    var loans: seq<Owned<Loan>> := [];
    var k := 0;
    while k < |all|
      invariant 0 <= k <= |all|
      invariant loans == Flatten(all[..k], fetch)
    {
      var u := all[k];
      var got := fetch(u);
      FlattenStep(all, fetch, k);
      if got.Some? {
        var found := TagEach(u, got.value);
        loans := loans + found;
      }
      k := k + 1;
    }
    assert all[..|all|] == all;
    if loans == [] {
      return NoEntries;
    }
    SortDescSorted(loans, LoanOrder);
    return Entries(SortDesc(loans, LoanOrder));
  }

  // ---------------------------------------------------------------------
  // Administrator request queue
  // ---------------------------------------------------------------------

  /**
   * `loadAdminRequests()`: the pending requests of every registered user,
   * each with the user it was fetched for and its index in that user's
   * array. Users whose requests cannot be fetched are skipped.
   */
  method LoadAdminRequests(hasContainer: bool, contractReady: bool,
                           users: Option<seq<Address>>, fetch: Fetch<LoanRequest>)
    returns (panel: Panel<PendingEntry>)
    ensures !hasContainer ==> panel == Untouched
    ensures hasContainer && !contractReady ==> panel == NotInitialized
    ensures hasContainer && contractReady && users.None? ==> panel == LoadError
    ensures hasContainer && contractReady && users.Some? ==>
      (panel == NoEntries <==> PendingOf(users.value, fetch) == []) &&
      (panel.Entries? ==> panel.items == PendingOf(users.value, fetch))
    ensures panel.Entries? ==> ExactQueue(panel.items, users.value, fetch)
  {
    if !hasContainer {
      return Untouched;
    }
    if !contractReady {
      return NotInitialized;
    }
    if users.None? {
      return LoadError;
    }
    var all := users.value;
    var pending: seq<PendingEntry> := [];
    var k := 0;
    while k < |all|
      invariant 0 <= k <= |all|
      invariant pending == PendingOf(all[..k], fetch)
    {
      var u := all[k];
      var got := fetch(u);
      PendingOfStep(all, fetch, k);
      if got.Some? {
        var found := CollectPending(u, got.value);
        pending := pending + found;
      }
      k := k + 1;
    }
    assert all[..|all|] == all;
    if pending == [] {
      return NoEntries;
    }
    PendingOfMembers(all, fetch);
    return Entries(pending);
  }

  /**
   * `approveRequest(borrower, index, amountWei)`: only the administrator,
   * with a contract, sends the approval, funding it with the amount given.
   */
  function ApproveRequest(user: Option<Address>, adminAddress: Address, contractReady: bool,
                          borrower: Address, requestIndex: nat, amountWei: nat): (c: Option<ApproveCall>)
    ensures c.Some? <==> IsAdmin(user, adminAddress) && contractReady
    ensures c.Some? ==> c.value.borrower == borrower && c.value.requestIndex == requestIndex &&
                        c.value.value == amountWei
  {
    if !IsAdmin(user, adminAddress) || !contractReady then None
    else Some(ApproveCall(borrower, requestIndex, amountWei))
  }

  /**
   * Approving a queue entry with the amount it shows funds exactly the
   * request the owner's array holds at that index, and that request is
   * pending.
   */
  lemma ApproveTargetsListedRequest(users: seq<Address>, fetch: Fetch<LoanRequest>, e: PendingEntry,
                                    adminAddress: Address)
    requires e in PendingOf(users, fetch)
    requires adminAddress != ""
    ensures var c := ApproveRequest(Some(adminAddress), adminAddress, true, e.owner, e.index, e.request.amount);
      c.Some? &&
      fetch(c.value.borrower).Some? &&
      c.value.requestIndex < |fetch(c.value.borrower).value| &&
      var r := fetch(c.value.borrower).value[c.value.requestIndex];
      IsPending(r) && c.value.value == r.amount
  {
    PendingOfExact(users, fetch, e);
    AdminRecognised(adminAddress);
  }

  // ---------------------------------------------------------------------
  // Staking panel
  // ---------------------------------------------------------------------

  /** What the "available to unstake" figure is: the stake above the debt, or nothing. */
  function AvailableToUnstake(staked: nat, debt: nat): (a: nat)
    ensures a <= staked
    ensures staked >= debt ==> a + debt == staked
    ensures staked < debt ==> a == 0
  {
    if staked >= debt then staked - debt else 0
  }

  datatype StakingPanel =
    | StakingUnchanged
    | StakingFailed
    | StakingShown(staked: nat, locked: nat, available: nat)

  /**
   * `loadStakingData()`: the stake, the debt the contract computes and the
   * part of the stake not locked by that debt.
   */
  function StakingData(user: Option<Address>, contractReady: bool, hasPanel: bool,
                       staked: Option<nat>, debt: Option<nat>): (r: StakingPanel)
    ensures !Truthy(user) || !contractReady || !hasPanel ==> r == StakingUnchanged
    ensures r.StakingShown? <==>
      Truthy(user) && contractReady && hasPanel && staked.Some? && debt.Some?
    ensures r.StakingShown? ==>
      staked == Some(r.staked) && debt == Some(r.locked) &&
      r.available == AvailableToUnstake(r.staked, r.locked)
    ensures r == StakingFailed <==>
      Truthy(user) && contractReady && hasPanel && (staked.None? || debt.None?)
  {
    if !Truthy(user) || !contractReady || !hasPanel then StakingUnchanged
    else if staked.None? || debt.None? then StakingFailed
    else StakingShown(staked.value, debt.value, AvailableToUnstake(staked.value, debt.value))
  }

  // ---------------------------------------------------------------------
  // View selection
  // ---------------------------------------------------------------------

  /**
   * The administrator layout: every user tab hidden, the admin and registry
   * buttons back to their stylesheet display, and the admin tab active when
   * both its button and its content exist.
   */
  function AdminLayout(p: Page): (q: Page)
    ensures q.buttons.Keys == p.buttons.Keys && q.contents == p.contents
    ensures forall t :: t in UserTabs ==> !Shown(q, t)
    ensures AdminTab in p.buttons ==> q.buttons[AdminTab] == Default
    ensures RegistryTab in p.buttons ==> q.buttons[RegistryTab] == Default
    ensures AdminTab in p.buttons && AdminTab in p.contents ==>
      q.activeContent == Some(AdminTab) && q.activeButton == Some(AdminTab)
    ensures !(AdminTab in p.buttons && AdminTab in p.contents) ==>
      q.activeContent == p.activeContent && q.activeButton == p.activeButton
    ensures q.creditScore == p.creditScore && q.description == p.description
  {
    var hidden := SetDisplay(p, UserTabs, Hidden);
    var shown := SetDisplay(hidden, [AdminTab, RegistryTab], Default);
    if AdminTab in shown.buttons && AdminTab in shown.contents then SwitchTab(shown, AdminTab) else shown
  }

  /**
   * The unregistered layout: the register button shown, the prompt to
   * register, and the register tab active when its content exists.
   */
  function UnregisteredLayout(p: Page): (q: Page)
    ensures q.buttons.Keys == p.buttons.Keys && q.contents == p.contents
    ensures RegisterTab in p.buttons ==> q.buttons[RegisterTab] == Flex
    ensures RegisterTab in p.contents ==>
      q.activeContent == Some(RegisterTab) &&
      q.activeButton == (if RegisterTab in p.buttons then Some(RegisterTab) else None)
    ensures RegisterTab !in p.contents ==>
      q.activeContent == p.activeContent && q.activeButton == p.activeButton
    ensures q.description == "Please register to view your credit score"
    ensures q.creditScore == p.creditScore
    ensures forall t :: t in p.buttons && t != RegisterTab ==> q.buttons[t] == p.buttons[t]
  {
    var shown := SetOne(p, RegisterTab, Flex).(description := "Please register to view your credit score");
    if RegisterTab in shown.contents then SwitchTab(shown, RegisterTab) else shown
  }

  /**
   * The registered layout: the register button hidden, and a user still on
   * the register tab moved to the dashboard when that tab exists.
   */
  function RegisteredLayout(p: Page): (q: Page)
    ensures !Shown(q, RegisterTab)
    ensures p.activeContent == Some(RegisterTab) && DashboardTab in p.buttons && DashboardTab in p.contents ==>
      q.activeContent == Some(DashboardTab) && q.activeButton == Some(DashboardTab)
    ensures !(p.activeContent == Some(RegisterTab) && DashboardTab in p.buttons && DashboardTab in p.contents) ==>
      q.activeContent == p.activeContent && q.activeButton == p.activeButton
    ensures q.creditScore == p.creditScore && q.description == p.description
    ensures q.buttons.Keys == p.buttons.Keys && q.contents == p.contents
    ensures forall t :: t in p.buttons && t != RegisterTab ==> q.buttons[t] == p.buttons[t]
  {
    var hidden := SetOne(p, RegisterTab, Hidden);
    if p.activeContent == Some(RegisterTab) && DashboardTab in p.buttons && DashboardTab in p.contents
    then SwitchTab(hidden, DashboardTab)
    else hidden
  }

  datatype Refresh = Refresh(page: Page, trace: seq<Read>)

  /**
   * `loadUserData()`. `registered` and `score` are the results of
   * `userExists` and `getCreditScore` (`None`: the call threw);
   * `profileOk` and `historyOk` say whether the profile reads and the
   * history read succeeded. Any failed read ends the refresh.
   */
  function LoadUserData(user: Option<Address>, contractReady: bool, adminAddress: Address, p: Page,
                        registered: Option<bool>, score: Option<nat>,
                        profileOk: bool, historyOk: bool): (r: Refresh)
    // No wallet or no contract: nothing happens.
    ensures !Truthy(user) || !contractReady ==> r == Refresh(p, [])
    // The score is read only for a registered non-administrator.
    ensures CreditScore in r.trace ==> registered == Some(true) && !IsAdmin(user, adminAddress)
    // Each read is issued only after every earlier one succeeded.
    ensures Profile in r.trace ==> score.Some?
    ensures History in r.trace ==> profileOk
    ensures Staking in r.trace ==> historyOk
    ensures r.page.contents == p.contents && r.page.buttons.Keys == p.buttons.Keys
  {
    if !Truthy(user) || !contractReady then Refresh(p, [])
    else if IsAdmin(user, adminAddress) then Refresh(AdminLayout(p), [AdminLoaders])
    else match registered
      case None => Refresh(p, [UserExists])
      case Some(false) => Refresh(UnregisteredLayout(p), [UserExists])
      case Some(true) =>
        var q := RegisteredLayout(p);
        match score
        case None => Refresh(q, [UserExists, CreditScore])
        case Some(s) =>
          var shown := q.(creditScore := Number(s), description := ScoreDescription(s));
          Refresh(shown, [UserExists, CreditScore, Profile] +
                         (if !profileOk then [] else [History] + (if !historyOk then [] else [Staking])))
  }

  /** The administrator's refresh loads the admin panels, reads nothing of its own and locks the user tabs away. */
  lemma AdminViewLocksUserTabs(user: Option<Address>, adminAddress: Address, p: Page,
                               registered: Option<bool>, score: Option<nat>, profileOk: bool, historyOk: bool)
    requires IsAdmin(user, adminAddress)
    ensures var r := LoadUserData(user, true, adminAddress, p, registered, score, profileOk, historyOk);
      r.trace == [AdminLoaders] &&
      (forall t :: t in UserTabs ==> !Shown(r.page, t)) &&
      (AdminTab in p.buttons && AdminTab in p.contents ==> r.page.activeContent == Some(AdminTab))
  {
  }

  /** Anyone else's refresh begins with the registration check. */
  lemma UserViewChecksRegistrationFirst(user: Option<Address>, adminAddress: Address, p: Page,
                                        registered: Option<bool>, score: Option<nat>, profileOk: bool, historyOk: bool)
    requires Truthy(user) && !IsAdmin(user, adminAddress)
    ensures var r := LoadUserData(user, true, adminAddress, p, registered, score, profileOk, historyOk);
      |r.trace| >= 1 && r.trace[0] == UserExists && AdminLoaders !in r.trace
  {
  }

  /**
   * An unregistered user's refresh reads nothing after the registration
   * check, prompts to register and lands on the register tab.
   */
  lemma UnregisteredReadsOnlyRegistration(user: Option<Address>, adminAddress: Address, p: Page,
                                          score: Option<nat>, profileOk: bool, historyOk: bool)
    requires Truthy(user) && !IsAdmin(user, adminAddress)
    ensures var r := LoadUserData(user, true, adminAddress, p, Some(false), score, profileOk, historyOk);
      r.trace == [UserExists] &&
      r.page.description == "Please register to view your credit score" &&
      (RegisterTab in p.contents ==> r.page.activeContent == Some(RegisterTab)) &&
      (RegisterTab in p.buttons ==> Shown(r.page, RegisterTab))
  {
  }

  /** A registered user never keeps the register button, nor stays on its tab when a dashboard exists. */
  lemma RegisteredLeavesRegisterTab(user: Option<Address>, adminAddress: Address, p: Page,
                                    score: Option<nat>, profileOk: bool, historyOk: bool)
    requires Truthy(user) && !IsAdmin(user, adminAddress)
    ensures var r := LoadUserData(user, true, adminAddress, p, Some(true), score, profileOk, historyOk);
      !Shown(r.page, RegisterTab) &&
      (p.activeContent == Some(RegisterTab) && DashboardTab in p.buttons && DashboardTab in p.contents ==>
        r.page.activeContent == Some(DashboardTab))
  {
  }

  /**
   * A registered user whose reads succeed gets the score read and shown,
   * and the reads go on in order until the first one that fails.
   */
  lemma RegisteredUserSeesScore(user: Option<Address>, adminAddress: Address, p: Page,
                                score: Option<nat>, profileOk: bool, historyOk: bool)
    requires Truthy(user) && !IsAdmin(user, adminAddress)
    ensures var r := LoadUserData(user, true, adminAddress, p, Some(true), score, profileOk, historyOk);
      CreditScore in r.trace &&
      (score.None? ==> r.trace == [UserExists, CreditScore]) &&
      (score.Some? ==>
        r.page.creditScore == Number(score.value) &&
        r.page.description == ScoreDescription(score.value) &&
        r.trace == [UserExists, CreditScore, Profile] +
                   (if profileOk then [History] + (if historyOk then [Staking] else []) else []))
  {
  }

  /** A registration check that throws ends the refresh with the page untouched. */
  lemma RegistrationFailureStops(user: Option<Address>, adminAddress: Address, p: Page,
                                 score: Option<nat>, profileOk: bool, historyOk: bool)
    requires Truthy(user) && !IsAdmin(user, adminAddress)
    ensures LoadUserData(user, true, adminAddress, p, None, score, profileOk, historyOk) == Refresh(p, [UserExists])
  {
  }

  /** A score on the card is the score that was read, with its description. */
  lemma ShownScoreWasRead(user: Option<Address>, contractReady: bool, adminAddress: Address, p: Page,
                          registered: Option<bool>, score: Option<nat>, profileOk: bool, historyOk: bool)
    ensures var r := LoadUserData(user, contractReady, adminAddress, p, registered, score, profileOk, historyOk);
      r.page.creditScore != p.creditScore ==>
        score.Some? && CreditScore in r.trace &&
        r.page.creditScore == Number(score.value) && r.page.description == ScoreDescription(score.value)
  {
  }
}
