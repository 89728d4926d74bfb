/**
 * web3-utils.js: the refresh of the connected user's view, the five-band
 * score description, error-message parsing, late-payment counting, the
 * debt-aware staking panel and the funded approval of a loan request.
 * The session state lives in `Wallet.Session`; the administrator loaders
 * are `Scan.LoadAllSystemLoans` and `Scan.LoadAdminRequests`.
 */
module Web3Utils {
  import opened Chain
  import opened Reads
  import opened Text
  import opened Rules
  import opened Identity
  import opened Aggregate
  import opened Dom
  import opened Scoring
  import opened Views
  import opened Wallet
  import App

  // ---------------------------------------------------------------------
  // `parseErrorMessage(error)`
  // ---------------------------------------------------------------------

  /** The fields of a thrown provider error the parser looks at. */
  datatype TxError = TxError(reason: Option<string>, code: Option<string>, message: Option<string>)

  const ParsedMessages: seq<string> := [
    "User rejected transaction",
    "Insufficient ETH for gas",
    "Transaction failed - check contract requirements",
    "Transaction would fail - check inputs",
    "Transaction Failed"]

  /** The parser's tests in the order it tries them. */
  function ErrorRules(e: TxError): seq<Rule<string>>
  {
    var msg := if e.message.Some? then e.message.value else "";
    [Rule(Truthy(e.reason), if e.reason.Some? then e.reason.value else ""),
     Rule(e.code == Some("ACTION_REJECTED"), "User rejected transaction"),
     Rule(Truthy(e.message) && Contains(Lower(msg), "insufficient funds"), "Insufficient ETH for gas"),
     Rule(Truthy(e.message) && Contains(msg, "execution reverted"), "Transaction failed - check contract requirements"),
     Rule(Truthy(e.message) && Contains(msg, "estimateGas"), "Transaction would fail - check inputs")]
  }

  /**
   * A human-readable message for a failed transaction: the revert reason
   * verbatim when there is one, else the first recognised pattern, else
   * the generic failure.
   */
  function ParseErrorMessage(e: TxError): (r: string)
    ensures r != ""
    ensures Truthy(e.reason) ==> r == e.reason.value
    ensures !Truthy(e.reason) ==> r in ParsedMessages
  {
    if Truthy(e.reason) then e.reason.value
    else if e.code == Some("ACTION_REJECTED") then "User rejected transaction"
    else if Truthy(e.message) && Contains(Lower(e.message.value), "insufficient funds") then "Insufficient ETH for gas"
    else if Truthy(e.message) && Contains(e.message.value, "execution reverted") then "Transaction failed - check contract requirements"
    else if Truthy(e.message) && Contains(e.message.value, "estimateGas") then "Transaction would fail - check inputs"
    else "Transaction Failed"
  }

  /** The parser is the first-match chain of `ErrorRules`, falling back to "Transaction Failed". */
  lemma ParseErrorMessageByRules(e: TxError)
    ensures ParseErrorMessage(e) == FirstMatch(ErrorRules(e), "Transaction Failed")
  {
    var rules := ErrorRules(e);
    if Truthy(e.reason) {
      FirstMatchEarliest(rules, "Transaction Failed", 0);
    } else if e.code == Some("ACTION_REJECTED") {
      FirstMatchEarliest(rules, "Transaction Failed", 1);
    } else if rules[2].fires {
      FirstMatchEarliest(rules, "Transaction Failed", 2);
    } else if rules[3].fires {
      FirstMatchEarliest(rules, "Transaction Failed", 3);
    } else if rules[4].fires {
      FirstMatchEarliest(rules, "Transaction Failed", 4);
    } else {
      FirstMatchFallback(rules, "Transaction Failed");
    }
  }

  /** The funds test ignores case, whereas the revert and gas-estimate tests do not. */
  lemma InsufficientFundsIgnoresCase(before: string, after: string)
    ensures ParseErrorMessage(TxError(None, None, Some(before + "INSUFFICIENT FUNDS" + after))) ==
            "Insufficient ETH for gas"
  {
    var m := before + "INSUFFICIENT FUNDS" + after;
    assert Lower("INSUFFICIENT FUNDS") == "insufficient funds";
    assert Lower(m) == Lower(before) + "insufficient funds" + Lower(after);
    ContainsInfix(Lower(before), "insufficient funds", Lower(after));
  }

  /** A user rejection is reported as such unless the error names a reason. */
  lemma RejectionReported(message: Option<string>)
    ensures ParseErrorMessage(TxError(None, Some("ACTION_REJECTED"), message)) == "User rejected transaction"
    ensures ParseErrorMessage(TxError(Some("Not admin"), Some("ACTION_REJECTED"), message)) == "Not admin"
  {
  }

  // ---------------------------------------------------------------------
  // `getScoreDescription(score)`
  // ---------------------------------------------------------------------

  const DescriptionThresholds: seq<int> := [550, 650, 700, 750]

  /** The five descriptions, worst first. */
  const Descriptions: seq<string> := [
    "Very Poor Credit Score",
    "Poor Credit Score",
    "Fair Credit Score",
    "Good Credit Score",
    "Excellent Credit Score! \U{2705}"]

  /** The description of the band the score reaches. */
  function ScoreDescription(score: int): (r: string)
    ensures r == Descriptions[Band(DescriptionThresholds, score)]
  {
    if score >= 750 then "Excellent Credit Score! \U{2705}"
    else if score >= 700 then "Good Credit Score"
    else if score >= 650 then "Fair Credit Score"
    else if score >= 550 then "Poor Credit Score"
    else "Very Poor Credit Score"
  }

  /** A higher score never reads worse. */
  lemma ScoreDescriptionMonotone(s: int, t: int)
    requires s <= t
    ensures Rank(Descriptions, ScoreDescription(s)) <= Rank(Descriptions, ScoreDescription(t))
  {
    BandMonotone(DescriptionThresholds, s, t);
    RankOfDistinct(Descriptions, Band(DescriptionThresholds, s));
    RankOfDistinct(Descriptions, Band(DescriptionThresholds, t));
  }

  /** Each description is given to exactly the scores of its band. */
  lemma ScoreDescriptionBands(score: int, k: nat)
    requires k < |Descriptions|
    ensures ScoreDescription(score) == Descriptions[k] <==>
      (k == 0 || DescriptionThresholds[k - 1] <= score) &&
      (k == |DescriptionThresholds| || score < DescriptionThresholds[k])
  {
    BandExact(DescriptionThresholds, score, k);
    RankOfDistinct(Descriptions, k);
    RankOfDistinct(Descriptions, Band(DescriptionThresholds, score));
  }

  /**
   * The registry colour never splits a description band. (A "Fair"
   * score of 650-699 is yellow, a "Poor" one orange: the colours are the
   * description bands with Good and Excellent merged into green.)
   */
  lemma ScoreColorFollowsDescription(s: int, t: int)
    requires ScoreDescription(s) == ScoreDescription(t)
    ensures ScoreColor(s) == ScoreColor(t)
  {
    var k := Band(DescriptionThresholds, s);
    ScoreDescriptionBands(s, k);
    ScoreDescriptionBands(t, k);
  }

  // ---------------------------------------------------------------------
  // Late payments
  // ---------------------------------------------------------------------

  /**
   * The number of history entries whose activity type is exactly
   * "Late Payment". The source reads the type by name or, failing that, as
   * the tuple's first field, which the ABI declares to be the same value.
   */
  function LatePaymentCount(history: seq<HistoryEntry>): (n: nat)
    ensures n <= |history|
    decreases |history|
  {
    if history == [] then 0
    else
      var last := |history| - 1;
      LatePaymentCount(history[..last]) + (if history[last].activityType == "Late Payment" then 1 else 0)
  }

  function ActivityTypes(history: seq<HistoryEntry>): (r: seq<string>)
    ensures |r| == |history|
    ensures forall i :: 0 <= i < |history| ==> r[i] == history[i].activityType
  {
    seq(|history|, i requires 0 <= i < |history| => history[i].activityType)
  }

  /**
   * The count is the number of times "Late Payment" occurs among the
   * activity types, so it does not depend on the order of the history.
   */
  lemma {:induction false} LatePaymentCountIsMultiplicity(history: seq<HistoryEntry>)
    ensures LatePaymentCount(history) == multiset(ActivityTypes(history))["Late Payment"]
    decreases |history|
  {
    if history != [] {
      var last := |history| - 1;
      LatePaymentCountIsMultiplicity(history[..last]);
      assert ActivityTypes(history) == ActivityTypes(history[..last]) + [history[last].activityType];
    }
  }

  /** The count of a history that arrives in two parts is the sum of the parts' counts. */
  lemma {:induction false} LatePaymentCountAppend(a: seq<HistoryEntry>, b: seq<HistoryEntry>)
    ensures LatePaymentCount(a + b) == LatePaymentCount(a) + LatePaymentCount(b)
    decreases |b|
  {
    if b == [] {
      assert a + b == a;
    } else {
      var last := |b| - 1;
      assert (a + b)[..|a + b| - 1] == a + b[..last];
      LatePaymentCountAppend(a, b[..last]);
    }
  }

  // ---------------------------------------------------------------------
  // Staking panel
  // ---------------------------------------------------------------------

  /** What a loan adds to the debt: its unpaid remainder unless it is repaid (defaulted loans count). */
  function Outstanding(l: Loan): int
  {
    if l.isRepaid then 0 else l.totalAmountToRepay - l.repaidAmount
  }

  /** The debt the staking panel computes over a user's loans. */
  function DebtOf(loans: seq<Loan>): (d: int)
    ensures (forall i :: 0 <= i < |loans| ==> loans[i].isRepaid) ==> d == 0
    decreases |loans|
  {
    if loans == [] then 0 else DebtOf(loans[..|loans| - 1]) + Outstanding(loans[|loans| - 1])
  }

  /**
   * On a loan the ledger shows, the debt counts the ledger's "Remaining"
   * figure when the loan is open, also counts a defaulted loan's remainder,
   * and counts nothing for a repaid loan.
   */
  lemma OutstandingMatchesLedger(l: Loan)
    ensures Outstanding(l) == if App.LoanStatus(l) == App.Repaid then 0 else App.Remaining(l)
    ensures App.ShowsRemaining(l) ==> Outstanding(l) == App.Remaining(l)
  {
  }

  lemma {:induction false} DebtOfRemove(s: seq<Loan>, i: nat)
    requires i < |s|
    ensures DebtOf(s) == DebtOf(s[..i] + s[i + 1..]) + Outstanding(s[i])
    decreases |s|
  {
    var n := |s| - 1;
    if i < n {
      DebtOfRemove(s[..n], i);
      var t := s[..i] + s[i + 1..];
      assert t[..|t| - 1] == s[..n][..i] + s[..n][i + 1..];
      assert t[|t| - 1] == s[n];
    } else {
      assert s[..i] + s[i + 1..] == s[..n];
    }
  }

  lemma MultisetRemove(b: seq<Loan>, i: nat)
    requires i < |b|
    ensures multiset(b[..i] + b[i + 1..]) == multiset(b) - multiset{b[i]}
  {
    assert b == b[..i] + [b[i]] + b[i + 1..];
  }

  /** The debt does not depend on the order in which the contract returns the loans. */
  lemma {:induction false} DebtOfPermutation(a: seq<Loan>, b: seq<Loan>)
    requires multiset(a) == multiset(b)
    ensures DebtOf(a) == DebtOf(b)
    decreases |a|
  {
    if a == [] {
      assert |b| == |multiset(b)| == 0;
    } else {
      var n := |a| - 1;
      var x := a[n];
      assert x in multiset(b);
      var i :| 0 <= i < |b| && b[i] == x;
      var rest := b[..i] + b[i + 1..];
      MultisetRemove(b, i);
      assert a == a[..n] + [x];
      assert multiset(a[..n]) == multiset(a) - multiset{x};
      DebtOfPermutation(a[..n], rest);
      DebtOfRemove(b, i);
    }
  }

  /** With no loan over-repaid, the debt is never negative. */
  lemma {:induction false} DebtOfNonnegative(loans: seq<Loan>)
    requires forall i :: 0 <= i < |loans| ==> loans[i].repaidAmount <= loans[i].totalAmountToRepay
    ensures DebtOf(loans) >= 0
    decreases |loans|
  {
    if loans != [] {
      DebtOfNonnegative(loans[..|loans| - 1]);
    }
  }

  /** The stake the panel calls available: what exceeds the debt, strictly. */
  function Available(staked: nat, debt: int): (a: nat)
    ensures staked > debt ==> a + debt == staked
    ensures staked <= debt ==> a == 0
  {
    if staked > debt then staked - debt else 0
  }

  /** For a debt that is not negative this is the controller's figure, written with `>=` there. */
  lemma AvailableAgreesWithApp(staked: nat, debt: nat)
    ensures Available(staked, debt) == App.AvailableToUnstake(staked, debt)
  {
  }

  /** An over-repaid open loan makes the debt negative, and the available figure then exceeds the stake. */
  lemma OverRepaymentInflatesAvailable(staked: nat, l: Loan)
    requires !l.isRepaid && l.repaidAmount > l.totalAmountToRepay
    ensures Available(staked, DebtOf([l])) > staked
  {
    assert [l][..0] == [];
  }

  const LockedMessage := "\U{26A0}\U{FE0F} Collateral locked until loans are repaid or defaulted"
  const FreeMessage := "\U{2705} No active debt - full amount available"

  /** The note under the panel: the locked note exactly while some debt remains. */
  function StakingMessage(debt: int): (m: string)
    ensures m == LockedMessage <==> debt > 0
    ensures m == FreeMessage <==> debt <= 0
  {
    if debt > 0 then LockedMessage else FreeMessage
  }

  /** With no over-repaid loan, "full amount available" is shown exactly when the whole stake is available. */
  lemma FreeMessageMeansWholeStake(staked: nat, loans: seq<Loan>)
    requires forall i :: 0 <= i < |loans| ==> loans[i].repaidAmount <= loans[i].totalAmountToRepay
    ensures StakingMessage(DebtOf(loans)) == FreeMessage <==> DebtOf(loans) == 0
    ensures StakingMessage(DebtOf(loans)) == FreeMessage ==> Available(staked, DebtOf(loans)) == staked
  {
    DebtOfNonnegative(loans);
  }

  datatype CollateralPanel =
    | CollateralUnchanged
    | CollateralFailed
    | Collateral(staked: nat, locked: int, available: nat, message: string)

  /**
   * `loadStakingData()`: the stake, the debt summed over the user's loans
   * that are not repaid, the part of the stake above that debt and the
   * message chosen by whether any debt remains.
   */
  method LoadStakingData(s: Session, hasPanel: bool, staked: Option<nat>, loans: Option<seq<Loan>>)
    returns (panel: CollateralPanel)
    ensures !Truthy(s.userAddress) || s.contract.None? || !hasPanel ==> panel == CollateralUnchanged
    ensures panel == CollateralFailed <==>
      Truthy(s.userAddress) && s.contract.Some? && hasPanel && (staked.None? || loans.None?)
    ensures panel.Collateral? <==>
      Truthy(s.userAddress) && s.contract.Some? && hasPanel && staked.Some? && loans.Some?
    ensures panel.Collateral? ==>
      staked == Some(panel.staked) && loans.Some? &&
      panel.locked == DebtOf(loans.value) &&
      panel.available == Available(panel.staked, panel.locked) &&
      panel.message == StakingMessage(panel.locked)
  {
    if !Truthy(s.userAddress) || s.contract.None? || !hasPanel {
      return CollateralUnchanged;
    }
    if staked.None? || loans.None? {
      return CollateralFailed;
    }
    var userLoans := loans.value;
    var totalDebt := 0;
    var i := 0;
    while i < |userLoans|
      invariant 0 <= i <= |userLoans|
      invariant totalDebt == DebtOf(userLoans[..i])
    {
      assert userLoans[..i + 1][..i] == userLoans[..i];
      if !userLoans[i].isRepaid {
        totalDebt := totalDebt + (userLoans[i].totalAmountToRepay - userLoans[i].repaidAmount);
      }
      i := i + 1;
    }
    assert userLoans[..|userLoans|] == userLoans;
    var availableAmount := 0;
    if staked.value > totalDebt {
      availableAmount := staked.value - totalDebt;
    }
    return Collateral(staked.value, totalDebt, availableAmount,
                      if totalDebt > 0 then LockedMessage else FreeMessage);
  }

  // ---------------------------------------------------------------------
  // Approval
  // ---------------------------------------------------------------------

  /**
   * `approveRequest(borrower, index, amountWei)`: the administrator, with a
   * contract handle, who confirms the prompt sends the approval funded
   * with the request's amount in wei.
   */
  function ApproveRequest(user: Option<Address>, adminAddress: Address, contractReady: bool, confirmed: bool,
                          borrower: Address, requestIndex: nat, amountWei: nat): (c: Option<ApproveCall>)
    ensures c.Some? <==> IsAdmin(user, adminAddress) && contractReady && confirmed
    ensures c.Some? ==> c.value.borrower == borrower && c.value.requestIndex == requestIndex &&
                        c.value.value == amountWei
  {
    if !IsAdmin(user, adminAddress) || !contractReady then None
    else if !confirmed then None
    else Some(ApproveCall(borrower, requestIndex, amountWei))
  }

  /**
   * Approving an entry of the scanned queue with the `amountWei` it carries
   * funds the very request the borrower's array holds at that index.
   */
  lemma ApproveFundsListedRequest(events: seq<Address>, fetch: Fetch<LoanRequest>, e: PendingEntry,
                                  adminAddress: Address)
    requires ExactQueue(PendingOf(Dedup(events), fetch), events, fetch)
    requires e in PendingOf(Dedup(events), fetch) && adminAddress != ""
    ensures var c := ApproveRequest(Some(adminAddress), adminAddress, true, true, e.owner, e.index, e.request.amount);
      c.Some? && c.value.borrower in events &&
      fetch(c.value.borrower).Some? && c.value.requestIndex < |fetch(c.value.borrower).value| &&
      var r := fetch(c.value.borrower).value[c.value.requestIndex];
      IsPending(r) && c.value.value == r.amount
  {
    AdminRecognised(adminAddress);
  }

  // ---------------------------------------------------------------------
  // `loadUserData()`
  // ---------------------------------------------------------------------

  /** A refresh: the new page, the reads issued, and the profile card if it was redrawn. */
  datatype Outcome = Outcome(page: Page, trace: seq<Read>, profile: Option<ProfileCard>)

  /** The late-payment count the profile shows: 0 when the history read failed. */
  function ShownLateCount(history: Option<seq<HistoryEntry>>): nat
  {
    match history
    case None => 0
    case Some(h) => LatePaymentCount(h)
  }

  /**
   * The refresh as a function of the reads' results: `registered` and
   * `score` from `userExists` and `getCreditScore`, `profileOk` for the
   * profile, breakdown and loan reads, `history` for the history read
   * (`None`: a call threw).
   */
  function Refresh(user: Option<Address>, contractReady: bool, adminAddress: Address, p: Page,
                   registered: Option<bool>, score: Option<nat>, profileOk: bool,
                   history: Option<seq<HistoryEntry>>): (r: Outcome)
    ensures !Truthy(user) || !contractReady ==> r == Outcome(p, [], None)
    ensures CreditScore in r.trace ==> registered == Some(true) && !IsAdmin(user, adminAddress)
    ensures Profile in r.trace ==> score.Some?
    ensures History in r.trace ==> profileOk
    ensures r.profile.Some? ==> History in r.trace && r.profile.value == ProfileShown(Some(ShownLateCount(history)))
    ensures r.page.contents == p.contents && r.page.buttons.Keys == p.buttons.Keys
  {
    if !Truthy(user) || !contractReady then Outcome(p, [], None)
    else if IsAdmin(user, adminAddress) then Outcome(AdminLayout(p, true), [AdminLoaders], None)
    else
      var u := UserLayout(p);
      match registered
      case None => Outcome(u, [UserExists], None)
      case Some(false) => Outcome(UnregisteredLayout(u), [UserExists], None)
      case Some(true) =>
        var q := RegisteredLayout(u);
        match score
        case None => Outcome(q, [UserExists, CreditScore], None)
        case Some(s) =>
          var shown := q.(creditScore := Number(s), description := ScoreDescription(s));
          if !profileOk then Outcome(shown, [UserExists, CreditScore, Profile], None)
          else Outcome(shown, [UserExists, CreditScore, Profile, History, Staking],
                       Some(ProfileShown(Some(ShownLateCount(history)))))
  }

  /**
   * The administrator sees the admin and registry buttons, loses the four
   * user tabs of `AdminHidden`, keeps history and loans, and lands on the
   * admin tab; no per-user read is issued.
   */
  lemma AdminViewKeepsHistoryAndLoans(user: Option<Address>, adminAddress: Address, p: Page,
                                      registered: Option<bool>, score: Option<nat>, profileOk: bool,
                                      history: Option<seq<HistoryEntry>>)
    requires IsAdmin(user, adminAddress)
    ensures var r := Refresh(user, true, adminAddress, p, registered, score, profileOk, history);
      r.trace == [AdminLoaders] &&
      (forall t :: t in AdminHidden ==> !Shown(r.page, t)) &&
      (RegistryTab in p.buttons ==> Shown(r.page, RegistryTab)) &&
      (HistoryTab in p.buttons ==> r.page.buttons[HistoryTab] == p.buttons[HistoryTab]) &&
      (LoansTab in p.buttons ==> r.page.buttons[LoansTab] == p.buttons[LoansTab]) &&
      (AdminTab in p.contents ==> r.page.activeContent == Some(AdminTab))
  {
  }

  /** An unregistered user's refresh reads nothing after the check and shows the register prompt. */
  lemma UnregisteredReadsOnlyRegistration(user: Option<Address>, adminAddress: Address, p: Page,
                                          score: Option<nat>, profileOk: bool,
                                          history: Option<seq<HistoryEntry>>)
    requires Truthy(user) && !IsAdmin(user, adminAddress)
    ensures var r := Refresh(user, true, adminAddress, p, Some(false), score, profileOk, history);
      r.trace == [UserExists] && r.profile.None? &&
      r.page.creditScore == Dash && r.page.description == "Register first" &&
      (RegisterTab in p.buttons ==> Shown(r.page, RegisterTab)) &&
      (AdminTab in p.buttons ==> !Shown(r.page, AdminTab))
  {
  }

  /** A registered user loses the register button and is moved off its tab. */
  lemma RegisteredLeavesRegisterTab(user: Option<Address>, adminAddress: Address, p: Page,
                                    score: Option<nat>, profileOk: bool,
                                    history: Option<seq<HistoryEntry>>)
    requires Truthy(user) && !IsAdmin(user, adminAddress)
    ensures var r := Refresh(user, true, adminAddress, p, Some(true), score, profileOk, history);
      !Shown(r.page, RegisterTab) && (AdminTab in p.buttons ==> !Shown(r.page, AdminTab)) &&
      (p.activeContent == Some(RegisterTab) && RegisterTab in p.contents && DashboardTab in p.contents ==>
        r.page.activeContent == Some(DashboardTab))
  {
  }

  /**
   * A registered user whose score and profile reads succeed gets the
   * profile drawn with the late-payment count of the history read, and the
   * history and staking reads are issued.
   */
  lemma RegisteredUserSeesProfile(user: Option<Address>, adminAddress: Address, p: Page, score: nat,
                                  profileOk: bool, history: Option<seq<HistoryEntry>>)
    requires Truthy(user) && !IsAdmin(user, adminAddress)
    ensures var r := Refresh(user, true, adminAddress, p, Some(true), Some(score), profileOk, history);
      r.page.creditScore == Number(score) && r.page.description == ScoreDescription(score) &&
      (!profileOk ==> r.trace == [UserExists, CreditScore, Profile] && r.profile.None?) &&
      (profileOk ==> r.trace == [UserExists, CreditScore, Profile, History, Staking]) &&
      (profileOk && history.Some? ==>
        r.profile == Some(ProfileShown(Some(LatePaymentCount(history.value)))))
  {
  }

  /**
   * A failed history read is contained: the profile is still drawn, with
   * zero late payments, and the staking panel is still loaded.
   */
  lemma HistoryFailureContained(user: Option<Address>, adminAddress: Address, p: Page, score: nat)
    requires Truthy(user) && !IsAdmin(user, adminAddress)
    ensures var r := Refresh(user, true, adminAddress, p, Some(true), Some(score), true, None);
      Staking in r.trace && r.profile == Some(ProfileShown(Some(0))) &&
      r.page.creditScore == Number(score) && r.page.description == ScoreDescription(score)
  {
  }

  /**
   * `loadUserData()` on the session: the page and the profile card become
   * the refresh's; the wallet state is untouched.
   */
  method LoadUserData(s: Session, registered: Option<bool>, score: Option<nat>, profileOk: bool,
                      history: Option<seq<HistoryEntry>>) returns (trace: seq<Read>)
    requires s.Valid()
    modifies s
    ensures s.Valid()
    ensures var r := Refresh(s.userAddress, s.contract.Some?, s.adminAddress, old(s.page),
                             registered, score, profileOk, history);
      s.page == r.page && trace == r.trace &&
      s.profile == (if r.profile.Some? then r.profile.value else old(s.profile))
    ensures s.userAddress == old(s.userAddress) && s.hasSigner == old(s.hasSigner)
    ensures s.contract == old(s.contract) && s.contractAddress == old(s.contractAddress)
    ensures s.stored == old(s.stored)
  {
    var r := Refresh(s.userAddress, s.contract.Some?, s.adminAddress, s.page,
                     registered, score, profileOk, history);
    s.page := r.page;
    if r.profile.Some? {
      s.profile := r.profile.value;
    }
    trace := r.trace;
  }

  /** After a disconnect a refresh changes nothing and reads nothing. */
  lemma RefreshAfterDisconnectIsInert(adminAddress: Address, contractReady: bool, p: Page,
                                      registered: Option<bool>, score: Option<nat>, profileOk: bool,
                                      history: Option<seq<HistoryEntry>>)
    ensures Refresh(None, contractReady, adminAddress, p, registered, score, profileOk, history) ==
            Outcome(p, [], None)
  {
  }
}
