/**
 * frontend/web3-utils.js, the earlier copy of the wallet layer: the same
 * session, tab layouts and administrator loaders as web3-utils.js (shared
 * through `Wallet`, `Views` and `Scan`), but a refresh without the registry
 * button or the late-payment count, a staking card that only tests the
 * bonus threshold, and an approval that sends no value.
 * Its non-ASCII strings appear in the file as UTF-8 decoded as Mac Roman
 * (the check mark as U+201A U+00FA U+00D6); they are kept as written.
 */
module FrontendUtils {
  import opened Chain
  import opened Reads
  import opened Rules
  import opened Identity
  import opened Aggregate
  import opened Dom
  import opened Scoring
  import opened Views
  import opened Wallet

  // ---------------------------------------------------------------------
  // `getScoreDescription(score)`
  // ---------------------------------------------------------------------

  const DescriptionThresholds: seq<int> := [550, 650, 700, 750]

  /** The five descriptions, worst first, the last one with the garbled check mark. */
  const Descriptions: seq<string> := [
    "Very Poor Credit Score",
    "Poor Credit Score",
    "Fair Credit Score",
    "Good Credit Score",
    "Excellent Credit Score! \U{201A}\U{FA}\U{D6}"]

  function ScoreDescription(score: int): (r: string)
    ensures r == Descriptions[Band(DescriptionThresholds, score)]
  {
    if score >= 750 then "Excellent Credit Score! \U{201A}\U{FA}\U{D6}"
    else if score >= 700 then "Good Credit Score"
    else if score >= 650 then "Fair Credit Score"
    else if score >= 550 then "Poor Credit Score"
    else "Very Poor Credit Score"
  }

  /** A higher score never reads worse. */
  lemma ScoreDescriptionMonotone(s: int, t: int)
    requires s <= t
    ensures Rank(Descriptions, ScoreDescription(s)) <= Rank(Descriptions, ScoreDescription(t))
  {
    BandMonotone(DescriptionThresholds, s, t);
    RankOfDistinct(Descriptions, Band(DescriptionThresholds, s));
    RankOfDistinct(Descriptions, Band(DescriptionThresholds, t));
  }

  /** Each description is given to exactly the scores of its band. */
  lemma ScoreDescriptionBands(score: int, k: nat)
    requires k < |Descriptions|
    ensures ScoreDescription(score) == Descriptions[k] <==>
      (k == 0 || DescriptionThresholds[k - 1] <= score) &&
      (k == |DescriptionThresholds| || score < DescriptionThresholds[k])
  {
    BandExact(DescriptionThresholds, score, k);
    RankOfDistinct(Descriptions, k);
    RankOfDistinct(Descriptions, Band(DescriptionThresholds, score));
  }

  /** The registry colour never splits a description band. */
  lemma ScoreColorFollowsDescription(s: int, t: int)
    requires ScoreDescription(s) == ScoreDescription(t)
    ensures ScoreColor(s) == ScoreColor(t)
  {
    var k := Band(DescriptionThresholds, s);
    ScoreDescriptionBands(s, k);
    ScoreDescriptionBands(t, k);
  }

  // ---------------------------------------------------------------------
  // `loadStakingData()`
  // ---------------------------------------------------------------------

  /** `ethers.parseEther("0.01")`: 10^16 wei. */
  const BonusStake: nat := 10_000_000_000_000_000

  const BonusMessage := "\U{201A}\U{FA}\U{D6} Earning +50 credit score bonus!"
  const NoBonusMessage :=
    "\U{201A}\U{F6}\U{2020}\U{D4}\U{220F}\U{E8} Stake at least 0.01 ETH to earn +50 credit score bonus"

  /** The message under the staking balance: the bonus line from 0.01 ETH up, an exact integer comparison. */
  function BonusLine(staked: nat): (m: string)
    ensures m == BonusMessage <==> staked * 100 >= 1_000_000_000_000_000_000
    ensures m == BonusMessage || m == NoBonusMessage
  {
    if staked >= BonusStake then BonusMessage else NoBonusMessage
  }

  /** Staking more never loses the bonus line. */
  lemma BonusLineMonotone(s: nat, t: nat)
    requires s <= t && BonusLine(s) == BonusMessage
    ensures BonusLine(t) == BonusMessage
  {
  }

  /** One wei below 0.01 ETH is refused, 0.01 ETH earns it. */
  lemma BonusThresholdExact()
    ensures BonusLine(BonusStake - 1) == NoBonusMessage
    ensures BonusLine(BonusStake) == BonusMessage
  {
  }

  datatype StakingCard = StakingUnchanged | StakingFailed | StakingBalance(staked: nat, message: string)

  /** The staking card: the balance and the bonus line, or the error placeholder when the read fails. */
  function StakingData(user: Option<Address>, contractReady: bool, hasPanel: bool, staked: Option<nat>): (c: StakingCard)
    ensures !Truthy(user) || !contractReady || !hasPanel ==> c == StakingUnchanged
    ensures c == StakingFailed <==> Truthy(user) && contractReady && hasPanel && staked.None?
    ensures c.StakingBalance? <==> Truthy(user) && contractReady && hasPanel && staked.Some?
    ensures c.StakingBalance? ==> staked == Some(c.staked) && c.message == BonusLine(c.staked)
  {
    if !Truthy(user) || !contractReady || !hasPanel then StakingUnchanged
    else match staked
      case None => StakingFailed
      case Some(v) => StakingBalance(v, BonusLine(v))
  }

  // ---------------------------------------------------------------------
  // Approval
  // ---------------------------------------------------------------------

  /** `approveRequest(borrower, index)`: confirmed by the administrator, the call carries no value. */
  function ApproveRequest(user: Option<Address>, adminAddress: Address, contractReady: bool, confirmed: bool,
                          borrower: Address, requestIndex: nat): (c: Option<ApproveCall>)
    ensures c.Some? <==> IsAdmin(user, adminAddress) && contractReady && confirmed
    ensures c.Some? ==> c.value.borrower == borrower && c.value.requestIndex == requestIndex
  {
    if !IsAdmin(user, adminAddress) || !contractReady then None
    else if !confirmed then None
    else Some(ApproveCall(borrower, requestIndex, 0))
  }

  /** Whatever the request asks for, this copy's approval never funds it. */
  lemma ApproveNeverFunds(user: Option<Address>, adminAddress: Address, contractReady: bool, confirmed: bool,
                          e: PendingEntry)
    requires e.request.amount > 0
    ensures var c := ApproveRequest(user, adminAddress, contractReady, confirmed, e.owner, e.index);
      c.Some? ==> c.value.value == 0 < e.request.amount
  {
  }

  // ---------------------------------------------------------------------
  // `loadUserData()`
  // ---------------------------------------------------------------------

  /** A refresh: the new page, the reads issued, and the profile card if it was drawn. */
  datatype Outcome = Outcome(page: Page, trace: seq<Read>, profile: Option<ProfileCard>)

  /**
   * The refresh as a function of the reads' results: `registered` and
   * `score` from `userExists` and `getCreditScore`, `infoOk` for
   * `getUserInfo` (the profile is drawn right after it), `detailsOk` for
   * the breakdown and loan reads. The history read has its own handler, so
   * its result does not matter here.
   */
  function Refresh(user: Option<Address>, contractReady: bool, adminAddress: Address, p: Page,
                   registered: Option<bool>, score: Option<nat>, infoOk: bool, detailsOk: bool): (r: Outcome)
    ensures !Truthy(user) || !contractReady ==> r == Outcome(p, [], None)
    ensures CreditScore in r.trace ==> registered == Some(true) && !IsAdmin(user, adminAddress)
    ensures Profile in r.trace ==> score.Some?
    ensures History in r.trace <==> Staking in r.trace
    ensures History in r.trace ==> infoOk && detailsOk
    ensures r.profile.Some? ==> Profile in r.trace && infoOk && r.profile.value == ProfileShown(None)
    ensures r.page.contents == p.contents && r.page.buttons.Keys == p.buttons.Keys
  {
    if !Truthy(user) || !contractReady then Outcome(p, [], None)
    else if IsAdmin(user, adminAddress) then Outcome(AdminLayout(p, false), [AdminLoaders], None)
    else
      var u := UserLayout(p);
      match registered
      case None => Outcome(u, [UserExists], None)
      case Some(false) => Outcome(UnregisteredLayout(u), [UserExists], None)
      case Some(true) =>
        var q := RegisteredLayout(u);
        match score
        case None => Outcome(q, [UserExists, CreditScore], None)
        case Some(s) =>
          var shown := q.(creditScore := Number(s), description := ScoreDescription(s));
          if !infoOk then Outcome(shown, [UserExists, CreditScore, Profile], None)
          else if !detailsOk then Outcome(shown, [UserExists, CreditScore, Profile], Some(ProfileShown(None)))
          else Outcome(shown, [UserExists, CreditScore, Profile, History, Staking], Some(ProfileShown(None)))
  }

  /**
   * This copy's administrator layout never shows the registry button: it
   * keeps whatever display the button had.
   */
  lemma AdminViewLeavesRegistry(user: Option<Address>, adminAddress: Address, p: Page,
                                registered: Option<bool>, score: Option<nat>, infoOk: bool, detailsOk: bool)
    requires IsAdmin(user, adminAddress)
    ensures var r := Refresh(user, true, adminAddress, p, registered, score, infoOk, detailsOk);
      r.trace == [AdminLoaders] &&
      (forall t :: t in AdminHidden ==> !Shown(r.page, t)) &&
      (AdminTab in p.buttons ==> Shown(r.page, AdminTab)) &&
      (RegistryTab in p.buttons ==> r.page.buttons[RegistryTab] == p.buttons[RegistryTab]) &&
      (AdminTab in p.contents ==> r.page.activeContent == Some(AdminTab))
  {
  }

  /** An unregistered user is shown the register button and a dash, and nothing more is read. */
  lemma UnregisteredReadsOnlyRegistration(user: Option<Address>, adminAddress: Address, p: Page,
                                          score: Option<nat>, infoOk: bool, detailsOk: bool)
    requires Truthy(user) && !IsAdmin(user, adminAddress)
    ensures var r := Refresh(user, true, adminAddress, p, Some(false), score, infoOk, detailsOk);
      r.trace == [UserExists] && r.profile.None? &&
      r.page.creditScore == Dash && r.page.description == "Register first" &&
      (RegisterTab in p.buttons ==> Shown(r.page, RegisterTab))
  {
  }

  /** A registered user sitting on the register tab is moved to the dashboard, and the register button is hidden. */
  lemma RegisteredLeavesRegisterTab(user: Option<Address>, adminAddress: Address, p: Page,
                                    score: Option<nat>, infoOk: bool, detailsOk: bool)
    requires Truthy(user) && !IsAdmin(user, adminAddress)
    ensures var r := Refresh(user, true, adminAddress, p, Some(true), score, infoOk, detailsOk);
      !Shown(r.page, RegisterTab) &&
      (p.activeContent == Some(RegisterTab) && RegisterTab in p.contents && DashboardTab in p.contents ==>
        r.page.activeContent == Some(DashboardTab))
  {
  }

  /**
   * A registered user whose score is read has the profile read; when that
   * and the detail reads succeed, the profile is drawn and the history and
   * staking reads follow.
   */
  lemma RegisteredUserReadsAll(user: Option<Address>, adminAddress: Address, p: Page, score: nat,
                               infoOk: bool, detailsOk: bool)
    requires Truthy(user) && !IsAdmin(user, adminAddress)
    ensures var r := Refresh(user, true, adminAddress, p, Some(true), Some(score), infoOk, detailsOk);
      r.page.creditScore == Number(score) && r.page.description == ScoreDescription(score) &&
      (!infoOk ==> r.trace == [UserExists, CreditScore, Profile] && r.profile.None?) &&
      (infoOk && detailsOk ==>
        r.trace == [UserExists, CreditScore, Profile, History, Staking] &&
        r.profile == Some(ProfileShown(None)))
  {
  }

  /** The profile is drawn before the breakdown and loan reads, so their failure does not erase it. */
  lemma ProfileDrawnBeforeDetails(user: Option<Address>, adminAddress: Address, p: Page, score: nat)
    requires Truthy(user) && !IsAdmin(user, adminAddress)
    ensures var r := Refresh(user, true, adminAddress, p, Some(true), Some(score), true, false);
      r.profile == Some(ProfileShown(None)) && Staking !in r.trace &&
      r.page.creditScore == Number(score) && r.page.description == ScoreDescription(score)
  {
  }

  /** `loadUserData()` on the session: the page and the profile card become the refresh's. */
  method LoadUserData(s: Session, registered: Option<bool>, score: Option<nat>, infoOk: bool, detailsOk: bool)
    returns (trace: seq<Read>)
    requires s.Valid()
    modifies s
    ensures s.Valid()
    ensures var r := Refresh(s.userAddress, s.contract.Some?, s.adminAddress, old(s.page),
                             registered, score, infoOk, detailsOk);
      s.page == r.page && trace == r.trace &&
      s.profile == (if r.profile.Some? then r.profile.value else old(s.profile))
    ensures s.userAddress == old(s.userAddress) && s.hasSigner == old(s.hasSigner)
    ensures s.contract == old(s.contract) && s.contractAddress == old(s.contractAddress)
    ensures s.stored == old(s.stored)
  {
    var r := Refresh(s.userAddress, s.contract.Some?, s.adminAddress, s.page,
                     registered, score, infoOk, detailsOk);
    s.page := r.page;
    if r.profile.Some? {
      s.profile := r.profile.value;
    }
    trace := r.trace;
  }
}
