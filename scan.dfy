/**
 * The administrator loaders of web3-utils.js, which frontend/web3-utils.js
 * repeats line for line: borrowers are found by scanning contract events
 * rather than by asking for the user list, de-duplicated, and each is
 * fetched in turn. `events` is the borrower of each event in log order
 * (`None`: the query threw, which also covers a missing contract handle in
 * `loadAllSystemLoans`).
 */
module Scan {
  import opened Chain
  import opened Aggregate

  /** The record the system ledger builds from a loan: the total to repay is dropped. */
  datatype SystemLoan = SystemLoan(
    loanId: nat,
    borrower: Address,
    principal: nat,
    interestRate: nat,
    issueDate: nat,
    dueDate: nat,
    repaidAmount: nat,
    isRepaid: bool,
    isDefaulted: bool)

  /** A collected loan, with the scanned borrower (not the loan's own field) as borrower. */
  function ToSystemLoan(o: Owned<Loan>): (s: SystemLoan)
    ensures s.borrower == o.owner && s.loanId == o.item.loanId
    ensures s.repaidAmount == o.item.repaidAmount
    ensures s.isRepaid == o.item.isRepaid && s.isDefaulted == o.item.isDefaulted
  {
    var l := o.item;
    SystemLoan(l.loanId, o.owner, l.principal, l.interestRate, l.issueDate, l.dueDate,
               l.repaidAmount, l.isRepaid, l.isDefaulted)
  }

  function Project(xs: seq<Owned<Loan>>): (r: seq<SystemLoan>)
    ensures |r| == |xs|
    ensures forall i :: 0 <= i < |xs| ==> r[i] == ToSystemLoan(xs[i])
    decreases |xs|
  {
    if xs == [] then [] else Project(xs[..|xs| - 1]) + [ToSystemLoan(xs[|xs| - 1])]
  }

  lemma ProjectSnoc(xs: seq<Owned<Loan>>, o: Owned<Loan>)
    ensures Project(xs + [o]) == Project(xs) + [ToSystemLoan(o)]
  {
    assert (xs + [o])[..|xs|] == xs;
  }

  lemma ProjectAppend(xs: seq<Owned<Loan>>, ys: seq<Owned<Loan>>)
    ensures Project(xs + ys) == Project(xs) + Project(ys)
  {
    assert forall i :: 0 <= i < |xs + ys| ==> Project(xs + ys)[i] == (Project(xs) + Project(ys))[i];
  }

  /**
   * The inner loop of the ledger loaders: each loan of one borrower, in
   * order, rebuilt with that borrower as its owner.
   */
  method CollectLoans(borrower: Address, ls: seq<Loan>) returns (found: seq<SystemLoan>)
    ensures found == Project(Tag(borrower, ls))
  {
    found := [];
    var i := 0;
    while i < |ls|
      invariant 0 <= i <= |ls|
      invariant found == Project(Tag(borrower, ls[..i]))
    {
      TagStep(borrower, ls, i);
      ProjectSnoc(Tag(borrower, ls[..i]), Owned(borrower, ls[i]));
      found := found + [ToSystemLoan(Owned(borrower, ls[i]))];
      i := i + 1;
    }
    assert ls[..|ls|] == ls;
  }

  /** The sort key: `Number(loanId)`. */
  function SystemLoanOrder(l: SystemLoan): int
  {
    l.loanId
  }

  /** The ledger before sorting: every loan of every distinct borrower, in scan order. */
  function SystemLoansOf(events: seq<Address>, fetch: Fetch<Loan>): seq<SystemLoan>
  {
    Project(Flatten(Dedup(events), fetch))
  }

  /** The ledger holds one record per loan of every borrower that appears in an event. */
  lemma SystemLoansExact(events: seq<Address>, fetch: Fetch<Loan>, o: Owned<Loan>)
    requires o.owner in events && fetch(o.owner).Some? && o.item in fetch(o.owner).value
    ensures ToSystemLoan(o) in SystemLoansOf(events, fetch)
  {
    FlattenExact(Dedup(events), fetch, o);
    var xs := Flatten(Dedup(events), fetch);
    var i :| 0 <= i < |xs| && xs[i] == o;
    assert SystemLoansOf(events, fetch)[i] == ToSystemLoan(o);
  }

  /** Every record in the ledger comes from a fetched loan of a borrower seen in an event. */
  lemma SystemLoansSound(events: seq<Address>, fetch: Fetch<Loan>, s: SystemLoan)
    requires s in SystemLoansOf(events, fetch)
    ensures s.borrower in events && fetch(s.borrower).Some? &&
      exists l :: l in fetch(s.borrower).value && ToSystemLoan(Owned(s.borrower, l)) == s
  {
    var xs := Flatten(Dedup(events), fetch);
    var i :| 0 <= i < |xs| && SystemLoansOf(events, fetch)[i] == s;
    FlattenExact(Dedup(events), fetch, xs[i]);
  }

  /** The queue over the scanned borrowers holds exactly the pending requests of borrowers seen in an event. */
  lemma PendingOfEvents(events: seq<Address>, fetch: Fetch<LoanRequest>)
    ensures ExactQueue(PendingOf(Dedup(events), fetch), events, fetch)
  {
    PendingOfMembers(Dedup(events), fetch);
    DedupMembers(events);
  }

  /** A status label of the system ledger. */
  function LedgerStatus(l: SystemLoan): (s: string)
    ensures s == "Closed (Repaid)" <==> l.isRepaid
    ensures s == "Defaulted" <==> !l.isRepaid && l.isDefaulted
    ensures s == "Active" <==> !l.isRepaid && !l.isDefaulted
  {
    if l.isRepaid then "Closed (Repaid)"
    else if l.isDefaulted then "Defaulted"
    else "Active"
  }

  /**
   * `loadAllSystemLoans()`: no event means the "no loans" message;
   * otherwise every loan of every distinct borrower, newest first. When every
   * fetch fails the container is left empty: there is no separate message.
   */
  method LoadAllSystemLoans(hasContainer: bool, events: Option<seq<Address>>, fetch: Fetch<Loan>)
    returns (panel: Panel<SystemLoan>)
    ensures !hasContainer ==> panel == Untouched
    ensures hasContainer && events.None? ==> panel == LoadError
    ensures hasContainer && events == Some([]) ==> panel == NoSource
    ensures hasContainer && events.Some? && events.value != [] ==>
      panel == Entries(SortDesc(SystemLoansOf(events.value, fetch), SystemLoanOrder))
    ensures panel.Entries? ==>
      NonIncreasing(panel.items, SystemLoanOrder) &&
      multiset(panel.items) == multiset(SystemLoansOf(events.value, fetch))
  {
    if !hasContainer {
      return Untouched;
    }
    if events.None? {
      return LoadError;
    }
    if events.value == [] {
      return NoSource;
    }
    var borrowers := Dedup(events.value);
    var loans: seq<SystemLoan> := [];
    ghost var collected: seq<Owned<Loan>> := [];
    var k := 0;
    while k < |borrowers|
      invariant 0 <= k <= |borrowers|
      invariant collected == Flatten(borrowers[..k], fetch)
      invariant loans == Project(collected)
    {
      var b := borrowers[k];
      var got := fetch(b);
      FlattenStep(borrowers, fetch, k);
      if got.Some? {
        var found := CollectLoans(b, got.value);
        ProjectAppend(collected, Tag(b, got.value));
        collected := collected + Tag(b, got.value);
        loans := loans + found;
      }
      k := k + 1;
    }
    assert borrowers[..|borrowers|] == borrowers;
    SortDescSorted(loans, SystemLoanOrder);
    return Entries(SortDesc(loans, SystemLoanOrder));
  }

  /**
   * `loadAdminRequests()`: nothing without a container or a contract;
   * no event means the "no requests" message; otherwise the pending requests
   * of every distinct borrower, each with its index in that borrower's array.
   */
  method LoadAdminRequests(hasContainer: bool, contractReady: bool,
                           events: Option<seq<Address>>, fetch: Fetch<LoanRequest>)
    returns (panel: Panel<PendingEntry>)
    ensures !hasContainer || !contractReady ==> panel == Untouched
    ensures hasContainer && contractReady && events.None? ==> panel == LoadError
    ensures hasContainer && contractReady && events == Some([]) ==> panel == NoSource
    ensures hasContainer && contractReady && events.Some? && events.value != [] ==>
      (panel == NoEntries <==> PendingOf(Dedup(events.value), fetch) == []) &&
      (panel.Entries? ==> panel.items == PendingOf(Dedup(events.value), fetch))
    ensures panel.Entries? ==> ExactQueue(panel.items, events.value, fetch)
  {
    if !hasContainer || !contractReady {
      return Untouched;
    }
    if events.None? {
      return LoadError;
    }
    if events.value == [] {
      return NoSource;
    }
    var borrowers := Dedup(events.value);
    var pending: seq<PendingEntry> := [];
    var k := 0;
    while k < |borrowers|
      invariant 0 <= k <= |borrowers|
      invariant pending == PendingOf(borrowers[..k], fetch)
    {
      var b := borrowers[k];
      var got := fetch(b);
      PendingOfStep(borrowers, fetch, k);
      if got.Some? {
        var found := CollectPending(b, got.value);
        pending := pending + found;
      }
      k := k + 1;
    }
    assert borrowers[..|borrowers|] == borrowers;
    if pending == [] {
      return NoEntries;
    }
    PendingOfEvents(events.value, fetch);
    assert pending == PendingOf(Dedup(events.value), fetch);
    return Entries(pending);
  }
}
