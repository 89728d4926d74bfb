/**
 * The read-and-reduce shapes every loader of the dashboard shares: walk a
 * list of users, fetch an array per user, skip users whose fetch fails,
 * keep and tag the interesting elements, de-duplicate addresses and sort
 * by id, newest first.
 */
module Aggregate {
  import opened Chain

  // ---------------------------------------------------------------------
  // Pending loan requests
  // ---------------------------------------------------------------------

  /** A request the administrator can still act on. */
  predicate IsPending(r: LoanRequest)
  {
    r.isActive && !r.isApproved
  }

  /**
   * A pending request as the administrator queue shows it: the request, the
   * address it was fetched for, and its position in that user's array (the
   * index `approveLoan` expects).
   */
  datatype PendingEntry = PendingEntry(request: LoanRequest, owner: Address, index: nat)

  /** The entry really is element `index` of its owner's fetched array, and pending. */
  predicate Listed(e: PendingEntry, fetch: Fetch<LoanRequest>)
  {
    var f := fetch(e.owner);
    f.Some? && e.index < |f.value| && f.value[e.index] == e.request && IsPending(e.request)
  }

  /** The pending requests of one user's array, in array order, tagged. */
  function PendingIn(owner: Address, rs: seq<LoanRequest>): (r: seq<PendingEntry>)
    ensures |r| <= |rs|
    ensures forall e :: e in r ==>
      e.owner == owner && e.index < |rs| && rs[e.index] == e.request && IsPending(e.request)
    decreases |rs|
  {
    if rs == [] then []
    else
      var n := |rs| - 1;
      PendingIn(owner, rs[..n]) + (if IsPending(rs[n]) then [PendingEntry(rs[n], owner, n)] else [])
  }

  /** Scanning one more element of the array. */
  lemma PendingInStep(owner: Address, rs: seq<LoanRequest>, i: nat)
    requires i < |rs|
    ensures PendingIn(owner, rs[..i + 1]) ==
      PendingIn(owner, rs[..i]) + (if IsPending(rs[i]) then [PendingEntry(rs[i], owner, i)] else [])
  {
    assert rs[..i + 1][..i] == rs[..i];
  }

  /**
   * The inner loop of the request loaders: walk one user's array and keep
   * each pending request with its owner and its index.
   */
  method CollectPending(owner: Address, rs: seq<LoanRequest>) returns (found: seq<PendingEntry>)
    ensures found == PendingIn(owner, rs)
  {
    found := [];
    var i := 0;
    while i < |rs|
      invariant 0 <= i <= |rs|
      invariant found == PendingIn(owner, rs[..i])
    {
      PendingInStep(owner, rs, i);
      if rs[i].isActive && !rs[i].isApproved {
        found := found + [PendingEntry(rs[i], owner, i)];
      }
      i := i + 1;
    }
    assert rs[..|rs|] == rs;
  }

  /** Every pending element of the array is in the queue, with its own index. */
  lemma {:induction false} PendingInComplete(owner: Address, rs: seq<LoanRequest>, i: nat)
    requires i < |rs| && IsPending(rs[i])
    ensures PendingEntry(rs[i], owner, i) in PendingIn(owner, rs)
    decreases |rs|
  {
    var n := |rs| - 1;
    if i < n {
      PendingInComplete(owner, rs[..n], i);
    }
  }

  predicate IndicesAscending(r: seq<PendingEntry>)
  {
    forall a, b :: 0 <= a < b < |r| ==> r[a].index < r[b].index
  }

  /** Within one user the queue lists requests by ascending index. */
  lemma {:induction false} PendingInOrdered(owner: Address, rs: seq<LoanRequest>)
    ensures IndicesAscending(PendingIn(owner, rs))
    decreases |rs|
  {
    if rs != [] {
      var n := |rs| - 1;
      PendingInOrdered(owner, rs[..n]);
      var front := PendingIn(owner, rs[..n]);
      var tail := if IsPending(rs[n]) then [PendingEntry(rs[n], owner, n)] else [];
      var r := front + tail;
      assert PendingIn(owner, rs) == r;
      forall a, b | 0 <= a < b < |r|
        ensures r[a].index < r[b].index
      {
        assert r[a] == front[a] && front[a] in front;
        assert front[a].index < n;
        if b >= |front| {
          assert r[b] == tail[0];
        } else {
          assert r[b] == front[b];
          assert front[a].index < front[b].index;
        }
      }
    }
  }

  /** The requests a user contributes: none when that user's fetch fails. */
  function PendingOfUser(u: Address, fetch: Fetch<LoanRequest>): seq<PendingEntry>
  {
    match fetch(u)
    case None => []
    case Some(rs) => PendingIn(u, rs)
  }

  /** The administrator queue over a list of users, users in list order. */
  function PendingOf(users: seq<Address>, fetch: Fetch<LoanRequest>): seq<PendingEntry>
    decreases |users|
  {
    if users == [] then []
    else
      var n := |users| - 1;
      PendingOf(users[..n], fetch) + PendingOfUser(users[n], fetch)
  }

  /**
   * The queue holds exactly the pending requests of the listed users whose
   * fetch succeeded, each with its true owner and index.
   */
  lemma {:induction false} PendingOfExact(users: seq<Address>, fetch: Fetch<LoanRequest>, e: PendingEntry)
    ensures e in PendingOf(users, fetch) <==> e.owner in users && Listed(e, fetch)
    decreases |users|
  {
    if users != [] {
      var n := |users| - 1;
      PendingOfExact(users[..n], fetch, e);
      assert users == users[..n] + [users[n]];
      if e.owner == users[n] && Listed(e, fetch) {
        PendingInComplete(e.owner, fetch(e.owner).value, e.index);
      }
    }
  }

  /** Reading one more user. */
  lemma PendingOfStep(users: seq<Address>, fetch: Fetch<LoanRequest>, k: nat)
    requires k < |users|
    ensures PendingOf(users[..k + 1], fetch) == PendingOf(users[..k], fetch) + PendingOfUser(users[k], fetch)
  {
    assert users[..k + 1][..k] == users[..k];
  }

  /**
   * A queue lists exactly the pending requests of the given users: an entry
   * is in it iff its owner is one of them and the entry is that owner's
   * fetched request at that index.
   */
  ghost predicate ExactQueue(items: seq<PendingEntry>, users: seq<Address>, fetch: Fetch<LoanRequest>)
  {
    forall e :: e in items <==> e.owner in users && Listed(e, fetch)
  }

  /** `PendingOfExact` for every entry at once. */
  lemma PendingOfMembers(users: seq<Address>, fetch: Fetch<LoanRequest>)
    ensures ExactQueue(PendingOf(users, fetch), users, fetch)
  {
    forall e
      ensures e in PendingOf(users, fetch) <==> e.owner in users && Listed(e, fetch)
    {
      PendingOfExact(users, fetch, e);
    }
  }

  /** Concatenating, user by user, what each user contributes. */
  ghost function Gather<T>(users: seq<Address>, part: Address -> seq<T>): seq<T>
    decreases |users|
  {
    if users == [] then [] else Gather(users[..|users| - 1], part) + part(users[|users| - 1])
  }

  lemma {:induction false} GatherAppend<T>(a: seq<Address>, b: seq<Address>, part: Address -> seq<T>)
    ensures Gather(a + b, part) == Gather(a, part) + Gather(b, part)
    decreases |b|
  {
    if b == [] {
      assert a + b == a;
    } else {
      var n := |b| - 1;
      var ab := a + b;
      assert ab[..|ab| - 1] == a + b[..n];
      assert ab[|ab| - 1] == b[n];
      GatherAppend(a, b[..n], part);
    }
  }

  lemma {:induction false} PendingOfIsGather(users: seq<Address>, fetch: Fetch<LoanRequest>)
    ensures PendingOf(users, fetch) == Gather(users, u => PendingOfUser(u, fetch))
    decreases |users|
  {
    if users != [] {
      PendingOfIsGather(users[..|users| - 1], fetch);
    }
  }

  /** Reading the users in two batches gives the two queues one after the other. */
  lemma PendingOfAppend(a: seq<Address>, b: seq<Address>, fetch: Fetch<LoanRequest>)
    ensures PendingOf(a + b, fetch) == PendingOf(a, fetch) + PendingOf(b, fetch)
  {
    var part := u => PendingOfUser(u, fetch);
    PendingOfIsGather(a + b, fetch);
    PendingOfIsGather(a, fetch);
    PendingOfIsGather(b, fetch);
    GatherAppend(a, b, part);
  }

  /** The transaction an approval sends: `approveLoan(borrower, index)` carrying `value` wei. */
  datatype ApproveCall = ApproveCall(borrower: Address, requestIndex: nat, value: nat)

  // ---------------------------------------------------------------------
  // Loans of every user
  // ---------------------------------------------------------------------

  /** An element fetched for a user, tagged with that user's address. */
  datatype Owned<T> = Owned(owner: Address, item: T)

  /** Every element of a user's array, tagged with the user, in array order. */
  function Tag<T>(owner: Address, xs: seq<T>): (r: seq<Owned<T>>)
    ensures |r| == |xs|
    ensures forall i :: 0 <= i < |xs| ==> r[i] == Owned(owner, xs[i])
    decreases |xs|
  {
    if xs == [] then [] else Tag(owner, xs[..|xs| - 1]) + [Owned(owner, xs[|xs| - 1])]
  }

  /** What one user contributes: nothing when its fetch fails. */
  function OfUser<T>(u: Address, fetch: Fetch<T>): seq<Owned<T>>
  {
    match fetch(u)
    case None => []
    case Some(xs) => Tag(u, xs)
  }

  /** The concatenation, user by user, of every successfully fetched array. */
  function Flatten<T>(users: seq<Address>, fetch: Fetch<T>): seq<Owned<T>>
    decreases |users|
  {
    if users == [] then []
    else Flatten(users[..|users| - 1], fetch) + OfUser(users[|users| - 1], fetch)
  }

  /** Reading one more user. */
  lemma FlattenStep<T>(users: seq<Address>, fetch: Fetch<T>, k: nat)
    requires k < |users|
    ensures Flatten(users[..k + 1], fetch) == Flatten(users[..k], fetch) + OfUser(users[k], fetch)
  {
    assert users[..k + 1][..k] == users[..k];
  }

  /** Tagging one more element. */
  lemma TagStep<T>(owner: Address, xs: seq<T>, i: nat)
    requires i < |xs|
    ensures Tag(owner, xs[..i + 1]) == Tag(owner, xs[..i]) + [Owned(owner, xs[i])]
  {
    assert xs[..i + 1][..i] == xs[..i];
  }

  /** The inner loop of the controller's ledger loader: each loan pushed with its owner. */
  method TagEach<T>(owner: Address, xs: seq<T>) returns (found: seq<Owned<T>>)
    ensures found == Tag(owner, xs)
  {
    found := [];
    var i := 0;
    while i < |xs|
      invariant 0 <= i <= |xs|
      invariant found == Tag(owner, xs[..i])
    {
      TagStep(owner, xs, i);
      found := found + [Owned(owner, xs[i])];
      i := i + 1;
    }
    assert xs[..|xs|] == xs;
  }

  /** A tagged element is collected iff its owner is listed and its fetch returned it. */
  lemma {:induction false} FlattenExact<T>(users: seq<Address>, fetch: Fetch<T>, o: Owned<T>)
    ensures o in Flatten(users, fetch) <==>
      o.owner in users && fetch(o.owner).Some? && o.item in fetch(o.owner).value
    decreases |users|
  {
    if users != [] {
      var n := |users| - 1;
      FlattenExact(users[..n], fetch, o);
      assert users == users[..n] + [users[n]];
      if o.owner == users[n] && fetch(o.owner).Some? && o.item in fetch(o.owner).value {
        var xs := fetch(o.owner).value;
        var i :| 0 <= i < |xs| && xs[i] == o.item;
        assert Tag(users[n], xs)[i] == o;
      }
    }
  }

  // ---------------------------------------------------------------------
  // De-duplication: `[...new Set(xs)]`
  // ---------------------------------------------------------------------

  predicate NoDuplicates<T(==)>(s: seq<T>)
  {
    forall i, j :: 0 <= i < j < |s| ==> s[i] != s[j]
  }

  /**
   * `[...new Set(xs)]`: each element once, in the order of its first
   * occurrence.
   */
  function Dedup<T(==)>(s: seq<T>): (r: seq<T>)
    ensures NoDuplicates(r)
    ensures forall i :: 0 <= i < |s| ==> s[i] in r
    ensures forall i :: 0 <= i < |r| ==> r[i] in s
    ensures |r| <= |s|
    decreases |s|
  {
    if s == [] then []
    else
      var n := |s| - 1;
      var d := Dedup(s[..n]);
      if s[n] in d then d else d + [s[n]]
  }

  /** De-duplication keeps exactly the elements of its input. */
  lemma DedupMembers<T>(s: seq<T>)
    ensures forall x :: x in Dedup(s) <==> x in s
  {
    var d := Dedup(s);
    forall x
      ensures x in d <==> x in s
    {
      if x in s {
        var i :| 0 <= i < |s| && s[i] == x;
        assert s[i] in d;
      }
      if x in d {
        var i :| 0 <= i < |d| && d[i] == x;
        assert d[i] in s;
      }
    }
  }

  /** Index of the first occurrence of `x` in `s`. */
  ghost function FirstIndex<T>(s: seq<T>, x: T): (i: nat)
    requires x in s
    ensures i < |s| && s[i] == x && x !in s[..i]
    decreases |s|
  {
    if s[0] == x then 0 else 1 + FirstIndex(s[1..], x)
  }

  lemma {:induction false} FirstIndexPrefix<T>(s: seq<T>, m: nat, x: T)
    requires m <= |s| && x in s[..m]
    ensures FirstIndex(s, x) == FirstIndex(s[..m], x)
    decreases |s|
  {
    if s[0] != x {
      assert s[1..][..m - 1] == s[..m][1..];
      FirstIndexPrefix(s[1..], m - 1, x);
    }
  }

  /** `r` lists elements of `s` by increasing position of first occurrence. */
  ghost predicate InFirstOccurrenceOrder<T>(s: seq<T>, r: seq<T>)
    requires forall i :: 0 <= i < |r| ==> r[i] in s
  {
    forall i, j :: 0 <= i < j < |r| ==> FirstIndex(s, r[i]) < FirstIndex(s, r[j])
  }

  /** The de-duplicated list keeps the elements in order of first occurrence. */
  lemma {:induction false} DedupFirstOccurrenceOrder<T>(s: seq<T>)
    ensures InFirstOccurrenceOrder(s, Dedup(s))
    decreases |s|
  {
    if s != [] {
      var n := |s| - 1;
      var d := Dedup(s[..n]);
      DedupFirstOccurrenceOrder(s[..n]);
      if s[n] in d {
        DedupExtendOld(s, d);
      } else {
        DedupExtendNew(s, d);
      }
    }
  }

  lemma DedupExtendOld<T>(s: seq<T>, d: seq<T>)
    requires s != [] && forall i :: 0 <= i < |d| ==> d[i] in s[..|s| - 1]
    requires InFirstOccurrenceOrder(s[..|s| - 1], d)
    ensures forall i :: 0 <= i < |d| ==> d[i] in s
    ensures InFirstOccurrenceOrder(s, d)
  {
    var n := |s| - 1;
    forall i | 0 <= i < |d|
      ensures d[i] in s && FirstIndex(s, d[i]) == FirstIndex(s[..n], d[i])
    {
      FirstIndexPrefix(s, n, d[i]);
    }
  }

  lemma DedupExtendNew<T>(s: seq<T>, d: seq<T>)
    requires s != [] && forall i :: 0 <= i < |d| ==> d[i] in s[..|s| - 1]
    requires InFirstOccurrenceOrder(s[..|s| - 1], d)
    requires s[|s| - 1] !in s[..|s| - 1]
    ensures var r := d + [s[|s| - 1]]; forall i :: 0 <= i < |r| ==> r[i] in s
    ensures InFirstOccurrenceOrder(s, d + [s[|s| - 1]])
  {
    var n := |s| - 1;
    DedupExtendOld(s, d);
    forall i | 0 <= i < |d|
      ensures FirstIndex(s, d[i]) < n
    {
      FirstIndexPrefix(s, n, d[i]);
    }
    assert FirstIndex(s, s[n]) == n;
    var r := d + [s[n]];
    forall i, j | 0 <= i < j < |r|
      ensures FirstIndex(s, r[i]) < FirstIndex(s, r[j])
    {
      assert r[i] == d[i];
      if j < |d| {
        assert r[j] == d[j];
      }
    }
  }

  /** De-duplicating a list that has no repeats returns it unchanged. */
  lemma {:induction false} DedupDistinct<T>(s: seq<T>)
    requires NoDuplicates(s)
    ensures Dedup(s) == s
    decreases |s|
  {
    if s != [] {
      var n := |s| - 1;
      DedupDistinct(s[..n]);
      assert s[n] !in s[..n];
      assert s == s[..n] + [s[n]];
    }
  }

  // ---------------------------------------------------------------------
  // `Array.prototype.sort` with a descending numeric comparator
  // ---------------------------------------------------------------------

  predicate NonIncreasing<T>(s: seq<T>, key: T -> int)
  {
    forall i, j :: 0 <= i < j < |s| ==> key(s[i]) >= key(s[j])
  }

  /** Inserts `x` in front of the first element whose key it reaches. */
  function InsertDesc<T>(x: T, s: seq<T>, key: T -> int): (r: seq<T>)
    ensures multiset(r) == multiset(s) + multiset{x}
    decreases |s|
  {
    if s == [] || key(x) >= key(s[0]) then [x] + s
    else
      assert s == [s[0]] + s[1..];
      [s[0]] + InsertDesc(x, s[1..], key)
  }

  /**
   * A stable sort by descending key, as `sort((a, b) => key(b) - key(a))`
   * behaves: each element is inserted ahead of the equal keys that followed
   * it in the input.
   */
  function SortDesc<T>(s: seq<T>, key: T -> int): (r: seq<T>)
    ensures multiset(r) == multiset(s)
    ensures |r| == |s|
    decreases |s|
  {
    if s == [] then []
    else
      assert s == [s[0]] + s[1..];
      InsertDesc(s[0], SortDesc(s[1..], key), key)
  }

  /** Putting a large enough key in front of a sorted list keeps it sorted. */
  lemma ConsSorted<T>(h: T, r: seq<T>, key: T -> int)
    requires NonIncreasing(r, key)
    requires r == [] || key(h) >= key(r[0])
    ensures NonIncreasing([h] + r, key)
  {
    var c := [h] + r;
    forall i, j | 0 <= i < j < |c|
      ensures key(c[i]) >= key(c[j])
    {
      assert c[j] == r[j - 1];
      if i > 0 {
        assert c[i] == r[i - 1];
      }
    }
  }

  /** An insertion starts with the inserted element or with the old head. */
  lemma {:induction false} InsertDescHead<T>(x: T, s: seq<T>, key: T -> int)
    ensures |InsertDesc(x, s, key)| == |s| + 1
    ensures InsertDesc(x, s, key)[0] == x || (s != [] && InsertDesc(x, s, key)[0] == s[0])
  {
    assert |multiset(InsertDesc(x, s, key))| == |multiset(s)| + 1;
  }

  lemma {:induction false} InsertDescSorted<T>(x: T, s: seq<T>, key: T -> int)
    requires NonIncreasing(s, key)
    ensures NonIncreasing(InsertDesc(x, s, key), key)
    decreases |s|
  {
    if s == [] || key(x) >= key(s[0]) {
      ConsSorted(x, s, key);
    } else {
      var tail := s[1..];
      assert NonIncreasing(tail, key) by {
        forall i, j | 0 <= i < j < |tail|
          ensures key(tail[i]) >= key(tail[j])
        {
          assert tail[i] == s[i + 1] && tail[j] == s[j + 1];
        }
      }
      InsertDescSorted(x, tail, key);
      InsertDescHead(x, tail, key);
      var rest := InsertDesc(x, tail, key);
      if rest[0] != x {
        assert rest[0] == s[1];
      }
      ConsSorted(s[0], rest, key);
    }
  }

  /** The sorted list is ordered newest (largest key) first. */
  lemma {:induction false} SortDescSorted<T>(s: seq<T>, key: T -> int)
    ensures NonIncreasing(SortDesc(s, key), key)
    decreases |s|
  {
    if s != [] {
      SortDescSorted(s[1..], key);
      InsertDescSorted(s[0], SortDesc(s[1..], key), key);
    }
  }

  // ---------------------------------------------------------------------
  // What a panel shows after a loader ran
  // ---------------------------------------------------------------------

  /**
   * The content a loader leaves in its container: nothing written, the
   * "contract not initialized" message, the error message, the message that
   * the event or user source is empty, the message that nothing matched, or
   * the rendered entries.
   */
  datatype Panel<T> =
    | Untouched
    | NotInitialized
    | LoadError
    | NoSource
    | NoEntries
    | Entries(items: seq<T>)
}
