/** The admin dashboard's figures: counts of reservations by status, revenue
    and commission over confirmed reservations, the most recent reservations
    and pack requests, and the number of pack requests not yet handled. The
    reservation documents are read as stored, so statuses are plain strings
    and the amounts may be missing. */
module AdminDashboard {
  import opened Common
  import opened Packs

  /** A `reservations` document as the dashboard reads it. */
  datatype ReservationDoc = ReservationDoc(
    reservationStatus: string,
    paymentStatus: string,
    totalPrice: Option<int>,
    commissionAmount: Option<real>,
    createdAt: Time)

  /** The dashboard's key figures. */
  datatype AdminStats = AdminStats(
    totalReservations: nat,
    pendingReservations: nat,
    confirmedReservations: nat,
    cancelledReservations: nat,
    totalRevenue: int,
    totalCommission: real,
    pendingPayment: real)

  /** The pack-request panel: how many are new, and the latest ones. */
  datatype PackRequestsData = PackRequestsData(nouveau: nat, recent: seq<PackRequest>)

  const EnAttente: string := "en_attente"
  const Confirmee: string := "confirmee"
  const Annulee: string := "annulee"

  /** How many reservations have the given status. */
  function CountStatus(docs: seq<ReservationDoc>, status: string): (n: nat)
    ensures n <= |docs|
  {
    if docs == [] then 0
    else (if docs[0].reservationStatus == status then 1 else 0) + CountStatus(docs[1..], status)
  }

  /** The confirmed reservations, in their order. */
  function Confirmed(docs: seq<ReservationDoc>): (c: seq<ReservationDoc>)
    ensures |c| == CountStatus(docs, Confirmee)
    ensures forall i :: 0 <= i < |c| ==> c[i].reservationStatus == Confirmee && c[i] in docs
    ensures forall i :: 0 <= i < |docs| && docs[i].reservationStatus == Confirmee ==> docs[i] in c
  {
    if docs == [] then []
    else if docs[0].reservationStatus == Confirmee then [docs[0]] + Confirmed(docs[1..])
    else Confirmed(docs[1..])
  }

  /** The reservations whose payment is still awaited, in their order. */
  function AwaitingPayment(docs: seq<ReservationDoc>): (a: seq<ReservationDoc>)
    ensures |a| <= |docs|
    ensures forall i :: 0 <= i < |a| ==> a[i].paymentStatus == EnAttente && a[i] in docs
    ensures forall i :: 0 <= i < |docs| && docs[i].paymentStatus == EnAttente ==> docs[i] in a
  {
    if docs == [] then []
    else if docs[0].paymentStatus == EnAttente then [docs[0]] + AwaitingPayment(docs[1..])
    else AwaitingPayment(docs[1..])
  }

  /** `sum + (r.total_price || 0)` over the documents. */
  function SumPrice(docs: seq<ReservationDoc>): int
  {
    if docs == [] then 0 else OrZero(docs[0].totalPrice) + SumPrice(docs[1..])
  }

  /** `sum + (r.commission_amount || 0)` over the documents. */
  function SumCommission(docs: seq<ReservationDoc>): real
  {
    if docs == [] then 0.0 else OrZeroReal(docs[0].commissionAmount) + SumCommission(docs[1..])
  }

  function OrZero(x: Option<int>): int
  {
    if x.Some? then x.value else 0
  }

  function OrZeroReal(x: Option<real>): real
  {
    if x.Some? then x.value else 0.0
  }

  /** `getAdminStats`. */
  function GetAdminStats(docs: seq<ReservationDoc>): (s: AdminStats)
    ensures s.totalReservations == |docs|
    ensures s.pendingReservations == CountStatus(docs, EnAttente)
    ensures s.confirmedReservations == CountStatus(docs, Confirmee)
    ensures s.cancelledReservations == CountStatus(docs, Annulee)
    ensures s.pendingReservations + s.confirmedReservations + s.cancelledReservations <= s.totalReservations
    ensures (forall i :: 0 <= i < |docs| ==> KnownStatus(docs[i].reservationStatus)) <==>
      s.pendingReservations + s.confirmedReservations + s.cancelledReservations == s.totalReservations
  {
    var confirmed := Confirmed(docs);
    StatusCountsBounded(docs);
    AdminStats(
      totalReservations := |docs|,
      pendingReservations := CountStatus(docs, EnAttente),
      confirmedReservations := |confirmed|,
      cancelledReservations := CountStatus(docs, Annulee),
      totalRevenue := SumPrice(confirmed),
      totalCommission := SumCommission(confirmed),
      pendingPayment := SumCommission(AwaitingPayment(confirmed)))
  }

  /** A status is one of the three a reservation can take. */
  predicate KnownStatus(status: string)
  {
    status == EnAttente || status == Confirmee || status == Annulee
  }

  /** The three status counts add up to at most the total, and to the total
      exactly when every reservation has one of the three statuses. */
  lemma {:induction false} StatusCountsBounded(docs: seq<ReservationDoc>)
    ensures CountStatus(docs, EnAttente) + CountStatus(docs, Confirmee) + CountStatus(docs, Annulee) <= |docs|
    ensures (forall i :: 0 <= i < |docs| ==> KnownStatus(docs[i].reservationStatus)) <==>
      CountStatus(docs, EnAttente) + CountStatus(docs, Confirmee) + CountStatus(docs, Annulee) == |docs|
  {
    if docs != [] {
      StatusCountsBounded(docs[1..]);
      assert forall i :: 1 <= i < |docs| ==> docs[i] == docs[1..][i - 1];
    }
  }

  /** The commission still to be collected is part of the total commission
      when no commission is negative. */
  lemma PendingWithinCommission(docs: seq<ReservationDoc>)
    requires forall d :: d in docs ==> OrZeroReal(d.commissionAmount) >= 0.0
    ensures 0.0 <= GetAdminStats(docs).pendingPayment <= GetAdminStats(docs).totalCommission
  {
    AwaitingWithinSum(Confirmed(docs));
  }

  lemma {:induction false} AwaitingWithinSum(confirmed: seq<ReservationDoc>)
    requires forall d :: d in confirmed ==> OrZeroReal(d.commissionAmount) >= 0.0
    ensures 0.0 <= SumCommission(AwaitingPayment(confirmed)) <= SumCommission(confirmed)
  {
    if confirmed != [] {
      assert confirmed[0] in confirmed;
      AwaitingWithinSum(confirmed[1..]);
    }
  }

  /** Revenue and commission come from confirmed reservations only: a
      reservation in any other status changes neither. */
  lemma {:induction false} OnlyConfirmedCount(docs: seq<ReservationDoc>, d: ReservationDoc)
    requires d.reservationStatus != Confirmee
    ensures GetAdminStats([d] + docs).totalRevenue == GetAdminStats(docs).totalRevenue
    ensures GetAdminStats([d] + docs).totalCommission == GetAdminStats(docs).totalCommission
    ensures GetAdminStats([d] + docs).pendingPayment == GetAdminStats(docs).pendingPayment
  {
    assert ([d] + docs)[1..] == docs;
  }

  /** A confirmed reservation adds its price (0 when missing) to the revenue
      and its commission to the total commission, and to the pending payment
      too while its payment is awaited. */
  lemma {:induction false} ConfirmedAdds(docs: seq<ReservationDoc>, d: ReservationDoc)
    requires d.reservationStatus == Confirmee
    ensures GetAdminStats([d] + docs).totalRevenue == OrZero(d.totalPrice) + GetAdminStats(docs).totalRevenue
    ensures GetAdminStats([d] + docs).totalCommission == OrZeroReal(d.commissionAmount) + GetAdminStats(docs).totalCommission
    ensures GetAdminStats([d] + docs).pendingPayment
         == (if d.paymentStatus == EnAttente then OrZeroReal(d.commissionAmount) else 0.0)
            + GetAdminStats(docs).pendingPayment
  {
    assert ([d] + docs)[1..] == docs;
  }

  // ------------------------------------------------------------------
  // Newest first, then the first few.
  // ------------------------------------------------------------------

  /** Newest first: no element is older than one after it. */
  predicate NewestFirstOrder<T>(s: seq<T>, key: T -> Time)
  {
    forall i, j :: 0 <= i < j < |s| ==> key(s[i]) >= key(s[j])
  }

  /** `x` placed before the first element not newer than it. */
  function Insert<T>(x: T, s: seq<T>, key: T -> Time): seq<T>
  {
    if s == [] then [x]
    else if key(s[0]) <= key(x) then [x] + s
    else [s[0]] + Insert(x, s[1..], key)
  }

  lemma MultisetCons<T>(s: seq<T>)
    requires s != []
    ensures multiset(s) == multiset{s[0]} + multiset(s[1..])
  {
    assert s == [s[0]] + s[1..];
  }

  /** Inserting adds exactly the one element. */
  lemma {:induction false} InsertPermutes<T>(x: T, s: seq<T>, key: T -> Time)
    ensures multiset(Insert(x, s, key)) == multiset(s) + multiset{x}
  {
    if s != [] && key(x) < key(s[0]) {
      InsertPermutes(x, s[1..], key);
      MultisetCons(s);
    }
  }

  /** Inserting into a newest-first list keeps it newest first. */
  lemma {:induction false} InsertOrdered<T>(x: T, s: seq<T>, key: T -> Time)
    requires NewestFirstOrder(s, key)
    ensures NewestFirstOrder(Insert(x, s, key), key)
  {
    if s != [] {
      if key(s[0]) <= key(x) {
        HeadAbove(x, s, key);
      } else {
        var rest := Insert(x, s[1..], key);
        OrderedTail(s, key);
        InsertOrdered(x, s[1..], key);
        InsertPermutes(x, s[1..], key);
        BelowHead(x, s, rest, key);
        HeadAbove(s[0], rest, key);
      }
    }
  }

  lemma OrderedTail<T>(s: seq<T>, key: T -> Time)
    requires s != [] && NewestFirstOrder(s, key)
    ensures NewestFirstOrder(s[1..], key)
    ensures forall k :: 0 <= k < |s[1..]| ==> key(s[1..][k]) <= key(s[0])
  {
    assert forall k :: 0 <= k < |s[1..]| ==> s[1..][k] == s[k + 1];
  }

  /** A head no older than a newest-first list's first element, and so no
      older than any of them, keeps the list newest first. */
  lemma HeadAbove<T>(h: T, s: seq<T>, key: T -> Time)
    requires NewestFirstOrder(s, key)
    requires forall k :: 0 <= k < |s| ==> key(s[k]) <= key(h)
    ensures NewestFirstOrder([h] + s, key)
  {
    var r := [h] + s;
    forall i, j | 0 <= i < j < |r| ensures key(r[i]) >= key(r[j]) {
      assert r[j] == s[j - 1];
      if i > 0 {
        assert r[i] == s[i - 1];
      }
    }
  }

  /** The elements of `s[1..]` with `x` added, `x` being older than `s[0]`,
      are all no newer than `s[0]`. */
  lemma BelowHead<T>(x: T, s: seq<T>, rest: seq<T>, key: T -> Time)
    requires s != [] && NewestFirstOrder(s, key) && key(x) < key(s[0])
    requires multiset(rest) == multiset(s[1..]) + multiset{x}
    ensures forall k :: 0 <= k < |rest| ==> key(rest[k]) <= key(s[0])
  {
    forall k | 0 <= k < |rest| ensures key(rest[k]) <= key(s[0]) {
      assert rest[k] in multiset(rest);
      if rest[k] != x {
        assert rest[k] in multiset(s[1..]);
        var m :| 0 <= m < |s[1..]| && s[1..][m] == rest[k];
        assert s[m + 1] == rest[k];
      }
    }
  }

  /** `.sort((a, b) => b.created_at.localeCompare(a.created_at))`: the same
      elements, newest first. */
  function NewestFirst<T>(s: seq<T>, key: T -> Time): (r: seq<T>)
    ensures multiset(r) == multiset(s)
    ensures NewestFirstOrder(r, key)
  {
    if s == [] then []
    else
      var rest := NewestFirst(s[1..], key);
      InsertPermutes(s[0], rest, key);
      InsertOrdered(s[0], rest, key);
      MultisetCons(s);
      Insert(s[0], rest, key)
  }

  /** `.slice(0, n)`. */
  function Take<T>(s: seq<T>, n: nat): (r: seq<T>)
    ensures |r| == if |s| < n then |s| else n
    ensures r == s[..|r|]
  {
    if |s| < n then s else s[..n]
  }

  /** The first `n` after sorting are the `n` newest: at most `n`, newest
      first, drawn from the input, and no element left out is newer than
      any element kept. */
  lemma TopNewest<T>(s: seq<T>, key: T -> Time, n: nat)
    ensures var r := Take(NewestFirst(s, key), n);
      && |r| == (if |s| < n then |s| else n)
      && NewestFirstOrder(r, key)
      && multiset(r) <= multiset(s)
      && (forall x, k :: x in multiset(s) - multiset(r) && 0 <= k < |r| ==> key(x) <= key(r[k]))
  {
    var sorted := NewestFirst(s, key);
    var r := Take(sorted, n);
    PrefixAndRest(sorted, |r|);
    KeptNotOlder(sorted, key, |r|);
  }

  /** A prefix and the rest share out the elements of the list. */
  lemma PrefixAndRest<T>(s: seq<T>, m: nat)
    requires m <= |s|
    ensures multiset(s[..m]) <= multiset(s)
    ensures forall x :: x in multiset(s) - multiset(s[..m]) ==> x in s[m..]
  {
    assert s == s[..m] + s[m..];
    assert multiset(s) - multiset(s[..m]) == multiset(s[m..]);
  }

  /** In a newest-first list, nothing after position `m` is newer than
      anything before it, and the prefix is itself newest first. */
  lemma KeptNotOlder<T>(sorted: seq<T>, key: T -> Time, m: nat)
    requires NewestFirstOrder(sorted, key) && m <= |sorted|
    ensures NewestFirstOrder(sorted[..m], key)
    ensures forall x, k :: x in sorted[m..] && 0 <= k < m ==> key(x) <= key(sorted[..m][k])
  {
    forall x, k | x in sorted[m..] && 0 <= k < m
      ensures key(x) <= key(sorted[..m][k])
    {
      var i :| 0 <= i < |sorted[m..]| && sorted[m..][i] == x;
      assert sorted[m + i] == x;
    }
  }

  function ReservationCreated(d: ReservationDoc): Time
  {
    d.createdAt
  }

  function RequestCreated(q: PackRequest): Time
  {
    q.createdAt
  }

  /** `getRecentReservations`: the eight newest reservations. */
  function RecentReservations(docs: seq<ReservationDoc>): (r: seq<ReservationDoc>)
    ensures |r| <= 8 && |r| <= |docs|
    ensures NewestFirstOrder(r, ReservationCreated)
    ensures multiset(r) <= multiset(docs)
    ensures forall x, k :: x in multiset(docs) - multiset(r) && 0 <= k < |r| ==> x.createdAt <= r[k].createdAt
  {
    TopNewest(docs, ReservationCreated, 8);
    Take(NewestFirst(docs, ReservationCreated), 8)
  }

  /** How many requests are still `nouveau`. */
  function CountNew(requests: seq<PackRequest>): (n: nat)
    ensures n <= |requests|
    ensures n == 0 <==> forall i :: 0 <= i < |requests| ==> requests[i].status != Nouveau
  {
    if requests == [] then 0
    else (if requests[0].status == Nouveau then 1 else 0) + CountNew(requests[1..])
  }

  /** `getPackRequestsData`: the array is sorted in place, newest first;
      the new requests are counted on it and its first five are the recent
      ones. */
  function GetPackRequestsData(requests: seq<PackRequest>): (d: PackRequestsData)
    ensures d.nouveau == CountNew(requests)
    ensures |d.recent| <= 5 && |d.recent| <= |requests|
    ensures NewestFirstOrder(d.recent, RequestCreated)
    ensures multiset(d.recent) <= multiset(requests)
    ensures forall x, k :: x in multiset(requests) - multiset(d.recent) && 0 <= k < |d.recent| ==>
      x.createdAt <= d.recent[k].createdAt
  {
    var sorted := NewestFirst(requests, RequestCreated);
    TopNewest(requests, RequestCreated, 5);
    CountNewSorted(requests, RequestCreated);
    PackRequestsData(CountNew(sorted), Take(sorted, 5))
  }

  /** Sorting does not change how many requests are new. */
  lemma {:induction false} CountNewSorted(s: seq<PackRequest>, key: PackRequest -> Time)
    ensures CountNew(NewestFirst(s, key)) == CountNew(s)
  {
    if s != [] {
      CountNewSorted(s[1..], key);
      CountNewInsert(s[0], NewestFirst(s[1..], key), key);
      assert s == [s[0]] + s[1..];
    }
  }

  lemma {:induction false} CountNewInsert(x: PackRequest, s: seq<PackRequest>, key: PackRequest -> Time)
    ensures CountNew(Insert(x, s, key)) == CountNew([x] + s)
  {
    assert ([x] + s)[1..] == s;
    if s != [] && key(s[0]) > key(x) {
      var rest := Insert(x, s[1..], key);
      CountNewInsert(x, s[1..], key);
      assert ([s[0]] + rest)[1..] == rest;
      assert ([x] + s[1..])[1..] == s[1..];
    }
  }
}
