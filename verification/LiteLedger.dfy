/**
 The egress budget of AVB Lite as a book: for every stream the bandwidth of one
 copy and the copies that may hold a place, each known by a ticket that tells
 when its listener first asked.
 */
module LiteLedger {
  import opened Basics

  datatype Copy = Copy(ticket: nat, held: bool)

  datatype Account = Account(bps: nat, copies: seq<Copy>)

  type Book = seq<Account>

  predicate At(book: Book, i: int, k: int) {
    0 <= i < |book| && 0 <= k < |book[i].copies|
  }

  function TicketAt(book: Book, i: int, k: int): nat
    requires At(book, i, k)
  {
    book[i].copies[k].ticket
  }

  predicate HeldAt(book: Book, i: int, k: int)
    requires At(book, i, k)
  {
    book[i].copies[k].held
  }

  /** A ticket names one copy. */
  ghost predicate Distinct(book: Book) {
    forall i, k, j, l :: At(book, i, k) && At(book, j, l) && TicketAt(book, i, k) == TicketAt(book, j, l) ==>
      i == j && k == l
  }

  // ---- What is committed -------------------------------------------------

  function HeldIn(copies: seq<Copy>): nat {
    if copies == [] then 0
    else HeldIn(copies[..|copies| - 1]) + if copies[|copies| - 1].held then 1 else 0
  }

  function Total(book: Book): nat {
    if book == [] then 0
    else
      var n := |book| - 1;
      Total(book[..n]) + HeldIn(book[n].copies) * book[n].bps
  }

  function SetHeld(book: Book, i: int, k: int, held: bool): (r: Book)
    requires At(book, i, k)
    ensures |r| == |book|
    ensures forall j, l :: At(r, j, l) <==> At(book, j, l)
    ensures forall j, l :: At(r, j, l) ==> TicketAt(r, j, l) == TicketAt(book, j, l)
    ensures forall j, l :: At(r, j, l) ==> HeldAt(r, j, l) == if j == i && l == k then held else HeldAt(book, j, l)
    ensures forall j :: 0 <= j < |r| ==> r[j].bps == book[j].bps
  {
    book[i := book[i].(copies := book[i].copies[k := book[i].copies[k].(held := held)])]
  }

  lemma {:induction false} HeldInAfter(copies: seq<Copy>, k: nat, held: bool)
    requires k < |copies| && copies[k].held != held
    ensures HeldIn(copies[k := copies[k].(held := held)]) == HeldIn(copies) + if held then 1 else -1
  {
    var n := |copies| - 1;
    var after := copies[k := copies[k].(held := held)];
    if k == n {
      assert after[..n] == copies[..n];
    } else {
      HeldInAfter(copies[..n], k, held);
      assert after[..n] == copies[..n][k := copies[k].(held := held)];
    }
  }

  /** One copy more or less changes what is committed by its bandwidth. */
  lemma {:induction false} TotalAfter(book: Book, i: nat, k: nat, held: bool)
    requires At(book, i, k) && HeldAt(book, i, k) != held
    ensures held ==> Total(SetHeld(book, i, k, held)) == Total(book) + book[i].bps
    ensures !held ==> Total(SetHeld(book, i, k, held)) == Total(book) - book[i].bps
    decreases |book|
  {
    hide HeldIn;
    var n := |book| - 1;
    var after := SetHeld(book, i, k, held);
    if i == n {
      assert after[..n] == book[..n];
      HeldInAfter(book[n].copies, k, held);
      OneMoreTimes(HeldIn(book[n].copies), book[n].bps);
    } else {
      assert At(book[..n], i, k) && HeldAt(book[..n], i, k) != held;
      TotalAfter(book[..n], i, k, held);
      assert after[..n] == SetHeld(book[..n], i, k, held) && after[n] == book[n];
    }
  }

  lemma OneMoreTimes(n: nat, b: nat)
    ensures (n + 1) * b == n * b + b && (n - 1) * b == n * b - b
  {
  }

  // ---- Releasing the newest ----------------------------------------------

  /** Only the copies up to a ticket keep their place. */
  function KeepUpTo(book: Book, cut: int): (r: Book)
    ensures |r| == |book|
  {
    seq(|book|, i requires 0 <= i < |book| => book[i].(copies :=
      seq(|book[i].copies|, k requires 0 <= k < |book[i].copies| =>
        var c := book[i].copies[k]; c.(held := c.held && c.ticket <= cut))))
  }

  ghost predicate IsNewest(book: Book, i: int, k: int) {
    && At(book, i, k) && HeldAt(book, i, k)
    && forall j, l :: At(book, j, l) && HeldAt(book, j, l) ==> TicketAt(book, j, l) <= TicketAt(book, i, k)
  }

  lemma BooksEqual(a: Book, b: Book)
    requires |a| == |b|
    requires forall i :: 0 <= i < |a| ==> a[i].bps == b[i].bps && |a[i].copies| == |b[i].copies|
    requires forall i, k :: At(a, i, k) ==> TicketAt(a, i, k) == TicketAt(b, i, k) && HeldAt(a, i, k) == HeldAt(b, i, k)
    ensures a == b
  {
    forall i | 0 <= i < |a|
      ensures a[i] == b[i]
    {
      forall k | 0 <= k < |a[i].copies|
        ensures a[i].copies[k] == b[i].copies[k]
      {
        assert At(a, i, k);
        assert TicketAt(a, i, k) == TicketAt(b, i, k);
      }
      assert a[i].copies == b[i].copies;
    }
  }

  lemma KeptAt(book: Book, cut: int)
    ensures var kept := KeepUpTo(book, cut);
        && (forall i, k :: At(kept, i, k) <==> At(book, i, k))
        && (forall i, k :: At(kept, i, k) ==>
             && TicketAt(kept, i, k) == TicketAt(book, i, k)
             && HeldAt(kept, i, k) == (HeldAt(book, i, k) && TicketAt(book, i, k) <= cut))
        && (forall i :: 0 <= i < |book| ==> kept[i].bps == book[i].bps && |kept[i].copies| == |book[i].copies|)
  {
  }

  /** Dropping the newest copy is keeping the older ones. */
  lemma ReleaseNewest(book: Book, i: int, k: int)
    requires Distinct(book) && IsNewest(book, i, k)
    ensures SetHeld(book, i, k, false) == KeepUpTo(book, TicketAt(book, i, k) - 1)
    ensures book == KeepUpTo(book, TicketAt(book, i, k))
  {
    var t: int := TicketAt(book, i, k);
    KeptAt(book, t);
    KeptAt(book, t - 1);
    BooksEqual(SetHeld(book, i, k, false), KeepUpTo(book, t - 1));
    BooksEqual(book, KeepUpTo(book, t));
  }

  lemma KeepTwice(book: Book, a: int, b: int)
    requires b <= a
    ensures KeepUpTo(KeepUpTo(book, a), b) == KeepUpTo(book, b)
  {
    KeptAt(book, a);
    KeptAt(KeepUpTo(book, a), b);
    KeptAt(book, b);
    BooksEqual(KeepUpTo(KeepUpTo(book, a), b), KeepUpTo(book, b));
  }

  /** Whatever was released so far, newest first, had to go. */
  ghost predicate Releasing(before: Book, after: Book, budget: nat, cut: int) {
    && Distinct(before)
    && after == KeepUpTo(before, cut)
    && forall i, k :: At(before, i, k) && HeldAt(before, i, k) && TicketAt(before, i, k) > cut ==>
         Total(KeepUpTo(before, TicketAt(before, i, k))) > budget
  }

  /**
   What the release leaves: the longest oldest-first run of copies within the
   budget.
   */
  ghost predicate IsReleased(before: Book, after: Book, budget: nat, cut: int) {
    Releasing(before, after, budget, cut) && Total(after) <= budget
  }

  lemma ReleaseStarts(book: Book, budget: nat, newest: int)
    requires Distinct(book) && forall i, k :: At(book, i, k) ==> TicketAt(book, i, k) <= newest
    ensures Releasing(book, book, budget, newest)
  {
    KeptAt(book, newest);
    BooksEqual(book, KeepUpTo(book, newest));
  }

  lemma ReleaseGoesOn(before: Book, book: Book, budget: nat, cut: int, i: int, k: int)
    requires Releasing(before, book, budget, cut) && IsNewest(book, i, k) && Total(book) > budget
    ensures TicketAt(book, i, k) <= cut
    ensures Releasing(before, SetHeld(book, i, k, false), budget, TicketAt(book, i, k) - 1)
  {
    hide Total;
    var t: int := TicketAt(book, i, k);
    KeptAt(before, cut);
    assert Distinct(book);
    ReleaseNewest(book, i, k);
    KeepTwice(before, cut, t);
    KeepTwice(before, cut, t - 1);
    forall j, l | At(before, j, l) && HeldAt(before, j, l) && TicketAt(before, j, l) > t - 1
      ensures Total(KeepUpTo(before, TicketAt(before, j, l))) > budget
    {
      if TicketAt(before, j, l) <= cut {
        assert HeldAt(book, j, l) && TicketAt(book, j, l) == t;
      }
    }
  }

  lemma {:induction false} NothingHeld(book: Book)
    requires forall i, k :: At(book, i, k) ==> !HeldAt(book, i, k)
    ensures Total(book) == 0
  {
    if book != [] {
      var n := |book| - 1;
      forall i, k | At(book[..n], i, k)
        ensures !HeldAt(book[..n], i, k)
      {
        assert At(book, i, k);
      }
      NothingHeld(book[..n]);
      forall k | 0 <= k < |book[n].copies|
        ensures !book[n].copies[k].held
      {
        assert At(book, n, k) && !HeldAt(book, n, k);
      }
      NothingHeldIn(book[n].copies);
    }
  }

  lemma {:induction false} NothingHeldIn(copies: seq<Copy>)
    requires forall k :: 0 <= k < |copies| ==> !copies[k].held
    ensures HeldIn(copies) == 0
  {
    if copies != [] {
      NothingHeldIn(copies[..|copies| - 1]);
    }
  }

  lemma {:induction false} HeldInMonotone(a: seq<Copy>, b: seq<Copy>)
    requires |a| == |b| && forall k :: 0 <= k < |a| && a[k].held ==> b[k].held
    ensures HeldIn(a) <= HeldIn(b)
  {
    if a != [] {
      HeldInMonotone(a[..|a| - 1], b[..|b| - 1]);
    }
  }

  /** Fewer or smaller copies commit less. */
  lemma {:induction false} TotalMonotone(a: Book, b: Book)
    requires |a| == |b|
    requires forall i :: 0 <= i < |a| ==> HeldIn(a[i].copies) <= HeldIn(b[i].copies) && a[i].bps <= b[i].bps
    ensures Total(a) <= Total(b)
  {
    if a != [] {
      var n := |a| - 1;
      TotalMonotone(a[..n], b[..n]);
      ProductMonotone(HeldIn(a[n].copies), HeldIn(b[n].copies), a[n].bps, b[n].bps);
    }
  }

  lemma KeepMonotone(book: Book, a: int, b: int)
    ensures a <= b ==> Total(KeepUpTo(book, a)) <= Total(KeepUpTo(book, b))
  {
    if a > b {
      return;
    }
    var x, y := KeepUpTo(book, a), KeepUpTo(book, b);
    KeptAt(book, a);
    KeptAt(book, b);
    forall i | 0 <= i < |book|
      ensures HeldIn(x[i].copies) <= HeldIn(y[i].copies)
    {
      forall k | 0 <= k < |x[i].copies|
        ensures x[i].copies[k].held ==> y[i].copies[k].held
      {
        assert At(x, i, k) && At(y, i, k);
      }
      HeldInMonotone(x[i].copies, y[i].copies);
    }
    TotalMonotone(x, y);
  }

  /** Budget and tickets leave no choice what to release. */
  lemma ReleasedIsUnique(before: Book, a: Book, cutA: int, b: Book, cutB: int, budget: nat)
    requires IsReleased(before, a, budget, cutA) && IsReleased(before, b, budget, cutB)
    ensures a == b
  {
    if cutA <= cutB {
      SameWithoutBetween(before, cutA, cutB, budget);
    } else {
      SameWithoutBetween(before, cutB, cutA, budget);
    }
  }

  lemma SameWithoutBetween(before: Book, low: int, high: int, budget: nat)
    requires low <= high && Total(KeepUpTo(before, high)) <= budget
    requires forall i, k :: At(before, i, k) && HeldAt(before, i, k) && TicketAt(before, i, k) > low ==>
        Total(KeepUpTo(before, TicketAt(before, i, k))) > budget
    ensures KeepUpTo(before, low) == KeepUpTo(before, high)
  {
    KeptAt(before, low);
    KeptAt(before, high);
    forall i, k | At(before, i, k) && HeldAt(before, i, k)
      ensures TicketAt(before, i, k) <= low <==> TicketAt(before, i, k) <= high
    {
      if low < TicketAt(before, i, k) {
        KeepMonotone(before, TicketAt(before, i, k), high);
      }
    }
    BooksEqual(KeepUpTo(before, low), KeepUpTo(before, high));
  }

  // ---- Admitting the earliest that fits ----------------------------------

  /** Copies that wait, with their bandwidths, by ticket. */
  ghost function Waiting(book: Book): map<nat, nat>
    requires Distinct(book)
  {
    map i, k | 0 <= i < |book| && 0 <= k < |book[i].copies| && At(book, i, k) && !HeldAt(book, i, k)
      :: TicketAt(book, i, k) := book[i].bps
  }

  ghost predicate IsEarliest(t: nat, tickets: set<nat>) {
    t in tickets && forall u :: u in tickets ==> t <= u
  }

  ghost function Earliest(tickets: set<nat>): (t: nat)
    requires tickets != {}
    ensures t in tickets && forall u :: u in tickets ==> t <= u
  {
    EarliestExists(tickets);
    var t :| IsEarliest(t, tickets);
    t
  }

  lemma {:induction false} EarliestExists(tickets: set<nat>)
    requires tickets != {}
    ensures exists t :: IsEarliest(t, tickets)
    decreases |tickets|
  {
    var x :| x in tickets;
    var rest := tickets - {x};
    assert tickets == rest + {x};
    if rest == {} {
      assert IsEarliest(x, tickets);
    } else {
      EarliestExists(rest);
      var t :| IsEarliest(t, rest);
      assert IsEarliest(if x < t then x else t, tickets);
    }
  }

  /** One pass over the waiting copies in the order their listeners asked. */
  ghost function FirstFit(waiting: map<nat, nat>, committed: nat, budget: nat): (admitted: set<nat>)
    ensures admitted <= waiting.Keys
    decreases |waiting.Keys|
  {
    if waiting == map[] then {}
    else
      var t := Earliest(waiting.Keys);
      assert |(waiting - {t}).Keys| < |waiting.Keys| by {
        assert (waiting - {t}).Keys == waiting.Keys - {t};
      }
      if committed + waiting[t] <= budget
      then {t} + FirstFit(waiting - {t}, committed + waiting[t], budget)
      else FirstFit(waiting - {t}, committed, budget)
  }

  ghost predicate HasRoom(waiting: map<nat, nat>, t: nat, committed: nat, budget: nat) {
    t in waiting && committed + waiting[t] <= budget
  }

  /** The pass goes straight to the first waiting copy that fits. */
  lemma {:induction false} SkipToFirstFitting(waiting: map<nat, nat>, t: nat, committed: nat, budget: nat)
    requires HasRoom(waiting, t, committed, budget)
    requires forall u :: u in waiting && u < t ==> !HasRoom(waiting, u, committed, budget)
    ensures FirstFit(waiting, committed, budget)
         == {t} + FirstFit(map u: nat | u in waiting && u > t :: waiting[u], committed + waiting[t], budget)
    decreases |waiting.Keys|
  {
    var e := Earliest(waiting.Keys);
    var rest := waiting - {e};
    assert rest.Keys == waiting.Keys - {e};
    if e == t {
      assert rest == map u: nat | u in waiting && u > t :: waiting[u];
    } else {
      assert e < t && !HasRoom(waiting, e, committed, budget);
      assert HasRoom(rest, t, committed, budget);
      forall u | u in rest && u < t
        ensures !HasRoom(rest, u, committed, budget)
      {
        assert !HasRoom(waiting, u, committed, budget);
      }
      SkipToFirstFitting(rest, t, committed, budget);
      assert (map u: nat | u in rest && u > t :: rest[u]) == map u: nat | u in waiting && u > t :: waiting[u];
    }
  }

  lemma {:induction false} NothingFits(waiting: map<nat, nat>, committed: nat, budget: nat)
    requires forall u :: u in waiting ==> !HasRoom(waiting, u, committed, budget)
    ensures FirstFit(waiting, committed, budget) == {}
    decreases |waiting.Keys|
  {
    if waiting != map[] {
      var e := Earliest(waiting.Keys);
      assert !HasRoom(waiting, e, committed, budget);
      assert (waiting - {e}).Keys == waiting.Keys - {e};
      forall u | u in waiting - {e}
        ensures !HasRoom(waiting - {e}, u, committed, budget)
      {
        assert !HasRoom(waiting, u, committed, budget);
      }
      NothingFits(waiting - {e}, committed, budget);
    }
  }

  /** A book in which some waiting copies got a place. */
  function AdmitAll(book: Book, tickets: set<nat>): Book {
    seq(|book|, i requires 0 <= i < |book| => book[i].(copies :=
      seq(|book[i].copies|, k requires 0 <= k < |book[i].copies| =>
        var c := book[i].copies[k]; c.(held := c.held || c.ticket in tickets))))
  }

  lemma AdmittedAt(book: Book, tickets: set<nat>)
    ensures var b := AdmitAll(book, tickets);
        && |b| == |book|
        && (forall i, k :: At(b, i, k) <==> At(book, i, k))
        && (forall i, k :: At(b, i, k) ==>
             && TicketAt(b, i, k) == TicketAt(book, i, k)
             && HeldAt(b, i, k) == (HeldAt(book, i, k) || TicketAt(book, i, k) in tickets))
        && (forall i :: 0 <= i < |book| ==> b[i].bps == book[i].bps && |b[i].copies| == |book[i].copies|)
  {
  }

  /** Admitting one copy, then others, is admitting them all. */
  lemma AdmitOneMore(book: Book, i: int, k: int, tickets: set<nat>)
    requires Distinct(book) && At(book, i, k)
    ensures AdmitAll(SetHeld(book, i, k, true), tickets) == AdmitAll(book, {TicketAt(book, i, k)} + tickets)
  {
    var t := TicketAt(book, i, k);
    AdmittedAt(SetHeld(book, i, k, true), tickets);
    AdmittedAt(book, {t} + tickets);
    BooksEqual(AdmitAll(SetHeld(book, i, k, true), tickets), AdmitAll(book, {t} + tickets));
  }

  lemma WaitingAfter(book: Book, i: int, k: int)
    requires Distinct(book) && At(book, i, k) && !HeldAt(book, i, k)
    ensures Distinct(SetHeld(book, i, k, true))
    ensures Waiting(SetHeld(book, i, k, true)) == Waiting(book) - {TicketAt(book, i, k)}
  {
    var after := SetHeld(book, i, k, true);
    assert Distinct(after);
    var t := TicketAt(book, i, k);
    forall u
      ensures u in Waiting(after) <==> u in Waiting(book) && u != t
      ensures u in Waiting(after) ==> Waiting(after)[u] == Waiting(book)[u]
    {
    }
  }

  /** The copy the repeated scan picks: of those that fit, the earliest. */
  ghost predicate IsEarliestFitting(book: Book, i: int, k: int, committed: nat, budget: nat) {
    && At(book, i, k) && !HeldAt(book, i, k) && committed + book[i].bps <= budget
    && forall j, l :: At(book, j, l) && !HeldAt(book, j, l) && committed + book[j].bps <= budget ==>
         TicketAt(book, i, k) <= TicketAt(book, j, l)
  }

  /** How far the repeated scan has come in what is one pass. */
  ghost predicate InPass(start: Book, budget: nat, book: Book, rest: map<nat, nat>) {
    && Distinct(start) && Distinct(book)
    && Total(start) <= budget && Total(book) <= budget
    && rest.Keys <= Waiting(book).Keys
    && (forall t :: t in rest ==> rest[t] == Waiting(book)[t])
    && (forall t :: t in Waiting(book) && t !in rest ==> !HasRoom(Waiting(book), t, Total(book), budget))
    && AdmitAll(start, FirstFit(Waiting(start), Total(start), budget))
       == AdmitAll(book, FirstFit(rest, Total(book), budget))
  }

  lemma PassStarts(book: Book, budget: nat)
    requires Distinct(book) && Total(book) <= budget
    ensures InPass(book, budget, book, Waiting(book))
  {
  }

  lemma PassGoesOn(start: Book, budget: nat, book: Book, rest: map<nat, nat>, i: int, k: int)
    requires InPass(start, budget, book, rest) && IsEarliestFitting(book, i, k, Total(book), budget)
    ensures InPass(start, budget, SetHeld(book, i, k, true), map u: nat | u in rest && u > TicketAt(book, i, k) :: rest[u])
    ensures TicketAt(book, i, k) in rest
  {
    hide FirstFit, Total, AdmitAll, Waiting, Distinct;
    var t := TicketAt(book, i, k);
    var after := SetHeld(book, i, k, true);
    var later := map u: nat | u in rest && u > t :: rest[u];
    TotalAfter(book, i, k, true);
    WaitingAfter(book, i, k);
    WaitingIs(book, i, k);
    EarlierDoNotFit(book, rest, i, k, budget);
    assert HasRoom(Waiting(book), t, Total(book), budget);
    SkipToFirstFitting(rest, t, Total(book), budget);
    AdmitOneMore(book, i, k, FirstFit(later, Total(after), budget));
    forall u | u in Waiting(after) && u !in later
      ensures !HasRoom(Waiting(after), u, Total(after), budget)
    {
      assert u in rest ==> !HasRoom(rest, u, Total(book), budget);
      assert u !in rest ==> !HasRoom(Waiting(book), u, Total(book), budget);
    }
  }

  lemma LaterIsFewer(rest: map<nat, nat>, t: nat)
    requires t in rest
    ensures |(map u: nat | u in rest && u > t :: rest[u]).Keys| < |rest.Keys|
  {
    var later := map u: nat | u in rest && u > t :: rest[u];
    assert rest.Keys == later.Keys + (rest.Keys - later.Keys);
    assert t in rest.Keys - later.Keys;
  }

  lemma EarlierDoNotFit(book: Book, rest: map<nat, nat>, i: int, k: int, budget: nat)
    requires Distinct(book) && IsEarliestFitting(book, i, k, Total(book), budget)
    requires rest.Keys <= Waiting(book).Keys && forall t :: t in rest ==> rest[t] == Waiting(book)[t]
    ensures forall u :: u in rest && u < TicketAt(book, i, k) ==> !HasRoom(rest, u, Total(book), budget)
  {
    forall u | u in rest && u < TicketAt(book, i, k)
      ensures !HasRoom(rest, u, Total(book), budget)
    {
      var j, l := WaitingWho(book, u);
      assert TicketAt(book, j, l) < TicketAt(book, i, k);
    }
  }

  lemma WaitingIs(book: Book, i: int, k: int)
    requires Distinct(book) && At(book, i, k) && !HeldAt(book, i, k)
    ensures TicketAt(book, i, k) in Waiting(book) && Waiting(book)[TicketAt(book, i, k)] == book[i].bps
  {
  }

  lemma WaitingWho(book: Book, t: nat) returns (i: int, k: int)
    requires Distinct(book) && t in Waiting(book)
    ensures At(book, i, k) && !HeldAt(book, i, k) && TicketAt(book, i, k) == t && Waiting(book)[t] == book[i].bps
  {
    i, k :| 0 <= i < |book| && 0 <= k < |book[i].copies| && At(book, i, k) && !HeldAt(book, i, k) && TicketAt(book, i, k) == t;
  }

  /** Nobody who waits would still fit. */
  ghost predicate NobodyFits(book: Book, committed: nat, budget: nat) {
    forall i, k :: At(book, i, k) && !HeldAt(book, i, k) ==> committed + book[i].bps > budget
  }

  lemma PassEnds(start: Book, budget: nat, book: Book, rest: map<nat, nat>)
    requires InPass(start, budget, book, rest) && NobodyFits(book, Total(book), budget)
    ensures book == AdmitAll(start, FirstFit(Waiting(start), Total(start), budget))
  {
    forall u | u in rest
      ensures !HasRoom(rest, u, Total(book), budget)
    {
      var i, k := WaitingWho(book, u);
    }
    NothingFits(rest, Total(book), budget);
    AdmittedAt(book, {});
    BooksEqual(AdmitAll(book, {}), book);
  }
}
