/** The scans of one admission pass: stream by stream, copy by copy. */
module LiteScan {
  import opened LiteLedger

  /** Before a place in the scan: an earlier stream, or an earlier copy of the same. */
  predicate Before(j: int, l: int, i: int, k: int) {
    j < i || (j == i && l < k)
  }

  method Committed(book: Book) returns (committed: nat)
    ensures committed == Total(book)
  {
    committed := 0;
    var i := 0;
    while i < |book|
      invariant 0 <= i <= |book|
      invariant committed == Total(book[..i])
    {
      ghost var start := committed;
      var k := 0;
      while k < |book[i].copies|
        invariant 0 <= k <= |book[i].copies|
        invariant committed == start + HeldIn(book[i].copies[..k]) * book[i].bps
      {
        assert book[i].copies[..k + 1][..k] == book[i].copies[..k];
        OneMoreTimes(HeldIn(book[i].copies[..k]), book[i].bps);
        if book[i].copies[k].held {
          committed := committed + book[i].bps;
        }
        k := k + 1;
      }
      assert book[i].copies[..k] == book[i].copies;
      assert book[..i + 1][..i] == book[..i];
      i := i + 1;
    }
    assert book[..i] == book;
  }

  /** The copy that was admitted for the latest listener. */
  method FindNewest(book: Book) returns (found: bool, ni: int, nk: int)
    ensures found ==> IsNewest(book, ni, nk)
    ensures !found ==> forall i, k :: At(book, i, k) ==> !HeldAt(book, i, k)
  {
    found, ni, nk := false, -1, -1;
    var newest := 0;
    var i := 0;
    while i < |book|
      invariant 0 <= i <= |book|
      invariant NewestSoFar(book, i, 0, found, ni, nk, newest)
    {
      var k := 0;
      while k < |book[i].copies|
        invariant 0 <= k <= |book[i].copies|
        invariant NewestSoFar(book, i, k, found, ni, nk, newest)
      {
        var copy := book[i].copies[k];
        assert At(book, i, k) && HeldAt(book, i, k) == copy.held && TicketAt(book, i, k) == copy.ticket;
        if copy.held && copy.ticket >= newest {
          found, ni, nk, newest := true, i, k, copy.ticket;
        }
        k := k + 1;
      }
      i := i + 1;
    }
  }

  ghost predicate NewestSoFar(book: Book, i: int, k: int, found: bool, ni: int, nk: int, newest: nat) {
    && (found ==> At(book, ni, nk) && HeldAt(book, ni, nk) && TicketAt(book, ni, nk) == newest)
    && (!found ==> newest == 0)
    && forall j, l :: At(book, j, l) && Before(j, l, i, k) && HeldAt(book, j, l) ==>
         found && TicketAt(book, j, l) <= newest
  }

  /** Of the copies that wait and fit, the one whose listener asked first. */
  method FindEarliest(book: Book, committed: nat, budget: nat) returns (found: bool, ei: int, ek: int)
    ensures found ==> IsEarliestFitting(book, ei, ek, committed, budget)
    ensures !found ==> NobodyFits(book, committed, budget)
  {
    found, ei, ek := false, -1, -1;
    var i := 0;
    while i < |book|
      invariant 0 <= i <= |book|
      invariant EarliestSoFar(book, i, 0, found, ei, ek, committed, budget)
    {
      var k := 0;
      while k < |book[i].copies|
        invariant 0 <= k <= |book[i].copies|
        invariant EarliestSoFar(book, i, k, found, ei, ek, committed, budget)
      {
        var copy := book[i].copies[k];
        assert At(book, i, k) && HeldAt(book, i, k) == copy.held && TicketAt(book, i, k) == copy.ticket;
        if !copy.held && (!found || copy.ticket < book[ei].copies[ek].ticket) && committed + book[i].bps <= budget {
          found, ei, ek := true, i, k;
        }
        k := k + 1;
      }
      i := i + 1;
    }
  }

  ghost predicate EarliestSoFar(book: Book, i: int, k: int, found: bool, ei: int, ek: int, committed: nat, budget: nat) {
    && (found ==> At(book, ei, ek) && !HeldAt(book, ei, ek) && committed + book[ei].bps <= budget)
    && forall j, l :: At(book, j, l) && Before(j, l, i, k) && !HeldAt(book, j, l) && committed + book[j].bps <= budget ==>
         found && TicketAt(book, ei, ek) <= TicketAt(book, j, l)
  }
}
