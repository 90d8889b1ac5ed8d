/**
 Fairness of AVB Lite from one pass to the next: nobody is overtaken, and who
 holds a place in the budget keeps it.
 */
module LiteFairness {
  import opened LiteInvariant
  import opened LiteLedger
  import opened LitePlan
  import opened LitePublish
  import opened LiteState

  /** A listener stands in the first line and in the second no further back, with nobody new before it. */
  ghost predicate NoneOvertaken(was: seq<nat>, line: seq<nat>) {
    forall p, k :: 0 <= p < |was| && 0 <= k < |line| && was[p] == line[k] ==>
      k <= p && forall a :: 0 <= a < k ==> line[a] in was
  }

  /** Some row holds both the ticket and a place. */
  predicate HoldsPlaceAt(rows: seq<Row>, j: int, t: nat) {
    0 <= j < |rows| && rows[j].order == t && rows[j].admitted
  }

  ghost predicate HoldsPlace(rows: seq<Row>, t: nat) {
    exists j :: HoldsPlaceAt(rows, j, t)
  }

  lemma LinesAdvance(s: Stream, line: seq<nat>, account: Account, t: Stream, plan: Plan, now: int,
                     counter: nat, last: nat, fanout: nat, clock: int)
    requires Kept(s, line, account, fanout, clock)
    requires Planned(s, t, plan, now, counter, last, fanout)
    requires forall a :: 0 <= a < |line| ==> line[a] <= counter
    ensures NoneOvertaken(line, LineOf(t, plan))
  {
    var after := LineOf(t, plan);
    LineRises(t, plan);
    forall p, k | 0 <= p < |line| && 0 <= k < |after| && line[p] == after[k]
      ensures k <= p && forall a :: 0 <= a < k ==> after[a] in line
    {
      NobodyCutsIn(s, line, account, t, plan, now, counter, last, fanout, clock, k);
      NeverFurtherBack(line, after, p, k);
    }
  }

  /** While no copy grows, planning commits no more than the pass before. */
  lemma PlanCommitsNoMore(was: seq<Stream>, lines: seq<seq<nat>>, book: Book, clock: int, planned: seq<Stream>,
                          plans: seq<Plan>, now: int, base: nat, counter: nat, fanout: nat)
    requires |was| == |lines| == |book| == |planned| && AllFit(planned, plans) && AllUpTo(was, base)
    requires forall i :: 0 <= i < |was| ==> Kept(was[i], lines[i], book[i], fanout, clock)
    requires forall i :: 0 <= i < |was| ==> Planned(was[i], planned[i], plans[i], now, base, counter, fanout)
    requires forall i :: 0 <= i < |was| ==> PlacesShown(planned[i], plans[i], fanout)
    requires forall i :: 0 <= i < |was| ==> plans[i].copyBps <= book[i].bps
    ensures Total(BookOf(planned, plans, fanout)) <= Total(book)
  {
    hide Kept, Planned, PlacesShown, Total, HeldIn;
    var current := BookOf(planned, plans, fanout);
    forall i | 0 <= i < |was|
      ensures HeldIn(current[i].copies) <= HeldIn(book[i].copies)
    {
      assert TicketsUpTo(was[i].rows, base);
      HeldShrinks(was[i], lines[i], book[i], planned[i], plans[i], now, base, counter, fanout, clock);
    }
    TotalMonotone(current, book);
  }

  /**
   A listener once admitted stays admitted: while what is planned keeps within
   the budget, it stands in line and its own stream is unicast.
   */
  lemma AdmittedStaysAdmitted(s: Stream, line: seq<nat>, account: Account, clock: int, j: nat, k: nat,
                              planned: seq<Stream>, admitted: seq<Stream>, plans: seq<Plan>, i: nat, now: int, base: nat,
                              counter: nat, fanout: nat, budget: nat, released: Book, cut: int, waiting: set<nat>)
    requires AllFit(planned, plans) && AllFit(admitted, plans) && AllUpTo(planned, counter)
    requires SameButPlaces(planned, admitted)
    requires IsReleased(BookOf(planned, plans, fanout), released, budget, cut)
    requires BookOf(admitted, plans, fanout) == AdmitAll(released, waiting)
    requires Total(BookOf(planned, plans, fanout)) <= budget
    requires Kept(s, line, account, fanout, clock) && TicketsUpTo(s.rows, base)
    requires i < |planned| && Planned(s, planned[i], plans[i], now, base, counter, fanout)
    requires j < |s.rows| && s.rows[j].admitted && !planned[i].txMulticast
    requires k < |plans[i].order| && Ascending(planned[i].rows, plans[i].order)
    requires LineOf(planned[i], plans[i])[k] == s.rows[j].order
    ensures HoldsPlace(admitted[i].rows, s.rows[j].order)
  {
    hide IsReleased, Total, SameButPlaces, AdmitAll;
    PlaceSurvivesPlan(s, line, account, planned[i], plans[i], now, base, counter, fanout, clock, j, k);
    hide Kept, Planned, LineOf, AllFit, Ascending;
    PlaceSurvivesAdmission(planned, admitted, plans, counter, fanout, budget, released, cut, waiting, i, k);
  }

  /** Within the budget, admission only adds places. */
  lemma PlaceSurvivesAdmission(planned: seq<Stream>, admitted: seq<Stream>, plans: seq<Plan>, counter: nat, fanout: nat,
                               budget: nat, released: Book, cut: int, waiting: set<nat>, i: nat, k: nat)
    requires AllFit(planned, plans) && AllFit(admitted, plans) && AllUpTo(planned, counter)
    requires SameButPlaces(planned, admitted)
    requires IsReleased(BookOf(planned, plans, fanout), released, budget, cut)
    requires BookOf(admitted, plans, fanout) == AdmitAll(released, waiting)
    requires Total(BookOf(planned, plans, fanout)) <= budget
    requires i < |planned| && !planned[i].txMulticast && k < |plans[i].order| && k < fanout
    requires Ascending(planned[i].rows, plans[i].order) && planned[i].rows[plans[i].order[k]].admitted
    ensures HoldsPlace(admitted[i].rows, planned[i].rows[plans[i].order[k]].order)
  {
    hide Total, IsReleased;
    var book1, book2 := BookOf(planned, plans, fanout), BookOf(admitted, plans, fanout);
    TicketsInBookUpTo(planned, plans, fanout, counter);
    NothingToRelease(book1, released, budget, cut, counter);
    assert At(book1, i, k) && HeldAt(book1, i, k);
    AdmittedAt(released, waiting);
    hide AdmitAll;
    assert HeldAt(book2, i, k);
    assert SameButPlace(planned[i], admitted[i]) && Fits(admitted[i], plans[i]);
    assert HoldsPlaceAt(admitted[i].rows, plans[i].order[k], planned[i].rows[plans[i].order[k]].order);
  }
}
