/**
 The AVB Lite transport scheduler: once a tick every output stream is planned,
 the egress budget is shared out across all of them, and what follows is
 published, started, stopped and declared.
 */
module LiteScheduler {
  import opened Bandwidth
  import opened LiteCharter
  import opened LiteFairness
  import opened LiteInvariant
  import opened LiteLedger
  import opened LitePlan
  import opened LitePublish
  import opened LiteScan
  import opened LiteState

  /** What a pass is told about a stream: escalation allowed, its copy's bandwidth, whether a start succeeds. */
  datatype Given = Given(allowed: bool, copyBps: nat, startOk: bool)

  class Scheduler {
    const fanout: nat
    var streams: seq<Stream>
    var plans: seq<Plan>
    var counter: nat
    var lite: bool
    ghost var clock: int
    ghost var settled: bool            // a pass was made since AVB Lite was entered
    ghost var lines: seq<seq<nat>>     // tickets in line, as the last pass left them
    ghost var lastBook: Book           // and the book it closed
    ghost var lastBudget: nat
    ghost var log: seq<Declaration>

    ghost predicate Shown()
      reads this
    {
      && |plans| == |streams|
      && (forall i :: 0 <= i < |streams| ==> PlacesShown(streams[i], plans[i], fanout))
      && Disjoint(streams) && AllUpTo(streams, counter)
    }

    lemma ShownFits()
      requires Shown()
      ensures AllFit(streams, plans)
    {
    }

    ghost function TheBook(): Book
      requires Shown()
      reads this
    {
      ShownFits();
      BookOf(streams, plans, fanout)
    }

    ghost predicate Valid()
      reads this
    {
      && fanout >= 1 && |lines| == |lastBook| == |streams|
      && Disjoint(streams) && AllUpTo(streams, counter)
      && (forall i :: 0 <= i < |streams| ==> Kept(streams[i], lines[i], lastBook[i], fanout, clock))
      && Total(lastBook) <= lastBudget && LinesUpTo(lines, counter)
      && (forall i :: 0 <= i < |streams| ==> OnTheWire(streams[i], i, log, lite, settled))
      && WireLaw(log)
    }

    constructor (streams: seq<Stream>, fanout: nat)
      requires fanout >= 1
      requires forall i :: 0 <= i < |streams| ==> streams[i] == Stream([], false, false, false, 0, 0, false, [])
      ensures Valid() && !lite && this.streams == streams && this.fanout == fanout && log == [] && clock == 0
    {
      this.streams, this.fanout, plans, counter, lite := streams, fanout, [], 0, false;
      clock, settled, lastBudget, log := 0, false, 0, [];
      lines := seq(|streams|, _ => []);
      lastBook := seq(|streams|, _ => Account(0, []));
      new;
      assert forall i, k :: !At(lastBook, i, k);
      NothingHeld(lastBook);
    }

    // ---- Planning ----------------------------------------------------------

    method PlanAll(now: int, given: seq<Given>)
      requires fanout >= 1 && |given| == |streams|
      requires Disjoint(streams) && AllUpTo(streams, counter)
      requires forall i :: 0 <= i < |streams| ==> Plannable(streams[i])
      modifies this`streams, this`plans, this`counter
      ensures Shown() && counter >= old(counter) && |streams| == |old(streams)|
      ensures forall i :: 0 <= i < |streams| ==>
          && Planned(old(streams)[i], streams[i], plans[i], now, old(counter), counter, fanout)
          && plans[i].escalation == given[i].allowed && plans[i].copyBps == given[i].copyBps
    {
      hide Planned, PlacesShown, Disjoint, AllUpTo, Plannable;
      ghost var was, base := streams, counter;
      plans := [];
      var i := 0;
      while i < |streams|
        invariant 0 <= i <= |streams| == |was| && |plans| == i && counter >= base
        invariant Disjoint(streams) && AllUpTo(streams, counter)
        invariant forall l :: i <= l < |streams| ==> streams[l] == was[l]
        invariant forall l :: 0 <= l < i ==>
            && Planned(was[l], streams[l], plans[l], now, base, counter, fanout)
            && PlacesShown(streams[l], plans[l], fanout)
            && plans[l].escalation == given[l].allowed && plans[l].copyBps == given[l].copyBps
      {
        PlannableIs(streams, i, counter);
        var t, plan, last := PlanStream(streams[i], now, counter, given[i].allowed, given[i].copyBps, fanout);
        PlannedStaysDisjoint(streams, i, t, plan, now, counter, last, fanout);
        PlannedUpTo(streams[i], t, plan, now, counter, last, fanout);
        PlanShows(streams[i], t, plan, now, counter, last, fanout);
        PlannedWiden(streams[i], t, plan, now, counter, last, base, last, fanout);
        forall l | 0 <= l < i
          ensures Planned(was[l], streams[l], plans[l], now, base, last, fanout)
        {
          PlannedWiden(was[l], streams[l], plans[l], now, base, counter, base, last, fanout);
        }
        streams, plans, counter := streams[i := t], plans + [plan], last;
        i := i + 1;
      }
    }

    /** Gives or takes the place of one copy, in the row or the stream that keeps it. */
    method SetPlace(i: int, k: int, held: bool)
      requires Shown() && At(TheBook(), i, k)
      modifies this`streams
      ensures Shown() && TheBook() == SetHeld(old(TheBook()), i, k, held)
      ensures SameButPlaces(old(streams), streams)
    {
      ShownFits();
      SetPlaceKeeps(streams, plans, fanout, counter, i, k, held);
      ghost var after := streams[i := WithPlace(streams[i], plans[i], k, held)];
      var s := streams[i];
      if s.txMulticast {
        s := s.(multicastAdmitted := held);
      } else {
        var j := plans[i].order[k];
        s := s.(rows := s.rows[j := s.rows[j].(admitted := held)]);
      }
      assert s == WithPlace(streams[i], plans[i], k, held);
      hide PlacesShown, Disjoint, AllUpTo, SameButPlaces, WithPlace, BookOf;
      streams := streams[i := s];
      assert streams == after;
    }

    /** Over budget: the most recently admitted copies go. */
    method ReleaseNewest(committed: nat, budget: nat) returns (rest: nat, ghost cut: int)
      requires Shown() && committed == Total(TheBook())
      modifies this`streams
      ensures Shown() && SameButPlaces(old(streams), streams)
      ensures IsReleased(old(TheBook()), TheBook(), budget, cut) && rest == Total(TheBook())
    {
      hide Total, SameButPlaces;
      ghost var start, was := TheBook(), streams;
      ShownFits();
      BookIsDistinct(streams, plans, fanout);
      TicketsInBookUpTo(streams, plans, fanout, counter);
      rest, cut := committed, counter;
      ReleaseStarts(start, budget, counter);
      SamePlacesRefl(streams);
      while rest > budget
        invariant Shown() && SameButPlaces(was, streams)
        invariant Releasing(start, TheBook(), budget, cut) && rest == Total(TheBook())
        decreases cut
      {
        ShownFits();
        var book := BookOf(streams, plans, fanout);
        var found, i, k := FindNewest(book);
        if !found {
          NothingHeld(book);
          assert false;
        }
        ReleaseGoesOn(start, book, budget, cut, i, k);
        TotalAfter(book, i, k, false);
        cut := TicketAt(book, i, k) as int - 1;
        rest := rest - book[i].bps;
        ghost var mid := streams;
        SetPlace(i, k, false);
        SamePlacesTrans(was, mid, streams);
      }
    }

    /** Room in the budget: waiting copies are admitted, the earliest that fits first. */
    method AdmitWaiting(committed: nat, budget: nat)
      requires Shown() && committed == Total(TheBook()) <= budget
      modifies this`streams
      ensures Shown() && SameButPlaces(old(streams), streams)
      ensures Distinct(old(TheBook()))
      ensures TheBook() == AdmitAll(old(TheBook()), FirstFit(Waiting(old(TheBook())), committed, budget))
      ensures Total(TheBook()) <= budget && NobodyFits(TheBook(), Total(TheBook()), budget)
    {
      hide Total, SameButPlaces, FirstFit, Waiting, AdmitAll, Distinct;
      ghost var start, was := TheBook(), streams;
      ShownFits();
      BookIsDistinct(streams, plans, fanout);
      PassStarts(start, budget);
      SamePlacesRefl(streams);
      var total, more := committed, true;
      ghost var rest := Waiting(start);
      while more
        invariant Shown() && SameButPlaces(was, streams)
        invariant InPass(start, budget, TheBook(), rest) && total == Total(TheBook()) <= budget
        invariant !more ==> NobodyFits(TheBook(), total, budget)
        decreases |rest.Keys|, more
      {
        ShownFits();
        var book := BookOf(streams, plans, fanout);
        var found, i, k := FindEarliest(book, total, budget);
        if found {
          PassGoesOn(start, budget, book, rest, i, k);
          LaterIsFewer(rest, TicketAt(book, i, k));
          TotalAfter(book, i, k, true);
          rest := map u: nat | u in rest && u > TicketAt(book, i, k) :: rest[u];
          total := total + book[i].bps;
          ghost var mid := streams;
          SetPlace(i, k, true);
          SamePlacesTrans(was, mid, streams);
        } else {
          more := false;
        }
      }
      PassEnds(start, budget, TheBook(), rest);
    }

    /** Shares out the egress budget: see the ledger for what each phase must leave. */
    method AdmitCopies(linkMbps: nat) returns (ghost released: Book, ghost cut: int)
      requires Shown()
      modifies this`streams
      ensures Shown() && SameButPlaces(old(streams), streams)
      ensures IsReleased(old(TheBook()), released, Budget(linkMbps), cut) && Distinct(released)
      ensures TheBook() == AdmitAll(released, FirstFit(Waiting(released), Total(released), Budget(linkMbps)))
      ensures Total(TheBook()) <= Budget(linkMbps) && NobodyFits(TheBook(), Total(TheBook()), Budget(linkMbps))
    {
      hide Total, SameButPlaces, FirstFit, Waiting, AdmitAll, Distinct, IsReleased, NobodyFits;
      var budget := linkMbps * 1_000_000 * 3 / 4;
      ghost var was := streams;
      ShownFits();
      var committed := Committed(BookOf(streams, plans, fanout));
      committed, cut := ReleaseNewest(committed, budget);
      released := TheBook();
      ReleasedFits(was, plans, fanout, released, budget, cut);
      ghost var mid := streams;
      AdmitWaiting(committed, budget);
      SamePlacesTrans(was, mid, streams);
    }

    // ---- Publishing --------------------------------------------------------

    method PublishAll(now: int, given: seq<Given>)
      returns (refusals: seq<seq<(int, Code)>>, publications: seq<seq<seq<int>>>)
      requires |plans| == |given| == |streams|
      requires forall i :: 0 <= i < |streams| ==> PlacesShown(streams[i], plans[i], fanout)
      modifies this`streams, this`log
      ensures |streams| == |refusals| == |publications| == |old(streams)|
      ensures forall i :: 0 <= i < |streams| ==>
          PublishedAs(old(streams)[i], streams[i], plans[i], fanout, now, given[i].startOk, refusals[i])
      ensures log == old(log) + Declarations(streams, plans, now, |streams|)
    {
      hide Published, Refusals, PlacesShown, PublishedAs, Ascending, Declarations;
      DeclarationsNone(streams, plans, now);
      ghost var was, start := streams, log;
      refusals, publications := [], [];
      var i := 0;
      while i < |streams|
        invariant 0 <= i <= |streams| == |was| && |refusals| == |publications| == i
        invariant forall l :: i <= l < |streams| ==> streams[l] == was[l]
        invariant forall l :: 0 <= l < i ==>
            PublishedAs(was[l], streams[l], plans[l], fanout, now, given[l].startOk, refusals[l])
        invariant log == start + Declarations(streams, plans, now, i)
      {
        ShownAscends(streams[i], plans[i], fanout);
        var t, refused, published := PublishStream(streams[i], plans[i], fanout, now, given[i].startOk);
        IsPublishedAs(streams[i], t, plans[i], fanout, now, given[i].startOk, refused);
        DeclarationsOfOthers(streams, plans, now, i, t);
        DeclarationsOne(streams[i := t], plans, now, i);
        streams := streams[i := t];
        refusals, publications := refusals + [refused], publications + [published];
        if plans[i].declarationChanged {
          log := log + [Declare(t, i, now, false)];
        }
        i := i + 1;
      }
    }

    // ---- One pass ----------------------------------------------------------

    /**
     One pass over all streams.  Ghost results: the streams as planned and as
     admitted, what the release left, and where it cut.
     */
    method Update(now: int, linkMbps: nat, given: seq<Given>)
      returns (refusals: seq<seq<(int, Code)>>, publications: seq<seq<seq<int>>>,
               ghost planned: seq<Stream>, ghost admitted: seq<Stream>, ghost released: Book, ghost cut: int)
      requires Valid() && lite && clock <= now && |given| == |streams|
      modifies this
      ensures Valid() && lite && settled && clock == now && Shown()
      ensures |streams| == |planned| == |admitted| == |refusals| == |old(streams)| && counter >= old(counter)
      // Each stream in turn: planned, admitted, published.
      ensures forall i :: 0 <= i < |streams| ==>
          && Passed(old(streams)[i], planned[i], admitted[i], streams[i], plans[i], now, old(counter), counter, fanout,
                    given[i], refusals[i])
          && plans[i].escalation == given[i].allowed && plans[i].copyBps == given[i].copyBps
      // What each is owed, by its rows before and after: ageing, tickets, transport, refusals, service.
      ensures forall i :: 0 <= i < |streams| ==>
          Owed(old(streams)[i], streams[i], now, old(counter), counter, fanout, given[i].allowed, given[i].startOk,
               refusals[i])
      ensures forall i, j :: 0 <= i < |streams| && 0 <= j < |streams[i].rows| ==> now - streams[i].rows[j].lastSeen <= IDLE
      // A stream that runs goes where its mailbox says.
      ensures forall i :: 0 <= i < |streams| && streams[i].streaming ==> MailboxExact(streams[i], plans[i], fanout)
      // The budget, shared out across all of them.
      ensures AllFit(planned, plans)
      ensures IsReleased(BookOf(planned, plans, fanout), released, Budget(linkMbps), cut) && Distinct(released)
      ensures TheBook() == AdmitAll(released, FirstFit(Waiting(released), Total(released), Budget(linkMbps)))
      ensures lastBook == TheBook() && Total(lastBook) <= lastBudget == Budget(linkMbps)
      ensures NobodyFits(lastBook, Total(lastBook), lastBudget)
      ensures lastBudget == linkMbps * 750_000
      ensures log == old(log) + Declarations(streams, plans, now, |streams|)
      // Nobody who goes on asking moves back in line.
      ensures forall i :: 0 <= i < |streams| ==> NoneOvertaken(old(lines)[i], lines[i])
      // Who was admitted stays so, unless the link shrinks, a copy grows or its own stream goes multicast.
      ensures old(lastBudget) <= Budget(linkMbps) ==>
          (forall i :: 0 <= i < |streams| ==> given[i].copyBps <= old(lastBook)[i].bps) ==>
          Retained(old(streams), streams, lines)
    {
      hide NoneOvertaken, RetainedIn, LineOf, MailboxExact, Owed;
      hide PlacesShown, Disjoint, AllUpTo, Kept, Passed, WireLaw, DeclaredSince, Fits, BookOf, LinesOf,
           IsReleased, Total, AdmitAll, FirstFit, Waiting, NobodyFits, Distinct, Flows, Declarations, LinesUpTo;
      ghost var was, base, wasLines, wasBook, wasClock, wasLog := streams, counter, lines, lastBook, clock, log;
      forall i | 0 <= i < |streams| && streams[i].declaredMulticast
        ensures DeclaredSince(log, i, streams[i].multicastAt - JOIN_TIME)
      {
        assert OnTheWire(streams[i], i, log, lite, settled);
      }
      refusals, publications, planned, admitted, released, cut := RunPass(now, linkMbps, given);
      AllPaid(was, planned, admitted, streams, plans, now, base, counter, fanout, given, refusals);
      WholePass(was, wasLines, wasBook, wasClock, planned, admitted, streams, plans, now, base, counter, fanout, given,
                refusals, wasLog);
      PassOvertakesNobody(was, wasLines, wasBook, wasClock, planned, admitted, streams, plans, now, base, counter, fanout,
                          given, refusals);
      if lastBudget <= Budget(linkMbps) && forall i :: 0 <= i < |streams| ==> plans[i].copyBps <= wasBook[i].bps {
        PassCommitsNoMore(was, wasLines, wasBook, wasClock, planned, admitted, streams, plans, now, base, counter, fanout,
                          given, refusals);
        assert SameButPlaces(planned, admitted) by {
          PassSamePlaces(was, planned, admitted, streams, plans, now, base, counter, fanout, given, refusals);
        }
        forall i | 0 <= i < |streams|
          ensures RetainedIn(was[i], streams[i], LinesOf(streams, plans)[i])
        {
          UpToOne(was, i, base);
          StreamRetains(was[i], wasLines[i], wasBook[i], wasClock, streams[i], i, planned, admitted, plans, now, base,
                        counter, fanout, given[i], refusals[i], Budget(linkMbps), released, cut,
                        FirstFit(Waiting(released), Total(released), Budget(linkMbps)));
          LinesOfAt(streams, plans, i);
        }
      }
      CloseBook(now, Budget(linkMbps));
    }

    /** Remembers what the pass left, for the next one to be measured by. */
    ghost method CloseBook(now: int, budget: nat)
      requires fanout >= 1 && lite && |plans| == |streams| && AllFit(streams, plans)
      requires forall i :: 0 <= i < |streams| ==> PlacesShown(streams[i], plans[i], fanout)
      requires Disjoint(streams) && AllUpTo(streams, counter) && LinesUpTo(LinesOf(streams, plans), counter)
      requires forall i :: 0 <= i < |streams| ==>
          Kept(streams[i], LinesOf(streams, plans)[i], BookOf(streams, plans, fanout)[i], fanout, now)
      requires forall i :: 0 <= i < |streams| ==> Flows(streams[i])
      requires forall i :: 0 <= i < |streams| && streams[i].declaredMulticast ==>
          DeclaredSince(log, i, streams[i].multicastAt - JOIN_TIME)
      requires WireLaw(log) && Total(BookOf(streams, plans, fanout)) <= budget
      modifies this`clock, this`settled, this`lastBudget, this`lines, this`lastBook
      ensures Valid() && settled && clock == now && Shown()
      ensures lastBook == TheBook() == BookOf(streams, plans, fanout) && lastBudget == budget
      ensures lines == LinesOf(streams, plans)
    {
      hide PlacesShown, Disjoint, AllUpTo, Kept, WireLaw, DeclaredSince, Fits, Total, Flows, LinesUpTo;
      clock, settled, lastBudget := now, true, budget;
      lines := LinesOf(streams, plans);
      lastBook := BookOf(streams, plans, fanout);
    }

    /** Plans every stream, shares out the budget, publishes every stream. */
    method RunPass(now: int, linkMbps: nat, given: seq<Given>)
      returns (refusals: seq<seq<(int, Code)>>, publications: seq<seq<seq<int>>>,
               ghost planned: seq<Stream>, ghost admitted: seq<Stream>, ghost released: Book, ghost cut: int)
      requires fanout >= 1 && |lines| == |lastBook| == |streams| == |given|
      requires Disjoint(streams) && AllUpTo(streams, counter)
      requires forall i :: 0 <= i < |streams| ==> Kept(streams[i], lines[i], lastBook[i], fanout, clock)
      modifies this`streams, this`plans, this`counter, this`log
      ensures |streams| == |planned| == |admitted| == |refusals| == |plans| == |old(streams)| && counter >= old(counter)
      ensures forall i :: 0 <= i < |streams| ==>
          && Passed(old(streams)[i], planned[i], admitted[i], streams[i], plans[i], now, old(counter), counter, fanout,
                    given[i], refusals[i])
          && plans[i].escalation == given[i].allowed && plans[i].copyBps == given[i].copyBps
      ensures AllFit(planned, plans) && AllFit(admitted, plans) && Disjoint(admitted) && AllUpTo(admitted, counter)
      ensures AllUpTo(planned, counter) && forall i :: 0 <= i < |planned| ==> PlacesShown(planned[i], plans[i], fanout)
      ensures IsReleased(BookOf(planned, plans, fanout), released, Budget(linkMbps), cut) && Distinct(released)
      ensures BookOf(admitted, plans, fanout)
           == AdmitAll(released, FirstFit(Waiting(released), Total(released), Budget(linkMbps)))
      ensures var book := BookOf(admitted, plans, fanout);
          Total(book) <= Budget(linkMbps) && NobodyFits(book, Total(book), Budget(linkMbps))
      ensures log == old(log) + Declarations(streams, plans, now, |streams|)
    {
      hide Planned, PlacesShown, Disjoint, AllUpTo, Kept, SameButPlace, PublishedAs, Fits,
           BookOf, IsReleased, Total, AdmitAll, FirstFit, Waiting, NobodyFits, Distinct, Declarations;
      forall i | 0 <= i < |streams|
        ensures Plannable(streams[i])
      {
        KeptIsPlannable(streams[i], lines[i], lastBook[i], fanout, clock);
      }
      hide Plannable;
      PlanAll(now, given);
      planned := streams;
      ShownFits();
      released, cut := AdmitCopies(linkMbps);
      ShownFits();
      admitted := streams;
      refusals, publications := PublishAll(now, given);
    }

    // ---- Between passes ----------------------------------------------------

    /** Listeners come, go, refresh and ask, and ACMP may stop a stream. */
    method Disturb(after: seq<Stream>)
      requires Valid() && |after| == |streams|
      requires forall i :: 0 <= i < |streams| ==> Disturbed(streams[i], after[i], lite)
      modifies this`streams
      ensures Valid() && streams == after
    {
      hide Kept, Disturbed, WireLaw, OnTheWire, Total, TicketsUpTo, TicketsDistinct, LinesUpTo, Disjoint, AllUpTo;
      forall i | 0 <= i < |streams|
        ensures Kept(after[i], lines[i], lastBook[i], fanout, clock)
        ensures forall u :: HasTicket(after[i].rows, u) ==> HasTicket(streams[i].rows, u)
        ensures OnTheWire(after[i], i, log, lite, settled)
      {
        DisturbedKeeps(streams[i], after[i], lines[i], lastBook[i], fanout, clock, lite);
        DisturbedOnTheWire(streams[i], after[i], i, log, lite, settled);
      }
      TicketsStayDisjoint(streams, after, counter);
      streams := after;
    }

    /** The periodic declaration of a stream. */
    method Redeclare(i: nat, now: int)
      requires Valid() && lite && settled && i < |streams| && clock <= now
      modifies this`log
      ensures Valid() && log == old(log) + [Declare(streams[i], i, now, false)]
      ensures !streams[i].declaredMulticast && streams[i].streaming ==> streams[i].mailbox != []
    {
      assert OnTheWire(streams[i], i, log, lite, settled) && Kept(streams[i], lines[i], lastBook[i], fanout, clock);
      hide Kept, WireLaw, DeclaredSince, Total, Disjoint, AllUpTo, LinesUpTo;
      OneDeclaration(log, Declare(streams[i], i, now, false));
      forall l | 0 <= l < |streams|
        ensures OnTheWire(streams[l], l, log + [Declare(streams[i], i, now, false)], lite, settled)
      {
        assert OnTheWire(streams[l], l, log, lite, settled);
      }
      log := log + [Declare(streams[i], i, now, false)];
    }

    // ---- Entering and leaving ----------------------------------------------

    /** Outside AVB Lite every stream goes to its multicast address. */
    method PassOutside(now: int)
      requires Valid() && !lite && clock <= now
      modifies this`streams, this`clock
      ensures Valid() && clock == now && |streams| == |old(streams)|
      ensures forall i :: 0 <= i < |streams| ==> streams[i] == old(streams)[i].(mailbox := [])
    {
      hide Kept, Total, WireLaw, DeclaredSince, LinesUpTo, Disjoint, AllUpTo;
      var after := WithoutAddresses(streams);
      FlagsAside(streams, after, lines, lastBook, fanout, clock, now, counter);
      forall i | 0 <= i < |streams|
        ensures OnTheWire(after[i], i, log, lite, settled)
      {
        assert OnTheWire(streams[i], i, log, lite, settled);
      }
      streams, clock := after, now;
    }

    /**
     AVB Lite is entered: zero is declared for every stream at once, its frames
     still going where they went until the next pass.
     */
    method EnterLite(now: int)
      requires Valid() && !lite && clock <= now
      modifies this
      ensures Valid() && lite && !settled && clock == now && |streams| == |old(streams)|
      ensures forall i :: 0 <= i < |streams| ==> streams[i] == Unflagged(old(streams)[i])
      ensures log == old(log) + EntryDeclarations(streams, now)
      // So the zero address is declared over multicast frames exactly if some went out.
      ensures (exists n :: |old(log)| <= n < |log| && log[n].flowing)
         <==> (exists i :: 0 <= i < |streams| && streams[i].streaming && streams[i].mailbox == [])
    {
      hide Kept, Total, WireLaw, DeclaredSince, LinesUpTo, Disjoint, AllUpTo;
      var after := WithoutFlags(streams);
      FlagsAside(streams, after, lines, lastBook, fanout, clock, now, counter);
      EntryKeepsTheLaw(log, after, now);
      ghost var start := log;
      log := log + EntryDeclarations(after, now);
      streams, clock, lite, settled := after, now, true, false;
      forall i | 0 <= i < |streams| && streams[i].streaming && streams[i].mailbox == []
        ensures exists n :: |start| <= n < |log| && log[n].flowing
      {
        assert log[|start| + i].flowing;
      }
    }

    /** AVB Lite is left: everything is multicast again. */
    method LeaveLite(now: int)
      requires Valid() && lite && clock <= now
      modifies this`streams, this`lite, this`clock
      ensures Valid() && !lite && |streams| == |old(streams)|
      ensures forall i :: 0 <= i < |streams| ==> streams[i] == Unflagged(old(streams)[i])
    {
      hide Kept, Total, WireLaw, DeclaredSince, LinesUpTo, Disjoint, AllUpTo;
      var after := WithoutFlags(streams);
      FlagsAside(streams, after, lines, lastBook, fanout, clock, now, counter);
      streams, clock, lite := after, now, false;
    }

    // ---- What holds in every reachable state ------------------------------

    /** Frames go multicast only if the address was declared JoinTime earlier, and ever since. */
    lemma MulticastOnlyAfterJoinTime(i: nat)
      requires Valid() && lite && settled && i < |streams|
      requires streams[i].streaming && streams[i].mailbox == []
      ensures exists at: int :: at + JOIN_TIME <= clock && DeclaredSince(log, i, at)
    {
      assert OnTheWire(streams[i], i, log, lite, settled) && Kept(streams[i], lines[i], lastBook[i], fanout, clock);
      var at := streams[i].multicastAt - JOIN_TIME;
      assert DeclaredSince(log, i, at);
    }

    /** A stream's unicast and multicast copies never both hold a place. */
    lemma OneKindOfCopyHoldsPlaces(i: nat, j: nat)
      requires Valid() && i < |streams| && j < |streams[i].rows|
      ensures !(streams[i].multicastAdmitted && streams[i].rows[j].admitted)
    {
      assert Kept(streams[i], lines[i], lastBook[i], fanout, clock);
    }
  }

  lemma TicketsStayDisjoint(a: seq<Stream>, b: seq<Stream>, counter: nat)
    requires |a| == |b| && Disjoint(a) && AllUpTo(a, counter)
    requires forall i :: 0 <= i < |a| ==> forall u :: HasTicket(b[i].rows, u) ==> HasTicket(a[i].rows, u)
    ensures Disjoint(b) && AllUpTo(b, counter)
  {
    forall i | 0 <= i < |b|
      ensures TicketsUpTo(b[i].rows, counter)
    {
      forall j | 0 <= j < |b[i].rows| && b[i].rows[j].order != 0
        ensures b[i].rows[j].order <= counter
      {
        var u := b[i].rows[j].order;
        assert TicketAtRow(b[i].rows, j, u);
        NoTicketsBeyond(a[i].rows, counter, u);
      }
    }
  }

  /** What a stream declares, and where its frames go. */
  ghost predicate OnTheWire(s: Stream, i: nat, log: seq<Declaration>, lite: bool, settled: bool) {
    && (s.declaredMulticast ==> lite && DeclaredSince(log, i, s.multicastAt - JOIN_TIME))
    && (lite && settled ==> Flows(s))
  }

  lemma DisturbedOnTheWire(s: Stream, t: Stream, i: nat, log: seq<Declaration>, lite: bool, settled: bool)
    requires OnTheWire(s, i, log, lite, settled) && Disturbed(s, t, lite)
    ensures OnTheWire(t, i, log, lite, settled)
  {
  }

  function Unflagged(s: Stream): Stream {
    s.(declaredMulticast := false, txMulticast := false, multicastAdmitted := false)
  }

  method WithoutFlags(streams: seq<Stream>) returns (r: seq<Stream>)
    ensures |r| == |streams| && forall i :: 0 <= i < |r| ==> r[i] == Unflagged(streams[i])
  {
    r := streams;
    var i := 0;
    while i < |streams|
      invariant 0 <= i <= |streams| == |r|
      invariant forall l :: 0 <= l < |r| ==> r[l] == if l < i then Unflagged(streams[l]) else streams[l]
    {
      r := r[i := r[i].(declaredMulticast := false, txMulticast := false, multicastAdmitted := false)];
      i := i + 1;
    }
  }

  method WithoutAddresses(streams: seq<Stream>) returns (r: seq<Stream>)
    ensures |r| == |streams| && forall i :: 0 <= i < |r| ==> r[i] == streams[i].(mailbox := [])
  {
    r := streams;
    var i := 0;
    while i < |streams|
      invariant 0 <= i <= |streams| == |r|
      invariant forall l :: 0 <= l < |r| ==> r[l] == if l < i then streams[l].(mailbox := []) else streams[l]
    {
      if r[i].mailbox != [] {
        r := r[i := r[i].(mailbox := [])];
      }
      i := i + 1;
    }
  }

  /** Entering AVB Lite declares every stream, in order. */
  function EntryDeclarations(streams: seq<Stream>, now: int): (ds: seq<Declaration>)
    ensures |ds| == |streams|
  {
    seq(|streams|, i requires 0 <= i < |streams| => Declare(streams[i], i, now, true))
  }

  lemma EntryKeepsTheLaw(log: seq<Declaration>, streams: seq<Stream>, now: int)
    requires WireLaw(log)
    ensures WireLaw(log + EntryDeclarations(streams, now))
  {
    var after := log + EntryDeclarations(streams, now);
    forall n | 0 <= n < |after| && !after[n].multicast && after[n].flowing
      ensures after[n].entering
    {
      if n < |log| {
        assert after[n] == log[n];
      }
    }
  }

  predicate SameOrUnflagged(a: Stream, b: Stream) {
    b.rows == a.rows && (b == Unflagged(a) || b == a.(mailbox := b.mailbox))
  }

  /** Flags cleared or mailboxes changed, the rows are kept as before. */
  lemma FlagsAside(a: seq<Stream>, b: seq<Stream>, lines: seq<seq<nat>>, book: Book, fanout: nat, clock: int, now: int,
                   counter: nat)
    requires |a| == |b| == |lines| == |book| && clock <= now && Disjoint(a) && AllUpTo(a, counter)
    requires forall i :: 0 <= i < |a| ==> Kept(a[i], lines[i], book[i], fanout, clock)
    requires forall i :: 0 <= i < |a| ==> SameOrUnflagged(a[i], b[i])
    ensures Disjoint(b) && AllUpTo(b, counter)
    ensures forall i :: 0 <= i < |b| ==> Kept(b[i], lines[i], book[i], fanout, now)
  {
    TicketsStayDisjoint(a, b, counter);
    forall i | 0 <= i < |b|
      ensures Kept(b[i], lines[i], book[i], fanout, now)
    {
      FlagAside(a[i], b[i], lines[i], book[i], fanout, clock, now);
    }
  }

  lemma FlagAside(a: Stream, b: Stream, line: seq<nat>, account: Account, fanout: nat, clock: int, now: int)
    requires Kept(a, line, account, fanout, clock) && clock <= now && SameOrUnflagged(a, b)
    ensures Kept(b, line, account, fanout, now)
  {
  }

  ghost predicate LinesUpTo(lines: seq<seq<nat>>, counter: nat) {
    forall i, k :: 0 <= i < |lines| && 0 <= k < |lines[i]| ==> lines[i][k] <= counter
  }

  function LinesOf(streams: seq<Stream>, plans: seq<Plan>): (lines: seq<seq<nat>>)
    requires AllFit(streams, plans)
    ensures |lines| == |streams|
  {
    seq(|streams|, i requires 0 <= i < |streams| => LineOf(streams[i], plans[i]))
  }

  /** What one pass did to one stream. */
  ghost predicate Passed(s0: Stream, s1: Stream, s2: Stream, s3: Stream, plan: Plan, now: int, base: nat, last: nat,
                         fanout: nat, given: Given, refusals: seq<(int, Code)>)
  {
    && Planned(s0, s1, plan, now, base, last, fanout)
    && SameButPlace(s1, s2)
    && PublishedAs(s2, s3, plan, fanout, now, given.startOk, refusals)
  }

  lemma OneThroughThePass(s0: Stream, line: seq<nat>, account: Account, clock: int, s1: Stream, s2: Stream, s3: Stream,
                          plan: Plan, now: int, base: nat, last: nat, fanout: nat, given: Given, refusals: seq<(int, Code)>)
    requires Kept(s0, line, account, fanout, clock) && clock <= now
    requires Passed(s0, s1, s2, s3, plan, now, base, last, fanout, given, refusals)
    ensures PlacesShown(s3, plan, fanout) && PlacesShown(s2, plan, fanout) && Fits(s3, plan) && Fits(s2, plan)
    ensures Ascending(s3.rows, plan.order)
    ensures AccountOf(s3, plan, fanout) == AccountOf(s2, plan, fanout)
    ensures Kept(s3, LineOf(s3, plan), AccountOf(s3, plan, fanout), fanout, now)
    ensures Flows(s3) && (s3.txMulticast ==> s3.declaredMulticast)
    ensures s3.streaming ==> MailboxExact(s3, plan, fanout)
    ensures s3.declaredMulticast ==>
        if plan.declarationChanged then s3.multicastAt == now + JOIN_TIME
        else s0.declaredMulticast && s3.multicastAt == s0.multicastAt
    ensures |s3.rows| == |s2.rows| && forall j :: 0 <= j < |s2.rows| ==> s3.rows[j].order == s2.rows[j].order
  {
    ThroughThePass(s0, line, account, clock, s1, s2, s3, plan, now, base, last, fanout, given.startOk);
    PublishedSame(s2, s3, plan, fanout, now, given.startOk);
  }

  /** Every stream is paid what the pass owes it. */
  lemma AllPaid(was: seq<Stream>, planned: seq<Stream>, admitted: seq<Stream>, streams: seq<Stream>, plans: seq<Plan>,
                now: int, base: nat, counter: nat, fanout: nat, given: seq<Given>, refusals: seq<seq<(int, Code)>>)
    requires |was| == |planned| == |admitted| == |streams| == |plans| == |given| == |refusals|
    requires forall i :: 0 <= i < |was| ==>
        Passed(was[i], planned[i], admitted[i], streams[i], plans[i], now, base, counter, fanout, given[i], refusals[i])
    requires forall i :: 0 <= i < |was| ==> plans[i].escalation == given[i].allowed
    ensures forall i :: 0 <= i < |was| ==>
        Owed(was[i], streams[i], now, base, counter, fanout, given[i].allowed, given[i].startOk, refusals[i])
    ensures forall i, j :: 0 <= i < |streams| && 0 <= j < |streams[i].rows| ==> now - streams[i].rows[j].lastSeen <= IDLE
  {
    hide Planned, SameButPlace, PlacesShown, Published, Owed, Refusals, Passed;
    forall i | 0 <= i < |was|
      ensures Owed(was[i], streams[i], now, base, counter, fanout, given[i].allowed, given[i].startOk, refusals[i])
      ensures forall j :: 0 <= j < |streams[i].rows| ==> now - streams[i].rows[j].lastSeen <= IDLE
    {
      OnePaid(was[i], planned[i], admitted[i], streams[i], plans[i], now, base, counter, fanout, given[i], refusals[i]);
      NobodyIsIdle(was[i], streams[i], now, base, counter, fanout, given[i].allowed, given[i].startOk, refusals[i]);
    }
  }

  lemma OnePaid(s0: Stream, s1: Stream, s2: Stream, s3: Stream, plan: Plan, now: int, base: nat, last: nat,
                fanout: nat, given: Given, refusals: seq<(int, Code)>)
    requires Passed(s0, s1, s2, s3, plan, now, base, last, fanout, given, refusals) && plan.escalation == given.allowed
    ensures Owed(s0, s3, now, base, last, fanout, given.allowed, given.startOk, refusals)
  {
    hide Planned, SameButPlace, AnsweredUpTo, Owed, Refusals;
    PassPays(s0, s1, s2, s3, plan, now, base, last, fanout, given.startOk);
  }

  lemma WholePass(was: seq<Stream>, lines: seq<seq<nat>>, book: Book, clock: int,
                  planned: seq<Stream>, admitted: seq<Stream>, streams: seq<Stream>, plans: seq<Plan>,
                  now: int, base: nat, counter: nat, fanout: nat, given: seq<Given>,
                  refusals: seq<seq<(int, Code)>>, log: seq<Declaration>)
    requires |was| == |lines| == |book| == |planned| == |admitted| == |streams| == |plans| == |given| == |refusals|
    requires clock <= now && WireLaw(log) && Disjoint(admitted) && AllUpTo(admitted, counter)
    requires forall i :: 0 <= i < |was| ==> Kept(was[i], lines[i], book[i], fanout, clock)
    requires forall i :: 0 <= i < |was| && was[i].declaredMulticast ==>
        DeclaredSince(log, i, was[i].multicastAt - JOIN_TIME)
    requires forall i :: 0 <= i < |was| ==>
        Passed(was[i], planned[i], admitted[i], streams[i], plans[i], now, base, counter, fanout, given[i], refusals[i])
    ensures forall i :: 0 <= i < |streams| ==> PlacesShown(streams[i], plans[i], fanout)
    ensures AllFit(streams, plans) && AllFit(admitted, plans)
    ensures BookOf(streams, plans, fanout) == BookOf(admitted, plans, fanout)
    ensures Disjoint(streams) && AllUpTo(streams, counter) && LinesUpTo(LinesOf(streams, plans), counter)
    ensures forall i :: 0 <= i < |streams| ==>
        Kept(streams[i], LinesOf(streams, plans)[i], BookOf(streams, plans, fanout)[i], fanout, now)
    ensures forall i :: 0 <= i < |streams| ==> Flows(streams[i])
    ensures forall i :: 0 <= i < |streams| && streams[i].streaming ==> MailboxExact(streams[i], plans[i], fanout)
    ensures var after := log + Declarations(streams, plans, now, |streams|);
        && WireLaw(after)
        && forall i :: 0 <= i < |streams| && streams[i].declaredMulticast ==>
             DeclaredSince(after, i, streams[i].multicastAt - JOIN_TIME)
  {
    hide Passed, Kept, PlacesShown, AccountOf, LineOf, Flows, WireLaw, DeclaredSince, Declarations, Disjoint, AllUpTo, Fits,
         MailboxExact;
    forall i | 0 <= i < |streams|
      ensures PlacesShown(streams[i], plans[i], fanout) && Fits(streams[i], plans[i]) && Fits(admitted[i], plans[i])
      ensures Ascending(streams[i].rows, plans[i].order)
      ensures AccountOf(streams[i], plans[i], fanout) == AccountOf(admitted[i], plans[i], fanout)
      ensures Kept(streams[i], LineOf(streams[i], plans[i]), AccountOf(streams[i], plans[i], fanout), fanout, now)
      ensures Flows(streams[i]) && (streams[i].txMulticast ==> streams[i].declaredMulticast)
      ensures streams[i].streaming ==> MailboxExact(streams[i], plans[i], fanout)
      ensures streams[i].declaredMulticast ==>
          if plans[i].declarationChanged then streams[i].multicastAt == now + JOIN_TIME
          else was[i].declaredMulticast && streams[i].multicastAt == was[i].multicastAt
      ensures |streams[i].rows| == |admitted[i].rows|
      ensures forall j :: 0 <= j < |admitted[i].rows| ==> streams[i].rows[j].order == admitted[i].rows[j].order
    {
      OneThroughThePass(was[i], lines[i], book[i], clock, planned[i], admitted[i], streams[i], plans[i], now, base,
                        counter, fanout, given[i], refusals[i]);
    }
    PlacesKeepTickets(admitted, streams, counter);
    LinesAreUpTo(streams, plans, counter);
    DeclarationsKeep(log, streams, plans, now, |streams|);
  }

  /** Admitted listeners that stand in line and whose stream is unicast hold their place. */
  ghost predicate Retained(was: seq<Stream>, streams: seq<Stream>, lines: seq<seq<nat>>)
    requires |was| == |streams| == |lines|
  {
    forall i :: 0 <= i < |was| ==> RetainedIn(was[i], streams[i], lines[i])
  }

  lemma LinesOfAt(streams: seq<Stream>, plans: seq<Plan>, i: nat)
    requires AllFit(streams, plans) && i < |streams|
    ensures Ascending(streams[i].rows, plans[i].order) && LinesOf(streams, plans)[i] == LineOf(streams[i], plans[i])
  {
  }

  lemma PassSamePlaces(was: seq<Stream>, planned: seq<Stream>, admitted: seq<Stream>, streams: seq<Stream>,
                       plans: seq<Plan>, now: int, base: nat, counter: nat, fanout: nat, given: seq<Given>,
                       refusals: seq<seq<(int, Code)>>)
    requires |was| == |planned| == |admitted| == |streams| == |plans| == |given| == |refusals|
    requires forall i :: 0 <= i < |was| ==>
        Passed(was[i], planned[i], admitted[i], streams[i], plans[i], now, base, counter, fanout, given[i], refusals[i])
    ensures SameButPlaces(planned, admitted)
  {
    hide Planned, SameButPlace, PublishedAs;
  }

  lemma PassOvertakesNobody(was: seq<Stream>, lines: seq<seq<nat>>, book: Book, clock: int,
                            planned: seq<Stream>, admitted: seq<Stream>, streams: seq<Stream>, plans: seq<Plan>,
                            now: int, base: nat, counter: nat, fanout: nat, given: seq<Given>,
                            refusals: seq<seq<(int, Code)>>)
    requires |was| == |lines| == |book| == |planned| == |admitted| == |streams| == |plans| == |given| == |refusals|
    requires clock <= now && LinesUpTo(lines, base) && AllFit(streams, plans)
    requires forall i :: 0 <= i < |was| ==> Kept(was[i], lines[i], book[i], fanout, clock)
    requires forall i :: 0 <= i < |was| ==>
        Passed(was[i], planned[i], admitted[i], streams[i], plans[i], now, base, counter, fanout, given[i], refusals[i])
    ensures forall i :: 0 <= i < |was| ==> NoneOvertaken(lines[i], LinesOf(streams, plans)[i])
  {
    forall i | 0 <= i < |was|
      ensures NoneOvertaken(lines[i], LinesOf(streams, plans)[i])
    {
      ThroughThePass(was[i], lines[i], book[i], clock, planned[i], admitted[i], streams[i], plans[i], now, base, counter,
                     fanout, given[i].startOk);
      LinesAdvance(was[i], lines[i], book[i], planned[i], plans[i], now, base, counter, fanout, clock);
    }
  }

  lemma PassCommitsNoMore(was: seq<Stream>, lines: seq<seq<nat>>, book: Book, clock: int,
                          planned: seq<Stream>, admitted: seq<Stream>, streams: seq<Stream>, plans: seq<Plan>,
                          now: int, base: nat, counter: nat, fanout: nat, given: seq<Given>,
                          refusals: seq<seq<(int, Code)>>)
    requires |was| == |lines| == |book| == |planned| == |admitted| == |streams| == |plans| == |given| == |refusals|
    requires AllFit(planned, plans) && AllUpTo(was, base)
    requires forall i :: 0 <= i < |was| ==> Kept(was[i], lines[i], book[i], fanout, clock)
    requires forall i :: 0 <= i < |was| ==> PlacesShown(planned[i], plans[i], fanout)
    requires forall i :: 0 <= i < |was| ==>
        Passed(was[i], planned[i], admitted[i], streams[i], plans[i], now, base, counter, fanout, given[i], refusals[i])
    requires forall i :: 0 <= i < |was| ==> plans[i].copyBps <= book[i].bps
    ensures Total(BookOf(planned, plans, fanout)) <= Total(book)
  {
    hide Kept, PlacesShown, Planned, SameButPlace, PublishedAs, Fits;
    PlanCommitsNoMore(was, lines, book, clock, planned, plans, now, base, counter, fanout);
  }

  /** The part of one stream. */
  ghost predicate RetainedIn(s: Stream, t: Stream, line: seq<nat>) {
    forall j :: 0 <= j < |s.rows| ==>
      s.rows[j].admitted && !t.txMulticast && s.rows[j].order in line ==> HoldsPlace(t.rows, s.rows[j].order)
  }

  lemma StreamRetains(s: Stream, line: seq<nat>, account: Account, clock: int, t: Stream, i: nat,
                      planned: seq<Stream>, admitted: seq<Stream>, plans: seq<Plan>, now: int, base: nat, counter: nat,
                      fanout: nat, given: Given, refusals: seq<(int, Code)>, budget: nat, released: Book, cut: int,
                      waiting: set<nat>)
    requires AllFit(planned, plans) && AllFit(admitted, plans) && AllUpTo(planned, counter)
    requires SameButPlaces(planned, admitted)
    requires IsReleased(BookOf(planned, plans, fanout), released, budget, cut)
    requires BookOf(admitted, plans, fanout) == AdmitAll(released, waiting)
    requires Total(BookOf(planned, plans, fanout)) <= budget
    requires Kept(s, line, account, fanout, clock) && TicketsUpTo(s.rows, base) && clock <= now
    requires i < |planned| && Passed(s, planned[i], admitted[i], t, plans[i], now, base, counter, fanout, given, refusals)
    ensures Ascending(t.rows, plans[i].order) && RetainedIn(s, t, LineOf(t, plans[i]))
  {
    assert |plans| == |planned| == |admitted|;
    hide IsReleased, Total, AdmitAll, BookOf, Kept, Planned, PublishedAs, AllUpTo, AllFit, SameButPlaces, Ascending;
    SamePassedLine(s, line, account, clock, planned[i], admitted[i], t, plans[i], now, base, counter, fanout, given,
                   refusals);
    hide Passed, HoldsPlace;
    LineSize(t, plans[i]);
    forall j | 0 <= j < |s.rows| && s.rows[j].admitted && !t.txMulticast && s.rows[j].order in LineOf(t, plans[i])
      ensures HoldsPlace(t.rows, s.rows[j].order)
    {
      var k :| 0 <= k < |LineOf(t, plans[i])| && LineOf(t, plans[i])[k] == s.rows[j].order;
      AdmittedStaysAdmitted(s, line, account, clock, j, k, planned, admitted, plans, i, now, base, counter, fanout,
                            budget, released, cut, waiting);
    }
  }

  lemma UpToOne(streams: seq<Stream>, i: nat, counter: nat)
    requires AllUpTo(streams, counter) && i < |streams|
    ensures TicketsUpTo(streams[i].rows, counter)
  {
  }

  lemma LineSize(s: Stream, plan: Plan)
    requires Ascending(s.rows, plan.order)
    ensures |LineOf(s, plan)| == |plan.order|
  {
  }

  lemma SamePassedLine(s0: Stream, line: seq<nat>, account: Account, clock: int, s1: Stream, s2: Stream, s3: Stream,
                       plan: Plan, now: int, base: nat, last: nat, fanout: nat, given: Given, refusals: seq<(int, Code)>)
    requires Kept(s0, line, account, fanout, clock) && clock <= now
    requires Passed(s0, s1, s2, s3, plan, now, base, last, fanout, given, refusals)
    ensures Ascending(s1.rows, plan.order) && Ascending(s3.rows, plan.order) && LineOf(s3, plan) == LineOf(s1, plan)
    ensures s1.txMulticast == s3.txMulticast
    ensures forall u :: HoldsPlace(s2.rows, u) ==> HoldsPlace(s3.rows, u)
  {
    ThroughThePass(s0, line, account, clock, s1, s2, s3, plan, now, base, last, fanout, given.startOk);
    forall u | HoldsPlace(s2.rows, u)
      ensures HoldsPlace(s3.rows, u)
    {
      PublishedHolds(s2, s3, plan, fanout, now, given.startOk, u);
    }
  }

  lemma PublishedHolds(s: Stream, t: Stream, plan: Plan, fanout: nat, now: int, startOk: bool, u: nat)
    requires PlacesShown(s, plan, fanout) && Published(s, t, plan, fanout, now, startOk) && HoldsPlace(s.rows, u)
    ensures HoldsPlace(t.rows, u)
  {
    var j :| HoldsPlaceAt(s.rows, j, u);
    assert HoldsPlaceAt(t.rows, j, u);
  }

  lemma LinesAreUpTo(streams: seq<Stream>, plans: seq<Plan>, counter: nat)
    requires AllFit(streams, plans) && AllUpTo(streams, counter)
    ensures LinesUpTo(LinesOf(streams, plans), counter)
  {
    var lines := LinesOf(streams, plans);
    forall i, k | 0 <= i < |lines| && 0 <= k < |lines[i]|
      ensures lines[i][k] <= counter
    {
      assert TicketsUpTo(streams[i].rows, counter) && Fits(streams[i], plans[i]);
    }
  }

  /** A stream as published, with the refusals sent for it. */
  ghost predicate PublishedAs(s: Stream, t: Stream, plan: Plan, fanout: nat, now: int, startOk: bool,
                              refusals: seq<(int, Code)>)
  {
    && PlacesShown(s, plan, fanout)
    && Published(s, t, plan, fanout, now, startOk)
    && refusals == Refusals(s, plan, fanout, |plan.order|)
  }

  lemma IsPublishedAs(s: Stream, t: Stream, plan: Plan, fanout: nat, now: int, startOk: bool,
                      refusals: seq<(int, Code)>)
    requires PlacesShown(s, plan, fanout) && Published(s, t, plan, fanout, now, startOk)
    requires refusals == Refusals(s, plan, fanout, |plan.order|)
    ensures PublishedAs(s, t, plan, fanout, now, startOk, refusals)
  {
  }

  lemma KeptIsPlannable(s: Stream, line: seq<nat>, account: Account, fanout: nat, clock: int)
    requires Kept(s, line, account, fanout, clock)
    ensures Plannable(s)
  {
  }

  lemma ShownAscends(s: Stream, plan: Plan, fanout: nat)
    requires PlacesShown(s, plan, fanout)
    ensures Ascending(s.rows, plan.order)
  {
  }

  lemma DeclarationsNone(streams: seq<Stream>, plans: seq<Plan>, now: int)
    requires |plans| == |streams|
    ensures Declarations(streams, plans, now, 0) == []
  {
  }

  lemma DeclarationsOne(streams: seq<Stream>, plans: seq<Plan>, now: int, i: nat)
    requires i < |streams| == |plans|
    ensures Declarations(streams, plans, now, i + 1) == Declarations(streams, plans, now, i)
              + if plans[i].declarationChanged then [Declare(streams[i], i, now, false)] else []
  {
  }

  lemma {:induction false} DeclarationsOfOthers(streams: seq<Stream>, plans: seq<Plan>, now: int, i: nat, t: Stream)
    requires i < |streams| == |plans|
    ensures Declarations(streams[i := t], plans, now, i) == Declarations(streams, plans, now, i)
  {
    SameDeclarations(streams, streams[i := t], plans, now, i);
  }

  lemma {:induction false} SameDeclarations(a: seq<Stream>, b: seq<Stream>, plans: seq<Plan>, now: int, n: nat)
    requires n <= |a| == |b| == |plans| && forall i :: 0 <= i < n ==> a[i] == b[i]
    ensures Declarations(a, plans, now, n) == Declarations(b, plans, now, n)
  {
    if n > 0 {
      SameDeclarations(a, b, plans, now, n - 1);
    }
  }

  ghost predicate Plannable(s: Stream) {
    TicketsDistinct(s.rows) && (s.txMulticast ==> s.declaredMulticast)
  }

  lemma PlannableIs(streams: seq<Stream>, i: nat, counter: nat)
    requires i < |streams| && Plannable(streams[i]) && AllUpTo(streams, counter)
    ensures TicketsDistinct(streams[i].rows) && TicketsUpTo(streams[i].rows, counter)
    ensures streams[i].txMulticast ==> streams[i].declaredMulticast
  {
  }

  lemma PlannedWiden(s: Stream, t: Stream, plan: Plan, now: int, c: nat, d: nat, base: nat, last: nat, fanout: nat)
    requires Planned(s, t, plan, now, c, d, fanout) && base <= c && d <= last
    ensures Planned(s, t, plan, now, base, last, fanout)
  {
  }

  lemma ReleasedFits(streams: seq<Stream>, plans: seq<Plan>, fanout: nat, released: Book, budget: nat, cut: int)
    requires AllFit(streams, plans) && IsReleased(BookOf(streams, plans, fanout), released, budget, cut)
    ensures Total(released) <= budget
  {
  }

  lemma SetPlaceKeeps(streams: seq<Stream>, plans: seq<Plan>, fanout: nat, counter: nat, i: int, k: int, held: bool)
    requires AllFit(streams, plans) && Disjoint(streams) && AllUpTo(streams, counter)
    requires forall i :: 0 <= i < |streams| ==> PlacesShown(streams[i], plans[i], fanout)
    requires At(BookOf(streams, plans, fanout), i, k)
    ensures 0 <= i < |streams| && Fits(streams[i], plans[i]) && 0 <= k < |plans[i].order|
    ensures var after := streams[i := WithPlace(streams[i], plans[i], k, held)];
        && AllFit(after, plans) && Disjoint(after) && AllUpTo(after, counter)
        && (forall i :: 0 <= i < |streams| ==> PlacesShown(after[i], plans[i], fanout))
        && BookOf(after, plans, fanout) == SetHeld(BookOf(streams, plans, fanout), i, k, held)
        && SameButPlaces(streams, after)
  {
    hide PlacesShown, Disjoint, AllUpTo;
    PlaceInBook(streams, plans, fanout, i, k, held);
    WithPlaceShown(streams[i], plans[i], fanout, k, held);
    hide AccountOf, BookOf, Fits, SetHeld;
    WithPlaceSame(streams[i], plans[i], k, held);
    hide WithPlace;
    var after := streams[i := WithPlace(streams[i], plans[i], k, held)];
    forall l | 0 <= l < |streams|
      ensures SameButPlace(streams[l], after[l])
    {
    }
    PlacesKeepTickets(streams, after, counter);
  }

  lemma WithPlaceSame(s: Stream, plan: Plan, k: int, held: bool)
    requires Fits(s, plan) && 0 <= k < |plan.order|
    ensures SameButPlace(s, WithPlace(s, plan, k, held))
  {
  }

  lemma PlacesKeepTickets(a: seq<Stream>, b: seq<Stream>, counter: nat)
    requires |a| == |b| && Disjoint(a) && AllUpTo(a, counter)
    requires forall i :: 0 <= i < |a| ==> |a[i].rows| == |b[i].rows|
    requires forall i, j :: 0 <= i < |a| && 0 <= j < |a[i].rows| ==> b[i].rows[j].order == a[i].rows[j].order
    ensures Disjoint(b) && AllUpTo(b, counter)
  {
    forall i, t | 0 <= i < |a|
      ensures HasTicket(a[i].rows, t) == HasTicket(b[i].rows, t)
    {
      SameTickets(a[i].rows, b[i].rows, t);
    }
    forall i | 0 <= i < |b|
      ensures TicketsUpTo(b[i].rows, counter)
    {
      assert TicketsUpTo(a[i].rows, counter);
    }
  }

  lemma SameTickets(a: seq<Row>, b: seq<Row>, t: nat)
    requires |a| == |b| && forall j :: 0 <= j < |a| ==> b[j].order == a[j].order
    ensures HasTicket(a, t) == HasTicket(b, t)
  {
    if HasTicket(a, t) {
      var j :| TicketAtRow(a, j, t);
      assert TicketAtRow(b, j, t);
    }
    if HasTicket(b, t) {
      var j :| TicketAtRow(b, j, t);
      assert TicketAtRow(a, j, t);
    }
  }

  lemma SamePlacesRefl(a: seq<Stream>)
    ensures SameButPlaces(a, a)
  {
  }

  lemma SamePlacesTrans(a: seq<Stream>, b: seq<Stream>, c: seq<Stream>)
    requires SameButPlaces(a, b) && SameButPlaces(b, c)
    ensures SameButPlaces(a, c)
  {
    forall i | 0 <= i < |a|
      ensures SameButPlace(a[i], c[i])
    {
      assert SameButPlace(a[i], b[i]) && SameButPlace(b[i], c[i]);
    }
  }
}
