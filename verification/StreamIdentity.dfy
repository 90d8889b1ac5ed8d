/**
 Stream IDs of an output stream: the port's MAC address, then the stream's
 number twice, of which the top two bits hold a generation.  A stream whose
 reservation grows moves to another generation.
 */
module StreamIdentity {
  import opened Basics

  const GENERATIONS: nat := 4
  const REUSE: int := 32_000_000

  type StreamId = seq<int>

  /** The ID a stream is given at boot. */
  function FromMac(mac: seq<int>, uid: nat): (id: StreamId)
    requires |mac| == 6
    ensures |id| == 8
  {
    mac + [uid % 256, uid % 256]
  }

  function WithGeneration(id: StreamId, gen: nat): (r: StreamId)
    requires |id| == 8 && gen < GENERATIONS
    ensures |r| == 8
  {
    id[7 := id[7] % 64 + gen * 64]
  }

  /** The ID of a stream's generation; generation 0 is the one given at boot. */
  function IdOf(mac: seq<int>, uid: nat, gen: nat): (id: StreamId)
    requires |mac| == 6 && gen < GENERATIONS
    ensures |id| == 8
  {
    if gen == 0 then FromMac(mac, uid) else WithGeneration(FromMac(mac, uid), gen)
  }

  /** Moving on from any generation of a small number gives the next one's ID. */
  lemma RenewedId(mac: seq<int>, uid: nat, gen: nat, next: nat)
    requires |mac| == 6 && uid < 64 && gen < GENERATIONS && next < GENERATIONS
    ensures WithGeneration(IdOf(mac, uid, gen), next) == IdOf(mac, uid, next)
  {
    LastOctet(mac, uid, gen);
    LastOctet(mac, uid, next);
    assert WithGeneration(IdOf(mac, uid, gen), next)[7] == uid + next * 64;
  }

  lemma LastOctet(mac: seq<int>, uid: nat, gen: nat)
    requires |mac| == 6 && gen < GENERATIONS && uid < 256
    ensures IdOf(mac, uid, gen)[7] == if gen == 0 then uid else uid % 64 + gen * 64
    ensures IdOf(mac, uid, gen)[6] == uid && IdOf(mac, uid, gen)[..6] == mac
  {
    var boot := FromMac(mac, uid);
    assert boot[6] == uid && boot[7] == uid && boot[..6] == mac;
    hide FromMac;
    assert boot[7 := boot[7] % 64 + gen * 64][..6] == boot[..6];
  }

  /** Different streams of a port never share an ID, whatever their generations. */
  lemma StreamsNeverShareIds(macA: seq<int>, uidA: nat, genA: nat, macB: seq<int>, uidB: nat, genB: nat)
    requires |macA| == |macB| == 6 && uidA < 256 && uidB < 256 && genA < GENERATIONS && genB < GENERATIONS
    requires IdOf(macA, uidA, genA) == IdOf(macB, uidB, genB)
    ensures macA == macB && uidA == uidB
  {
    LastOctet(macA, uidA, genA);
    LastOctet(macB, uidB, genB);
  }

  /** The generations of a stream differ exactly when its number leaves the top bits clear. */
  lemma GenerationsDifferExactly(mac: seq<int>, uid: nat)
    requires |mac| == 6 && uid < 256
    ensures (forall a: nat, b: nat :: a < b < GENERATIONS ==> IdOf(mac, uid, a) != IdOf(mac, uid, b))
       <==> uid < 64
  {
    if uid < 64 {
      forall a: nat, b: nat | a < b < GENERATIONS
        ensures IdOf(mac, uid, a) != IdOf(mac, uid, b)
      {
        LastOctet(mac, uid, a);
        LastOctet(mac, uid, b);
      }
    } else {
      var g := uid / 64;
      LastOctet(mac, uid, 0);
      LastOctet(mac, uid, g);
      var a, b := IdOf(mac, uid, 0), IdOf(mac, uid, g);
      assert a == a[..6] + [a[6], a[7]] && b == b[..6] + [b[6], b[7]];
    }
  }

  lemma SameIdSameGeneration(mac: seq<int>, uid: nat, a: nat, b: nat)
    requires |mac| == 6 && uid < 64 && a < GENERATIONS && b < GENERATIONS
    ensures IdOf(mac, uid, a) == IdOf(mac, uid, b) <==> a == b
  {
    LastOctet(mac, uid, a);
    LastOctet(mac, uid, b);
  }

  // ---- Choosing a generation ---------------------------------------------

  /** A generation whose ID has rested and is no longer held by anyone. */
  predicate Usable(gen: nat, retired: seq<int>, now: int, forgets: seq<bool>)
    requires |retired| == |forgets| == GENERATIONS && gen < GENERATIONS
  {
    now - retired[gen] >= REUSE && forgets[gen]
  }

  /** Steps from one generation to another, going round. */
  function Ahead(from: nat, to: nat): nat
    requires from < GENERATIONS && to < GENERATIONS
  {
    if to >= from then to - from else to + GENERATIONS - from
  }

  /** The first usable generation after the current one, in cyclic order. */
  function NextGeneration(gen: nat, step: nat, retired: seq<int>, now: int, forgets: seq<bool>): (r: Option<nat>)
    requires |retired| == |forgets| == GENERATIONS && gen < GENERATIONS && 1 <= step <= GENERATIONS
    ensures r.Some? ==> r.value < GENERATIONS && r.value != gen && Usable(r.value, retired, now, forgets)
    ensures r.None? <==> forall g: nat :: g < GENERATIONS && Ahead(gen, g) >= step ==> !Usable(g, retired, now, forgets)
    decreases GENERATIONS - step
  {
    if step == GENERATIONS then None
    else
      var next := (gen + step) % GENERATIONS;
      if Usable(next, retired, now, forgets) then Some(next)
      else NextGeneration(gen, step + 1, retired, now, forgets)
  }

  lemma NextGenerationStep(gen: nat, step: nat, retired: seq<int>, now: int, forgets: seq<bool>)
    requires |retired| == |forgets| == GENERATIONS && gen < GENERATIONS && 1 <= step <= GENERATIONS
    ensures NextGeneration(gen, step, retired, now, forgets)
         == if step == GENERATIONS then None
            else if Usable((gen + step) % GENERATIONS, retired, now, forgets) then Some((gen + step) % GENERATIONS)
            else NextGeneration(gen, step + 1, retired, now, forgets)
  {
  }

  /**
   Where a stream moves: to the first generation after its own, going round,
   that was withdrawn at least 32 s ago and that nobody holds; nowhere when
   there is none.
   */
  ghost predicate FirstRested(from: nat, to: nat, retired: seq<int>, now: int, forgets: seq<bool>)
    requires |retired| == |forgets| == GENERATIONS && from < GENERATIONS && to < GENERATIONS
  {
    && (to != from ==> now - retired[to] >= REUSE && forgets[to])
    && forall g: nat :: g < GENERATIONS && g != from && (to == from || Ahead(from, g) < Ahead(from, to)) ==>
         now - retired[g] < REUSE || !forgets[g]
  }

  lemma StepsAhead(gen: nat, step: nat)
    requires gen < GENERATIONS && 1 <= step < GENERATIONS
    ensures forall g: nat :: g < GENERATIONS ==> (Ahead(gen, g) == step <==> g == (gen + step) % GENERATIONS)
  {
    var next := if gen + step < GENERATIONS then gen + step else gen + step - GENERATIONS;
    assert next == (gen + step) % GENERATIONS;
  }

  lemma {:induction false} NextIsFirst(gen: nat, step: nat, retired: seq<int>, now: int, forgets: seq<bool>, g: nat)
    requires |retired| == |forgets| == GENERATIONS && gen < GENERATIONS && 1 <= step <= GENERATIONS && g < GENERATIONS
    requires NextGeneration(gen, step, retired, now, forgets).Some?
    requires step <= Ahead(gen, g) < Ahead(gen, NextGeneration(gen, step, retired, now, forgets).value)
    ensures now - retired[g] < REUSE || !forgets[g]
    decreases GENERATIONS - step
  {
    if step < GENERATIONS {
      StepsAhead(gen, step);
      if !Usable((gen + step) % GENERATIONS, retired, now, forgets) && Ahead(gen, g) != step {
        NextIsFirst(gen, step + 1, retired, now, forgets, g);
      }
    }
  }

  lemma NextIsFirstRested(gen: nat, retired: seq<int>, now: int, forgets: seq<bool>)
    requires |retired| == |forgets| == GENERATIONS && gen < GENERATIONS
    ensures var next := NextGeneration(gen, 1, retired, now, forgets);
        FirstRested(gen, if next.Some? then next.value else gen, retired, now, forgets)
  {
    var next := NextGeneration(gen, 1, retired, now, forgets);
    forall g: nat | g < GENERATIONS && g != gen && (next.None? || Ahead(gen, g) < Ahead(gen, next.value))
      ensures now - retired[g] < REUSE || !forgets[g]
    {
      if next.Some? {
        NextIsFirst(gen, 1, retired, now, forgets, g);
      }
    }
  }

  /** Some other generation is usable exactly when a stream can be renewed. */
  lemma RenewableExactly(gen: nat, retired: seq<int>, now: int, forgets: seq<bool>)
    requires |retired| == |forgets| == GENERATIONS && gen < GENERATIONS
    ensures NextGeneration(gen, 1, retired, now, forgets).Some? <==>
        exists g: nat :: g < GENERATIONS && g != gen && Usable(g, retired, now, forgets)
  {
    assert forall g: nat :: g < GENERATIONS ==> (Ahead(gen, g) >= 1 <==> g != gen);
  }

  /** Until 32 s after boot no ID of before the boot can come back. */
  lemma NoRenewalRightAfterBoot(gen: nat, now: int, forgets: seq<bool>)
    requires |forgets| == GENERATIONS && gen < GENERATIONS && now < REUSE
    ensures NextGeneration(gen, 1, [0, 0, 0, 0], now, forgets).None?
  {
    RenewableExactly(gen, [0, 0, 0, 0], now, forgets);
  }
}
