/** Which entry a full cache loses when many queries are stored within one second
    (components/rule-engine/cache/cache.c). */
module Eviction {
  import opened CStrings
  import opened RuleTables
  import opened Scan
  import opened Cache

  /** Query number k of a burst; the queries all differ. */
  function BurstQuery(k: nat): string {
    seq(k + 1, _ => 'q')
  }

  /** So many stores within one second, each of a new query. */
  function Burst(k: nat, a: Answer, now: int): seq<Op> {
    seq(k, i requires 0 <= i < k => StoreOp(BurstQuery(i), a, now))
  }

  /** Timestamps run ahead of the clock by one second per 256 stores: the first 256 stores fill the table, the
      next 256 replace the slots in order, and then no timestamp is left that the clock has reached. */
  function BurstTime(k: nat, slot: nat, now: int): int {
    if k <= SLOTS then now
    else if k <= 2 * SLOTS then (if slot < k - SLOTS then now + 1 else now)
    else if slot == 0 then now + 2 else now + 1
  }

  ghost predicate InSlot(s: Slot, k: nat, i: nat, now: int) {
    |s.query| <= k && (s.query != "" ==> s.timestamp == BurstTime(k, i, now))
  }

  ghost predicate BurstSlots(slots: seq<Slot>, k: nat, now: int) {
    |slots| == SLOTS && forall i :: 0 <= i < SLOTS ==> InSlot(slots[i], k, i, now)
  }

  /** After k stores of the burst. */
  ghost predicate InBurst(st: CacheState, k: nat, now: int) {
    Valid(st) && st.ticks == k && st.count == (if k <= SLOTS then k else SLOTS) && BurstSlots(st.slots, k, now)
  }

  ghost predicate AllTaken(slots: seq<Slot>) {
    forall i :: 0 <= i < |slots| ==> slots[i].query != ""
  }

  /** The states of a burst, one after another. */
  ghost predicate BurstStates(states: seq<CacheState>, a: Answer, now: int) {
    && |states| == 515 && states[0] == Cleared()
    && forall k {:trigger StoreLeads(states, k, a, now)} :: 0 <= k < 514 ==> StoreLeads(states, k, a, now)
  }

  ghost predicate StoreLeads(states: seq<CacheState>, k: int, a: Answer, now: int)
    requires 0 <= k < 514 && |states| == 515
  {
    |states[k].slots| == SLOTS && states[k + 1] == Stored(states[k], BurstQuery(k), a, now)
  }

  lemma BurstStep(k: nat, a: Answer, now: int)
    ensures Run(Burst(k + 1, a, now)) == Stored(Run(Burst(k, a, now)), BurstQuery(k), a, now)
  {
    assert Burst(k + 1, a, now)[..k] == Burst(k, a, now);
  }

  lemma StatesOfRun(a: Answer, now: int) returns (states: seq<CacheState>)
    ensures BurstStates(states, a, now)
    ensures forall k :: 0 <= k < 515 ==> states[k] == Run(Burst(k, a, now))
  {
    states := seq(515, k requires 0 <= k < 515 => Run(Burst(k, a, now)));
    assert Burst(0, a, now) == [];
    forall k | 0 <= k < 514
      ensures StoreLeads(states, k, a, now)
    {
      BurstStep(k, a, now);
    }
  }

  lemma NewInBurst(slots: seq<Slot>, k: nat, now: int)
    requires BurstSlots(slots, k, now) && Distinct(slots)
    ensures BurstQuery(k) !in Abstract(slots)
  {
    AbstractHolds(slots);
    assert |BurstQuery(k)| == k + 1;
    assert forall i :: 0 <= i < SLOTS ==> InSlot(slots[i], k, i, now);
  }

  /** The place store number k takes: any free slot at first, then slot after slot, then slot 0. */
  ghost predicate BurstPlace(slots: seq<Slot>, k: nat, at: nat) {
    at < SLOTS && (k >= SLOTS ==> AllTaken(slots) && at == if k < 2 * SLOTS then k - SLOTS else 0)
  }

  lemma PlaceTaken(slots: seq<Slot>, k: nat, at: nat, s: Slot, now: int)
    requires BurstSlots(slots, k, now) && k <= 2 * SLOTS && BurstPlace(slots, k, at)
    requires |s.query| == k + 1 && s.timestamp == now + k / 256
    ensures BurstSlots(slots[at := s], k + 1, now)
  {
    var after := slots[at := s];
    forall i | 0 <= i < SLOTS
      ensures InSlot(after[i], k + 1, i, now)
    {
      assert InSlot(slots[i], k, i, now);
    }
  }

  lemma NewSlotFits(st: CacheState, k: nat, a: Answer, now: int)
    requires st.ticks == k <= 2 * SLOTS
    ensures var s := NewSlot(st, BurstQuery(k), a, now);
            s.query == BurstQuery(k) && |s.query| == k + 1 && s.timestamp == now + k / 256
    ensures Query(BurstQuery(k))
  {
  }

  lemma BurstFills(st: CacheState, k: nat, a: Answer, now: int)
    requires InBurst(st, k, now) && k < SLOTS && a.intent != UNKNOWN
    ensures InBurst(Stored(st, BurstQuery(k), a, now), k + 1, now)
  {
    var q := BurstQuery(k);
    NewInBurst(st.slots, k, now);
    NewSlotFits(st, k, a, now);
    FreePlace(st.slots, q);
    FreeStore(st, q, a, now);
    StoreIntoFreeSlot(st, q, a, now);
    PlaceTaken(st.slots, k, Probe(q, SeekPlace(st.slots, q, 0)), NewSlot(st, q, a, now), now);
  }

  /** The victim of a full table in a burst. */
  lemma BurstVictim(slots: seq<Slot>, k: nat, now: int)
    requires BurstSlots(slots, k, now) && AllTaken(slots) && k >= SLOTS
    ensures Victim(slots, now) == if k < 2 * SLOTS then k - SLOTS else 0
  {
    var keys, floor := AgeKeys(slots), -(now + 1) as real;
    FirstBestIsEarliestMaximum(keys, floor);
    forall i | 0 <= i < SLOTS
      ensures keys[i] == Some(-BurstTime(k, i, now) as real)
    {
      assert InSlot(slots[i], k, i, now);
    }
    if k < 2 * SLOTS {
      assert IsEarliestMaximum(keys, floor, k - SLOTS);
    } else {
      assert FirstBest(keys, floor) == None;
    }
  }

  lemma BurstReplaces(st: CacheState, k: nat, a: Answer, now: int)
    requires InBurst(st, k, now) && SLOTS <= k <= 2 * SLOTS && a.intent != UNKNOWN
    ensures InBurst(Stored(st, BurstQuery(k), a, now), k + 1, now)
    ensures k == 2 * SLOTS ==> Stored(st, BurstQuery(k), a, now).slots[0].query == BurstQuery(k)
  {
    var q := BurstQuery(k);
    OccupiedFull(st.slots);
    NewInBurst(st.slots, k, now);
    NewSlotFits(st, k, a, now);
    FullHasNoPlace(st.slots, q);
    FullStore(st, q, a, now);
    StoreEvictsOne(st, q, a, now);
    BurstVictim(st.slots, k, now);
    PlaceTaken(st.slots, k, Victim(st.slots, now), NewSlot(st, q, a, now), now);
  }

  lemma BurstBegins(now: int)
    ensures InBurst(Cleared(), 0, now)
  {
    ClearedIsEmpty();
  }

  lemma BurstNext(st: CacheState, k: nat, a: Answer, now: int)
    requires InBurst(st, k, now) && k <= 2 * SLOTS && a.intent != UNKNOWN
    ensures InBurst(Stored(st, BurstQuery(k), a, now), k + 1, now)
  {
    if k < SLOTS {
      BurstFills(st, k, a, now);
    } else {
      BurstReplaces(st, k, a, now);
    }
  }

  lemma {:induction false} BurstHolds(states: seq<CacheState>, k: nat, a: Answer, now: int)
    requires BurstStates(states, a, now) && k <= 2 * SLOTS + 1 && a.intent != UNKNOWN
    ensures InBurst(states[k], k, now)
  {
    if k == 0 {
      BurstBegins(now);
    } else {
      BurstHolds(states, k - 1, a, now);
      assert StoreLeads(states, k - 1, a, now);
      BurstNext(states[k - 1], k - 1, a, now);
    }
  }

  /** Once no timestamp is left that the clock has reached, slot 0 goes, and it holds the newest entry. */
  lemma NewestGoes(st: CacheState, a: Answer, now: int)
    requires InBurst(st, 2 * SLOTS + 1, now) && st.slots[0].query == BurstQuery(2 * SLOTS) && a.intent != UNKNOWN
    ensures BurstQuery(2 * SLOTS) in Abstract(st.slots)
    ensures BurstQuery(2 * SLOTS) !in Abstract(Stored(st, BurstQuery(2 * SLOTS + 1), a, now).slots)
  {
    var newest, q := BurstQuery(2 * SLOTS), BurstQuery(2 * SLOTS + 1);
    OccupiedFull(st.slots);
    AbstractHolds(st.slots);
    NewInBurst(st.slots, 2 * SLOTS + 1, now);
    BurstVictim(st.slots, 2 * SLOTS + 1, now);
    assert |q| == |newest| + 1;
    StoreEvictsOne(st, q, a, now);
  }

  lemma NewestInSlotZero(states: seq<CacheState>, a: Answer, now: int)
    requires BurstStates(states, a, now) && a.intent != UNKNOWN
    ensures InBurst(states[513], 513, now) && states[513].slots[0].query == BurstQuery(512)
  {
    BurstHolds(states, 512, a, now);
    assert StoreLeads(states, 512, a, now);
    BurstReplaces(states[512], 512, a, now);
  }

  lemma NewestGoesNext(states: seq<CacheState>, a: Answer, now: int)
    requires BurstStates(states, a, now) && a.intent != UNKNOWN
    ensures Valid(states[513]) && states[513].count == SLOTS
    ensures BurstQuery(512) in Abstract(states[513].slots) && BurstQuery(512) !in Abstract(states[514].slots)
  {
    NewestInSlotZero(states, a, now);
    assert StoreLeads(states, 513, a, now);
    NewestGoes(states[513], a, now);
  }

  /** Of 514 new queries stored within one second, the last evicts the one stored just before it. */
  lemma NewestCanBeEvicted(a: Answer, now: int)
    requires a.intent != UNKNOWN
    ensures var st, newest := Run(Burst(513, a, now)), BurstQuery(512);
            Valid(st) && st.count == SLOTS && newest in Abstract(st.slots)
            && newest !in Abstract(Run(Burst(514, a, now)).slots)
  {
    var states := StatesOfRun(a, now);
    NewestGoesNext(states, a, now);
    assert states[513] == Run(Burst(513, a, now)) && states[514] == Run(Burst(514, a, now));
  }
}
