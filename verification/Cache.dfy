/** The hash-probed query cache (components/rule-engine/cache/cache.c). */
module Cache {
  import opened CStrings
  import opened Scan
  import opened RuleTables

  const SLOTS: nat := 256
  const WORD: nat := 0x1_0000_0000

  datatype Answer = Answer(intent: Intent, target: string, action: string)
  datatype Slot = Slot(query: string, answer: Answer, timestamp: int, hits: int)

  /** A slot after memset; the empty query marks it free. */
  const FREE_SLOT := Slot("", Answer(0, "", ""), 0, 0)

  datatype CacheState = CacheState(slots: seq<Slot>, count: int, ticks: int)

  function Cleared(): CacheState {
    CacheState(seq(SLOTS, _ => FREE_SLOT), 0, 0)
  }

  // ---- what the operations do to the state ----

  function HashFrom(hash: nat, s: string): nat
    decreases |s|
  {
    if s == "" then hash else HashFrom((hash * 33 + s[0] as int) % WORD, s[1..])
  }

  function Hash(query: string): (h: nat)
    ensures h < SLOTS
  {
    HashFrom(5381, query) % SLOTS
  }

  /** Probe i of a query: the slots in order from its hash, wrapping around. */
  function Probe(query: string, i: nat): (slot: nat)
    requires i < SLOTS
    ensures slot < SLOTS && slot == (Hash(query) + i) % SLOTS
  {
    if Hash(query) + i < SLOTS then Hash(query) + i else Hash(query) + i - SLOTS
  }

  /** The first probe, from probe i on, that meets the query itself. */
  function Seek(slots: seq<Slot>, query: string, i: nat): (r: nat)
    requires |slots| == SLOTS && i <= SLOTS
    ensures i <= r <= SLOTS
    ensures r < SLOTS ==> slots[Probe(query, r)].query == query
    ensures forall j :: i <= j < r ==> slots[Probe(query, j)].query != query
    decreases SLOTS - i
  {
    if i == SLOTS || slots[Probe(query, i)].query == query then i else Seek(slots, query, i + 1)
  }

  predicate Stops(s: Slot, query: string) {
    s.query == "" || s.query == query
  }

  /** The first probe, from probe i on, that meets a free slot or the query itself. */
  function SeekPlace(slots: seq<Slot>, query: string, i: nat): (r: nat)
    requires |slots| == SLOTS && i <= SLOTS
    ensures i <= r <= SLOTS
    ensures r < SLOTS ==> Stops(slots[Probe(query, r)], query)
    ensures forall j :: i <= j < r ==> !Stops(slots[Probe(query, j)], query)
    decreases SLOTS - i
  {
    if i == SLOTS || Stops(slots[Probe(query, i)], query) then i else SeekPlace(slots, query, i + 1)
  }

  function Stamp(st: CacheState, now: int): int {
    now + st.ticks / 256
  }

  function Touched(s: Slot, stamp: int): Slot {
    s.(timestamp := stamp, hits := s.hits + 1)
  }

  function Looked(st: CacheState, query: string, now: int): (next: CacheState)
    requires |st.slots| == SLOTS
    ensures |next.slots| == SLOTS
  {
    var r := Seek(st.slots, query, 0);
    if r == SLOTS then st
    else
      var at := Probe(query, r);
      st.(slots := st.slots[at := Touched(st.slots[at], Stamp(st, now))])
  }

  function Found(slots: seq<Slot>, query: string): Option<Answer>
    requires |slots| == SLOTS
  {
    var r := Seek(slots, query, 0);
    if r == SLOTS then None else Some(slots[Probe(query, r)].answer)
  }

  function AgeKeys(slots: seq<Slot>): seq<Option<real>> {
    seq(|slots|, i requires 0 <= i < |slots| => Some(-slots[i].timestamp as real))
  }

  /** The earliest slot of least timestamp among those not after `now`, else slot 0. */
  function Victim(slots: seq<Slot>, now: int): (v: nat)
    requires |slots| == SLOTS
    ensures v < SLOTS
  {
    var oldest := FirstBest(AgeKeys(slots), -(now + 1) as real);
    if oldest.Some? then oldest.value else 0
  }

  function Trimmed(a: Answer): Answer {
    Answer(a.intent, Cut(a.target, MAX_TARGET_LEN - 1), Cut(a.action, MAX_ACTION_LEN - 1))
  }

  function CacheResult(a: Answer): MatchResult {
    MatchResult(a.intent, Cut(a.target, MAX_TARGET_LEN - 1), Cut(a.action, MAX_ACTION_LEN - 1), 1.0, CacheHit, "")
  }

  function NewSlot(st: CacheState, query: string, a: Answer, now: int): Slot {
    Slot(Cut(query, MAX_QUERY_LEN - 1), Trimmed(a), Stamp(st, now), 1)
  }

  function Stored(st: CacheState, query: string, a: Answer, now: int): (next: CacheState)
    requires |st.slots| == SLOTS
    ensures |next.slots| == SLOTS
  {
    if a.intent == UNKNOWN then st
    else
      var r := SeekPlace(st.slots, query, 0);
      var at := if r < SLOTS then Probe(query, r) else Victim(st.slots, now);
      if r < SLOTS && st.slots[at].query != "" then
        CacheState(st.slots[at := Touched(st.slots[at], Stamp(st, now))], st.count, st.ticks + 1)
      else
        CacheState(st.slots[at := NewSlot(st, query, a, now)],
                   if r < SLOTS then st.count + 1 else st.count, st.ticks + 1)
  }

  // ---- the cache is a finite map ----

  function Occupied(slots: seq<Slot>): nat {
    if slots == [] then 0
    else Occupied(slots[..|slots| - 1]) + if slots[|slots| - 1].query != "" then 1 else 0
  }

  function Abstract(slots: seq<Slot>): map<string, Answer> {
    if slots == [] then map[]
    else
      var front, last := Abstract(slots[..|slots| - 1]), slots[|slots| - 1];
      if last.query != "" then front[last.query := last.answer] else front
  }

  ghost predicate Distinct(slots: seq<Slot>) {
    forall i, j :: 0 <= i < j < |slots| && slots[i].query != "" ==> slots[i].query != slots[j].query
  }

  /** Every slot probed before a stored query is reached is occupied. */
  ghost predicate PathsOccupied(slots: seq<Slot>)
    requires |slots| == SLOTS
  {
    forall q: string, i: nat, j: nat ::
      q != "" && j < i < SLOTS && slots[Probe(q, i)].query == q ==> slots[Probe(q, j)].query != ""
  }

  ghost predicate Valid(st: CacheState) {
    && |st.slots| == SLOTS
    && st.count == Occupied(st.slots)
    && Distinct(st.slots)
    && PathsOccupied(st.slots)
  }

  ghost predicate Query(q: string) {
    0 < |q| < MAX_QUERY_LEN
  }

  /** The map has exactly the stored queries, with their answers. */
  ghost predicate Mirrors(slots: seq<Slot>, m: map<string, Answer>) {
    && (forall i :: 0 <= i < |slots| && slots[i].query != "" ==>
          slots[i].query in m && m[slots[i].query] == slots[i].answer)
    && (forall q :: q in m ==> q != "" && exists i :: 0 <= i < |slots| && slots[i].query == q)
  }

  lemma MirrorsPush(front: seq<Slot>, m: map<string, Answer>, s: Slot)
    requires Mirrors(front, m) && s.query !in m
    ensures Mirrors(front + [s], if s.query != "" then m[s.query := s.answer] else m)
  {
    var slots, m' := front + [s], if s.query != "" then m[s.query := s.answer] else m;
    forall q | q in m'
      ensures exists i :: 0 <= i < |slots| && slots[i].query == q
    {
      if q in m {
        var i :| 0 <= i < |front| && front[i].query == q;
        assert slots[i].query == q;
      } else {
        assert slots[|front|].query == q;
      }
    }
  }

  lemma {:induction false} AbstractMirrors(slots: seq<Slot>)
    requires Distinct(slots)
    ensures Mirrors(slots, Abstract(slots))
    ensures |Abstract(slots)| == Occupied(slots) <= |slots|
  {
    if slots != [] {
      var front, s := slots[..|slots| - 1], slots[|slots| - 1];
      AbstractMirrors(front);
      assert slots == front + [s];
      assert s.query !in Abstract(front);
      MirrorsPush(front, Abstract(front), s);
    }
  }

  lemma AbstractHolds(slots: seq<Slot>)
    requires Distinct(slots)
    ensures |Abstract(slots)| == Occupied(slots) <= |slots|
    ensures forall i :: 0 <= i < |slots| && slots[i].query != "" ==>
              slots[i].query in Abstract(slots) && Abstract(slots)[slots[i].query] == slots[i].answer
    ensures forall q :: q in Abstract(slots) ==> q != "" && exists i :: 0 <= i < |slots| && slots[i].query == q
  {
    AbstractMirrors(slots);
  }

  lemma {:induction false} OccupiedUpdate(slots: seq<Slot>, at: nat, s: Slot)
    requires at < |slots| && s.query != ""
    ensures Occupied(slots[at := s]) == Occupied(slots) + if slots[at].query == "" then 1 else 0
  {
    var n := |slots| - 1;
    if at == n {
      assert slots[at := s][..n] == slots[..n];
    } else {
      assert slots[at := s][..n] == slots[..n][at := s];
      OccupiedUpdate(slots[..n], at, s);
    }
  }

  lemma {:induction false} OccupiedFull(slots: seq<Slot>)
    ensures Occupied(slots) <= |slots|
    ensures Occupied(slots) == |slots| <==> forall i :: 0 <= i < |slots| ==> slots[i].query != ""
  {
    if slots != [] {
      var n := |slots| - 1;
      OccupiedFull(slots[..n]);
      assert forall i :: 0 <= i < n ==> slots[..n][i] == slots[i];
    }
  }

  /** The probes of a query visit every slot. */
  lemma ProbeReaches(query: string, slot: nat) returns (i: nat)
    requires slot < SLOTS
    ensures i < SLOTS && Probe(query, i) == slot
  {
    i := if Hash(query) <= slot then slot - Hash(query) else slot + SLOTS - Hash(query);
  }

  lemma ProbeOnce(query: string, i: nat, j: nat)
    requires i < SLOTS && j < SLOTS && Probe(query, i) == Probe(query, j)
    ensures i == j
  {
  }

  lemma SeekFindsStored(slots: seq<Slot>, query: string, slot: nat)
    requires |slots| == SLOTS && slot < SLOTS && slots[slot].query == query
    ensures Seek(slots, query, 0) < SLOTS
  {
    var i := ProbeReaches(query, slot);
    assert slots[Probe(query, i)].query == query;
  }

  lemma SeekPlaceIsSeek(slots: seq<Slot>, query: string)
    requires |slots| == SLOTS && PathsOccupied(slots) && query != ""
    requires Seek(slots, query, 0) < SLOTS
    ensures SeekPlace(slots, query, 0) == Seek(slots, query, 0)
  {
    var r := Seek(slots, query, 0);
    assert SeekPlace(slots, query, 0) <= r;
  }

  lemma NoPlaceMeansFull(slots: seq<Slot>, query: string)
    requires |slots| == SLOTS && SeekPlace(slots, query, 0) == SLOTS
    ensures forall slot :: 0 <= slot < SLOTS ==> !Stops(slots[slot], query)
    ensures Occupied(slots) == SLOTS
  {
    forall slot | 0 <= slot < SLOTS
      ensures !Stops(slots[slot], query)
    {
      var i := ProbeReaches(query, slot);
      assert !Stops(slots[Probe(query, i)], query);
    }
    OccupiedFull(slots);
  }

  /** Lookup finds exactly the stored queries. */
  lemma SeekIsMember(slots: seq<Slot>, query: string)
    requires |slots| == SLOTS && Distinct(slots) && query != ""
    ensures Seek(slots, query, 0) < SLOTS <==> query in Abstract(slots)
  {
    AbstractHolds(slots);
    if query in Abstract(slots) {
      var slot :| 0 <= slot < SLOTS && slots[slot].query == query;
      SeekFindsStored(slots, query, slot);
    }
  }

  /** The map is known by its entries. */
  lemma AbstractIs(slots: seq<Slot>, m: map<string, Answer>)
    requires Distinct(slots) && Mirrors(slots, m)
    ensures Abstract(slots) == m
  {
    AbstractHolds(slots);
  }

  lemma AbstractUpdate(slots: seq<Slot>, at: nat, s: Slot)
    requires at < |slots| && s.query != ""
    requires Distinct(slots) && Distinct(slots[at := s])
    ensures Abstract(slots[at := s]) == (Abstract(slots) - {slots[at].query})[s.query := s.answer]
  {
    var slots', after := slots[at := s], (Abstract(slots) - {slots[at].query})[s.query := s.answer];
    AbstractHolds(slots);
    forall q | q in after
      ensures exists i :: 0 <= i < |slots| && slots'[i].query == q
    {
      if q == s.query {
        assert slots'[at].query == q;
      } else {
        var i :| 0 <= i < |slots| && slots[i].query == q;
        assert slots'[i] == slots[i];
      }
    }
    forall i | 0 <= i < |slots| && slots'[i].query != ""
      ensures slots'[i].query in after && after[slots'[i].query] == slots'[i].answer
    {
      if i != at {
        assert slots'[i] == slots[i] && slots'[i].query != slots'[at].query && slots[i].query != slots[at].query;
      }
    }
    AbstractIs(slots', after);
  }

  lemma PathsUpdate(slots: seq<Slot>, at: nat, s: Slot, i: nat)
    requires |slots| == SLOTS && PathsOccupied(slots)
    requires at < SLOTS && i < SLOTS && s.query != "" && Probe(s.query, i) == at
    requires forall j :: 0 <= j < i ==> slots[Probe(s.query, j)].query != ""
    ensures PathsOccupied(slots[at := s])
  {
    var slots' := slots[at := s];
    forall q: string, k: nat, j: nat | q != "" && j < k < SLOTS && slots'[Probe(q, k)].query == q
      ensures slots'[Probe(q, j)].query != ""
    {
      if Probe(q, k) == at {
        ProbeOnce(q, k, i);
      }
    }
  }

  lemma SameQueriesSamePaths(slots: seq<Slot>, slots': seq<Slot>)
    requires |slots| == |slots'| == SLOTS && PathsOccupied(slots) && Distinct(slots)
    requires forall i :: 0 <= i < SLOTS ==> slots'[i].query == slots[i].query
    ensures PathsOccupied(slots') && Distinct(slots')
  {
  }

  lemma TouchKeeps(st: CacheState, at: nat, stamp: int)
    requires Valid(st) && at < SLOTS && st.slots[at].query != ""
    ensures Valid(st.(slots := st.slots[at := Touched(st.slots[at], stamp)]))
    ensures Abstract(st.slots[at := Touched(st.slots[at], stamp)]) == Abstract(st.slots)
  {
    var s := Touched(st.slots[at], stamp);
    SameQueriesSamePaths(st.slots, st.slots[at := s]);
    OccupiedUpdate(st.slots, at, s);
    AbstractHolds(st.slots);
    AbstractUpdate(st.slots, at, s);
  }

  lemma FoundIsMember(slots: seq<Slot>, query: string)
    requires |slots| == SLOTS && Distinct(slots) && query != ""
    ensures Found(slots, query) == if query in Abstract(slots) then Some(Abstract(slots)[query]) else None
  {
    SeekIsMember(slots, query);
    AbstractHolds(slots);
  }

  /** A lookup answers from the map and leaves the map alone. */
  lemma LookupRefines(st: CacheState, query: string, now: int)
    requires Valid(st) && Query(query)
    ensures Valid(Looked(st, query, now))
    ensures Abstract(Looked(st, query, now).slots) == Abstract(st.slots)
    ensures Found(st.slots, query) == if query in Abstract(st.slots) then Some(Abstract(st.slots)[query]) else None
  {
    FoundIsMember(st.slots, query);
    var r := Seek(st.slots, query, 0);
    if r < SLOTS {
      TouchKeeps(st, Probe(query, r), Stamp(st, now));
    }
  }

  lemma DistinctUpdate(slots: seq<Slot>, at: nat, s: Slot)
    requires Distinct(slots) && at < |slots| && s.query != "" && s.query !in Abstract(slots)
    ensures Distinct(slots[at := s])
  {
    AbstractHolds(slots);
  }

  /** The place found for a new query is free unless the table is full. */
  lemma FreePlace(slots: seq<Slot>, query: string)
    requires |slots| == SLOTS && Occupied(slots) < SLOTS
    requires Distinct(slots) && query != "" && query !in Abstract(slots)
    ensures var r := SeekPlace(slots, query, 0);
            r < SLOTS && slots[Probe(query, r)].query == ""
  {
    var r := SeekPlace(slots, query, 0);
    if r == SLOTS {
      NoPlaceMeansFull(slots, query);
    } else if slots[Probe(query, r)].query == query {
      SeekFindsStored(slots, query, Probe(query, r));
      SeekIsMember(slots, query);
    }
  }

  /** Storing a new query while a slot is free adds it; nothing else changes. */
  lemma StoreIntoFreeSlot(st: CacheState, query: string, a: Answer, now: int)
    requires Valid(st) && Query(query) && a.intent != UNKNOWN
    requires query !in Abstract(st.slots) && st.count < SLOTS
    ensures Valid(Stored(st, query, a, now))
    ensures Abstract(Stored(st, query, a, now).slots) == Abstract(st.slots)[query := Trimmed(a)]
  {
    FreePlace(st.slots, query);
    var r := SeekPlace(st.slots, query, 0);
    FreeStore(st, query, a, now);
    AddSlot(st.slots, Probe(query, r), NewSlot(st, query, a, now), r);
  }

  lemma FreeStore(st: CacheState, query: string, a: Answer, now: int)
    requires |st.slots| == SLOTS && a.intent != UNKNOWN
    requires var r := SeekPlace(st.slots, query, 0); r < SLOTS && st.slots[Probe(query, r)].query == ""
    ensures var at := Probe(query, SeekPlace(st.slots, query, 0));
            Stored(st, query, a, now)
              == CacheState(st.slots[at := NewSlot(st, query, a, now)], st.count + 1, st.ticks + 1)
  {
  }

  lemma AddSlot(slots: seq<Slot>, at: nat, s: Slot, r: nat)
    requires |slots| == SLOTS && Distinct(slots) && PathsOccupied(slots)
    requires at < SLOTS && r < SLOTS && at == Probe(s.query, r) && slots[at].query == ""
    requires s.query != "" && s.query !in Abstract(slots)
    requires forall j :: 0 <= j < r ==> !Stops(slots[Probe(s.query, j)], s.query)
    ensures Distinct(slots[at := s]) && PathsOccupied(slots[at := s])
    ensures Occupied(slots[at := s]) == Occupied(slots) + 1
    ensures Abstract(slots[at := s]) == Abstract(slots)[s.query := s.answer]
  {
    AbstractHolds(slots);
    DistinctUpdate(slots, at, s);
    OccupiedUpdate(slots, at, s);
    PathsUpdate(slots, at, s, r);
    AbstractUpdate(slots, at, s);
  }

  lemma FullHasNoPlace(slots: seq<Slot>, query: string)
    requires |slots| == SLOTS && Distinct(slots) && query != "" && query !in Abstract(slots)
    requires forall i :: 0 <= i < SLOTS ==> slots[i].query != ""
    ensures SeekPlace(slots, query, 0) == SLOTS
  {
    AbstractHolds(slots);
  }

  lemma FullStore(st: CacheState, query: string, a: Answer, now: int)
    requires |st.slots| == SLOTS && a.intent != UNKNOWN && SeekPlace(st.slots, query, 0) == SLOTS
    ensures var at := Victim(st.slots, now);
            Stored(st, query, a, now) == CacheState(st.slots[at := NewSlot(st, query, a, now)], st.count, st.ticks + 1)
  {
  }

  /** Storing a new query into a full table replaces exactly the victim's query. */
  lemma StoreEvictsOne(st: CacheState, query: string, a: Answer, now: int)
    requires Valid(st) && Query(query) && a.intent != UNKNOWN
    requires query !in Abstract(st.slots) && st.count == SLOTS
    ensures Valid(Stored(st, query, a, now))
    ensures var victim := st.slots[Victim(st.slots, now)].query;
            victim in Abstract(st.slots)
            && Abstract(Stored(st, query, a, now).slots) == (Abstract(st.slots) - {victim})[query := Trimmed(a)]
  {
    OccupiedFull(st.slots);
    FullHasNoPlace(st.slots, query);
    FullStore(st, query, a, now);
    ReplaceSlot(st.slots, Victim(st.slots, now), NewSlot(st, query, a, now));
  }

  lemma ReplaceSlot(slots: seq<Slot>, at: nat, s: Slot)
    requires |slots| == SLOTS && Distinct(slots) && at < SLOTS && s.query != "" && s.query !in Abstract(slots)
    requires forall i :: 0 <= i < SLOTS ==> slots[i].query != ""
    ensures Distinct(slots[at := s]) && PathsOccupied(slots[at := s])
    ensures Occupied(slots[at := s]) == Occupied(slots)
    ensures slots[at].query in Abstract(slots)
    ensures Abstract(slots[at := s]) == (Abstract(slots) - {slots[at].query})[s.query := s.answer]
  {
    AbstractHolds(slots);
    DistinctUpdate(slots, at, s);
    OccupiedUpdate(slots, at, s);
    AbstractUpdate(slots, at, s);
  }

  lemma StoreKnownQuery(st: CacheState, query: string, a: Answer, now: int)
    requires Valid(st) && Query(query) && query in Abstract(st.slots)
    ensures Valid(Stored(st, query, a, now))
    ensures Abstract(Stored(st, query, a, now).slots) == Abstract(st.slots)
  {
    SeekIsMember(st.slots, query);
    SeekPlaceIsSeek(st.slots, query);
    if a.intent != UNKNOWN {
      TouchKeeps(st, Probe(query, Seek(st.slots, query, 0)), Stamp(st, now));
    }
  }

  ghost predicate LeastTimestamp(slots: seq<Slot>, at: nat)
    requires at < |slots|
  {
    forall i :: 0 <= i < |slots| ==> slots[at].timestamp <= slots[i].timestamp
  }

  /** The victim has the least timestamp exactly when some timestamp is not after the current time,
      or slot 0 happens to hold the least one. */
  lemma VictimIsOldest(slots: seq<Slot>, now: int)
    requires |slots| == SLOTS
    ensures LeastTimestamp(slots, Victim(slots, now)) <==>
              (exists i :: 0 <= i < SLOTS && slots[i].timestamp <= now) || LeastTimestamp(slots, 0)
  {
    var keys, floor := AgeKeys(slots), -(now + 1) as real;
    FirstBestIsEarliestMaximum(keys, floor);
    var oldest := FirstBest(keys, floor);
    assert forall i :: 0 <= i < SLOTS ==> keys[i] == Some(-slots[i].timestamp as real);
    if oldest.Some? {
      assert IsEarliestMaximum(keys, floor, oldest.value);
      forall i | 0 <= i < SLOTS
        ensures slots[oldest.value].timestamp <= slots[i].timestamp
      {
        assert keys[i].value <= keys[oldest.value].value;
      }
      assert slots[oldest.value].timestamp <= now;
    } else {
      forall i | 0 <= i < SLOTS
        ensures slots[i].timestamp > now
      {
        assert keys[i].value <= floor;
      }
    }
  }

  /** The victim is the earliest of the slots of least timestamp, or slot 0 when no timestamp has been reached. */
  lemma VictimExactly(slots: seq<Slot>, now: int, v: nat)
    requires |slots| == SLOTS && v < SLOTS
    ensures Victim(slots, now) == v <==>
              if exists i :: 0 <= i < SLOTS && slots[i].timestamp <= now
              then LeastTimestamp(slots, v) && forall i :: 0 <= i < v ==> slots[v].timestamp < slots[i].timestamp
              else v == 0
  {
    var keys, floor := AgeKeys(slots), -(now + 1) as real;
    FirstBestIsEarliestMaximum(keys, floor);
    VictimIsOldest(slots, now);
    assert forall i :: 0 <= i < SLOTS ==> keys[i] == Some(-slots[i].timestamp as real);
    var oldest := FirstBest(keys, floor);
    if oldest.Some? {
      assert IsEarliestMaximum(keys, floor, oldest.value);
      assert slots[oldest.value].timestamp <= now;
    } else {
      forall i | 0 <= i < SLOTS
        ensures slots[i].timestamp > now
      {
        assert keys[i].value <= floor;
      }
    }
  }

  lemma ClearedIsEmpty()
    ensures Valid(Cleared()) && Abstract(Cleared().slots) == map[]
  {
    var free := Cleared().slots;
    NothingOccupied(free);
  }

  lemma {:induction false} NothingOccupied(slots: seq<Slot>)
    requires forall i :: 0 <= i < |slots| ==> slots[i].query == ""
    ensures Occupied(slots) == 0 && Abstract(slots) == map[]
  {
    if slots != [] {
      NothingOccupied(slots[..|slots| - 1]);
    }
  }

  /** A store acts on the map: an answer without an intent or to a known query changes nothing, a new one is added, and
      a full table loses exactly the victim. */
  lemma StoreRefines(st: CacheState, query: string, a: Answer, now: int)
    requires Valid(st) && Query(query)
    ensures Valid(Stored(st, query, a, now))
    ensures var before := Abstract(st.slots);
            var after := Abstract(Stored(st, query, a, now).slots);
            var victim := st.slots[Victim(st.slots, now)].query;
            var kept := Answer(a.intent, Cut(a.target, 255), Cut(a.action, 127));
            if a.intent == UNKNOWN || query in before then after == before
            else if |before| < 256 then after == before[query := kept]
            else victim in before && after == (before - {victim})[query := kept]
  {
    AbstractHolds(st.slots);
    if a.intent == UNKNOWN {
    } else if query in Abstract(st.slots) {
      StoreKnownQuery(st, query, a, now);
    } else if st.count < SLOTS {
      StoreIntoFreeSlot(st, query, a, now);
    } else {
      StoreEvictsOne(st, query, a, now);
    }
  }

  // ---- when an entry was last used ----

  /** Slot `at` holds this query, used now; the other slots are as they were. */
  ghost predicate UsedNow(st: CacheState, after: CacheState, at: nat, query: string, now: int) {
    && at < |st.slots| == |after.slots| && after.count == st.count
    && after.slots[at] == Slot(query, st.slots[at].answer, now + st.ticks / 256, st.slots[at].hits + 1)
    && forall i :: 0 <= i < |st.slots| && i != at ==> after.slots[i] == st.slots[i]
  }

  lemma SlotMet(slots: seq<Slot>, query: string, at: nat)
    requires |slots| == SLOTS && Distinct(slots) && at < SLOTS && slots[at].query == query != ""
    ensures Seek(slots, query, 0) < SLOTS && Probe(query, Seek(slots, query, 0)) == at
  {
    SeekFindsStored(slots, query, at);
  }

  /** A hit gives the query's slot the current time and counts the hit. */
  lemma LookupRenews(st: CacheState, query: string, now: int, at: nat)
    requires Valid(st) && at < SLOTS && st.slots[at].query == query != ""
    ensures UsedNow(st, Looked(st, query, now), at, query, now) && Looked(st, query, now).ticks == st.ticks
  {
    SlotMet(st.slots, query, at);
  }

  /** A lookup of a query that is not there changes nothing at all. */
  lemma MissChangesNothing(st: CacheState, query: string, now: int)
    requires Valid(st) && Query(query) && query !in Abstract(st.slots)
    ensures Looked(st, query, now) == st
  {
    SeekIsMember(st.slots, query);
  }

  /** So does storing it again, which also moves the tick counter on. */
  lemma RepeatedStoreRenews(st: CacheState, query: string, a: Answer, now: int, at: nat)
    requires Valid(st) && at < SLOTS && st.slots[at].query == query != "" && a.intent != UNKNOWN
    ensures UsedNow(st, Stored(st, query, a, now), at, query, now) && Stored(st, query, a, now).ticks == st.ticks + 1
  {
    SlotMet(st.slots, query, at);
    SeekPlaceIsSeek(st.slots, query);
  }

  /** A new query takes a free slot, or in a full table the victim's, with the current time and one hit; the other slots
      are as they were. */
  lemma NewStoreStamps(st: CacheState, query: string, a: Answer, now: int) returns (at: nat)
    requires Valid(st) && Query(query) && query !in Abstract(st.slots) && a.intent != UNKNOWN
    ensures at < SLOTS && if st.count < SLOTS then st.slots[at].query == "" else at == Victim(st.slots, now)
    ensures var entry := Slot(query, Answer(a.intent, Cut(a.target, 255), Cut(a.action, 127)), now + st.ticks / 256, 1);
            Stored(st, query, a, now)
              == CacheState(st.slots[at := entry], if st.count < SLOTS then st.count + 1 else st.count, st.ticks + 1)
  {
    NewSlotIs(st, query, a, now);
    if st.count < SLOTS {
      at := FreeStamps(st, query, a, now);
    } else {
      at := Victim(st.slots, now);
      FullMiss(st, query);
      FullStore(st, query, a, now);
    }
  }

  lemma NewSlotIs(st: CacheState, query: string, a: Answer, now: int)
    requires Query(query)
    ensures NewSlot(st, query, a, now)
         == Slot(query, Answer(a.intent, Cut(a.target, 255), Cut(a.action, 127)), now + st.ticks / 256, 1)
  {
  }

  lemma FreeStamps(st: CacheState, query: string, a: Answer, now: int) returns (at: nat)
    requires Valid(st) && Query(query) && query !in Abstract(st.slots) && a.intent != UNKNOWN && st.count < SLOTS
    ensures at < SLOTS && st.slots[at].query == ""
    ensures Stored(st, query, a, now)
         == CacheState(st.slots[at := NewSlot(st, query, a, now)], st.count + 1, st.ticks + 1)
  {
    FreePlace(st.slots, query);
    FreeStore(st, query, a, now);
    at := Probe(query, SeekPlace(st.slots, query, 0));
  }

  lemma FullMiss(st: CacheState, query: string)
    requires Valid(st) && query != "" && query !in Abstract(st.slots) && st.count >= SLOTS
    ensures SeekPlace(st.slots, query, 0) == SLOTS && st.count == SLOTS
  {
    OccupiedFull(st.slots);
    FullHasNoPlace(st.slots, query);
  }

  lemma OlderIsVictim(slots: seq<Slot>, now: int, at: nat, i: nat)
    requires |slots| == SLOTS && at < SLOTS && i < SLOTS
    requires slots[i].timestamp <= now && slots[i].timestamp < slots[at].timestamp
    ensures Victim(slots, now) != at
  {
    VictimIsOldest(slots, now);
  }

  /** A query looked up at `now` outlives the next new query, stored into the full table at `later`, whenever some other
      slot was last used before that lookup and not after `later`. */
  lemma UsedIsKept(st: CacheState, query: string, now: int, other: string, a: Answer, later: int, i: nat)
    requires Valid(st) && st.count == 256 && Query(query) && query in Abstract(st.slots)
    requires Query(other) && other !in Abstract(st.slots) && a.intent != UNKNOWN
    requires i < 256 && st.slots[i].query != query
    requires st.slots[i].timestamp <= later && st.slots[i].timestamp < now + st.ticks / 256
    ensures query in Abstract(Stored(Looked(st, query, now), other, a, later).slots)
  {
    AbstractHolds(st.slots);
    var at :| 0 <= at < SLOTS && st.slots[at].query == query;
    LookupRenews(st, query, now, at);
    LookupRefines(st, query, now);
    var looked := Looked(st, query, now);
    OlderIsVictim(looked.slots, later, at, i);
    StoreRefines(looked, other, a, later);
    assert looked.slots[Victim(looked.slots, later)].query != query;
  }

  // ---- the hash is a polynomial, and its 32-bit wrap-around does not show ----

  function Power33(n: nat): nat {
    if n == 0 then 1 else 33 * Power33(n - 1)
  }

  /** The bytes as the digits of a number to base 33. */
  function Digits33(s: string): nat {
    if s == "" then 0 else s[0] as int * Power33(|s| - 1) + Digits33(s[1..])
  }

  lemma WrapStep(hash: nat, c: nat, power: nat, rest: nat)
    ensures ((hash * 33 + c) % WORD * power + rest) % SLOTS == (hash * (33 * power) + (c * power + rest)) % SLOTS
  {
    var whole := hash * 33 + c;
    var turns := whole / WORD;
    assert whole == whole % WORD + WORD * turns;
    var wrapped := whole % WORD;
    assert whole * power == wrapped * power + WORD * turns * power;
    assert WORD * turns * power == SLOTS * (0x1_00_0000 * (turns * power));
    assert whole * power == hash * (33 * power) + c * power;
    AddMultiple(wrapped * power + rest, 0x1_00_0000 * (turns * power));
  }

  lemma AddMultiple(a: nat, k: nat)
    ensures (a + SLOTS * k) % SLOTS == a % SLOTS
  {
  }

  lemma {:induction false} HashFromIs(hash: nat, s: string)
    ensures HashFrom(hash, s) % SLOTS == (hash * Power33(|s|) + Digits33(s)) % SLOTS
    decreases |s|
  {
    if s != "" {
      HashFromIs((hash * 33 + s[0] as int) % WORD, s[1..]);
      WrapStep(hash, s[0] as int, Power33(|s| - 1), Digits33(s[1..]));
    }
  }

  /** A query's first slot is its value as a number to base 33 behind the digit 5381, modulo 256. */
  lemma HashIs(query: string)
    ensures Hash(query) == (5381 * Power33(|query|) + Digits33(query)) % 256
  {
    HashFromIs(5381, query);
  }

  // ---- every run ----

  datatype Op = LookupOp(query: string, now: int) | StoreOp(query: string, answer: Answer, now: int) | ClearOp

  ghost predicate Proper(op: Op) {
    op.ClearOp? || Query(op.query)
  }

  function Step(st: CacheState, op: Op): (next: CacheState)
    requires |st.slots| == SLOTS
    ensures |next.slots| == SLOTS
  {
    match op
    case LookupOp(query, now) => Looked(st, query, now)
    case StoreOp(query, a, now) => Stored(st, query, a, now)
    case ClearOp => Cleared()
  }

  function Run(ops: seq<Op>): (last: CacheState)
    ensures |last.slots| == SLOTS
  {
    if ops == [] then Cleared() else Step(Run(ops[..|ops| - 1]), ops[|ops| - 1])
  }

  lemma StepKeepsValid(st: CacheState, op: Op)
    requires Valid(st) && Proper(op)
    ensures Valid(Step(st, op))
  {
    match op {
      case LookupOp(query, now) => LookupRefines(st, query, now);
      case StoreOp(query, a, now) =>
        if a.intent != UNKNOWN {
          StoreRefines(st, query, a, now);
        }
      case ClearOp => ClearedIsEmpty();
    }
  }

  /** In every reachable state the table is a finite map of at most 256 non-empty queries,
      and the count is its size. */
  lemma {:induction false} EveryRunIsValid(ops: seq<Op>)
    requires forall op :: op in ops ==> Proper(op)
    ensures Valid(Run(ops))
    ensures Run(ops).count == |Abstract(Run(ops).slots)| <= SLOTS
    ensures "" !in Abstract(Run(ops).slots)
  {
    if ops == [] {
      ClearedIsEmpty();
    } else {
      EveryRunIsValid(ops[..|ops| - 1]);
      StepKeepsValid(Run(ops[..|ops| - 1]), ops[|ops| - 1]);
    }
    AbstractHolds(Run(ops).slots);
  }

  // ---- the cache itself ----

  lemma ShiftAndAdd(hash: nat, c: nat)
    ensures (hash * 32 % WORD + hash + c) % WORD == (hash * 33 + c) % WORD
  {
  }

  class QueryCache {
    const slots: array<Slot>
    var count: int
    var ticks: int

    ghost predicate Shaped()
      reads this
    {
      slots.Length == SLOTS && ticks >= 0
    }

    ghost function State(): (st: CacheState)
      reads this, slots
    {
      CacheState(slots[..], count, ticks)
    }

    constructor ()
      ensures Shaped() && fresh(slots)
      ensures State() == Cleared()
    {
      slots := new Slot[SLOTS](_ => FREE_SLOT);
      count := 0;
      ticks := 0;
      new;
      assert slots[..] == Cleared().slots;
    }

    method HashQuery(query: string) returns (h: nat)
      ensures h == Hash(query)
    {
      var hash := 5381;
      for i := 0 to |query|
        invariant 0 <= hash && HashFrom(hash, query[i..]) == HashFrom(5381, query)
      {
        ShiftAndAdd(hash, query[i] as int);
        hash := (hash * 32 % WORD + hash + query[i] as int) % WORD;
        assert query[i..][1..] == query[i + 1..];
      }
      return hash % SLOTS;
    }

    /** The probe that meets the query, or SLOTS. */
    method FindQuery(query: string) returns (probe: nat)
      requires Shaped() && query != ""
      ensures probe == Seek(slots[..], query, 0)
    {
      var hash := HashQuery(query);
      for i := 0 to SLOTS
        invariant Seek(slots[..], query, 0) == Seek(slots[..], query, i)
      {
        var idx := (hash + i) % SLOTS;
        assert idx == Probe(query, i);
        if slots[idx].query == "" { continue; }
        if slots[idx].query == query {
          return i;
        }
      }
      return SLOTS;
    }

    method Lookup(query: string, now: int) returns (found: bool, result: MatchResult)
      requires Shaped() && query != ""
      modifies this, slots
      ensures Shaped()
      ensures State() == Looked(old(State()), query, now)
      ensures found <==> Found(old(slots[..]), query).Some?
      ensures result == if found then CacheResult(Found(old(slots[..]), query).value) else ZERO_RESULT
    {
      var probe := FindQuery(query);
      if probe == SLOTS {
        return false, ZERO_RESULT;
      }
      var idx := Probe(query, probe);
      result := CacheResult(slots[idx].answer);
      slots[idx] := Touched(slots[idx], now + ticks / 256);
      return true, result;
    }

    /** The probe that meets a free slot or the query, or SLOTS. */
    method FindPlace(query: string) returns (place: nat)
      requires Shaped()
      ensures place == SeekPlace(slots[..], query, 0)
    {
      var hash := HashQuery(query);
      for i := 0 to SLOTS
        invariant SeekPlace(slots[..], query, 0) == SeekPlace(slots[..], query, i)
      {
        var idx := (hash + i) % SLOTS;
        assert idx == Probe(query, i);
        if slots[idx].query == "" || slots[idx].query == query {
          return i;
        }
      }
      return SLOTS;
    }

    method Store(query: string, a: Answer, now: int)
      requires Shaped() && query != ""
      modifies this, slots
      ensures Shaped()
      ensures State() == Stored(old(State()), query, a, now)
    {
      if a.intent == UNKNOWN { return; }
      var entry := Slot(Cut(query, MAX_QUERY_LEN - 1), Trimmed(a), now + ticks / 256, 1);
      var place := FindPlace(query);
      if place < SLOTS {
        var idx := Probe(query, place);
        if slots[idx].query == "" {
          slots[idx] := entry;
          count := count + 1;
        } else {
          slots[idx] := Touched(slots[idx], now + ticks / 256);
        }
      } else {
        var oldest := FindOldest(now);
        slots[oldest] := entry;
      }
      ticks := ticks + 1;
    }

    method FindOldest(now: int) returns (oldestIdx: nat)
      requires Shaped()
      ensures oldestIdx < SLOTS && oldestIdx == Victim(slots[..], now)
    {
      oldestIdx := 0;
      var oldestTime := now + 1;
      ghost var keys, floor, best := AgeKeys(slots[..]), -(now + 1) as real, -1;
      for i := 0 to SLOTS
        invariant oldestIdx == (if best < 0 then 0 else best) && oldestIdx < SLOTS
        invariant Scanned(keys, i, floor, best, -oldestTime as real)
      {
        ScanOne(keys, i, floor, best, -oldestTime as real);
        if slots[i].timestamp < oldestTime {
          oldestTime := slots[i].timestamp;
          oldestIdx := i;
          best := i;
        }
      }
      ScanAll(keys, floor, best, -oldestTime as real);
    }

    method Clear()
      requires Shaped()
      modifies this, slots
      ensures Shaped() && State() == Cleared()
    {
      for i := 0 to SLOTS
        invariant Shaped()
        invariant forall k :: 0 <= k < i ==> slots[k] == FREE_SLOT
      {
        slots[i] := FREE_SLOT;
      }
      count := 0;
      ticks := 0;
      assert slots[..] == Cleared().slots;
    }
  }
}
