/** The session table (components/orchestrator/session/session.c). */
module Sessions {
  import opened CStrings

  const MAX_SESSIONS: nat := 1024
  const SESSION_TIMEOUT: int := 300
  const MAX_HISTORY_ENTRIES: nat := 50
  const ID_LEN: nat := 64

  datatype Entry = Entry(query: string, response: string, timestamp: int)

  datatype Session = Session(sessionId: string, clientId: string, history: seq<Entry>, lastActive: int, active: bool)

  const ZERO_SESSION := Session("", "", [], 0, false)

  function Digits(n: nat): string {
    if n < 10 then [('0' as int + n) as char] else Digits(n / 10) + [('0' as int + n % 10) as char]
  }

  function Decimal(n: int): string {
    if n < 0 then "-" + Digits(-n) else Digits(n)
  }

  function SessionId(client: string, now: int): string {
    Cut(client + "_" + Decimal(now), ID_LEN - 1)
  }

  function Fresh(client: string, now: int): Session {
    Session(SessionId(client, now), Cut(client, ID_LEN - 1), [], now, true)
  }

  // ---- what the operations mean on the table's used slots ----

  function SlotOf(slots: seq<Session>, client: string): (r: Option<nat>)
    ensures r.Some? ==> r.value < |slots| && slots[r.value].clientId == client
    ensures forall i :: 0 <= i < |slots| && slots[i].clientId == client ==> r.Some? && r.value <= i
  {
    if slots == [] then None
    else
      var r := SlotOf(slots[..|slots| - 1], client);
      if r.Some? then r else if slots[|slots| - 1].clientId == client then Some(|slots| - 1) else None
  }

  /** The first scan from slot i on: the client's first live session is touched and ends it, each expired one met
      before is marked inactive. */
  function Scanned(slots: seq<Session>, timeout: int, client: string, now: int, i: nat)
    : (r: (Option<nat>, seq<Session>))
    requires i <= |slots|
    ensures |r.1| == |slots| && (r.0.Some? ==> i <= r.0.value < |slots|)
    decreases |slots| - i
  {
    if i == |slots| then (None, slots)
    else if slots[i].clientId != client then Scanned(slots, timeout, client, now, i + 1)
    else if now - slots[i].lastActive < timeout then (Some(i), slots[i := slots[i].(lastActive := now)])
    else Scanned(slots[i := slots[i].(active := false)], timeout, client, now, i + 1)
  }

  function FirstInactive(slots: seq<Session>, i: nat): (r: nat)
    requires i <= |slots|
    ensures i <= r <= |slots| && (r < |slots| ==> !slots[r].active)
    ensures forall k :: i <= k < r ==> slots[k].active
    decreases |slots| - i
  {
    if i == |slots| || !slots[i].active then i else FirstInactive(slots, i + 1)
  }

  /** A live session is touched; else the first inactive slot is given to the client; else the next slot while there
      is one. */
  function Served(slots: seq<Session>, max: nat, timeout: int, client: string, now: int)
    : (r: (Option<nat>, seq<Session>))
    ensures r.0.Some? ==> r.0.value < |r.1|
    ensures |slots| <= |r.1| <= |slots| + 1
  {
    var (live, scanned) := Scanned(slots, timeout, client, now, 0);
    var free := FirstInactive(scanned, 0);
    if live.Some? then (live, scanned)
    else if free < |scanned| then (Some(free), scanned[free := Fresh(client, now)])
    else if |scanned| < max then (Some(|scanned|), scanned + [Fresh(client, now)])
    else (None, scanned)
  }

  function WithEntry(s: Session, query: string, response: string, now: int): Session {
    s.(lastActive := now,
       history := if |s.history| >= MAX_HISTORY_ENTRIES then s.history
                  else s.history + [Entry(Cut(query, 65535), Cut(response, 65535), now)])
  }

  function FirstWithId(slots: seq<Session>, id: string, i: nat): (r: nat)
    requires i <= |slots|
    ensures i <= r <= |slots| && (r < |slots| ==> slots[r].sessionId == id)
    ensures forall k :: i <= k < r ==> slots[k].sessionId != id
    decreases |slots| - i
  {
    if i == |slots| || slots[i].sessionId == id then i else FirstWithId(slots, id, i + 1)
  }

  function Noted(slots: seq<Session>, id: string, query: string, response: string, now: int): seq<Session> {
    var i := FirstWithId(slots, id, 0);
    if i < |slots| then slots[i := WithEntry(slots[i], query, response, now)] else slots
  }

  // ---- the table ----

  /** All used slots are active, and no client has two. */
  ghost predicate Sound(slots: seq<Session>) {
    && (forall i :: 0 <= i < |slots| ==> slots[i].active)
    && (forall i, j :: 0 <= i < j < |slots| ==> slots[i].clientId != slots[j].clientId)
  }

  /** What service means in a sound table: a known client keeps its slot, touched while alive and started afresh once
      expired; an unknown client gets the next slot while there is one. */
  function OwnSlot(slots: seq<Session>, max: nat, timeout: int, client: string, now: int): (Option<nat>, seq<Session>) {
    var at := SlotOf(slots, client);
    if at.Some? then
      var s := slots[at.value];
      (at, slots[at.value := if now - s.lastActive < timeout then s.(lastActive := now) else Fresh(client, now)])
    else if |slots| < max then (Some(|slots|), slots + [Fresh(client, now)])
    else (None, slots)
  }

  lemma {:induction false} ScannedUnknown(slots: seq<Session>, timeout: int, client: string, now: int, i: nat)
    requires i <= |slots| && forall k :: i <= k < |slots| ==> slots[k].clientId != client
    ensures Scanned(slots, timeout, client, now, i) == (None, slots)
    decreases |slots| - i
  {
    if i < |slots| {
      ScannedUnknown(slots, timeout, client, now, i + 1);
    }
  }

  lemma {:induction false} ScannedKnown(slots: seq<Session>, timeout: int, client: string, now: int, i: nat, own: nat)
    requires i <= own < |slots| && slots[own].clientId == client
    requires forall k :: i <= k < |slots| && k != own ==> slots[k].clientId != client
    ensures Scanned(slots, timeout, client, now, i) ==
              if now - slots[own].lastActive < timeout then (Some(own), slots[own := slots[own].(lastActive := now)])
              else (None, slots[own := slots[own].(active := false)])
    decreases |slots| - i
  {
    if i < own {
      ScannedKnown(slots, timeout, client, now, i + 1, own);
    } else if now - slots[own].lastActive >= timeout {
      ScannedUnknown(slots[own := slots[own].(active := false)], timeout, client, now, i + 1);
    }
  }

  /** In a sound table the reuse loop only ever hits the caller's own expired slot. */
  lemma ServedIsOwn(slots: seq<Session>, max: nat, timeout: int, client: string, now: int)
    requires Sound(slots)
    ensures Served(slots, max, timeout, client, now) == OwnSlot(slots, max, timeout, client, now)
  {
    var at := SlotOf(slots, client);
    if at.None? {
      ScannedUnknown(slots, timeout, client, now, 0);
    } else {
      var own := at.value;
      ScannedKnown(slots, timeout, client, now, 0, own);
      var expired := slots[own := slots[own].(active := false)];
      assert !expired[own].active && forall k :: 0 <= k < |slots| && k != own ==> expired[k].active;
      assert FirstInactive(expired, 0) == own;
      assert expired[own := Fresh(client, now)] == slots[own := Fresh(client, now)];
    }
  }

  /** Written out for a client that fits its field: its own session is touched while less than the timeout has passed,
      and otherwise started afresh, history and all; a new client gets the next slot while there is one. */
  lemma ServedExactly(slots: seq<Session>, max: nat, timeout: int, client: string, now: int)
    requires Sound(slots) && |client| < 64
    ensures var new' := Session(Cut(client + "_" + Decimal(now), 63), client, [], now, true);
            && (forall i: nat :: i < |slots| && slots[i].clientId == client ==>
                  Served(slots, max, timeout, client, now)
                    == (Some(i), slots[i := if now - slots[i].lastActive < timeout then slots[i].(lastActive := now)
                                            else new']))
            && ((forall i :: 0 <= i < |slots| ==> slots[i].clientId != client) ==>
                  Served(slots, max, timeout, client, now)
                    == if |slots| < max then (Some(|slots|), slots + [new']) else (None, slots))
  {
    ServedIsOwn(slots, max, timeout, client, now);
  }

  /** With its session at i, the first of that id, a note touches it and is kept while there are fewer than 50; without
      one it is dropped. */
  lemma NotedExactly(slots: seq<Session>, id: string, query: string, response: string, now: int, i: nat)
    requires i <= |slots| && (forall j :: 0 <= j < i ==> slots[j].sessionId != id)
    requires i < |slots| ==> slots[i].sessionId == id
    ensures Noted(slots, id, query, response, now) ==
              if i == |slots| then slots
              else
                var kept := if |slots[i].history| >= 50 then slots[i].history
                            else slots[i].history + [Entry(Cut(query, 65535), Cut(response, 65535), now)];
                slots[i := slots[i].(lastActive := now, history := kept)]
  {
  }

  class SessionManager {
    const slots: array<Session>
    var count: nat
    const max: nat
    const timeout: int

    ghost predicate Valid()
      reads this, slots
    {
      && slots.Length == MAX_SESSIONS && count <= max <= MAX_SESSIONS
      && forall k :: count <= k < slots.Length ==> slots[k] == ZERO_SESSION
    }

    ghost function Contents(): seq<Session>
      requires Valid()
      reads this, slots
    {
      slots[..count]
    }

    constructor (maxSessions: int, timeoutSecs: int)
      requires maxSessions <= MAX_SESSIONS
      ensures Valid() && fresh(slots) && Contents() == []
      ensures max == (if maxSessions > 0 then maxSessions else MAX_SESSIONS)
      ensures timeout == if timeoutSecs > 0 then timeoutSecs else SESSION_TIMEOUT
    {
      slots := new Session[MAX_SESSIONS](_ => ZERO_SESSION);
      count := 0;
      max := if maxSessions > 0 then maxSessions else MAX_SESSIONS;
      timeout := if timeoutSecs > 0 then timeoutSecs else SESSION_TIMEOUT;
    }

    /** The first scan. */
    method TouchOrExpire(client: string, now: int) returns (r: Option<nat>)
      requires Valid()
      modifies slots
      ensures Valid() && (r, Contents()) == Scanned(old(Contents()), timeout, client, now, 0)
    {
      ghost var was := Contents();
      for i := 0 to count
        invariant Valid() && |Contents()| == |was|
        invariant Scanned(was, timeout, client, now, 0) == Scanned(Contents(), timeout, client, now, i)
      {
        ghost var before := Contents();
        if slots[i].clientId == client {
          if now - slots[i].lastActive < timeout {
            slots[i] := slots[i].(lastActive := now);
            assert Contents() == before[i := before[i].(lastActive := now)];
            return Some(i);
          }
          slots[i] := slots[i].(active := false);
          assert Contents() == before[i := before[i].(active := false)];
        }
      }
      return None;
    }

    /** The second scan: the first inactive slot is cleared and given to the client. */
    method ReuseInactive(client: string, now: int) returns (r: Option<nat>)
      requires Valid()
      modifies slots
      ensures Valid()
      ensures var was := old(Contents());
              var free := FirstInactive(was, 0);
              if free < |was| then r == Some(free) && Contents() == was[free := Fresh(client, now)]
              else r == None && Contents() == was
    {
      ghost var was := Contents();
      for i := 0 to count
        invariant Valid() && Contents() == was && FirstInactive(was, 0) == FirstInactive(was, i)
      {
        if !slots[i].active {
          slots[i] := Fresh(client, now);
          assert Contents() == was[i := Fresh(client, now)];
          return Some(i);
        }
      }
      return None;
    }

    method GetOrCreate(client: string, now: int) returns (r: Option<nat>)
      requires Valid()
      modifies this, slots
      ensures Valid()
      ensures (r, Contents()) == Served(old(Contents()), max, timeout, client, now)
    {
      r := TouchOrExpire(client, now);
      if r.Some? { return; }
      r := ReuseInactive(client, now);
      if r.Some? { return; }
      if count < max {
        ghost var was := Contents();
        slots[count] := ZERO_SESSION.(clientId := Cut(client, ID_LEN - 1), sessionId := SessionId(client, now),
                                      lastActive := now, active := true);
        count := count + 1;
        assert Contents() == was + [Fresh(client, now)];
        return Some(count - 1);
      }
      return None;
    }

    method AddHistory(id: string, query: string, response: string, now: int) returns (ok: bool)
      requires Valid()
      modifies slots
      ensures Valid()
      ensures Contents() == Noted(old(Contents()), id, query, response, now)
      ensures ok <==> exists s :: s in old(Contents()) && s.sessionId == id
    {
      ghost var was := slots[..count];
      for i := 0 to count
        invariant slots[..count] == was && Valid()
        invariant FirstWithId(was, id, 0) == FirstWithId(was, id, i)
        invariant forall k :: 0 <= k < i ==> was[k].sessionId != id
      {
        if slots[i].sessionId == id {
          assert was[i] in was;
          slots[i] := WithEntry(slots[i], query, response, now);
          assert slots[..count] == was[i := WithEntry(was[i], query, response, now)];
          return true;
        }
      }
      return false;
    }
  }

  // ---- every run ----

  datatype Op = Serve(client: string, now: int) | Note(id: string, query: string, response: string, now: int)

  function Step(slots: seq<Session>, max: nat, timeout: int, op: Op): seq<Session> {
    match op
    case Serve(client, now) => Served(slots, max, timeout, client, now).1
    case Note(id, query, response, now) => Noted(slots, id, query, response, now)
  }

  function Run(slots: seq<Session>, max: nat, timeout: int, ops: seq<Op>): seq<Session> {
    if ops == [] then slots else Step(Run(slots, max, timeout, ops[..|ops| - 1]), max, timeout, ops[|ops| - 1])
  }

  ghost predicate Proper(ops: seq<Op>) {
    forall i :: 0 <= i < |ops| && ops[i].Serve? ==> |ops[i].client| < ID_LEN
  }

  lemma StepKeepsOwners(slots: seq<Session>, max: nat, timeout: int, op: Op)
    requires Sound(slots) && |slots| <= max && (op.Serve? ==> |op.client| < ID_LEN)
    ensures Sound(Step(slots, max, timeout, op)) && |slots| <= |Step(slots, max, timeout, op)| <= max
    ensures forall i :: 0 <= i < |slots| ==> Step(slots, max, timeout, op)[i].clientId == slots[i].clientId
  {
    if op.Serve? {
      ServedIsOwn(slots, max, timeout, op.client, op.now);
    }
  }

  /** In every reachable state the used slots are active with distinct clients, and a slot never
      changes owner: later states only add slots. */
  lemma {:induction false} EveryRunKeepsOwners(slots: seq<Session>, max: nat, timeout: int, ops: seq<Op>)
    requires Sound(slots) && |slots| <= max && Proper(ops)
    ensures Sound(Run(slots, max, timeout, ops)) && |slots| <= |Run(slots, max, timeout, ops)| <= max
    ensures forall i :: 0 <= i < |slots| ==> Run(slots, max, timeout, ops)[i].clientId == slots[i].clientId
  {
    if ops != [] {
      EveryRunKeepsOwners(slots, max, timeout, ops[..|ops| - 1]);
      StepKeepsOwners(Run(slots, max, timeout, ops[..|ops| - 1]), max, timeout, ops[|ops| - 1]);
    }
  }

  /** A client served once is always served again, from the same slot. */
  lemma ServedOnceServedAlways(slots: seq<Session>, max: nat, timeout: int, client: string, now: int, ops: seq<Op>,
                               later: int)
    requires Sound(slots) && |slots| <= max && Proper(ops) && |client| < ID_LEN
    requires Served(slots, max, timeout, client, now).0.Some?
    ensures var first := Served(slots, max, timeout, client, now);
            Served(Run(first.1, max, timeout, ops), max, timeout, client, later).0 == first.0
  {
    var first := Served(slots, max, timeout, client, now);
    StepKeepsOwners(slots, max, timeout, Serve(client, now));
    EveryRunKeepsOwners(first.1, max, timeout, ops);
    var last := Run(first.1, max, timeout, ops);
    ServedIsOwn(slots, max, timeout, client, now);
    ServedIsOwn(last, max, timeout, client, later);
    assert first.1[first.0.value].clientId == client;
    assert last[first.0.value].clientId == client;
  }

  ghost predicate Held(slots: seq<Session>, client: string) {
    exists i :: 0 <= i < |slots| && slots[i].clientId == client
  }

  lemma StepKeepsHeld(slots: seq<Session>, max: nat, timeout: int, op: Op, client: string)
    requires Sound(slots) && |slots| <= max && (op.Serve? ==> |op.client| < ID_LEN) && Held(slots, client)
    ensures Held(Step(slots, max, timeout, op), client)
  {
    StepKeepsOwners(slots, max, timeout, op);
    var i :| 0 <= i < |slots| && slots[i].clientId == client;
    assert Step(slots, max, timeout, op)[i].clientId == client;
  }

  lemma ServedHolds(slots: seq<Session>, max: nat, timeout: int, client: string, now: int)
    requires Sound(slots) && |client| < ID_LEN && Served(slots, max, timeout, client, now).0.Some?
    ensures Held(Step(slots, max, timeout, Serve(client, now)), client)
  {
    ServedIsOwn(slots, max, timeout, client, now);
    var served := Served(slots, max, timeout, client, now);
    assert served.1[served.0.value].clientId == client;
  }

  lemma {:induction false} HeldStays(slots: seq<Session>, max: nat, timeout: int, ops: seq<Op>, k: nat, client: string)
    requires Sound(slots) && |slots| <= max && Proper(ops) && k <= |ops|
    requires Held(Run(slots, max, timeout, ops[..k]), client)
    ensures Held(Run(slots, max, timeout, ops), client)
  {
    if k == |ops| {
      assert ops[..k] == ops;
    } else {
      var front := ops[..|ops| - 1];
      assert front[..k] == ops[..k];
      HeldStays(slots, max, timeout, front, k, client);
      EveryRunKeepsOwners(slots, max, timeout, front);
      StepKeepsHeld(Run(slots, max, timeout, front), max, timeout, ops[|ops| - 1], client);
    }
  }

  lemma RunPush(slots: seq<Session>, max: nat, timeout: int, ops: seq<Op>, k: nat)
    requires k < |ops|
    ensures Run(slots, max, timeout, ops[..k + 1]) == Step(Run(slots, max, timeout, ops[..k]), max, timeout, ops[k])
  {
    assert ops[..k + 1][..k] == ops[..k];
  }

  /** At the end of a run every client that was served in it is held. */
  lemma ServedIsHeld(slots: seq<Session>, max: nat, timeout: int, ops: seq<Op>, k: nat)
    requires Sound(slots) && |slots| <= max && Proper(ops) && k < |ops| && ops[k].Serve?
    requires Served(Run(slots, max, timeout, ops[..k]), max, timeout, ops[k].client, ops[k].now).0.Some?
    ensures Held(Run(slots, max, timeout, ops), ops[k].client)
  {
    EveryRunKeepsOwners(slots, max, timeout, ops[..k]);
    ServedHolds(Run(slots, max, timeout, ops[..k]), max, timeout, ops[k].client, ops[k].now);
    RunPush(slots, max, timeout, ops, k);
    HeldStays(slots, max, timeout, ops, k + 1, ops[k].client);
  }

  /** A client refused once is refused for ever: no expiry of other clients' sessions frees a slot. */
  lemma {:induction false} RefusedOnceRefusedAlways(slots: seq<Session>, max: nat, timeout: int, client: string,
                                                    now: int, ops: seq<Op>, later: int)
    requires Sound(slots) && |slots| <= max && Proper(ops) && |client| < ID_LEN
    requires Served(slots, max, timeout, client, now).0.None?
    ensures Served(Run(slots, max, timeout, ops), max, timeout, client, later).0.None?
  {
    EveryRunKeepsOwners(slots, max, timeout, ops);
    var last := Run(slots, max, timeout, ops);
    ServedIsOwn(slots, max, timeout, client, now);
    ServedIsOwn(last, max, timeout, client, later);
    assert |last| == |slots| == max;
    assert forall i :: 0 <= i < |last| ==> last[i].clientId == slots[i].clientId;
  }

  ghost predicate SizedIds(slots: seq<Session>) {
    forall i :: 0 <= i < |slots| ==> |slots[i].clientId| < ID_LEN
  }

  /** A client is recognised again exactly when its id fits the slot's 64 bytes: a longer id is compared with its cut
      copy, never found, and takes a new slot every time. */
  lemma RecognisedExactly(slots: seq<Session>, max: nat, timeout: int, client: string, now: int, later: int)
    requires Sound(slots) && SizedIds(slots) && |slots| + 2 <= max
    ensures var first := Served(slots, max, timeout, client, now);
            var second := Served(first.1, max, timeout, client, later);
            && first.0.Some? && second.0.Some?
            && (second.0 == first.0 <==> |client| < ID_LEN) && (Sound(second.1) <==> |client| < ID_LEN)
  {
    ServedIsOwn(slots, max, timeout, client, now);
    if |client| < ID_LEN {
      ServedOnceServedAlways(slots, max, timeout, client, now, [], later);
      StepKeepsOwners(slots, max, timeout, Serve(client, now));
      StepKeepsOwners(Served(slots, max, timeout, client, now).1, max, timeout, Serve(client, later));
    } else {
      var next := slots + [Fresh(client, now)];
      ScannedUnknown(slots, timeout, client, now, 0);
      ScannedUnknown(next, timeout, client, later, 0);
      assert FirstInactive(next, 0) == |next|;
      var after := next + [Fresh(client, later)];
      assert Served(next, max, timeout, client, later).1 == after;
      assert after[|slots|].clientId == after[|slots| + 1].clientId;
    }
  }

  // ---- session ids ----

  lemma {:induction false} DigitsPlain(n: nat)
    ensures '_' !in Digits(n)
  {
    if n >= 10 {
      DigitsPlain(n / 10);
    }
  }

  lemma LastUnderscore(a: string, d: string, b: string, e: string)
    requires '_' !in d && '_' !in e && a + "_" + d == b + "_" + e
    ensures a == b
  {
    var s := a + "_" + d;
    assert s[|a|] == '_' && s[|b|] == '_';
    assert forall k :: |a| < k < |s| ==> s[k] == d[k - |a| - 1];
    assert forall k :: |b| < k < |s| ==> s[k] == e[k - |b| - 1];
    assert |a| == |b|;
    assert a == s[..|a|] && b == s[..|b|];
  }

  /** The id fits its field uncut. */
  ghost predicate IdFits(client: string, now: int) {
    |client| + 1 + |Decimal(now)| < ID_LEN
  }

  lemma DecimalPlain(n: int)
    ensures '_' !in Decimal(n) && Decimal(n) != ""
  {
    DigitsPlain(if n < 0 then -n else n);
  }

  /** Uncut, an id names its client. */
  lemma SessionIdNamesClient(c1: string, t1: int, c2: string, t2: int)
    requires IdFits(c1, t1) && IdFits(c2, t2) && SessionId(c1, t1) == SessionId(c2, t2)
    ensures c1 == c2
  {
    DecimalPlain(t1);
    DecimalPlain(t2);
    LastUnderscore(c1, Decimal(t1), c2, Decimal(t2));
  }

  // ---- which texts start a decimal ----

  predicate IsDigit(c: char) {
    '0' <= c <= '9'
  }

  /** A natural number as it is printed: digits without a leading zero. */
  predicate Numeral(d: string) {
    d != "" && (forall i :: 0 <= i < |d| ==> IsDigit(d[i])) && (d[0] == '0' ==> d == "0")
  }

  /** Nothing, a number, or a minus sign and nothing or a number other than 0. */
  predicate StartsDecimal(d: string) {
    d == "" || Numeral(d) || (d[0] == '-' && (d == "-" || (Numeral(d[1..]) && d[1] != '0')))
  }

  lemma {:induction false} DigitsAreNumeral(n: nat)
    ensures Numeral(Digits(n)) && (Digits(n)[0] == '0' <==> n == 0)
  {
    if n >= 10 {
      DigitsAreNumeral(n / 10);
    }
  }

  function ValueOf(d: string): nat
    requires forall i :: 0 <= i < |d| ==> IsDigit(d[i])
  {
    if d == "" then 0 else ValueOf(d[..|d| - 1]) * 10 + DigitValue(d[|d| - 1])
  }

  function DigitValue(c: char): (v: nat)
    requires IsDigit(c)
    ensures v < 10 && ('0' as int + v) as char == c && (c == '0' <==> v == 0)
  {
    c as int - '0' as int
  }

  lemma PushDigit(front: string, last: char)
    requires Numeral(front) && IsDigit(last) && Digits(ValueOf(front)) == front && ValueOf(front) > 0
    ensures Numeral(front + [last]) ==> Digits(ValueOf(front + [last])) == front + [last] && ValueOf(front + [last]) > 0
  {
    var d := front + [last];
    if Numeral(d) {
      assert d[..|d| - 1] == front;
      assert ValueOf(d) == ValueOf(front) * 10 + DigitValue(last);
      assert ValueOf(d) / 10 == ValueOf(front) && ValueOf(d) % 10 == DigitValue(last);
    }
  }

  lemma OneDigit(c: char)
    requires IsDigit(c)
    ensures ValueOf([c]) == DigitValue(c) && Digits(ValueOf([c])) == [c]
  {
    assert [c][..0] == [];
    assert ValueOf([]) == 0;
  }

  lemma {:induction false} NumeralIsDigits(d: string)
    requires Numeral(d)
    ensures Digits(ValueOf(d)) == d && (d[0] == '0' <==> ValueOf(d) == 0)
  {
    var front, last := d[..|d| - 1], d[|d| - 1];
    assert d == front + [last];
    if front == "" {
      OneDigit(last);
    } else {
      assert front[0] == d[0] != '0';
      NumeralIsDigits(front);
      PushDigit(front, last);
    }
  }

  lemma NumeralPrefix(d: string, whole: string)
    requires Numeral(whole) && d <= whole && d != ""
    ensures Numeral(d) && d[0] == whole[0]
  {
  }

  lemma StartOfDecimal(d: string) returns (u: int)
    requires StartsDecimal(d)
    ensures d <= Decimal(u)
  {
    if d == "" {
      u := 0;
    } else if d == "-" {
      u := -1;
      assert Decimal(-1)[0] == '-';
    } else if d[0] == '-' {
      NumeralIsDigits(d[1..]);
      u := 0 - ValueOf(d[1..]);
      assert d == "-" + d[1..];
    } else {
      NumeralIsDigits(d);
      u := ValueOf(d);
    }
  }

  lemma DecimalStarts(d: string, u: int)
    requires d <= Decimal(u)
    ensures StartsDecimal(d)
  {
    if d != "" && d != "-" {
      var digits := Digits(if u < 0 then -u else u);
      DigitsAreNumeral(if u < 0 then -u else u);
      NumeralPrefix(if u < 0 then d[1..] else d, digits);
    }
  }

  // ---- when an id names its client ----

  /** No other client that fits its field has this id at any time. */
  ghost predicate NamesClient(client: string, now: int) {
    forall other: string, t: int ::
      |other| < ID_LEN && SessionId(other, t) == SessionId(client, now) ==> other == client
  }

  /** Some shorter client, an underscore and the start of a decimal. */
  predicate LooksLikeId(client: string) {
    exists k :: 0 <= k < |client| && client[k] == '_' && StartsDecimal(client[k + 1..])
  }

  lemma ShortIdNames(client: string, now: int)
    requires |client| + 1 + |Decimal(now)| < ID_LEN - 1
    ensures NamesClient(client, now)
  {
    forall other: string, t: int | |other| < ID_LEN && SessionId(other, t) == SessionId(client, now)
      ensures other == client
    {
      SessionIdNamesClient(other, t, client, now);
    }
  }

  /** From 63 bytes on the id is itself a client with that id. */
  lemma LongIdIsShared(client: string, now: int)
    requires |client| < ID_LEN - 1 <= |client| + 1 + |Decimal(now)|
    ensures !NamesClient(client, now)
  {
    var other := SessionId(client, now);
    assert |other| == ID_LEN - 1 && SessionId(other, now) == other;
  }

  lemma CutText(a: string, b: string, n: nat)
    requires |a| == n
    ensures Cut(a + b, n) == a
  {
  }

  lemma FullClient(client: string, now: int)
    requires |client| == ID_LEN - 1
    ensures SessionId(client, now) == client
  {
    CutText(client, "_" + Decimal(now), ID_LEN - 1);
    Assoc(client, "_", Decimal(now));
  }

  /** A shorter client whose cut id is this text. */
  lemma SharedByShorter(client: string, k: nat) returns (t: int)
    requires |client| == ID_LEN - 1 && k < |client| && client[k] == '_' && StartsDecimal(client[k + 1..])
    ensures SessionId(client[..k], t) == client
  {
    var d := client[k + 1..];
    t := StartOfDecimal(d);
    var more := Decimal(t)[|d|..];
    assert client == client[..k] + "_" + d && Decimal(t) == d + more;
    Assoc(client[..k] + "_", d, more);
    CutText(client, more, ID_LEN - 1);
  }

  lemma ShorterSharesOnlyLikeIds(client: string, other: string, t: int)
    requires |client| == ID_LEN - 1 && |other| < ID_LEN && SessionId(other, t) == client && other != client
    ensures LooksLikeId(client)
  {
    if |other| == ID_LEN - 1 {
      FullClient(other, t);
    } else {
      var whole := other + "_" + Decimal(t);
      assert client <= whole;
      assert client[|other|] == '_';
      var d := client[|other| + 1..];
      assert d == whole[|other| + 1..][..|d|] && whole[|other| + 1..] == Decimal(t);
      DecimalStarts(d, t);
    }
  }

  lemma FullClientNamesExactly(client: string, now: int)
    requires |client| == ID_LEN - 1
    ensures NamesClient(client, now) <==> !LooksLikeId(client)
  {
    FullClient(client, now);
    if LooksLikeId(client) {
      var k :| 0 <= k < |client| && client[k] == '_' && StartsDecimal(client[k + 1..]);
      var t := SharedByShorter(client, k);
      assert SessionId(client[..k], t) == SessionId(client, now);
    } else {
      forall other: string, t: int | |other| < ID_LEN && SessionId(other, t) == SessionId(client, now)
        ensures other == client
      {
        if other != client {
          ShorterSharesOnlyLikeIds(client, other, t);
        }
      }
    }
  }

  /** A session id belongs to one client alone exactly when it is shorter than 63 bytes, or the client fills its field
      and does not itself read like a shorter client's cut id. */
  lemma IdNamesClientExactly(client: string, now: int)
    requires |client| < ID_LEN
    ensures NamesClient(client, now) <==>
              if |client| < ID_LEN - 1 then |client| + 1 + |Decimal(now)| < ID_LEN - 1 else !LooksLikeId(client)
  {
    if |client| == ID_LEN - 1 {
      FullClientNamesExactly(client, now);
    } else if |client| + 1 + |Decimal(now)| < ID_LEN - 1 {
      ShortIdNames(client, now);
    } else {
      LongIdIsShared(client, now);
    }
  }

  /** Two clients, one id. */
  lemma CutIdsCollide(now: int, later: int)
    ensures exists a: string, b: string ::
              a != b && |a| < ID_LEN && |b| < ID_LEN && SessionId(a, now) == SessionId(b, later)
  {
    var a := seq(62, _ => 'a');
    var b := a + "_";
    assert SessionId(a, now) == b;
    assert SessionId(b, later) == b;
    assert a != b;
  }

  ghost predicate IdFromOwner(s: Session) {
    exists t :: IdFits(s.clientId, t) && s.sessionId == SessionId(s.clientId, t)
  }

  ghost predicate IdsFromOwners(slots: seq<Session>) {
    forall i :: 0 <= i < |slots| ==> IdFromOwner(slots[i])
  }

  lemma StepKeepsIds(slots: seq<Session>, max: nat, timeout: int, op: Op)
    requires Sound(slots) && IdsFromOwners(slots) && (op.Serve? ==> IdFits(op.client, op.now))
    ensures IdsFromOwners(Step(slots, max, timeout, op))
  {
    if op.Serve? {
      ServedIsOwn(slots, max, timeout, op.client, op.now);
      var fresh' := Fresh(op.client, op.now);
      assert IdFits(fresh'.clientId, op.now) && fresh'.sessionId == SessionId(fresh'.clientId, op.now);
      assert IdFromOwner(fresh');
    }
    var after := Step(slots, max, timeout, op);
    forall i | 0 <= i < |after|
      ensures IdFromOwner(after[i])
    {
      if i < |slots| {
        assert IdFromOwner(slots[i]);
      }
    }
  }

  lemma {:induction false} EveryRunKeepsIds(max: nat, timeout: int, ops: seq<Op>)
    requires Proper(ops) && forall i :: 0 <= i < |ops| && ops[i].Serve? ==> IdFits(ops[i].client, ops[i].now)
    ensures IdsFromOwners(Run([], max, timeout, ops))
  {
    if ops != [] {
      var n := |ops| - 1;
      EveryRunKeepsIds(max, timeout, ops[..n]);
      EveryRunKeepsOwners([], max, timeout, ops[..n]);
      StepKeepsIds(Run([], max, timeout, ops[..n]), max, timeout, ops[n]);
    }
  }

  /** While no id is cut, history noted under a session's id goes to that session and to no other. */
  lemma NotesReachTheirSession(max: nat, timeout: int, ops: seq<Op>, i: nat, query: string, response: string, now: int)
    requires Proper(ops) && forall k :: 0 <= k < |ops| && ops[k].Serve? ==> IdFits(ops[k].client, ops[k].now)
    requires i < |Run([], max, timeout, ops)|
    ensures var slots := Run([], max, timeout, ops);
            Noted(slots, slots[i].sessionId, query, response, now)
              == slots[i := WithEntry(slots[i], query, response, now)]
  {
    EveryRunKeepsOwners([], max, timeout, ops);
    EveryRunKeepsIds(max, timeout, ops);
    var slots := Run([], max, timeout, ops);
    var first := FirstWithId(slots, slots[i].sessionId, 0);
    assert IdFromOwner(slots[i]) && IdFromOwner(slots[first]);
    var t :| IdFits(slots[i].clientId, t) && slots[i].sessionId == SessionId(slots[i].clientId, t);
    var u :| IdFits(slots[first].clientId, u) && slots[first].sessionId == SessionId(slots[first].clientId, u);
    SessionIdNamesClient(slots[i].clientId, t, slots[first].clientId, u);
  }
}
