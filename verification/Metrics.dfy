/** Request counters and running latency (components/rule-engine/metrics/metrics.c). */
module Metrics {
  import opened RuleTables

  datatype Counters = Counters(total: nat, cache: nat, regex: nat, token: nat, intent: nat, alias: nat, fuzzy: nat,
                               unknown: nat, average: real, maximum: real)

  const ZERO := Counters(0, 0, 0, 0, 0, 0, 0, 0, 0.0, 0.0)

  /** One completed pipeline run: its result and its latency in microseconds. */
  datatype Event = Event(result: MatchResult, latency: real)

  function Hit(c: Counters, source: MatchSource): Counters {
    match source
    case CacheHit => c.(cache := c.cache + 1)
    case Regex => c.(regex := c.regex + 1)
    case Token => c.(token := c.token + 1)
    case IntentTable => c.(intent := c.intent + 1)
    case Alias => c.(alias := c.alias + 1)
    case FuzzyTable => c.(fuzzy := c.fuzzy + 1)
  }

  function Timed(c: Counters, latency: real): Counters {
    c.(average := if c.total <= 1 then latency else c.average * 0.95 + latency * 0.05,
       maximum := if latency > c.maximum then latency else c.maximum)
  }

  function Recorded(c: Counters, e: Event): Counters {
    var counted := c.(total := c.total + 1);
    var classed := if e.result.intent == UNKNOWN then counted.(unknown := counted.unknown + 1)
                   else Hit(counted, e.result.source);
    Timed(classed, e.latency)
  }

  function Run(events: seq<Event>): Counters {
    if events == [] then ZERO else Recorded(Run(events[..|events| - 1]), events[|events| - 1])
  }

  function HitsOf(c: Counters): nat {
    c.cache + c.regex + c.token + c.intent + c.alias + c.fuzzy
  }

  lemma RecordedCounts(c: Counters, e: Event)
    ensures Recorded(c, e).total == c.total + 1
    ensures Recorded(c, e).unknown + HitsOf(Recorded(c, e)) == c.unknown + HitsOf(c) + 1
  {
  }

  /** Every completed run is counted once, as unknown or as one of the six hits. */
  lemma {:induction false} Conservation(events: seq<Event>)
    ensures Run(events).total == |events| == Run(events).unknown + HitsOf(Run(events))
  {
    if events != [] {
      Conservation(events[..|events| - 1]);
      RecordedCounts(Run(events[..|events| - 1]), events[|events| - 1]);
    }
  }

  /** Runs that found an intent by this stage. */
  function FoundBy(source: MatchSource): Event -> bool {
    (e: Event) => e.result.intent != UNKNOWN && e.result.source == source
  }

  function FoundNothing(): Event -> bool {
    (e: Event) => e.result.intent == UNKNOWN
  }

  /** Each counter is the number of the runs of its kind. */
  lemma {:induction false} CountsExactly(events: seq<Event>)
    ensures var c := Run(events);
            && c.cache == |Filter(events, FoundBy(CacheHit))| && c.intent == |Filter(events, FoundBy(IntentTable))|
            && c.regex == |Filter(events, FoundBy(Regex))| && c.token == |Filter(events, FoundBy(Token))|
            && c.alias == |Filter(events, FoundBy(Alias))| && c.fuzzy == |Filter(events, FoundBy(FuzzyTable))|
            && c.unknown == |Filter(events, FoundNothing())| && c.total == |events|
  {
    if events != [] {
      CountsExactly(events[..|events| - 1]);
    }
  }

  lemma BlendWithin(average: real, latency: real, low: real, high: real)
    requires low <= average <= high && low <= latency <= high
    ensures low <= average * 0.95 + latency * 0.05 <= high
  {
  }

  /** The running average stays between any bounds on the recorded latencies. */
  lemma {:induction false} AverageWithin(events: seq<Event>, low: real, high: real)
    requires events != []
    requires forall i :: 0 <= i < |events| ==> low <= events[i].latency <= high
    ensures low <= Run(events).average <= high
  {
    var before, last := events[..|events| - 1], events[|events| - 1];
    Conservation(before);
    RecordedCounts(Run(before), last);
    if before != [] {
      AverageWithin(before, low, high);
      BlendWithin(Run(before).average, last.latency, low, high);
    }
  }

  /** What is left of an amount after n more runs, each of which keeps 0.95 of it. */
  function Faded(amount: real, n: nat): real {
    if n == 0 then amount else 0.95 * Faded(amount, n - 1)
  }

  function Slower(events: seq<Event>, i: nat, more: real): seq<Event>
    requires i < |events|
  {
    events[i := events[i].(latency := events[i].latency + more)]
  }

  lemma RecordedAverage(c: Counters, e: Event)
    ensures Recorded(c, e).average == if c.total == 0 then e.latency else c.average * 0.95 + e.latency * 0.05
  {
  }

  lemma AverageStep(events: seq<Event>)
    requires events != []
    ensures var front, latency := events[..|events| - 1], events[|events| - 1].latency;
            Run(events).average == if |front| == 0 then latency else Run(front).average * 0.95 + latency * 0.05
  {
    Conservation(events[..|events| - 1]);
    RecordedAverage(Run(events[..|events| - 1]), events[|events| - 1]);
  }

  /** The running average is linear: a run that takes `more` longer moves it by all of that if it is the first, by
      0.05 of it otherwise, faded by the runs after it. */
  lemma {:induction false} LatencyMovesAverage(events: seq<Event>, i: nat, more: real)
    requires i < |events|
    ensures Run(Slower(events, i, more)).average
         == Run(events).average + Faded(if i == 0 then more else 0.05 * more, |events| - 1 - i)
  {
    var n := |events| - 1;
    var slower := Slower(events, i, more);
    AverageStep(events);
    AverageStep(slower);
    if i < n {
      assert slower[..n] == Slower(events[..n], i, more) && slower[n] == events[n];
      LatencyMovesAverage(events[..n], i, more);
    } else {
      assert slower[..n] == events[..n];
    }
  }

  /** The recorded maximum is the largest of zero, its initial value, and the latencies. */
  lemma {:induction false} MaximumIsLargest(events: seq<Event>)
    ensures forall i :: 0 <= i < |events| ==> events[i].latency <= Run(events).maximum
    ensures 0.0 <= Run(events).maximum
    ensures Run(events).maximum == 0.0 || exists i :: 0 <= i < |events| && events[i].latency == Run(events).maximum
  {
    if events != [] {
      var n := |events| - 1;
      MaximumIsLargest(events[..n]);
      assert forall i :: 0 <= i < n ==> events[..n][i] == events[i];
    }
  }

  class MetricsStore {
    var c: Counters

    constructor ()
      ensures c == ZERO
    {
      c := ZERO;
    }

    method RecordRequest()
      modifies this
      ensures c == old(c).(total := old(c).total + 1)
    {
      c := c.(total := c.total + 1);
    }

    method RecordUnknown()
      modifies this
      ensures c == old(c).(unknown := old(c).unknown + 1)
    {
      c := c.(unknown := c.unknown + 1);
    }

    method RecordHit(source: MatchSource)
      modifies this
      ensures c == Hit(old(c), source)
    {
      c := Hit(c, source);
    }

    method RecordLatency(us: real)
      modifies this
      ensures c == Timed(old(c), us)
    {
      if c.total <= 1 {
        c := c.(average := us);
      } else {
        c := c.(average := c.average * 0.95 + us * 0.05);
      }
      if us > c.maximum {
        c := c.(maximum := us);
      }
    }

    /** The end of a pipeline run. */
    method RecordRun(result: MatchResult, us: real)
      modifies this
      ensures c == Recorded(old(c), Event(result, us))
    {
      RecordRequest();
      if result.intent == UNKNOWN {
        RecordUnknown();
      } else {
        RecordHit(result.source);
      }
      RecordLatency(us);
    }
  }
}
