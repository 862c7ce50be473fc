/** The scan every table of the system is searched with: keep the first candidate
    whose key beats the best key so far, starting from a floor. */
module Scan {
  import opened CStrings

  /** The key at entry i is None when the entry is not a candidate. */
  function FirstBest(keys: seq<Option<real>>, floor: real): (r: Option<nat>)
    ensures r.Some? ==> r.value < |keys| && keys[r.value].Some? && keys[r.value].value > floor
  {
    if keys == [] then None
    else
      var n := |keys| - 1;
      var before := FirstBest(keys[..n], floor);
      if keys[n].Some? && keys[n].value > Bar(keys, before, floor) then Some(n) else before
  }

  /** The key the next candidate has to beat. */
  function Bar(keys: seq<Option<real>>, best: Option<nat>, floor: real): real
    requires best.Some? ==> best.value < |keys| && keys[best.value].Some?
  {
    if best.Some? then keys[best.value].value else floor
  }

  /** `best` is the earliest of the largest keys above the floor. */
  ghost predicate IsEarliestMaximum(keys: seq<Option<real>>, floor: real, best: nat) {
    && best < |keys| && keys[best].Some? && keys[best].value > floor
    && (forall j :: 0 <= j < |keys| && keys[j].Some? ==> keys[j].value <= keys[best].value)
    && (forall j :: 0 <= j < best && keys[j].Some? ==> keys[j].value < keys[best].value)
  }

  lemma {:induction false} FirstBestIsEarliestMaximum(keys: seq<Option<real>>, floor: real)
    ensures FirstBest(keys, floor) == None <==>
              forall j :: 0 <= j < |keys| && keys[j].Some? ==> keys[j].value <= floor
    ensures forall best: nat :: FirstBest(keys, floor) == Some(best) <==> IsEarliestMaximum(keys, floor, best)
  {
    if keys != [] {
      var n := |keys| - 1;
      var front := keys[..n];
      FirstBestIsEarliestMaximum(front, floor);
      var before := FirstBest(front, floor);
      assert forall j :: 0 <= j < n ==> front[j] == keys[j];
      if before.Some? {
        assert IsEarliestMaximum(front, floor, before.value);
      }
      var r := FirstBest(keys, floor);
      if r.Some? {
        assert IsEarliestMaximum(keys, floor, r.value);
      }
    }
  }

  /** Entries that do not beat the winner may be appended without changing it. */
  lemma AppendKeepsBest(keys: seq<Option<real>>, floor: real, key: Option<real>)
    requires key.Some? ==> key.value <= Bar(keys, FirstBest(keys, floor), floor)
    ensures FirstBest(keys + [key], floor) == FirstBest(keys, floor)
  {
    assert (keys + [key])[..|keys|] == keys;
  }

  /** Where the winner stands once an entry has been put in at `at`. */
  function Moved(best: Option<nat>, at: nat): Option<nat> {
    if best.Some? && best.value >= at then Some(best.value + 1) else best
  }

  /** An entry that is no candidate may stand anywhere without changing which entry wins. */
  lemma {:induction false} NonCandidateIgnored(a: seq<Option<real>>, b: seq<Option<real>>, floor: real)
    ensures FirstBest(a + [None] + b, floor) == Moved(FirstBest(a + b, floor), |a|)
    decreases |b|
  {
    var with, without := a + [None] + b, a + b;
    if b == [] {
      assert with[..|a|] == a && without == a;
    } else {
      var front := b[..|b| - 1];
      NonCandidateIgnored(a, front, floor);
      assert with[..|with| - 1] == a + [None] + front && without[..|without| - 1] == a + front;
    }
  }

  /** A scan loop after n entries: the best index so far, negative when there is none, and the key to beat. */
  ghost predicate Scanned(keys: seq<Option<real>>, n: nat, floor: real, best: int, score: real) {
    && n <= |keys|
    && FirstBest(keys[..n], floor) == (if best < 0 then None else Some(best))
    && if best < 0 then score == floor else best < n && keys[best] == Some(score)
  }

  lemma ScanOne(keys: seq<Option<real>>, n: nat, floor: real, best: int, score: real)
    requires Scanned(keys, n, floor, best, score) && n < |keys|
    ensures if keys[n].Some? && keys[n].value > score then Scanned(keys, n + 1, floor, n, keys[n].value)
            else Scanned(keys, n + 1, floor, best, score)
  {
    assert keys[..n + 1][..n] == keys[..n];
  }

  lemma ScanAll(keys: seq<Option<real>>, floor: real, best: int, score: real)
    requires Scanned(keys, |keys|, floor, best, score)
    ensures FirstBest(keys, floor) == if best < 0 then None else Some(best)
  {
    assert keys[..|keys|] == keys;
  }

  /** The first entry, from `from` on, that satisfies p. */
  function FirstWhere<T>(xs: seq<T>, p: T -> bool, from: nat): (r: Option<nat>)
    requires from <= |xs|
    ensures r.Some? ==> from <= r.value < |xs| && p(xs[r.value]) && forall j :: from <= j < r.value ==> !p(xs[j])
    ensures r.None? ==> forall j :: from <= j < |xs| ==> !p(xs[j])
    decreases |xs| - from
  {
    if from == |xs| then None else if p(xs[from]) then Some(from) else FirstWhere(xs, p, from + 1)
  }
}
