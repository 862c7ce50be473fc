/** Edit scripts over strings, and the distance the fuzzy matcher's table computes
    (components/rule-engine/fuzzy/fuzzy.c). */
module EditDistance {
  import opened CStrings

  function Min(a: nat, b: nat): nat {
    if b < a then b else a
  }

  function Cost(x: char, y: char): nat {
    if x == y then 0 else 1
  }

  function Init(s: string): string
    requires s != ""
  {
    s[..|s| - 1]
  }

  function Last(s: string): char
    requires s != ""
  {
    s[|s| - 1]
  }

  /** The recurrence of the table: deletion, insertion or replacement of the last byte. */
  function Dist(a: string, b: string): nat
    decreases |a| + |b|
  {
    if a == "" then |b|
    else if b == "" then |a|
    else Min(Min(Dist(Init(a), b) + 1, Dist(a, Init(b)) + 1), Dist(Init(a), Init(b)) + Cost(Last(a), Last(b)))
  }

  // ---- what the distance should mean: shortest edit scripts ----

  datatype Edit = Insert(at: nat, c: char) | Delete(at: nat) | Replace(at: nat, c: char)

  predicate Applies(e: Edit, s: string) {
    if e.Insert? then e.at <= |s| else e.at < |s|
  }

  function Apply(e: Edit, s: string): string
    requires Applies(e, s)
  {
    match e
    case Insert(at, c) => s[..at] + [c] + s[at..]
    case Delete(at) => s[..at] + s[at + 1..]
    case Replace(at, c) => s[..at] + [c] + s[at + 1..]
  }

  /** The script turns `a` into `b`, one single-byte edit after another. */
  predicate Turns(script: seq<Edit>, a: string, b: string) {
    if script == [] then a == b
    else Applies(script[0], a) && Turns(script[1..], Apply(script[0], a), b)
  }

  // ---- the distance is a metric ----

  lemma {:induction false} DistBounds(a: string, b: string)
    ensures Dist(a, b) <= |a| + |b|
    ensures |a| <= Dist(a, b) + |b|
    ensures |b| <= Dist(a, b) + |a|
    ensures |a| <= |b| ==> Dist(a, b) <= |b|
    ensures |b| <= |a| ==> Dist(a, b) <= |a|
    decreases |a| + |b|
  {
    if a != "" && b != "" {
      DistBounds(Init(a), b);
      DistBounds(a, Init(b));
      DistBounds(Init(a), Init(b));
    }
  }

  lemma {:induction false} DistSymmetric(a: string, b: string)
    ensures Dist(a, b) == Dist(b, a)
    decreases |a| + |b|
  {
    if a != "" && b != "" {
      DistSymmetric(Init(a), b);
      DistSymmetric(a, Init(b));
      DistSymmetric(Init(a), Init(b));
    }
  }

  lemma {:induction false} DistZero(a: string, b: string)
    ensures Dist(a, b) == 0 <==> a == b
    decreases |a| + |b|
  {
    if a != "" && b != "" {
      DistZero(Init(a), Init(b));
      assert a == Init(a) + [Last(a)] && b == Init(b) + [Last(b)];
    }
  }

  lemma {:induction false} DistTriangle(a: string, b: string, c: string)
    ensures Dist(a, c) <= Dist(a, b) + Dist(b, c)
    decreases |a| + |b| + |c|
  {
    DistBounds(a, b);
    DistBounds(b, c);
    DistBounds(a, c);
    if a != "" && b != "" && c != "" {
      DistTriangle(Init(a), b, c);
      DistTriangle(a, b, Init(c));
      DistTriangle(a, Init(b), c);
      DistTriangle(a, Init(b), Init(c));
      DistTriangle(Init(a), Init(b), c);
      DistTriangle(Init(a), Init(b), Init(c));
    }
  }

  // ---- a single edit moves the distance by at most one ----

  lemma {:induction false} CommonSuffix(x: string, y: string, suffix: string)
    ensures Dist(x + suffix, y + suffix) <= Dist(x, y)
    decreases |suffix|
  {
    if suffix == "" {
      assert x + suffix == x && y + suffix == y;
    } else {
      assert Init(x + suffix) == x + Init(suffix) && Init(y + suffix) == y + Init(suffix);
      CommonSuffix(x, y, Init(suffix));
    }
  }

  lemma OneEdit(e: Edit, s: string)
    requires Applies(e, s)
    ensures Dist(s, Apply(e, s)) <= 1
  {
    var x := s[..e.at];
    DistZero(x, x);
    if e.Insert? {
      assert Init(x + [e.c]) == x;
      CommonSuffix(x, x + [e.c], s[e.at..]);
      assert s == x + s[e.at..];
    } else {
      var whole := x + [s[e.at]];
      assert s == whole + s[e.at + 1..] && Init(whole) == x;
      if e.Replace? {
        assert Init(x + [e.c]) == x;
        CommonSuffix(whole, x + [e.c], s[e.at + 1..]);
      } else {
        CommonSuffix(whole, x, s[e.at + 1..]);
      }
    }
  }

  /** No script is shorter than the distance. */
  lemma {:induction false} NoShorterScript(script: seq<Edit>, a: string, b: string)
    requires Turns(script, a, b)
    ensures Dist(a, b) <= |script|
    decreases |script|
  {
    if script == [] {
      DistZero(a, b);
    } else {
      var next := Apply(script[0], a);
      NoShorterScript(script[1..], next, b);
      OneEdit(script[0], a);
      DistTriangle(a, next, b);
    }
  }

  // ---- a script of exactly that length exists ----

  lemma ApplyOnPrefix(e: Edit, a: string, suffix: string)
    requires Applies(e, a)
    ensures Applies(e, a + suffix) && Apply(e, a + suffix) == Apply(e, a) + suffix
  {
    var head, at := a[..e.at], if e.Insert? then e.at else e.at + 1;
    assert (a + suffix)[..e.at] == head && (a + suffix)[at..] == a[at..] + suffix;
    if e.Delete? {
      Assoc(head, a[at..], suffix);
    } else {
      Assoc(head + [e.c], a[at..], suffix);
    }
  }

  lemma {:induction false} TurnsOnPrefix(script: seq<Edit>, a: string, b: string, suffix: string)
    requires Turns(script, a, b)
    ensures Turns(script, a + suffix, b + suffix)
    decreases |script|
  {
    if script != [] {
      ApplyOnPrefix(script[0], a, suffix);
      TurnsOnPrefix(script[1..], Apply(script[0], a), b, suffix);
    }
  }

  lemma First(e: Edit, rest: seq<Edit>, a: string, next: string, b: string)
    requires Applies(e, a) && Apply(e, a) == next && Turns(rest, next, b)
    ensures Turns([e] + rest, a, b)
  {
    assert ([e] + rest)[1..] == rest;
  }

  /** The script the table's choices spell out, last byte first. */
  lemma {:induction false} BestScript(a: string, b: string) returns (script: seq<Edit>)
    ensures Turns(script, a, b)
    ensures |script| == Dist(a, b)
    decreases |a| + |b|
  {
    if a == "" && b == "" {
      script := [];
    } else if a == "" || (b != "" && Dist(a, b) == Dist(a, Init(b)) + 1) {
      var rest := BestScript(a, Init(b));
      script := InsertLast(a, b, rest);
    } else if b == "" || Dist(a, b) == Dist(Init(a), b) + 1 {
      var rest := BestScript(Init(a), b);
      First(Delete(|a| - 1), rest, a, Init(a), b);
      script := [Delete(|a| - 1)] + rest;
    } else {
      var rest := BestScript(Init(a), Init(b));
      script := ReplaceLast(a, b, rest);
    }
  }

  lemma InsertLast(a: string, b: string, rest: seq<Edit>) returns (script: seq<Edit>)
    requires b != "" && Turns(rest, a, Init(b))
    ensures Turns(script, a, b) && |script| == |rest| + 1
  {
    TurnsOnPrefix(rest, a, Init(b), [Last(b)]);
    assert b == Init(b) + [Last(b)];
    First(Insert(|a|, Last(b)), rest, a, a + [Last(b)], b);
    script := [Insert(|a|, Last(b))] + rest;
  }

  lemma SwapLast(a: string, c: char)
    requires a != ""
    ensures Apply(Replace(|a| - 1, c), a) == Init(a) + [c]
    ensures Init(a) + [Last(a)] == a
  {
  }

  lemma ReplaceLast(a: string, b: string, rest: seq<Edit>) returns (script: seq<Edit>)
    requires a != "" && b != "" && Turns(rest, Init(a), Init(b))
    ensures Turns(script, a, b) && |script| == |rest| + Cost(Last(a), Last(b))
  {
    var middle := Init(a) + [Last(b)];
    assert Turns(rest, middle, b) by {
      TurnsOnPrefix(rest, Init(a), Init(b), [Last(b)]);
      SwapLast(b, 'x');
    }
    SwapLast(a, Last(b));
    if Last(a) == Last(b) {
      script := rest;
    } else {
      First(Replace(|a| - 1, Last(b)), rest, a, middle, b);
      script := [Replace(|a| - 1, Last(b))] + rest;
    }
  }

  /** The distance is exactly the length of a shortest edit script. */
  lemma DistIsShortestScript(a: string, b: string, n: nat)
    ensures Dist(a, b) == n <==>
              && (exists script :: Turns(script, a, b) && |script| == n)
              && (forall script :: Turns(script, a, b) ==> n <= |script|)
  {
    var best := BestScript(a, b);
    forall script | Turns(script, a, b)
      ensures Dist(a, b) <= |script|
    {
      NoShorterScript(script, a, b);
    }
  }
}
