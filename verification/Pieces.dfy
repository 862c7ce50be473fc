/** Messages seen as the pieces between their quotes. A key is found by strstr exactly where the
    first piece equal to it stands, so all the message formats are reasoned about through pieces. */
module Pieces {
  import opened CStrings

  /** Each piece followed by a quote. */
  function Quoted(pieces: seq<string>): string {
    if pieces == [] then "" else pieces[0] + "\"" + Quoted(pieces[1..])
  }

  predicate AllQuoteFree(pieces: seq<string>) {
    forall i :: 0 <= i < |pieces| ==> QuoteFree(pieces[i])
  }

  lemma {:induction false} QuotedConcat(a: seq<string>, b: seq<string>)
    ensures Quoted(a + b) == Quoted(a) + Quoted(b)
  {
    if a == [] {
      assert a + b == b;
    } else {
      assert (a + b)[1..] == a[1..] + b;
      QuotedConcat(a[1..], b);
    }
  }

  lemma StrStrIs(s: string, pat: string, k: nat)
    requires OccursAt(s, pat, k)
    requires forall j: nat :: j < k ==> !OccursAt(s, pat, j)
    ensures StrStr(s, pat) == Some(k)
  {
  }

  /** A pattern that starts with a quote is not found inside quote-free text. */
  lemma SkipPiece(piece: string, rest: string, pat: string)
    requires QuoteFree(piece) && pat != "" && pat[0] == '"'
    ensures forall j: nat :: j < |piece| ==> !OccursAt(piece + rest, pat, j)
  {
    forall j: nat | j < |piece|
      ensures !OccursAt(piece + rest, pat, j)
    {
      assert j + |pat| <= |piece + rest| ==> (piece + rest)[j..j + |pat|][0] == piece[j];
    }
  }

  lemma OccursShift(a: string, b: string, pat: string, j: nat)
    ensures OccursAt(a + b, pat, |a| + j) == OccursAt(b, pat, j)
  {
    if j + |pat| <= |b| {
      assert (a + b)[|a| + j..|a| + j + |pat|] == b[j..j + |pat|];
    }
  }

  /** Quote-terminated pieces are a prefix code. */
  lemma {:induction false} PrefixCode(qs: seq<string>, ps: seq<string>, rest: string)
    requires AllQuoteFree(qs) && AllQuoteFree(ps) && |qs| <= |ps|
    ensures Quoted(qs) <= Quoted(ps) + rest <==> qs <= ps
  {
    if qs != [] {
      var q, p := qs[0], ps[0];
      var tail := Quoted(ps[1..]) + rest;
      assert Quoted(ps) + rest == p + "\"" + tail;
      if Quoted(qs) <= Quoted(ps) + rest {
        SamePiece(q, Quoted(qs[1..]), p, tail);
        PrefixCode(qs[1..], ps[1..], rest);
        assert qs == [q] + qs[1..] && ps == [p] + ps[1..];
      } else if qs <= ps {
        assert qs[1..] <= ps[1..];
        PrefixCode(qs[1..], ps[1..], rest);
        PrefixAppend(q + "\"", Quoted(qs[1..]), tail);
      }
    }
  }

  lemma PrefixAppend(a: string, x: string, y: string)
    requires x <= y
    ensures a + x <= a + y
  {
    assert a + y == a + x + y[|x|..];
  }

  lemma SamePiece(q: string, x: string, p: string, y: string)
    requires QuoteFree(q) && QuoteFree(p)
    requires q + "\"" + x <= p + "\"" + y
    ensures q == p && x <= y
  {
    var a, b := q + "\"" + x, p + "\"" + y;
    assert a[|q|] == '"' && b[|p|] == '"';
    assert forall k :: 0 <= k < |q| ==> a[k] == q[k];
    assert forall k :: 0 <= k < |p| ==> b[k] == p[k];
    assert forall k :: 0 <= k < |a| ==> a[k] == b[k];
    assert |q| == |p|;
    assert q == a[..|q|] == b[..|p|] == p;
    assert x == a[|q| + 1..] && y == b[|p| + 1..];
  }

  lemma {:induction false} TooFewPieces(qs: seq<string>, ps: seq<string>, last: string)
    requires AllQuoteFree(qs) && AllQuoteFree(ps) && QuoteFree(last) && |ps| < |qs|
    ensures !(Quoted(qs) <= Quoted(ps) + last)
  {
    assert Quoted(qs)[|qs[0]|] == '"';
    if ps == [] {
      assert Quoted(ps) + last == last;
    } else {
      assert Quoted(ps) + last == ps[0] + "\"" + (Quoted(ps[1..]) + last);
      if Quoted(qs) <= Quoted(ps) + last {
        SamePiece(qs[0], Quoted(qs[1..]), ps[0], Quoted(ps[1..]) + last);
        TooFewPieces(qs[1..], ps[1..], last);
      }
    }
  }

  /** Where a quote-delimited pattern occurs at or after the first quote of a text. */
  lemma AfterFirstPiece(piece: string, tail: string, qs: seq<string>, j: nat)
    requires QuoteFree(piece)
    ensures OccursAt(piece + "\"" + tail, "\"" + Quoted(qs), j) <==>
              if j < |piece| then false
              else if j == |piece| then Quoted(qs) <= tail
              else OccursAt(tail, "\"" + Quoted(qs), j - |piece| - 1)
  {
    var pat, text := "\"" + Quoted(qs), piece + "\"" + tail;
    assert text == piece + ("\"" + tail);
    SkipPiece(piece, "\"" + tail, pat);
    if j == |piece| {
      OccursShift(piece, "\"" + tail, pat, 0);
      assert ("\"" + tail)[1..] == tail && pat[1..] == Quoted(qs);
      if Quoted(qs) <= tail {
        PrefixAppend("\"", Quoted(qs), tail);
      }
    } else if j > |piece| {
      OccursShift(piece + "\"", tail, pat, j - |piece| - 1);
    }
  }

  /** The match of a quote-delimited pattern, and the text after it. */
  ghost predicate Finds(text: string, qs: seq<string>, after: string) {
    var pat := "\"" + Quoted(qs);
    var at := StrStr(text, pat);
    at.Some? && at.value + |pat| <= |text| && text[at.value + |pat|..] == after
  }

  lemma FindsHere(piece: string, qs: seq<string>, after: string)
    requires QuoteFree(piece)
    ensures Finds(piece + "\"" + (Quoted(qs) + after), qs, after)
  {
    var tail, pat := Quoted(qs) + after, "\"" + Quoted(qs);
    var text := piece + "\"" + tail;
    assert Quoted(qs) <= tail;
    forall j: nat
      ensures OccursAt(text, pat, j) ==> j >= |piece|
      ensures j == |piece| ==> OccursAt(text, pat, j)
    {
      AfterFirstPiece(piece, tail, qs, j);
    }
    StrStrIs(text, pat, |piece|);
  }

  lemma FindsLater(piece: string, tail: string, qs: seq<string>, after: string)
    requires QuoteFree(piece) && !(Quoted(qs) <= tail) && Finds(tail, qs, after)
    ensures Finds(piece + "\"" + tail, qs, after)
  {
    var pat, text := "\"" + Quoted(qs), piece + "\"" + tail;
    var k := StrStr(tail, pat).value;
    forall j: nat
      ensures OccursAt(text, pat, j) ==> j >= |piece| + 1 + k
      ensures j == |piece| + 1 + k ==> OccursAt(text, pat, j)
    {
      AfterFirstPiece(piece, tail, qs, j);
    }
    StrStrIs(text, pat, |piece| + 1 + k);
    assert text[|piece| + 1 + k + |pat|..] == tail[k + |pat|..];
  }

  /** strstr finds the first run of pieces equal to `qs` (not counting piece 0, which no quote opens),
      and what follows the match is the rest of the pieces. */
  lemma {:induction false} FindPieces(ps: seq<string>, qs: seq<string>, i: nat, rest: string)
    requires AllQuoteFree(ps) && AllQuoteFree(qs)
    requires 1 <= i <= |ps| && qs <= ps[i..]
    requires forall j :: 1 <= j < i ==> !(qs <= ps[j..])
    ensures Finds(Quoted(ps) + rest, qs, Quoted(ps[i + |qs|..]) + rest)
    decreases i
  {
    if i == 1 {
      FindsFirst(ps, qs, rest);
    } else {
      LaterRun(ps, qs, i);
      FindPieces(ps[1..], qs, i - 1, rest);
      FindsInTail(ps, qs, rest, Quoted(ps[i + |qs|..]) + rest);
    }
  }

  lemma FindsInTail(ps: seq<string>, qs: seq<string>, rest: string, after: string)
    requires AllQuoteFree(ps) && AllQuoteFree(qs) && |qs| < |ps|
    requires !(qs <= ps[1..]) && Finds(Quoted(ps[1..]) + rest, qs, after)
    ensures Finds(Quoted(ps) + rest, qs, after)
  {
    PrefixCode(qs, ps[1..], rest);
    UnquoteFirst(ps, rest);
    FindsLater(ps[0], Quoted(ps[1..]) + rest, qs, after);
  }

  lemma UnquoteFirst(ps: seq<string>, rest: string)
    requires ps != []
    ensures Quoted(ps) + rest == ps[0] + "\"" + (Quoted(ps[1..]) + rest)
  {
  }

  lemma LaterRun(ps: seq<string>, qs: seq<string>, i: nat)
    requires 1 < i <= |ps| && qs <= ps[i..]
    requires forall j :: 1 <= j < i ==> !(qs <= ps[j..])
    ensures qs <= ps[1..][i - 1..] && ps[1..][i - 1 + |qs|..] == ps[i + |qs|..]
    ensures forall j :: 1 <= j < i - 1 ==> !(qs <= ps[1..][j..])
  {
    assert forall j {:trigger ps[1..][j..]} :: 0 <= j < |ps| ==> ps[1..][j..] == ps[j + 1..];
  }

  lemma FindsFirst(ps: seq<string>, qs: seq<string>, rest: string)
    requires ps != [] && QuoteFree(ps[0]) && qs <= ps[1..]
    ensures Finds(Quoted(ps) + rest, qs, Quoted(ps[1 + |qs|..]) + rest)
  {
    var more := ps[1 + |qs|..];
    assert ps[1..] == qs + more;
    QuotedConcat(qs, more);
    Assoc(Quoted(qs), Quoted(more), rest);
    UnquoteFirst(ps, rest);
    FindsHere(ps[0], qs, Quoted(more) + rest);
  }

  /** And it finds nothing when no run of pieces equals `qs`. */
  lemma {:induction false} NoPieces(ps: seq<string>, qs: seq<string>, last: string)
    requires AllQuoteFree(ps) && AllQuoteFree(qs) && QuoteFree(last) && qs != []
    requires forall j :: 1 <= j <= |ps| ==> !(qs <= ps[j..])
    ensures StrStr(Quoted(ps) + last, "\"" + Quoted(qs)) == None
  {
    var text, pat := Quoted(ps) + last, "\"" + Quoted(qs);
    if ps == [] {
      assert text == last + "";
      SkipPiece(last, "", pat);
    } else {
      var tail := Quoted(ps[1..]) + last;
      assert text == ps[0] + "\"" + tail;
      if |qs| <= |ps[1..]| {
        PrefixCode(qs, ps[1..], last);
      } else {
        TooFewPieces(qs, ps[1..], last);
      }
      forall j | 1 <= j <= |ps[1..]|
        ensures !(qs <= ps[1..][j..])
      {
        assert ps[1..][j..] == ps[j + 1..];
      }
      NoPieces(ps[1..], qs, last);
      forall j: nat
        ensures !OccursAt(text, pat, j)
      {
        AfterFirstPiece(ps[0], tail, qs, j);
      }
    }
  }

  lemma SplitText(ps: seq<string>, n: nat, rest: string)
    requires n < |ps|
    ensures Quoted(ps) + rest == Quoted(ps[..n]) + (ps[n] + "\"" + (Quoted(ps[n + 1..]) + rest))
  {
    assert ps == ps[..n] + ps[n..];
    QuotedConcat(ps[..n], ps[n..]);
    UnquoteFirst(ps[n..], rest);
    assert ps[n..][1..] == ps[n + 1..];
    Assoc(Quoted(ps[..n]), Quoted(ps[n..]), rest);
  }

  // ---- behind the pieces ----

  ghost predicate Occurs(text: string, pat: string) {
    exists k: nat :: OccursAt(text, pat, k)
  }

  lemma OccursIff(text: string, pat: string)
    ensures Occurs(text, pat) <==> StrStr(text, pat).Some?
  {
  }

  lemma OccursInRest(piece: string, tail: string, qs: seq<string>)
    requires QuoteFree(piece)
    ensures Occurs(piece + "\"" + tail, "\"" + Quoted(qs)) <==> Quoted(qs) <= tail || Occurs(tail, "\"" + Quoted(qs))
  {
    var text, pat := piece + "\"" + tail, "\"" + Quoted(qs);
    forall j: nat
      ensures OccursAt(text, pat, j) ==> Quoted(qs) <= tail || Occurs(tail, pat)
      ensures j == |piece| && Quoted(qs) <= tail ==> OccursAt(text, pat, j)
    {
      AfterFirstPiece(piece, tail, qs, j);
    }
    if Quoted(qs) <= tail {
      assert OccursAt(text, pat, |piece|);
    }
    if Occurs(tail, pat) {
      var k: nat :| OccursAt(tail, pat, k);
      AfterFirstPiece(piece, tail, qs, |piece| + 1 + k);
      assert OccursAt(text, pat, |piece| + 1 + k);
    }
  }

  lemma OccursBehindQuote(piece: string, rest: string, qs: seq<string>)
    requires QuoteFree(piece)
    ensures Occurs(piece + "\"" + rest, "\"" + Quoted(qs)) <==> Occurs("\"" + rest, "\"" + Quoted(qs))
  {
    OccursInRest(piece, rest, qs);
    OccursInRest("", rest, qs);
    assert "" + "\"" + rest == "\"" + rest;
  }

  /** When no match starts among the pieces, a match lies in the quoted rest. */
  lemma {:induction false} OccursBehind(ps: seq<string>, qs: seq<string>, rest: string)
    requires ps != [] && AllQuoteFree(ps)
    requires forall j :: 1 <= j < |ps| ==> !(Quoted(qs) <= Quoted(ps[j..]) + rest)
    ensures Occurs(Quoted(ps) + rest, "\"" + Quoted(qs)) <==> Occurs("\"" + rest, "\"" + Quoted(qs))
  {
    var tail := Quoted(ps[1..]) + rest;
    UnquoteFirst(ps, rest);
    if |ps| == 1 {
      assert tail == rest;
      OccursBehindQuote(ps[0], rest, qs);
    } else {
      assert ps[1..] == ps[1..][0..];
      OccursInRest(ps[0], tail, qs);
      TailStarts(ps, qs, rest);
      OccursBehind(ps[1..], qs, rest);
    }
  }

  lemma TailStarts(ps: seq<string>, qs: seq<string>, rest: string)
    requires |ps| > 1 && forall j :: 1 <= j < |ps| ==> !(Quoted(qs) <= Quoted(ps[j..]) + rest)
    ensures forall j :: 1 <= j < |ps[1..]| ==> !(Quoted(qs) <= Quoted(ps[1..][j..]) + rest)
  {
    assert forall j {:trigger ps[1..][j..]} :: 0 <= j < |ps| ==> ps[1..][j..] == ps[j + 1..];
  }

  /** A match that does not end in `c` does not use a last `c`. */
  lemma OccursBefore(text: string, c: char, pat: string)
    requires pat != "" && pat[|pat| - 1] != c
    ensures Occurs(text + [c], pat) <==> Occurs(text, pat)
  {
    forall k: nat
      ensures OccursAt(text + [c], pat, k) <==> OccursAt(text, pat, k)
    {
      if k + |pat| <= |text| {
        assert (text + [c])[k..k + |pat|] == text[k..k + |pat|];
      } else if k + |pat| == |text| + 1 {
        assert (text + [c])[k..k + |pat|][|pat| - 1] == c;
      }
    }
  }
}
