/** A query result that can be read once.  `x in result` reads rows until it meets `x`
    and does not put them back; the next probe starts where the last one stopped. */
module OneShotResults {

  predicate Distinct(q: seq<string>) {
    forall i, j :: 0 <= i < j < |q| ==> q[i] != q[j]
  }

  function Elements(q: seq<string>): set<string> {
    set x | x in q
  }

  /** `q` lists the elements of `s`, each once, in some order. */
  predicate IsOrder(q: seq<string>, s: set<string>) {
    Distinct(q) && Elements(q) == s
  }

  // ---------------------------------------------------------------- specification

  /** The rows left after probing for `x`. */
  function AfterProbe(rows: seq<string>, x: string): seq<string> {
    if rows == [] then [] else if rows[0] == x then rows[1..] else AfterProbe(rows[1..], x)
  }

  /** The candidates that successive probes report present. */
  function Found(rows: seq<string>, candidates: seq<string>): set<string>
    decreases |candidates|
  {
    if candidates == [] then {}
    else
      var c := candidates[0];
      (if c in rows then {c} else {}) + Found(AfterProbe(rows, c), candidates[1..])
  }

  // ---------------------------------------------------------------- the code

  class OneShot {
    var rest: seq<string>

    constructor (rows: seq<string>)
      ensures rest == rows
    {
      rest := rows;
    }

    method Contains(x: string) returns (present: bool)
      modifies this
      ensures present == (x in old(rest))
      ensures rest == AfterProbe(old(rest), x)
    {
      while rest != []
        invariant x in old(rest) <==> x in rest
        invariant AfterProbe(rest, x) == AfterProbe(old(rest), x)
        decreases |rest|
      {
        var row := rest[0];
        rest := rest[1..];
        if row == x {
          return true;
        }
      }
      return false;
    }
  }

  /** `[c for c in candidates if c not in result]`. */
  method NotIn(candidates: seq<string>, result: OneShot) returns (missing: seq<string>)
    requires Distinct(candidates)
    modifies result
    ensures Elements(missing) == Elements(candidates) - Found(old(result.rest), candidates)
  {
    missing := [];
    ghost var start := result.rest;
    for i := 0 to |candidates|
      invariant Found(start, candidates)
             == Elements(candidates[..i]) - Elements(missing) + Found(result.rest, candidates[i..])
      invariant Elements(missing) <= Elements(candidates[..i])
    {
      var c := candidates[i];
      assert candidates[..i + 1] == candidates[..i] + [c];
      assert candidates[i..][1..] == candidates[i + 1..];
      assert c !in candidates[..i] && c !in Elements(missing);
      var present := result.Contains(c);
      if !present {
        assert Elements(missing + [c]) == Elements(missing) + {c};
        missing := missing + [c];
      }
      assert Elements(candidates[..i + 1]) == Elements(candidates[..i]) + {c};
    }
    assert candidates[..|candidates|] == candidates;
  }

  // ---------------------------------------------------------------- laws

  lemma {:induction false} AfterProbeWithin(rows: seq<string>, x: string)
    ensures Elements(AfterProbe(rows, x)) <= Elements(rows)
    ensures |AfterProbe(rows, x)| <= |rows|
    ensures x !in rows ==> AfterProbe(rows, x) == []
    ensures Distinct(rows) ==> Distinct(AfterProbe(rows, x)) && x !in AfterProbe(rows, x)
  {
    if rows != [] && rows[0] != x {
      AfterProbeWithin(rows[1..], x);
    }
  }

  /** A probe never reports a candidate present that no row carries. */
  lemma {:induction false} FoundIsThere(rows: seq<string>, candidates: seq<string>)
    ensures Found(rows, candidates) <= Elements(rows) * Elements(candidates)
    decreases |candidates|
  {
    if candidates != [] {
      AfterProbeWithin(rows, candidates[0]);
      FoundIsThere(AfterProbe(rows, candidates[0]), candidates[1..]);
    }
  }

  /** Every row is recognised exactly when the candidates are probed in the order of the
      rows, all of them first. */
  lemma {:induction false} AllFoundExactlyWhen(rows: seq<string>, candidates: seq<string>)
    requires Distinct(rows) && Distinct(candidates)
    ensures Found(rows, candidates) == Elements(rows) <==> rows <= candidates
    decreases |candidates|
  {
    FoundIsThere(rows, candidates);
    if candidates != [] && rows != [] {
      var c, rest := candidates[0], candidates[1..];
      var left := AfterProbe(rows, c);
      AfterProbeWithin(rows, c);
      FoundIsThere(left, rest);
      if rows[0] == c {
        assert rows == [c] + rows[1..] && candidates == [c] + rest;
        AllFoundExactlyWhen(rows[1..], rest);
        assert Elements(rows) == {c} + Elements(rows[1..]);
        assert c !in Elements(rows[1..]) && c !in Found(left, rest);
        assert rows <= candidates <==> rows[1..] <= rest;
      } else {
        assert rows[0] in Elements(rows);
        FirstRowIsGone(rows, c);
        assert rows[0] !in Found(rows, candidates);
      }
    } else if rows != [] {
      assert rows[0] in Elements(rows);
    }
  }

  lemma FirstRowIsGone(rows: seq<string>, c: string)
    requires Distinct(rows) && rows != [] && rows[0] != c
    ensures rows[0] !in Elements(AfterProbe(rows, c))
  {
    AfterProbeWithin(rows[1..], c);
  }

  ghost function OrderFrom(first: string, s: set<string>): (q: seq<string>)
    requires first in s
    ensures IsOrder(q, s) && q[0] == first
    decreases s
  {
    if s == {first} then [first]
    else
      assert s - {first} != {} by { assert s == (s - {first}) + {first}; }
      var next :| next in s - {first};
      var tail := OrderFrom(next, s - {first});
      assert Elements([first] + tail) == {first} + Elements(tail);
      assert forall i :: 0 <= i < |tail| ==> tail[i] in Elements(tail);
      [first] + tail
  }

  ghost function OrderOfSet(s: set<string>): (q: seq<string>)
    ensures IsOrder(q, s)
  {
    if s == {} then [] else
      var x :| x in s;
      OrderFrom(x, s)
  }

  /** Whatever order rows and candidates come in, all are recognised exactly when no
      candidate has a row or there is a single candidate. */
  lemma AnyOrderWorksExactlyWhen(live: set<string>, candidates: set<string>)
    requires live <= candidates
    ensures (forall r, c :: IsOrder(r, live) && IsOrder(c, candidates) ==> Found(r, c) == live)
       <==> live == {} || |candidates| == 1
  {
    if live == {} || |candidates| == 1 {
      forall r, c | IsOrder(r, live) && IsOrder(c, candidates) ensures Found(r, c) == live {
        AllFoundExactlyWhen(r, c);
        assert Elements(r) == live;
        if live == {} {
          OrderSize(r, live);
        } else {
          SingleOrder(r, c, live, candidates);
        }
      }
    } else {
      var l :| l in live;
      var others := candidates - {l};
      assert |others| == |candidates| - 1 && others != {};
      var y :| y in others;
      var r, c := OrderFrom(l, live), OrderFrom(y, candidates);
      AllFoundExactlyWhen(r, c);
      assert !(r <= c) by { assert r[0] != c[0]; }
    }
  }

  lemma SingleOrder(r: seq<string>, c: seq<string>, live: set<string>, candidates: set<string>)
    requires IsOrder(r, live) && IsOrder(c, candidates) && live <= candidates
    requires live != {} && |candidates| == 1
    ensures r <= c
  {
    OrderSize(c, candidates);
    assert c == [c[0]] && c[0] in Elements(c);
    assert |candidates - {c[0]}| == 0;
    var x :| x in live;
    assert live == {x} == candidates;
    OrderSize(r, live);
    assert r == [r[0]] && r[0] in Elements(r);
  }

  lemma {:induction false} OrderSize(q: seq<string>, s: set<string>)
    requires IsOrder(q, s)
    ensures |q| == |s|
  {
    if q != [] {
      var n := |q| - 1;
      assert q == q[..n] + [q[n]] && q[n] in Elements(q);
      assert Elements(q[..n]) == s - {q[n]};
      OrderSize(q[..n], s - {q[n]});
    }
  }
}
