/** Waiting lines: nobody stands in one twice, and leaving one keeps the others' order. */
module Queues {
  import opened Options

  /** `a` stands before `b`. */
  ghost predicate Before(q: seq<nat>, a: nat, b: nat) {
    exists i, j :: 0 <= i < j < |q| && q[i] == a && q[j] == b
  }

  function Without(q: seq<nat>, t: nat): seq<nat> {
    if q == [] then [] else (if q[0] == t then [] else [q[0]]) + Without(q[1..], t)
  }

  lemma {:induction false} WithoutMembers(q: seq<nat>, t: nat)
    requires NoRepeat(q)
    ensures NoRepeat(Without(q, t))
    ensures forall u :: u in Without(q, t) <==> u in q && u != t
  {
    if q != [] {
      WithoutMembers(q[1..], t);
      assert q == [q[0]] + q[1..];
      var front := if q[0] == t then [] else [q[0]];
      assert Without(q, t) == front + Without(q[1..], t);
      assert q[0] !in q[1..];
    }
  }

  lemma TailNoRepeat(q: seq<nat>)
    requires q != [] && NoRepeat(q)
    ensures NoRepeat(q[1..]) && forall u :: u in q[1..] <==> u in q && u != q[0]
  {
    assert q == [q[0]] + q[1..];
    forall u | u in q[1..] ensures u in q && u != q[0] {
      var i :| 0 <= i < |q| - 1 && q[1..][i] == u;
      assert q[i + 1] == u;
    }
  }

  lemma AppendNoRepeat(q: seq<nat>, t: nat)
    requires NoRepeat(q) && t !in q
    ensures NoRepeat(q + [t]) && forall u :: u in q + [t] <==> u in q || u == t
  {
  }

  lemma BeforeTail(q: seq<nat>, a: nat, b: nat)
    requires q != [] && Before(q, a, b) && q[0] != a
    ensures Before(q[1..], a, b)
  {
    var i, j :| 0 <= i < j < |q| && q[i] == a && q[j] == b;
    assert q[1..][i - 1] == a && q[1..][j - 1] == b;
  }

  lemma BeforeMore(q: seq<nat>, a: nat, b: nat, t: nat)
    requires Before(q, a, b)
    ensures Before(q + [t], a, b)
  {
    var i, j :| 0 <= i < j < |q| && q[i] == a && q[j] == b;
    assert (q + [t])[i] == a && (q + [t])[j] == b;
  }

  lemma BeforePrepend(front: seq<nat>, q: seq<nat>, a: nat, b: nat)
    requires Before(q, a, b) || (a in front && b in q)
    ensures Before(front + q, a, b)
  {
    if Before(q, a, b) {
      var i, j :| 0 <= i < j < |q| && q[i] == a && q[j] == b;
      assert (front + q)[|front| + i] == a && (front + q)[|front| + j] == b;
    } else {
      var i :| 0 <= i < |front| && front[i] == a;
      var j :| 0 <= j < |q| && q[j] == b;
      assert (front + q)[i] == a && (front + q)[|front| + j] == b;
    }
  }

  lemma {:induction false} BeforeWithout(q: seq<nat>, a: nat, b: nat, t: nat)
    requires NoRepeat(q) && Before(q, a, b) && t != a && t != b
    ensures Before(Without(q, t), a, b)
  {
    var rest, front := q[1..], if q[0] == t then [] else [q[0]];
    TailNoRepeat(q);
    WithoutMembers(rest, t);
    if q[0] == a {
      BeforeLast(q, a, b);
    } else {
      BeforeTail(q, a, b);
      BeforeWithout(rest, a, b, t);
    }
    BeforePrepend(front, Without(rest, t), a, b);
  }

  lemma BeforeLast(q: seq<nat>, a: nat, b: nat)
    requires NoRepeat(q) && Before(q, a, b)
    ensures b in q[1..]
  {
    var i, j :| 0 <= i < j < |q| && q[i] == a && q[j] == b;
    assert q[1..][j - 1] == b;
  }
}
