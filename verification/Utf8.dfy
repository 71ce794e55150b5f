/**
 * Cutting text to a number of bytes without splitting a character, on the bytes of the text.
 */
module Utf8 {
  type Byte = b: int | 0 <= b < 256

  type Text = seq<Byte>

  predicate Continuation(b: Byte) {
    0x80 <= b < 0xC0
  }

  /** The start, the end, and every place just before a byte that begins a character. */
  predicate IsCharBoundary(s: Text, i: nat) {
    i == 0 || i == |s| || (i < |s| && !Continuation(s[i]))
  }

  /** The last boundary at or before `end`. */
  function BoundaryAtMost(s: Text, end: nat): (k: nat)
    requires end <= |s|
    ensures k <= end && IsCharBoundary(s, k)
    ensures forall i :: k < i <= end ==> !IsCharBoundary(s, i)
  {
    if IsCharBoundary(s, end) then end else BoundaryAtMost(s, end - 1)
  }

  function Truncated(s: Text, max: nat): (r: (Text, bool))
    ensures r.0 <= s && |r.0| <= max && (r.1 <==> r.0 != s) && IsCharBoundary(s, |r.0|)
  {
    if |s| <= max then (s, false) else (s[..BoundaryAtMost(s, max)], true)
  }

  method TruncateUtf8(s: Text, max: nat) returns (cut: Text, removed: bool)
    ensures cut <= s && |cut| <= max && IsCharBoundary(s, |cut|)
    ensures forall i :: |cut| < i <= max && i <= |s| ==> !IsCharBoundary(s, i)
    ensures removed <==> |s| > max
    ensures (cut, removed) == Truncated(s, max)
  {
    if |s| <= max {
      return s, false;
    }
    var end: nat := max;
    while !IsCharBoundary(s, end)
      invariant 0 <= end <= max
      invariant forall i: nat :: end < i <= max ==> !IsCharBoundary(s, i)
      decreases end
    {
      end := end - 1;
    }
    BoundaryUnique(s, max, end);
    return s[..end], true;
  }

  lemma BoundaryUnique(s: Text, max: nat, end: nat)
    requires max <= |s| && end <= max && IsCharBoundary(s, end)
    requires forall i: nat :: end < i <= max ==> !IsCharBoundary(s, i)
    ensures BoundaryAtMost(s, max) == end
  {
    var k := BoundaryAtMost(s, max);
    assert IsCharBoundary(s, k) && k <= max;
  }

  // ----- Well-formed text: section 4 of RFC 3629 ------------------------------------------

  /** The length of the character that `lead` begins; zero if it begins none. */
  function CharLength(lead: Byte): nat {
    if lead < 0x80 then 1
    else if 0xC2 <= lead <= 0xDF then 2
    else if 0xE0 <= lead <= 0xEF then 3
    else if 0xF0 <= lead <= 0xF4 then 4
    else 0
  }

  /** No overlong form, no surrogate, nothing above U+10FFFF. */
  predicate SecondOk(lead: Byte, second: Byte) {
    && Continuation(second)
    && (lead == 0xE0 ==> 0xA0 <= second)
    && (lead == 0xED ==> second <= 0x9F)
    && (lead == 0xF0 ==> 0x90 <= second)
    && (lead == 0xF4 ==> second <= 0x8F)
  }

  ghost predicate StartsWithChar(s: Text)
    requires s != []
  {
    var n := CharLength(s[0]);
    && 0 < n <= |s|
    && (n > 1 ==> SecondOk(s[0], s[1]))
    && forall i :: 1 <= i < n ==> Continuation(s[i])
  }

  ghost predicate WellFormed(s: Text)
    decreases |s|
  {
    s == [] || (StartsWithChar(s) && WellFormed(s[CharLength(s[0])..]))
  }

  /** In well-formed text, the boundaries are exactly where a well-formed prefix ends. */
  lemma {:induction false} BoundaryIffWellFormedPrefix(s: Text, i: nat)
    requires WellFormed(s) && i <= |s|
    ensures IsCharBoundary(s, i) <==> WellFormed(s[..i])
    decreases |s|
  {
    if s != [] && i != 0 {
      var n := CharLength(s[0]);
      assert s[..i][0] == s[0];
      if n <= i {
        BoundaryIffWellFormedPrefix(s[n..], i - n);
        assert s[..i][n..] == s[n..][..i - n];
        assert i < |s| ==> s[i] == s[n..][i - n];
        assert StartsWithChar(s[..i]);
      }
    }
  }

  /** Four consecutive places in well-formed text include a boundary. */
  lemma {:induction false} BoundaryNearby(s: Text, i: nat) returns (k: nat)
    requires WellFormed(s) && i <= |s|
    ensures k <= i <= k + 3 && IsCharBoundary(s, k)
    decreases |s|
  {
    if s == [] || i < CharLength(s[0]) {
      k := 0;
    } else {
      var n := CharLength(s[0]);
      var j := BoundaryNearby(s[n..], i - n);
      k := n + j;
      assert 0 < j < |s[n..]| ==> s[k] == s[n..][j];
      assert n < |s| ==> s[n] == s[n..][0];
    }
  }

  /**
   * Well-formed text stays well-formed, is cut as late as that allows, and never loses
   * more than three bytes below the cap.
   */
  lemma TruncatedKeepsWellFormed(s: Text, max: nat)
    requires WellFormed(s)
    ensures WellFormed(Truncated(s, max).0)
    ensures forall i :: 0 <= i <= |s| && i <= max && WellFormed(s[..i]) ==> i <= |Truncated(s, max).0|
    ensures |s| > max ==> |Truncated(s, max).0| + 3 >= max
  {
    if |s| <= max {
      assert s[..|s|] == s;
    } else {
      var k := BoundaryAtMost(s, max);
      BoundaryIffWellFormedPrefix(s, k);
      var near := BoundaryNearby(s, max);
      forall i: nat | i <= max && WellFormed(s[..i]) ensures i <= k { BoundaryIffWellFormedPrefix(s, i); }
    }
  }

  /** Cutting twice is cutting once at the smaller cap, for any bytes at all. */
  lemma TruncateTwice(s: Text, big: nat, small: nat)
    requires small <= big
    ensures var once, first := Truncated(s, small), Truncated(s, big);
      var second := Truncated(first.0, small);
      second.0 == once.0 && (first.1 || second.1 <==> |s| > small)
  {
    if |s| > big {
      var e := BoundaryAtMost(s, big);
      var t := s[..e];
      if e <= small {
        BoundaryUnique(s, small, e);
      } else {
        var k := BoundaryAtMost(t, small);
        assert forall i: nat :: i < e ==> IsCharBoundary(t, i) == IsCharBoundary(s, i);
        BoundaryUnique(s, small, k);
        assert t[..k] == s[..k];
      }
    }
  }
}
