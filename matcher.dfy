/** The rejection loop of generateMatches: shuffled copies of the valid
    participants are drawn as receivers until no giver is paired with a
    receiver equal to itself. The shuffles are supplied as a sequence of
    draws. */
module Matcher {

  /** givers.every((giver, i) => giver !== receivers[i]): names are compared
      by value, and a position past the end of receivers never matches. */
  predicate NoFixedPoint(givers: seq<string>, receivers: seq<string>) {
    forall i :: 0 <= i < |givers| && i < |receivers| ==> givers[i] != receivers[i]
  }

  /** receivers is a rearrangement of givers that pairs no one with an
      equal name. */
  predicate IsDerangementOf(receivers: seq<string>, givers: seq<string>) {
    multiset(receivers) == multiset(givers) && NoFixedPoint(givers, receivers)
  }

  /** Draw k is the first draw the loop accepts. */
  predicate AcceptedAt(givers: seq<string>, draws: seq<seq<string>>, k: nat) {
    && k < |draws|
    && NoFixedPoint(givers, draws[k])
    && forall j :: 0 <= j < k ==> !NoFixedPoint(givers, draws[j])
  }

  /** The while (!isValid) loop, run over the supplied draws. It stops at the
      first draw with no fixed point; if none of them has one, generateMatches
      would go on drawing, and accepted is false. Because every draw is a
      rearrangement of givers, an accepted draw is a derangement of them. */
  method DrawReceivers(givers: seq<string>, draws: seq<seq<string>>)
    returns (accepted: bool, k: nat, receivers: seq<string>)
    requires forall j :: 0 <= j < |draws| ==> multiset(draws[j]) == multiset(givers)
    ensures accepted ==> AcceptedAt(givers, draws, k) && receivers == draws[k]
    ensures accepted ==> IsDerangementOf(receivers, givers) && |receivers| == |givers|
    ensures !accepted ==> forall j :: 0 <= j < |draws| ==> !NoFixedPoint(givers, draws[j])
  {
    receivers := givers;
    accepted := false;
    var tries := 0;
    while !accepted && tries < |draws|
      invariant 0 <= tries <= |draws|
      invariant accepted ==> 0 < tries && receivers == draws[tries - 1]
      invariant accepted ==> NoFixedPoint(givers, receivers)
      invariant forall j :: 0 <= j < tries - 1 ==> !NoFixedPoint(givers, draws[j])
      invariant !accepted ==> forall j :: 0 <= j < tries ==> !NoFixedPoint(givers, draws[j])
    {
      receivers := draws[tries];
      accepted := NoFixedPoint(givers, receivers);
      tries := tries + 1;
    }
    k := if accepted then tries - 1 else tries;
    if accepted {
      assert |multiset(receivers)| == |multiset(givers)|;
    }
  }

  /** The loop accepts at most one draw: the first acceptable one. */
  lemma AcceptedAtUnique(givers: seq<string>, draws: seq<seq<string>>, k: nat, l: nat)
    requires AcceptedAt(givers, draws, k) && AcceptedAt(givers, draws, l)
    ensures k == l
  {
  }

  /** If some draw has no fixed point, the loop accepts one no later than it,
      so DrawReceivers reports accepted exactly when some draw is acceptable. */
  lemma {:induction false} SomeDrawAccepted(givers: seq<string>, draws: seq<seq<string>>, j: nat)
    requires j < |draws| && NoFixedPoint(givers, draws[j])
    ensures exists k: nat :: k <= j && AcceptedAt(givers, draws, k)
  {
    if forall i :: 0 <= i < j ==> !NoFixedPoint(givers, draws[i]) {
      assert AcceptedAt(givers, draws, j);
    } else {
      var i :| 0 <= i < j && NoFixedPoint(givers, draws[i]);
      SomeDrawAccepted(givers, draws, i);
    }
  }

  /** Moves the first name to the end: receivers[i] == givers[i + 1]. */
  function Rotate(s: seq<string>): (r: seq<string>)
    ensures |r| == |s|
    ensures forall i :: 0 <= i < |s| - 1 ==> r[i] == s[i + 1]
    ensures s != [] ==> r[|s| - 1] == s[0]
  {
    if s == [] then [] else s[1..] + [s[0]]
  }

  /** With at least two pairwise different names an acceptable draw exists,
      so the loop can stop: the rotation is one. */
  lemma RotationIsDerangement(givers: seq<string>)
    requires |givers| >= 2
    requires forall i, j :: 0 <= i < j < |givers| ==> givers[i] != givers[j]
    ensures IsDerangementOf(Rotate(givers), givers)
  {
    assert givers == [givers[0]] + givers[1..];
  }

  /** The positions of s that hold x. */
  function Positions(s: seq<string>, x: string): (r: set<nat>)
    ensures forall i: nat :: i in r <==> i < |s| && s[i] == x
  {
    set i: nat | i < |s| && s[i] == x
  }

  /** x occurs at as many positions as its multiplicity. */
  lemma {:induction false} PositionsCount(s: seq<string>, x: string)
    ensures |Positions(s, x)| == multiset(s)[x]
  {
    if s != [] {
      var init := s[..|s| - 1];
      PositionsCount(init, x);
      assert s == init + [s[|s| - 1]];
      if s[|s| - 1] == x {
        assert Positions(s, x) == Positions(init, x) + {|s| - 1};
      } else {
        assert Positions(s, x) == Positions(init, x);
      }
    }
  }

  /** The first n naturals. */
  function Below(n: nat): (r: set<nat>)
    ensures forall i: nat :: i in r <==> i < n
    ensures |r| == n
  {
    if n == 0 then {} else
      var s := Below(n - 1) + {n - 1};
      assert n - 1 !in Below(n - 1);
      s
  }

  /** If one name fills more than half of the list, every rearrangement puts
      it opposite itself somewhere, so the loop accepts no draw and does not
      stop. ["A", "A"] is the smallest such list. */
  lemma NoDerangementWithMajority(givers: seq<string>, receivers: seq<string>, x: string)
    requires multiset(receivers) == multiset(givers)
    requires 2 * multiset(givers)[x] > |givers|
    ensures !NoFixedPoint(givers, receivers)
  {
    var g, r := Positions(givers, x), Positions(receivers, x);
    PositionsCount(givers, x);
    PositionsCount(receivers, x);
    assert |receivers| == |givers| by {
      assert |multiset(receivers)| == |multiset(givers)|;
    }
    var n := |givers|;
    assert g + r <= Below(n);
    if g * r == {} {
      assert |g + r| == |g| + |r|;
      assert |g + r| <= |Below(n)| by {
        SubsetCard(g + r, Below(n));
      }
      assert false;
    }
    var i :| i in g * r;
    assert givers[i] == receivers[i];
  }

  /** A subset is no larger than its superset. */
  lemma {:induction false} SubsetCard(a: set<nat>, b: set<nat>)
    requires a <= b
    ensures |a| <= |b|
    decreases |b|
  {
    if a != {} {
      var x :| x in a;
      SubsetCard(a - {x}, b - {x});
    }
  }
}
