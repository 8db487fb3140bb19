/** Lists without repetition, and the sets of their elements. */
module Lists {
  ghost function Elements(s: seq<nat>): set<nat> { set i | 0 <= i < |s| :: s[i] }

  ghost predicate Distinct(s: seq<nat>) { forall i, j :: 0 <= i < j < |s| ==> s[i] != s[j] }

  lemma PushElements(s: seq<nat>, x: nat)
    ensures Elements(s + [x]) == Elements(s) + {x}
  {
    var t := s + [x];
    forall y ensures y in Elements(t) <==> y in Elements(s) + {x} {
      if y in Elements(s) {
        var i :| 0 <= i < |s| && s[i] == y;
        assert t[i] == y;
      }
      assert t[|s|] == x;
    }
  }

  lemma PushDistinct(s: seq<nat>, x: nat)
    requires Distinct(s) && x !in Elements(s)
    ensures Distinct(s + [x])
  {
    var t := s + [x];
    forall i, j | 0 <= i < j < |t| ensures t[i] != t[j] {
      assert t[i] in Elements(s);
    }
  }

  lemma PopElements(s: seq<nat>)
    requires Distinct(s) && |s| > 0
    ensures Distinct(s[..|s| - 1])
    ensures Elements(s[..|s| - 1]) == Elements(s) - {s[|s| - 1]} && s[|s| - 1] in Elements(s)
  {
    var n := |s| - 1;
    assert s == s[..n] + [s[n]];
    PushElements(s[..n], s[n]);
    assert s[n] !in Elements(s[..n]);
  }

  lemma {:induction false} DistinctSize(s: seq<nat>)
    requires Distinct(s)
    ensures |Elements(s)| == |s|
  {
    if |s| > 0 {
      PopElements(s);
      DistinctSize(s[..|s| - 1]);
    }
  }
}
