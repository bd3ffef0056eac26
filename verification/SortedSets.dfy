/** The part of a Redis sorted set the agents rely on: members with integer scores, listed by score
    and, within one score, by member.  A member is a number standing for its rank in Redis's byte order. */
module SortedSets {
  type Member = nat
  type ZSet = map<Member, int>

  predicate Before(z: ZSet, a: Member, b: Member) {
    a in z && b in z && (z[a] < z[b] || (z[a] == z[b] && a < b))
  }

  ghost predicate Least(z: ZSet, m: Member) {
    m in z && forall k :: k in z && k != m ==> Before(z, m, k)
  }

  lemma {:induction false} LeastExists(z: ZSet)
    requires z != map[]
    ensures exists m :: Least(z, m)
    decreases |z|
  {
    var k :| k in z;
    var rest := z - {k};
    assert forall x :: x in z ==> x == k || (x in rest && rest[x] == z[x]);
    if rest == map[] {
      assert Least(z, k);
    } else {
      LeastExists(rest);
      var m :| Least(rest, m);
      assert Least(z, if Before(z, m, k) then m else k);
    }
  }

  lemma Prepend(z: ZSet, m: Member, s: seq<Member>)
    requires Least(z, m)
    requires forall k :: k in s <==> k in z - {m}
    requires forall i, j :: 0 <= i < j < |s| ==> Before(z - {m}, s[i], s[j])
    ensures forall k :: k in [m] + s <==> k in z
    ensures forall i, j :: 0 <= i < j < |s| + 1 ==> Before(z, ([m] + s)[i], ([m] + s)[j])
  {
    forall i, j | 0 <= i < j < |s| + 1
      ensures Before(z, ([m] + s)[i], ([m] + s)[j])
    {
      if i == 0 {
        assert s[j - 1] in s;
      } else {
        assert Before(z - {m}, s[i - 1], s[j - 1]);
      }
    }
  }

  /** All members, lowest first (ZRANGE 0 -1). */
  function Ranked(z: ZSet): (s: seq<Member>)
    ensures forall k :: k in s <==> k in z
    ensures forall i, j :: 0 <= i < j < |s| ==> Before(z, s[i], s[j])
    ensures |s| == |z|
    decreases |z|
  {
    if z == map[] then []
    else
      LeastExists(z);
      var m :| m in z && forall k :: k in z && k != m ==> Before(z, m, k);
      var lower := z - {m};
      Prepend(z, m, Ranked(lower));
      [m] + Ranked(lower)
  }

  function Reverse(s: seq<Member>): (r: seq<Member>)
    ensures |r| == |s|
    ensures forall i :: 0 <= i < |s| ==> r[i] == s[|s| - 1 - i]
    ensures forall x :: x in r <==> x in s
  {
    if s == [] then []
    else
      assert forall x :: x in s <==> x == s[0] || x in s[1..];
      Reverse(s[1..]) + [s[0]]
  }

  /** All members, highest first (ZREVRANGE 0 -1). */
  function RevRanked(z: ZSet): (s: seq<Member>)
    ensures forall k :: k in s <==> k in z
    ensures forall i, j :: 0 <= i < j < |s| ==> Before(z, s[j], s[i])
  {
    Reverse(Ranked(z))
  }

  /** The entries with a score in 0..hi. */
  function Due(z: ZSet, hi: int): ZSet {
    map k | k in z && 0 <= z[k] <= hi :: z[k]
  }

  /** The first `limit` members whose score lies in 0..hi (ZRANGEBYSCORE 0 hi LIMIT 0 limit). */
  function RangeByScore(z: ZSet, hi: int, limit: nat): seq<Member> {
    var r := Ranked(Due(z, hi));
    if |r| <= limit then r else r[..limit]
  }

  /** What the range is a part of. */
  lemma DueExactly(z: ZSet, hi: int, k: Member)
    ensures k in Due(z, hi) <==> k in z && 0 <= z[k] <= hi
    ensures k in Due(z, hi) ==> Due(z, hi)[k] == z[k]
  {
  }

  /** The range holds `limit` due members, or all of them, each once, in order of score and then of member. */
  lemma RangeByScoreIsDue(z: ZSet, hi: int, limit: nat)
    ensures |RangeByScore(z, hi, limit)| == (if |Due(z, hi)| <= limit then |Due(z, hi)| else limit)
    ensures forall k :: k in RangeByScore(z, hi, limit) ==> k in Due(z, hi) && k in z && 0 <= z[k] <= hi
    ensures var s := RangeByScore(z, hi, limit);
            forall i, j :: 0 <= i < j < |s| ==>
              s[i] != s[j] && s[i] in z && s[j] in z && (z[s[i]] < z[s[j]] || (z[s[i]] == z[s[j]] && s[i] < s[j]))
  {
    var due := Due(z, hi);
    var r := Ranked(due);
    var s := RangeByScore(z, hi, limit);
    forall k | k in s
      ensures k in due
    {
      assert k in r;
    }
    forall i, j | 0 <= i < j < |s|
      ensures s[i] != s[j] && s[i] in z && s[j] in z && (z[s[i]] < z[s[j]] || (z[s[i]] == z[s[j]] && s[i] < s[j]))
    {
      assert Before(due, r[i], r[j]);
    }
  }

  /** No due member is passed over for a later one. */
  lemma RangeByScoreIsEarliest(z: ZSet, hi: int, limit: nat, a: Member, b: Member)
    requires a in RangeByScore(z, hi, limit)
    requires b in z && 0 <= z[b] <= hi && b !in RangeByScore(z, hi, limit)
    ensures a in z && (z[a] < z[b] || (z[a] == z[b] && a < b))
  {
    var due := Due(z, hi);
    var r := Ranked(due);
    var s := RangeByScore(z, hi, limit);
    assert b in due && b in r;
    var i :| 0 <= i < |s| && s[i] == a;
    var j :| 0 <= j < |r| && r[j] == b;
    assert forall k :: 0 <= k < |s| ==> r[k] == s[k] && s[k] in s;
    assert Before(due, r[i], r[j]);
  }
}
