/**
 * The order of a Redis sorted set: by score, and between equal scores by the
 * bytes of the member.
 *
 * Members are numbers here. Reservation ids are UUIDs, all of one length and
 * layout, so their byte order is the order of the 128-bit numbers they spell;
 * for the sliding window only the identity of a member matters.
 */
module SortedSet {
  type Member = nat

  predicate Before(scores: map<Member, int>, a: Member, b: Member)
    requires a in scores && b in scores
  {
    scores[a] < scores[b] || (scores[a] == scores[b] && a < b)
  }

  predicate IsFirst(scores: map<Member, int>, ids: set<Member>, m: Member)
    requires ids <= scores.Keys
  {
    m in ids && forall k :: k in ids ==> k == m || Before(scores, m, k)
  }

  lemma FirstExists(scores: map<Member, int>, ids: set<Member>)
    requires ids <= scores.Keys && ids != {}
    ensures exists m :: IsFirst(scores, ids, m)
  {
    var k :| k in ids;
    if ids == {k} {
      assert IsFirst(scores, ids, k);
    } else {
      var rest := ids - {k};
      assert ids == rest + {k};
      FirstExists(scores, rest);
      var m :| IsFirst(scores, rest, m);
      if Before(scores, k, m) {
        assert forall j :: j in ids && j != k ==> j in rest;
        assert IsFirst(scores, ids, k);
      } else {
        assert IsFirst(scores, ids, m);
      }
    }
  }

  function First(scores: map<Member, int>, ids: set<Member>): (m: Member)
    requires ids <= scores.Keys && ids != {}
    ensures IsFirst(scores, ids, m)
  {
    FirstExists(scores, ids);
    var m :| m in ids && IsFirst(scores, ids, m);
    m
  }
}
