/** Searching a growing text through a window that overlaps what was searched before. */
module WindowScan {

  /** A pattern of fixed length: one test per position. */
  type Pattern<!T> = seq<T -> bool>

  predicate MatchesAt<T>(p: Pattern<T>, s: seq<T>, i: nat) {
    i + |p| <= |s| && forall k | 0 <= k < |p| :: p[k](s[i + k])
  }

  predicate Occurs<T>(p: Pattern<T>, s: seq<T>) {
    exists i: nat | i <= |s| :: MatchesAt(p, s, i)
  }

  function Max(a: int, b: int): int { if a < b then b else a }

  lemma MatchesInPart<T>(p: Pattern<T>, s: seq<T>, from: nat, to: nat, i: nat)
    requires from <= to <= |s| && from <= i && i + |p| <= to
    ensures MatchesAt(p, s[from..to], i - from) <==> MatchesAt(p, s, i)
  {
    var part := s[from..to];
    forall k | 0 <= k < |p| ensures p[k](part[i - from + k]) == p[k](s[i + k]) {
      assert part[i - from + k] == s[i + k];
    }
  }

  lemma MatchedBefore<T>(p: Pattern<T>, before: seq<T>, more: seq<T>, i: nat)
    requires i + |p| <= |before| && MatchesAt(p, before + more, i)
    ensures Occurs(p, before)
  {
    MatchesInPart(p, before + more, 0, |before|, i);
    assert (before + more)[0..|before|] == before;
    assert MatchesAt(p, before, i);
  }

  /** A window that keeps all but one of the pattern's length sees every new occurrence. */
  lemma WindowSees<T>(p: Pattern<T>, before: seq<T>, more: seq<T>, start: nat)
    requires !Occurs(p, before) && start <= |before| && (start == 0 || |p| <= |before| - start + 1)
    ensures Occurs(p, (before + more)[start..]) <==> Occurs(p, before + more)
  {
    var whole := before + more;
    if i: nat :| i <= |whole| - start && MatchesAt(p, whole[start..], i) {
      MatchesInPart(p, whole, start, |whole|, start + i);
      assert whole[start..|whole|] == whole[start..];
      assert MatchesAt(p, whole, start + i);
    }
    if i: nat :| i <= |whole| && MatchesAt(p, whole, i) {
      if i + |p| <= |before| {
        MatchedBefore(p, before, more, i);
      } else {
        MatchesInPart(p, whole, start, |whole|, i);
        assert whole[start..|whole|] == whole[start..];
        assert MatchesAt(p, whole[start..], i - start);
      }
    }
  }

  lemma OccursLater<T>(p: Pattern<T>, before: seq<T>, more: seq<T>)
    requires Occurs(p, before)
    ensures Occurs(p, before + more)
  {
    var i: nat :| i <= |before| && MatchesAt(p, before, i);
    MatchesInPart(p, before + more, 0, |before|, i);
    assert (before + more)[0..|before|] == before;
    assert MatchesAt(p, before + more, i);
  }
}
