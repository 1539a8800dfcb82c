/**
 * The two pieces of java.lang.String behaviour the compartment builder relies on:
 * `s.replace(target, "")`, which deletes every occurrence of `target`, and
 * `compareTo`, the lexicographic order on strings.
 */
module JavaString {

  /** `target` occurs in `s` starting at index `i`. */
  predicate OccursAt(s: string, target: string, i: int) {
    0 <= i && i + |target| <= |s| && s[i..i + |target|] == target
  }

  ghost predicate Contains(s: string, target: string) {
    exists i :: OccursAt(s, target, i)
  }

  /**
   * `s.replace(target, "")`: scans left to right and deletes each leftmost,
   * non-overlapping occurrence of `target`. An empty `target` leaves `s` as it is.
   */
  function RemoveAll(s: string, target: string): (r: string)
    ensures |r| <= |s|
    decreases |s|
  {
    if target == [] || |s| < |target| then s
    else if s[..|target|] == target then RemoveAll(s[|target|..], target)
    else [s[0]] + RemoveAll(s[1..], target)
  }

  /** A string in which `target` does not occur comes back unchanged. */
  lemma {:induction false} RemoveAllAbsent(s: string, target: string)
    requires !Contains(s, target)
    ensures RemoveAll(s, target) == s
    decreases |s|
  {
    if target == [] || |s| < |target| {
    } else {
      assert !OccursAt(s, target, 0);
      assert !Contains(s[1..], target) by {
        forall i | OccursAt(s[1..], target, i) ensures false {
          assert s[1..][i..i + |target|] == s[i + 1..i + 1 + |target|];
          assert OccursAt(s, target, i + 1);
        }
      }
      RemoveAllAbsent(s[1..], target);
      assert s == [s[0]] + s[1..];
    }
  }

  /** A leading occurrence of a non-empty `target` is deleted and the scan goes on after it. */
  lemma RemoveAllLeading(target: string, rest: string)
    requires target != []
    ensures RemoveAll(target + rest, target) == RemoveAll(rest, target)
  {
    var s := target + rest;
    assert s[..|target|] == target;
    assert s[|target|..] == rest;
  }

  /** A stamp made of the day followed by a time that does not mention the day yields that time. */
  lemma StampWithoutDay(day: string, time: string)
    requires day != []
    requires !Contains(time, day)
    ensures RemoveAll(day + time, day) == time
  {
    RemoveAllLeading(day, time);
    RemoveAllAbsent(time, day);
  }

  /**
   * `a.compareTo(b) < 0`: the first differing character decides, and a proper
   * prefix comes before the longer string.
   */
  predicate LexLess(a: string, b: string)
    decreases |a|
  {
    if |a| == 0 then |b| > 0
    else if |b| == 0 then false
    else if a[0] != b[0] then a[0] < b[0]
    else LexLess(a[1..], b[1..])
  }

  lemma {:induction false} LexLessIrreflexive(a: string)
    ensures !LexLess(a, a)
    decreases |a|
  {
    if |a| > 0 {
      LexLessIrreflexive(a[1..]);
    }
  }

  lemma {:induction false} LexLessAsymmetric(a: string, b: string)
    requires LexLess(a, b)
    ensures !LexLess(b, a)
    decreases |a|
  {
    if |a| > 0 && |b| > 0 && a[0] == b[0] {
      LexLessAsymmetric(a[1..], b[1..]);
    }
  }

  lemma {:induction false} LexLessTransitive(a: string, b: string, c: string)
    requires LexLess(a, b) && LexLess(b, c)
    ensures LexLess(a, c)
    decreases |a|
  {
    if |a| > 0 && a[0] == b[0] && b[0] == c[0] {
      LexLessTransitive(a[1..], b[1..], c[1..]);
    }
  }

  /** Any two different strings are ordered one way or the other. */
  lemma {:induction false} LexLessTotal(a: string, b: string)
    ensures a == b || LexLess(a, b) || LexLess(b, a)
    decreases |a|
  {
    if |a| > 0 && |b| > 0 && a[0] == b[0] {
      LexLessTotal(a[1..], b[1..]);
      if a[1..] == b[1..] {
        assert a == [a[0]] + a[1..] && b == [b[0]] + b[1..];
      }
    }
  }

  /** `k` is the smallest member of `keys`. */
  predicate IsLeast(k: string, keys: set<string>) {
    k in keys && forall x :: x in keys && x != k ==> LexLess(k, x)
  }

  lemma {:induction false} LeastExists(keys: set<string>)
    requires keys != {}
    ensures exists k :: IsLeast(k, keys)
    decreases |keys|
  {
    var y :| y in keys;
    if keys == {y} {
      assert IsLeast(y, keys);
    } else {
      var rest := keys - {y};
      LeastExists(rest);
      var m :| IsLeast(m, rest);
      LexLessTotal(y, m);
      if LexLess(y, m) {
        forall x | x in keys && x != y ensures LexLess(y, x) {
          if x != m { LexLessTransitive(y, m, x); }
        }
        assert IsLeast(y, keys);
      } else {
        assert IsLeast(m, keys);
      }
    }
  }

  lemma LeastUnique(keys: set<string>)
    ensures forall k, k' :: IsLeast(k, keys) && IsLeast(k', keys) ==> k == k'
  {
    forall k, k' | IsLeast(k, keys) && IsLeast(k', keys) ensures k == k' {
      if k != k' {
        LexLessAsymmetric(k, k');
      }
    }
  }

  /** The smallest key in the `compareTo` order. */
  function MinKey(keys: set<string>): (k: string)
    requires keys != {}
    ensures k in keys
    ensures forall x :: x in keys && x != k ==> LexLess(k, x)
  {
    LeastExists(keys);
    LeastUnique(keys);
    var k :| IsLeast(k, keys);
    k
  }
}
