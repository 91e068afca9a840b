/** Definitions shared by every component model. */
module Base {

  const U16 := 0x1_0000
  const U32 := 0x1_0000_0000
  const U64 := 0x1_0000_0000_0000_0000

  const BSIZE := 1024

  datatype Option<+T> = None | Some(value: T)

  /** What a kernel routine does: it returns, or it stops the machine in `panic`. */
  datatype Outcome<+T> = Panic | Ok(value: T)

  function Min(a: int, b: int): int {
    if a < b then a else b
  }

  /** No list of more than n different numbers fits below n. */
  lemma {:induction false} Pigeonhole(s: seq<nat>, n: nat)
    requires |s| > n
    requires forall i :: 0 <= i < |s| ==> s[i] < n
    ensures exists i, j :: 0 <= i < j < |s| && s[i] == s[j]
  {
    assert s[0] < n;
    if forall i :: 0 <= i < |s| ==> s[i] != n - 1 {
      Pigeonhole(s, n - 1);
    } else {
      var p :| 0 <= p < |s| && s[p] == n - 1;
      var rest := s[..p] + s[p + 1..];
      if n - 1 in rest {
        var q :| 0 <= q < |rest| && rest[q] == n - 1;
        var q' := if q < p then q else q + 1;
        assert s[q'] == n - 1;
        var lo, hi := Min(p, q'), p + q' - Min(p, q');
        assert lo < hi && s[lo] == s[hi];
      } else {
        forall i | 0 <= i < |rest| ensures rest[i] < n - 1 {
          assert rest[i] in rest;
          assert rest[i] == s[if i < p then i else i + 1];
        }
        Pigeonhole(rest, n - 1);
        var i, j :| 0 <= i < j < |rest| && rest[i] == rest[j];
        assert rest[i] == s[if i < p then i else i + 1];
        assert rest[j] == s[if j < p then j else j + 1];
      }
    }
  }

  /** A set of numbers below n has at most n of them. */
  lemma {:induction false} SetBelow(s: set<nat>, n: nat)
    requires forall x :: x in s ==> x < n
    ensures |s| <= n
  {
    if s != {} {
      var x :| x in s;
      assert n > 0;
      SetBelow(s - {n - 1}, n - 1);
      assert |s| <= |s - {n - 1}| + 1;
    }
  }

  /** ... and with n of them it has them all. */
  lemma FullSet(s: set<nat>, n: nat, x: nat)
    requires (forall y :: y in s ==> y < n) && |s| >= n && x < n
    ensures x in s
  {
    if x !in s {
      SetBelow(s + {x}, n);
    }
  }
}
