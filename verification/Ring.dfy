/** A ring of n slots that holds the newest n entries of a log: slot i % n holds entry i. */
module Ring {
  ghost predicate Holds<T>(slots: seq<T>, log: seq<T>, n: nat)
    requires n > 0
  {
    |slots| == n && forall i: nat | i < |log| <= i + n :: slots[i % n] == log[i]
  }

  lemma Apart(i: nat, w: nat, n: nat)
    requires i < w < i + n
    ensures i % n != w % n
  {
    var k := w / n - i / n;
    assert w - i == n * k + (w % n - i % n) by {
      assert w == n * (w / n) + w % n;
      assert i == n * (i / n) + i % n;
    }
    if k >= 1 {
      assert n * k >= n;
    } else {
      assert n * k <= 0;
    }
  }

  /** Overwriting the slot after the newest entry keeps the ring right. */
  lemma HoldsPush<T>(slots: seq<T>, log: seq<T>, n: nat, e: T)
    requires n > 0 && Holds(slots, log, n)
    ensures |log| % n < n && Holds(slots[|log| % n := e], log + [e], n)
  {
    var w := |log|;
    forall i: nat | i < w + 1 <= i + n
      ensures slots[w % n := e][i % n] == (log + [e])[i]
    {
      if i < w {
        Apart(i, w, n);
        assert slots[i % n] == log[i];
      }
    }
  }
}
