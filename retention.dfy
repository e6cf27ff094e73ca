/** The "keep only the newest n entries" rule used for the price history
    (100 entries per currency) and for each wallet's transaction log (50):
    after an append, `if len(log) > n: log = log[-n:]`. */
module Retention {

  /** `s[-n:]` applied only when `s` is longer than `n`. */
  function KeepNewest<T>(s: seq<T>, n: nat): (r: seq<T>)
    ensures |r| == if |s| <= n then |s| else n
    ensures r == s[|s| - |r|..]
  {
    if |s| > n then s[|s| - n..] else s
  }

  /** Appends `x` to `log` and trims the result to the newest `n` entries. */
  function AppendCapped<T>(log: seq<T>, x: T, n: nat): (r: seq<T>)
    requires n > 0
    ensures |r| <= n
    ensures |r| > 0 && r[|r| - 1] == x
  {
    KeepNewest(log + [x], n)
  }

  /** One capped append after another keeps exactly what a single cap of
      the whole sequence would keep: trimming early loses nothing that a
      later trim would have kept. */
  lemma {:induction false} CappedAppendComposes<T>(s: seq<T>, x: T, n: nat)
    requires n > 0
    ensures AppendCapped(KeepNewest(s, n), x, n) == KeepNewest(s + [x], n)
  {
    var k := KeepNewest(s, n);
    var sx := s + [x];
    if |s| > n {
      assert k == s[|s| - n..];
      var lhs := KeepNewest(k + [x], n);
      var rhs := KeepNewest(sx, n);
      assert |lhs| == n && |rhs| == n;
      forall i | 0 <= i < n ensures lhs[i] == rhs[i] {
        if i < n - 1 {
          assert lhs[i] == (k + [x])[i + 1] == s[|s| - n + i + 1];
          assert rhs[i] == sx[|s| + 1 - n + i];
        }
      }
    }
  }

  /** Appends every element of `xs` in turn, trimming after each append, as
      repeated ticks do to one currency's history. */
  function AppendAllCapped<T>(log: seq<T>, xs: seq<T>, n: nat): (r: seq<T>)
    requires n > 0
    decreases |xs|
  {
    if xs == [] then log else AppendAllCapped(AppendCapped(log, xs[0], n), xs[1..], n)
  }

  /** After at least one capped append, or any number of them to a log that
      already respects the cap, exactly the newest `n` entries of the whole
      sequence remain, in their original order (oldest evicted first). A log
      over the cap, which only grows by appends that do not trim, is cut
      back by the first capped append. */
  lemma {:induction false} AppendAllCappedKeepsNewest<T>(log: seq<T>, xs: seq<T>, n: nat)
    requires n > 0
    requires |log| <= n || xs != []
    ensures AppendAllCapped(log, xs, n) == KeepNewest(log + xs, n)
  {
    if xs == [] {
      assert KeepNewest(log, n) == log;
      AppendAllCappedFrom(log, xs, n);
    } else {
      assert AppendAllCapped(log, xs, n) == AppendAllCapped(KeepNewest(log + [xs[0]], n), xs[1..], n);
      AppendAllCappedFrom(log + [xs[0]], xs[1..], n);
      ShiftFirst(log, xs);
    }
  }

  /** Generalisation used by the induction: start from an already trimmed
      arbitrary sequence. */
  lemma {:induction false} AppendAllCappedFrom<T>(s: seq<T>, xs: seq<T>, n: nat)
    requires n > 0
    ensures AppendAllCapped(KeepNewest(s, n), xs, n) == KeepNewest(s + xs, n)
    decreases |xs|
  {
    if xs == [] {
      assert s + xs == s;
    } else {
      var next := s + [xs[0]];
      CappedStep(s, xs, n);
      AppendAllCappedFrom(next, xs[1..], n);
      ShiftFirst(s, xs);
    }
  }

  /** One step of that induction: the first capped append is the same as
      trimming the extended sequence. */
  lemma CappedStep<T>(s: seq<T>, xs: seq<T>, n: nat)
    requires n > 0 && xs != []
    ensures AppendAllCapped(KeepNewest(s, n), xs, n) == AppendAllCapped(KeepNewest(s + [xs[0]], n), xs[1..], n)
  {
    CappedAppendComposes(s, xs[0], n);
  }

  /** Moving the first element of `xs` across the concatenation. */
  lemma ShiftFirst<T>(s: seq<T>, xs: seq<T>)
    requires xs != []
    ensures s + [xs[0]] + xs[1..] == s + xs
  {
    assert xs == [xs[0]] + xs[1..];
  }
}
