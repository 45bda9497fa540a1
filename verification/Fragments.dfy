// Cutting a sequence of samples into fragments: maximal runs of unflagged samples, each with a cut point at every end that
// touches a flagged sample. Independent of what samples and cuts are.
module Fragments {

  ghost predicate InSomeRun(runs: seq<(nat, nat)>, j: nat) {
    exists k :: 0 <= k < |runs| && runs[k].0 <= j < runs[k].1
  }

  /** l..r is a maximal stretch of unflagged samples among the first n. */
  ghost predicate IsRun(flags: seq<bool>, n: nat, l: nat, r: nat) {
    && l < r <= n <= |flags|
    && (forall i :: l <= i < r ==> !flags[i])
    && (l > 0 ==> flags[l - 1])
    && (r < n ==> flags[r])
  }

  /** All the maximal stretches, in order. */
  ghost predicate AreRuns(flags: seq<bool>, n: nat, runs: seq<(nat, nat)>) {
    && n <= |flags|
    && (forall k :: 0 <= k < |runs| ==> IsRun(flags, n, runs[k].0, runs[k].1))
    && (forall k :: 0 <= k < |runs| - 1 ==> runs[k].1 < runs[k + 1].0)
    && (forall i :: 0 <= i < n && !flags[i] ==> InSomeRun(runs, i))
  }

  /** The fragment of samples l..r: the samples themselves, with a cut wherever the run touches a flagged sample. */
  ghost predicate IsFragment<T>(isCut: (T, T, T) -> bool, dense: seq<T>, l: nat, r: nat, f: seq<T>) {
    && l < r <= |dense|
    && var a := if l == 0 then 0 else 1;
    && var b := if r == |dense| then 0 else 1;
    && |f| == a + (r - l) + b
    && f[a..a + (r - l)] == dense[l..r]
    && (l > 0 ==> isCut(dense[l], dense[l - 1], f[0]))
    && (r < |dense| ==> isCut(dense[r - 1], dense[r], f[|f| - 1]))
  }

  ghost predicate AreFragments<T>(isCut: (T, T, T) -> bool, dense: seq<T>, runs: seq<(nat, nat)>, fragments: seq<seq<T>>) {
    && |runs| == |fragments|
    && forall k :: 0 <= k < |runs| ==> IsFragment(isCut, dense, runs[k].0, runs[k].1, fragments[k])
  }

  // ---------- the loop state ----------

  /** Complete runs and fragments, and the fragment being built from sample `start`. */
  datatype Cutting<T> = Cutting(runs: seq<(nat, nat)>, fragments: seq<seq<T>>, start: nat, current: seq<T>)

  /** What is known of the fragment being built: samples l..i, with its opening cut. */
  ghost predicate IsOpen<T>(isCut: (T, T, T) -> bool, dense: seq<T>, l: nat, i: nat, f: seq<T>) {
    && l < i <= |dense|
    && var a := if l == 0 then 0 else 1;
    && |f| == a + (i - l)
    && f[a..] == dense[l..i]
    && (l > 0 ==> isCut(dense[l], dense[l - 1], f[0]))
  }

  /** Complete runs before position i; the unflagged samples before `covered` are all in one of them. */
  ghost predicate ClosedRuns(flags: seq<bool>, i: nat, covered: nat, runs: seq<(nat, nat)>) {
    && covered <= i <= |flags|
    && (forall k :: 0 <= k < |runs| ==> IsRun(flags, |flags|, runs[k].0, runs[k].1) && runs[k].1 < i)
    && (forall k :: 0 <= k < |runs| - 1 ==> runs[k].1 < runs[k + 1].0)
    && (runs != [] ==> runs[|runs| - 1].1 < covered)
    && (forall j :: 0 <= j < covered && !flags[j] ==> InSomeRun(runs, j))
  }

  ghost predicate OpenRun<T>(isCut: (T, T, T) -> bool, dense: seq<T>, flags: seq<bool>, i: nat, start: nat, current: seq<T>) {
    && |flags| == |dense| && i <= |flags|
    && (current == [] <==> i == 0 || flags[i - 1])
    && (current == [] ==> start == i)
    && (current != [] ==> IsOpen(isCut, dense, start, i, current) && IsRun(flags, i, start, i))
  }

  ghost predicate Progress<T>(isCut: (T, T, T) -> bool, dense: seq<T>, flags: seq<bool>, i: nat, st: Cutting<T>) {
    && ClosedRuns(flags, i, st.start, st.runs)
    && AreFragments(isCut, dense, st.runs, st.fragments)
    && OpenRun(isCut, dense, flags, i, st.start, st.current)
  }

  lemma AppendRun(flags: seq<bool>, runs: seq<(nat, nat)>, start: nat, i: nat)
    requires ClosedRuns(flags, i, start, runs) && IsRun(flags, |flags|, start, i)
    ensures var all := runs + [(start, i)];
      && (forall k :: 0 <= k < |all| ==> IsRun(flags, |flags|, all[k].0, all[k].1) && all[k].1 <= i)
      && (forall k :: 0 <= k < |all| - 1 ==> all[k].1 < all[k + 1].0)
      && (forall j :: 0 <= j < i && !flags[j] ==> InSomeRun(all, j))
  {
    var all := runs + [(start, i)];
    assert forall k :: 0 <= k < |runs| ==> all[k] == runs[k];
    assert all[|runs|] == (start, i);
    forall j | 0 <= j < i && !flags[j] ensures InSomeRun(all, j) {
      if j < start {
        var k :| 0 <= k < |runs| && runs[k].0 <= j < runs[k].1;
        assert all[k].0 <= j < all[k].1;
      } else {
        assert all[|runs|].0 <= j < all[|runs|].1;
      }
    }
  }

  lemma AppendFragment<T>(isCut: (T, T, T) -> bool, dense: seq<T>, runs: seq<(nat, nat)>, fragments: seq<seq<T>>, start: nat, i: nat, f: seq<T>)
    requires AreFragments(isCut, dense, runs, fragments) && IsFragment(isCut, dense, start, i, f)
    ensures AreFragments(isCut, dense, runs + [(start, i)], fragments + [f])
  {
  }

  lemma CloseFragment<T>(isCut: (T, T, T) -> bool, dense: seq<T>, l: nat, i: nat, f: seq<T>, c: T)
    requires IsOpen(isCut, dense, l, i, f) && i < |dense| && isCut(dense[i - 1], dense[i], c)
    ensures IsFragment(isCut, dense, l, i, f + [c])
  {
    var a := if l == 0 then 0 else 1;
    assert (f + [c])[a..a + (i - l)] == f[a..];
  }

  lemma CloseRun(flags: seq<bool>, runs: seq<(nat, nat)>, start: nat, i: nat)
    requires ClosedRuns(flags, i, start, runs) && IsRun(flags, i, start, i) && i < |flags| && flags[i]
    ensures ClosedRuns(flags, i + 1, i + 1, runs + [(start, i)])
  {
    AppendRun(flags, runs, start, i);
  }

  /** A flagged sample after unflagged ones closes the fragment with a cut. */
  lemma CloseStep<T>(isCut: (T, T, T) -> bool, dense: seq<T>, flags: seq<bool>, i: nat, st: Cutting<T>, c: T)
    requires Progress(isCut, dense, flags, i, st) && i < |dense| && flags[i] && st.current != []
    requires isCut(dense[i - 1], dense[i], c)
    ensures Progress(isCut, dense, flags, i + 1, Cutting(st.runs + [(st.start, i)], st.fragments + [st.current + [c]], i + 1, []))
  {
    CloseFragment(isCut, dense, st.start, i, st.current, c);
    CloseRun(flags, st.runs, st.start, i);
    AppendFragment(isCut, dense, st.runs, st.fragments, st.start, i, st.current + [c]);
  }

  lemma SkipStep<T>(isCut: (T, T, T) -> bool, dense: seq<T>, flags: seq<bool>, i: nat, st: Cutting<T>)
    requires Progress(isCut, dense, flags, i, st) && i < |dense| && flags[i] && st.current == []
    ensures Progress(isCut, dense, flags, i + 1, st.(start := i + 1))
  {
  }

  lemma GrowStep<T>(isCut: (T, T, T) -> bool, dense: seq<T>, flags: seq<bool>, i: nat, st: Cutting<T>)
    requires Progress(isCut, dense, flags, i, st) && i < |dense| && !flags[i] && st.current != []
    ensures Progress(isCut, dense, flags, i + 1, st.(current := st.current + [dense[i]]))
  {
    var a := if st.start == 0 then 0 else 1;
    assert (st.current + [dense[i]])[a..] == st.current[a..] + [dense[i]];
  }

  /** The first unflagged sample of a run, after the opening cut if there is one. */
  lemma StartStep<T>(isCut: (T, T, T) -> bool, dense: seq<T>, flags: seq<bool>, i: nat, st: Cutting<T>, opening: seq<T>)
    requires Progress(isCut, dense, flags, i, st) && i < |dense| && !flags[i] && st.current == []
    requires if i == 0 then opening == [] else |opening| == 1 && isCut(dense[i], dense[i - 1], opening[0])
    ensures Progress(isCut, dense, flags, i + 1, st.(current := opening + [dense[i]]))
  {
  }

  lemma FinishStep<T>(isCut: (T, T, T) -> bool, dense: seq<T>, flags: seq<bool>, st: Cutting<T>)
    requires Progress(isCut, dense, flags, |dense|, st)
    ensures st.current == [] ==> AreRuns(flags, |flags|, st.runs)
    ensures st.current != [] ==> AreRuns(flags, |flags|, st.runs + [(st.start, |dense|)])
    ensures st.current != [] ==> AreFragments(isCut, dense, st.runs + [(st.start, |dense|)], st.fragments + [st.current])
  {
    if st.current != [] {
      var a := if st.start == 0 then 0 else 1;
      assert st.current[a..a + (|dense| - st.start)] == st.current[a..];
      AppendRun(flags, st.runs, st.start, |dense|);
      AppendFragment(isCut, dense, st.runs, st.fragments, st.start, |dense|, st.current);
    }
  }
}
