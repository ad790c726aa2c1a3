/**
 * The greedy anchor grouping shared by the video and image detectors.
 * Candidates are visited in order; each one not yet taken becomes an
 * anchor, collects every later untaken candidate that is close to it, and
 * the collection is kept as a group when it holds at least two members.
 * Taken indices are never reconsidered. The detectors run this loop over
 * their own records; this module states the grouping on indices, with
 * `close(i, j)` the detector's similarity test between candidates i < j.
 */
module Greedy {

  /** The indices in [lo, hi) that are not yet taken and close to anchor `a`, ascending. */
  function Candidates(a: nat, lo: nat, hi: nat, taken: set<nat>, close: (nat, nat) -> bool): (m: seq<nat>)
    ensures forall x {:trigger x in m} :: x in m <==> lo <= x < hi && x !in taken && close(a, x)
    ensures forall p, q :: 0 <= p < q < |m| ==> m[p] < m[q]
  {
    if hi <= lo then []
    else
      var m0 := Candidates(a, lo, hi - 1, taken, close);
      assert forall r :: 0 <= r < |m0| ==> m0[r] in m0;
      if hi - 1 !in taken && close(a, hi - 1) then m0 + [hi - 1] else m0
  }

  function Elements(m: seq<nat>): set<nat>
  {
    set x | x in m
  }

  datatype State = State(groups: seq<seq<nat>>, taken: set<nat>)

  /** One visit of the outer loop: anchor a, if not taken, takes its candidates and keeps them as a group when there are any. */
  function Step(n: nat, close: (nat, nat) -> bool, a: nat, st: State): State
  {
    if a in st.taken then st
    else
      var m := Candidates(a, a + 1, n, st.taken, close);
      var taken := st.taken + {a} + Elements(m);
      if |m| >= 1 then State(st.groups + [[a] + m], taken) else State(st.groups, taken)
  }

  /**
   * The state after the outer loop has visited anchors 0 .. k-1: the groups
   * kept so far and the set of taken indices.
   */
  function Run(n: nat, close: (nat, nat) -> bool, k: nat): State
    requires k <= n
  {
    if k == 0 then State([], {}) else Step(n, close, k - 1, Run(n, close, k - 1))
  }

  /** The groups the greedy loop produces over n candidates. */
  function Groups(n: nat, close: (nat, nat) -> bool): seq<seq<nat>>
  {
    Run(n, close, n).groups
  }

  /** Every index that some group holds. */
  ghost function Flat(gs: seq<seq<nat>>): set<nat>
  {
    if gs == [] then {} else Flat(gs[..|gs| - 1]) + Elements(gs[|gs| - 1])
  }

  ghost predicate InGroups(gs: seq<seq<nat>>, x: nat)
  {
    x in Flat(gs)
  }

  /** An index is in some group exactly when some group holds it. */
  lemma {:induction false} InGroupsIndex(gs: seq<seq<nat>>, x: nat)
    ensures InGroups(gs, x) <==> exists p {:trigger x in gs[p]} :: 0 <= p < |gs| && x in gs[p]
  {
    if gs != [] {
      var init := gs[..|gs| - 1];
      InGroupsIndex(init, x);
      assert forall p :: 0 <= p < |init| ==> init[p] == gs[p];
      if x in gs[|gs| - 1] {
        assert x in Elements(gs[|gs| - 1]);
      }
    }
  }

  lemma InGroupsOf(gs: seq<seq<nat>>, p: nat, x: nat)
    requires p < |gs| && x in gs[p]
    ensures InGroups(gs, x)
  {
    InGroupsIndex(gs, x);
  }

  /** Every group has an anchor and at least one member, ascending, in range, each member close to the anchor. */
  ghost predicate WellFormed(n: nat, close: (nat, nat) -> bool, gs: seq<seq<nat>>)
  {
    forall p :: 0 <= p < |gs| ==> GroupOK(n, close, gs[p])
  }

  ghost predicate GroupOK(n: nat, close: (nat, nat) -> bool, g: seq<nat>)
  {
    && |g| >= 2
    && (forall r, s :: 0 <= r < s < |g| ==> g[r] < g[s])
    && (forall r :: 0 <= r < |g| ==> g[r] < n)
    && (forall r {:trigger close(g[0], g[r])} :: 1 <= r < |g| ==> close(g[0], g[r]))
  }

  /** Groups share no index, and their anchors increase. */
  ghost predicate Disjoint(gs: seq<seq<nat>>)
  {
    && (forall p, q :: 0 <= p < q < |gs| && gs[p] != [] && gs[q] != [] ==> gs[p][0] < gs[q][0])
    && (forall p, q, x {:trigger x in gs[p], x in gs[q]} :: 0 <= p < q < |gs| && x in gs[p] ==> x !in gs[q])
  }

  /** A group takes every later index close to its anchor that no earlier group took. */
  ghost predicate Complete(n: nat, close: (nat, nat) -> bool, gs: seq<seq<nat>>)
  {
    forall q, j {:trigger close(gs[q][0], j)} :: 0 <= q < |gs| && gs[q] != [] && gs[q][0] < j < n && close(gs[q][0], j) ==>
      j in gs[q] || exists p {:trigger j in gs[p]} :: 0 <= p < q && j in gs[p]
  }

  /**
   * An index below k that ended up in no group was not close to any later
   * index, except to ones an earlier anchor had already taken.
   */
  ghost predicate Unmatched(n: nat, close: (nat, nat) -> bool, gs: seq<seq<nat>>, k: nat)
  {
    forall i, j :: 0 <= i < k && i < j < n && !InGroups(gs, i) && close(i, j) ==>
      exists p {:trigger j in gs[p]} :: 0 <= p < |gs| && j in gs[p] && gs[p][0] < i
  }

  ghost predicate Inv(n: nat, close: (nat, nat) -> bool, k: nat, st: State)
  {
    && WellFormed(n, close, st.groups)
    && Disjoint(st.groups)
    && Complete(n, close, st.groups)
    && Unmatched(n, close, st.groups, k)
    && (forall p :: 0 <= p < |st.groups| ==> st.groups[p] != [] && st.groups[p][0] < k)
    && (forall x: nat :: x in st.taken <==> x < k || InGroups(st.groups, x))
  }

  /** Facts about the state before anchor k-1 opens a new group with members m. */
  ghost predicate Opening(n: nat, close: (nat, nat) -> bool, k: nat, st: State, m: seq<nat>)
  {
    && 0 < k <= n && Inv(n, close, k - 1, st) && k - 1 !in st.taken
    && m == Candidates(k - 1, k, n, st.taken, close) && |m| >= 1
  }

  /** Appending a group adds exactly its members to those in some group. */
  lemma InGroupsAppend(gs: seq<seq<nat>>, g: seq<nat>, x: nat)
    ensures InGroups(gs + [g], x) <==> InGroups(gs, x) || x in g
  {
    assert (gs + [g])[..|gs|] == gs;
  }

  /** The anchor and its candidates are in no earlier group. */
  lemma {:induction false} NewGroupMembers(n: nat, close: (nat, nat) -> bool, k: nat, taken: set<nat>, gs: seq<seq<nat>>, m: seq<nat>)
    requires 0 < k <= n && k - 1 !in taken && m == Candidates(k - 1, k, n, taken, close)
    requires forall x: nat :: x in taken <==> x < k - 1 || InGroups(gs, x)
    ensures forall x :: x in [k - 1] + m ==> !InGroups(gs, x)
  {
    forall x | x in [k - 1] + m ensures !InGroups(gs, x) {
      if x != k - 1 { assert x in m; }
    }
  }

  lemma {:induction false} NewGroupOK(n: nat, close: (nat, nat) -> bool, k: nat, taken: set<nat>, m: seq<nat>)
    requires 0 < k <= n && m == Candidates(k - 1, k, n, taken, close) && |m| >= 1
    ensures GroupOK(n, close, [k - 1] + m)
  {
    forall r | 0 <= r < |m| ensures k <= m[r] < n && close(k - 1, m[r]) {
      assert m[r] in m;
    }
  }

  lemma {:induction false} AppendWellFormed(n: nat, close: (nat, nat) -> bool, gs: seq<seq<nat>>, g: seq<nat>)
    requires WellFormed(n, close, gs) && GroupOK(n, close, g)
    ensures WellFormed(n, close, gs + [g])
  {
    assert forall p :: 0 <= p < |gs| ==> (gs + [g])[p] == gs[p];
  }

  lemma {:induction false} AppendDisjoint(gs: seq<seq<nat>>, g: seq<nat>)
    requires Disjoint(gs) && g != []
    requires forall p :: 0 <= p < |gs| ==> gs[p] != [] && gs[p][0] < g[0]
    requires forall x :: x in g ==> !InGroups(gs, x)
    ensures Disjoint(gs + [g])
  {
    var gs' := gs + [g];
    assert forall p :: 0 <= p < |gs| ==> gs'[p] == gs[p];
    assert gs'[|gs|] == g;
    forall p, q, x | 0 <= p < q < |gs'| && x in gs'[p] ensures x !in gs'[q] {
      if q == |gs| {
        assert x in gs[p];
        InGroupsOf(gs, p, x);
      }
    }
  }

  lemma {:induction false} NewGroupComplete(n: nat, close: (nat, nat) -> bool, k: nat, st: State, m: seq<nat>)
    requires 0 < k <= n && m == Candidates(k - 1, k, n, st.taken, close)
    requires Complete(n, close, st.groups)
    requires forall x: nat :: x in st.taken <==> x < k - 1 || InGroups(st.groups, x)
    ensures Complete(n, close, st.groups + [[k - 1] + m])
  {
    var a := k - 1;
    var g := [a] + m;
    var gs := st.groups + [g];
    forall q, j | 0 <= q < |gs| && gs[q] != [] && gs[q][0] < j < n && close(gs[q][0], j)
      ensures j in gs[q] || exists p :: 0 <= p < q && j in gs[p]
    {
      if q == |st.groups| {
        assert gs[q] == g;
        NewAnchorTakes(n, close, k, st.groups, st.taken, m, j);
      } else {
        OldAnchorTakes(n, close, st.groups, g, q, j);
      }
    }
  }

  lemma {:induction false} NewAnchorTakes(n: nat, close: (nat, nat) -> bool, k: nat, gs0: seq<seq<nat>>, taken: set<nat>, m: seq<nat>, j: nat)
    requires 0 < k <= n && m == Candidates(k - 1, k, n, taken, close)
    requires forall x: nat :: x in taken <==> x < k - 1 || InGroups(gs0, x)
    requires k - 1 < j < n && close(k - 1, j)
    ensures var gs := gs0 + [[k - 1] + m];
      j in gs[|gs0|] || exists p :: 0 <= p < |gs0| && j in gs[p]
  {
    var gs := gs0 + [[k - 1] + m];
    if j !in taken {
      assert j in m;
      assert gs[|gs0|] == [k - 1] + m;
    } else {
      InGroupsIndex(gs0, j);
      var p :| 0 <= p < |gs0| && j in gs0[p];
      assert gs[p] == gs0[p];
    }
  }

  lemma {:induction false} OldAnchorTakes(n: nat, close: (nat, nat) -> bool, old_: seq<seq<nat>>, g: seq<nat>, q: nat, j: nat)
    requires Complete(n, close, old_)
    requires q < |old_| && old_[q] != [] && old_[q][0] < j < n && close(old_[q][0], j)
    ensures var gs := old_ + [g];
      j in gs[q] || exists p :: 0 <= p < q && j in gs[p]
  {
    var gs := old_ + [g];
    assert gs[q] == old_[q];
    if j !in gs[q] {
      var p :| 0 <= p < q && j in old_[p];
      assert j in gs[p];
    }
  }

  lemma {:induction false} NewGroupUnmatched(n: nat, close: (nat, nat) -> bool, k: nat, gs: seq<seq<nat>>, m: seq<nat>)
    requires 0 < k && Unmatched(n, close, gs, k - 1)
    ensures Unmatched(n, close, gs + [[k - 1] + m], k)
  {
    var g := [k - 1] + m;
    var gs' := gs + [g];
    forall i, j | 0 <= i < k && i < j < n && !InGroups(gs', i) && close(i, j)
      ensures exists p :: 0 <= p < |gs'| && j in gs'[p] && gs'[p][0] < i
    {
      InGroupsAppend(gs, g, i);
      assert i != k - 1 by { assert g[0] == k - 1; }
      var p :| 0 <= p < |gs| && j in gs[p] && gs[p][0] < i;
      assert gs'[p] == gs[p];
    }
  }

  /** The taken set after a new group: the anchors visited and every grouped index. */
  lemma {:induction false} NewGroupTaken(k: nat, taken: set<nat>, gs: seq<seq<nat>>, m: seq<nat>, taken': set<nat>, gs': seq<seq<nat>>)
    requires 0 < k && taken' == taken + {k - 1} + Elements(m) && gs' == gs + [[k - 1] + m]
    requires forall x: nat :: x in taken <==> x < k - 1 || InGroups(gs, x)
    ensures forall x: nat :: x in taken' <==> x < k || InGroups(gs', x)
  {
    forall x: nat ensures x in taken' <==> x < k || InGroups(gs', x) {
      InGroupsAppend(gs, [k - 1] + m, x);
      assert x in [k - 1] + m <==> x == k - 1 || x in m;
    }
  }

  lemma {:induction false} NewGroupShape(n: nat, close: (nat, nat) -> bool, k: nat, st: State, m: seq<nat>)
    requires Opening(n, close, k, st, m)
    ensures WellFormed(n, close, st.groups + [[k - 1] + m]) && Disjoint(st.groups + [[k - 1] + m])
  {
    NewGroupOK(n, close, k, st.taken, m);
    AppendWellFormed(n, close, st.groups, [k - 1] + m);
    NewGroupMembers(n, close, k, st.taken, st.groups, m);
    AppendDisjoint(st.groups, [k - 1] + m);
  }

  lemma {:induction false} NewGroup(n: nat, close: (nat, nat) -> bool, k: nat, st: State, m: seq<nat>)
    requires Opening(n, close, k, st, m)
    ensures Inv(n, close, k, State(st.groups + [[k - 1] + m], st.taken + {k - 1} + Elements(m)))
  {
    NewGroupShape(n, close, k, st, m);
    NewGroupComplete(n, close, k, st, m);
    NewGroupUnmatched(n, close, k, st.groups, m);
    NewGroupTaken(k, st.taken, st.groups, m, st.taken + {k - 1} + Elements(m), st.groups + [[k - 1] + m]);
    AppendAnchors(st.groups, [k - 1] + m, k);
  }

  lemma AppendAnchors(gs: seq<seq<nat>>, g: seq<nat>, k: nat)
    requires forall p :: 0 <= p < |gs| ==> gs[p] != [] && gs[p][0] < k
    requires g != [] && g[0] < k
    ensures forall p :: 0 <= p < |gs + [g]| ==> (gs + [g])[p] != [] && (gs + [g])[p][0] < k
  {
    assert forall p :: 0 <= p < |gs| ==> (gs + [g])[p] == gs[p];
  }

  lemma {:induction false} NoGroup(n: nat, close: (nat, nat) -> bool, k: nat, st: State)
    requires 0 < k <= n && Inv(n, close, k - 1, st) && k - 1 !in st.taken
    requires Candidates(k - 1, k, n, st.taken, close) == []
    ensures Inv(n, close, k, State(st.groups, st.taken + {k - 1} + Elements([])))
  {
    var a := k - 1;
    forall j | a < j < n && close(a, j)
      ensures exists p :: 0 <= p < |st.groups| && j in st.groups[p] && st.groups[p][0] < a
    {
      assert j !in Candidates(a, k, n, st.taken, close);
      InGroupsIndex(st.groups, j);
      var p :| 0 <= p < |st.groups| && j in st.groups[p];
    }
  }

  lemma {:induction false} SkipTaken(n: nat, close: (nat, nat) -> bool, k: nat, st: State)
    requires 0 < k <= n && Inv(n, close, k - 1, st) && k - 1 in st.taken
    ensures Inv(n, close, k, st)
  {
    assert InGroups(st.groups, k - 1);
    assert Unmatched(n, close, st.groups, k) by {
      forall i, j | 0 <= i < k && i < j < n && !InGroups(st.groups, i) && close(i, j)
        ensures exists p :: 0 <= p < |st.groups| && j in st.groups[p] && st.groups[p][0] < i
      {
        assert i < k - 1;
      }
    }
    assert forall x: nat :: x in st.taken <==> x < k || InGroups(st.groups, x);
  }

  /** Each visit of the outer loop keeps the invariant. */
  lemma {:induction false} StepInv(n: nat, close: (nat, nat) -> bool, k: nat, st: State)
    requires 0 < k <= n && Inv(n, close, k - 1, st)
    ensures Inv(n, close, k, Step(n, close, k - 1, st))
  {
    var a := k - 1;
    if a in st.taken {
      SkipTaken(n, close, k, st);
    } else {
      var m := Candidates(a, a + 1, n, st.taken, close);
      if |m| >= 1 {
        assert Opening(n, close, k, st, m);
        NewGroup(n, close, k, st, m);
      } else {
        NoGroup(n, close, k, st);
        assert m == [];
      }
    }
  }

  lemma {:induction false} RunInv(n: nat, close: (nat, nat) -> bool, k: nat)
    requires k <= n
    ensures Inv(n, close, k, Run(n, close, k))
  {
    if k > 0 {
      RunInv(n, close, k - 1);
      StepInv(n, close, k, Run(n, close, k - 1));
    } else {
      assert forall x :: !InGroups([], x);
    }
  }

  /**
   * The greedy grouping is a set of disjoint groups of at least two
   * candidates, each an anchor followed by later candidates close to it in
   * ascending order; a group holds every later candidate close to its anchor
   * that no earlier group took; and a candidate in no group is close to no
   * later candidate except ones taken by an anchor before it.
   */
  lemma GroupsSpec(n: nat, close: (nat, nat) -> bool)
    ensures var gs := Groups(n, close);
      && WellFormed(n, close, gs)
      && Disjoint(gs)
      && Complete(n, close, gs)
      && Unmatched(n, close, gs, n)
  {
    RunInv(n, close, n);
  }

  /** Fewer than two candidates form no group. */
  lemma GroupsOfFewerThanTwo(n: nat, close: (nat, nat) -> bool)
    requires n < 2
    ensures Groups(n, close) == []
  {
    if n == 1 {
      assert Run(n, close, 0) == State([], {});
      assert Candidates(0, 1, 1, {}, close) == [];
    }
  }

  ghost predicate IndicesBelow(idx: seq<nat>, n: nat)
  {
    forall r :: 0 <= r < |idx| ==> idx[r] < n
  }

  /** Every index of every group is below n. */
  ghost predicate InRange(gs: seq<seq<nat>>, n: nat)
  {
    forall p, r :: 0 <= p < |gs| && 0 <= r < |gs[p]| ==> gs[p][r] < n
  }

  lemma GroupsInRange(n: nat, close: (nat, nat) -> bool, k: nat)
    requires k <= n
    ensures InRange(Run(n, close, k).groups, n)
  {
    RunInv(n, close, k);
    var gs := Run(n, close, k).groups;
    forall p, r | 0 <= p < |gs| && 0 <= r < |gs[p]| ensures gs[p][r] < n {
      assert GroupOK(n, close, gs[p]);
    }
  }

  /** Every grouped index is taken. */
  lemma RunTaken(n: nat, close: (nat, nat) -> bool, k: nat)
    requires k <= n
    ensures var st := Run(n, close, k);
      forall p, r :: 0 <= p < |st.groups| && 0 <= r < |st.groups[p]| ==> st.groups[p][r] in st.taken
  {
    RunInv(n, close, k);
    var st := Run(n, close, k);
    forall p, r | 0 <= p < |st.groups| && 0 <= r < |st.groups[p]| ensures st.groups[p][r] in st.taken {
      InGroupsOf(st.groups, p, st.groups[p][r]);
    }
  }

  /** The elements of `xs` at the indices `idx`, in the order of `idx`. */
  function Pick<T>(xs: seq<T>, idx: seq<nat>): seq<T>
    requires IndicesBelow(idx, |xs|)
  {
    seq(|idx|, r requires 0 <= r < |idx| => xs[idx[r]])
  }

  /** Index groups turned into groups of elements. */
  function PickAll<T>(xs: seq<T>, gs: seq<seq<nat>>): seq<seq<T>>
    requires InRange(gs, |xs|)
  {
    seq(|gs|, p requires 0 <= p < |gs| => Pick(xs, gs[p]))
  }

  lemma CandidatesRange(a: nat, lo: nat, hi: nat, taken: set<nat>, close: (nat, nat) -> bool)
    ensures var m := Candidates(a, lo, hi, taken, close);
      forall r :: 0 <= r < |m| ==> lo <= m[r] < hi
  {
    var m := Candidates(a, lo, hi, taken, close);
    assert forall r :: 0 <= r < |m| ==> m[r] in m;
  }

  lemma PickSnoc<T>(xs: seq<T>, idx: seq<nat>, j: nat)
    requires j < |xs| && IndicesBelow(idx, |xs|)
    ensures Pick(xs, idx + [j]) == Pick(xs, idx) + [xs[j]]
  {
  }

  /** The elements of a group: its anchor followed by its members. */
  function Anchored<T>(xs: seq<T>, i: nat, idx: seq<nat>): seq<T>
    requires i < |xs| && IndicesBelow(idx, |xs|)
  {
    Pick(xs, [i] + idx)
  }

  /** The group under construction grows by one member. */
  lemma AnchoredSnoc<T>(xs: seq<T>, i: nat, idx: seq<nat>, j: nat)
    requires i < |xs| && j < |xs| && IndicesBelow(idx, |xs|)
    ensures IndicesBelow(idx + [j], |xs|)
    ensures Anchored(xs, i, idx + [j]) == Anchored(xs, i, idx) + [xs[j]]
  {
    assert [i] + (idx + [j]) == ([i] + idx) + [j];
    PickSnoc(xs, [i] + idx, j);
  }

  lemma PickCons<T>(xs: seq<T>, i: nat, idx: seq<nat>)
    requires i < |xs| && IndicesBelow(idx, |xs|)
    ensures Pick(xs, [i] + idx) == [xs[i]] + Pick(xs, idx)
  {
  }

  lemma PickAllSnoc<T>(xs: seq<T>, gs: seq<seq<nat>>, g: seq<nat>)
    requires InRange(gs, |xs|) && IndicesBelow(g, |xs|)
    ensures InRange(gs + [g], |xs|)
    ensures PickAll(xs, gs + [g]) == PickAll(xs, gs) + [Pick(xs, g)]
  {
    var gs' := gs + [g];
    assert forall p :: 0 <= p < |gs| ==> gs'[p] == gs[p];
    assert gs'[|gs|] == g;
  }

  /** One more step of the inner loop: index `hi` joins when untaken and close. */
  lemma CandidatesSnoc(a: nat, lo: nat, hi: nat, taken: set<nat>, close: (nat, nat) -> bool)
    requires lo <= hi
    ensures Candidates(a, lo, hi + 1, taken, close) ==
      Candidates(a, lo, hi, taken, close) + (if hi !in taken && close(a, hi) then [hi] else [])
  {
  }

  /** One more step of the outer loop. */
  lemma RunSnoc(n: nat, close: (nat, nat) -> bool, k: nat)
    requires k < n
    ensures var st := Run(n, close, k);
      Run(n, close, k + 1) ==
        if k in st.taken then st
        else
          var m := Candidates(k, k + 1, n, st.taken, close);
          var taken := st.taken + {k} + Elements(m);
          if |m| >= 1 then State(st.groups + [[k] + m], taken) else State(st.groups, taken)
  {
  }

  lemma ElementsBelow(m: seq<nat>, j: nat)
    requires IndicesBelow(m, j)
    ensures j !in Elements(m)
  {
  }

  lemma ElementsSnoc(m: seq<nat>, j: nat)
    ensures Elements(m + [j]) == Elements(m) + {j}
  {
  }
}
