/**
  Members, rosters and the join/leave diff of one reconciliation cycle.

  A roster is the ordered list of `{ character_id, name }` records that the
  roster API returns and that the snapshot file stores. The diff builds a
  lookup `Map` from id to name for each roster and filters the other roster
  against it; only the lookup's keys are consulted, names never are.
*/
module Roster {

  /** One roster entry: `character_id` and the display name. */
  datatype Member = Member(id: int, name: string)

  /** The set of ids occurring in a roster. */
  function Ids(ms: seq<Member>): set<int>
  {
    set m | m in ms :: m.id
  }

  /**
    The lookup built by `new Map(ms.map(m => [m.character_id, m.name]))`:
    entries are inserted front to back, so a later member with the same id
    overwrites the name of an earlier one.
  */
  function NameMap(ms: seq<Member>): (r: map<int, string>)
    ensures r.Keys == Ids(ms)
  {
    if ms == [] then map[]
    else
      var init, last := ms[..|ms| - 1], ms[|ms| - 1];
      assert ms == init + [last];
      assert Ids(ms) == Ids(init) + {last.id};
      NameMap(init)[last.id := last.name]
  }

  /**
    `ms.filter(m => !lookup.has(m.character_id))`: the members of `ms`, in
    order and with repetitions, whose id is not a key of `lookup`.
  */
  function Unmatched(ms: seq<Member>, lookup: map<int, string>): (r: seq<Member>)
    ensures |r| <= |ms|
    ensures forall m :: m in r <==> m in ms && m.id !in lookup
  {
    if ms == [] then []
    else
      var rest := Unmatched(ms[1..], lookup);
      assert forall m :: m in ms <==> m == ms[0] || m in ms[1..];
      if ms[0].id in lookup then rest else [ms[0]] + rest
  }

  /** The outcome of comparing the fetched roster with the stored one. */
  datatype Diff = Diff(joined: seq<Member>, left: seq<Member>)

  /** True when the cycle found at least one join or leave. */
  predicate Changed(d: Diff)
  {
    |d.joined| > 0 || |d.left| > 0
  }

  /**
    `joined` are the current members whose id the previous lookup lacks,
    `left` the previous members whose id the current lookup lacks.
  */
  function ComputeDiff(current: seq<Member>, previous: seq<Member>): (d: Diff)
    ensures forall m :: m in d.joined <==> m in current && m.id !in Ids(previous)
    ensures forall m :: m in d.left <==> m in previous && m.id !in Ids(current)
  {
    Diff(Unmatched(current, NameMap(previous)), Unmatched(previous, NameMap(current)))
  }

  // ---------------------------------------------------------------------
  // The lookup map

  /** Last write wins: a member no later member shares an id with supplies the name. */
  lemma {:induction false} NameMapLastWins(ms: seq<Member>, i: nat)
    requires i < |ms|
    requires forall j :: i < j < |ms| ==> ms[j].id != ms[i].id
    ensures ms[i].id in NameMap(ms) && NameMap(ms)[ms[i].id] == ms[i].name
  {
    if i < |ms| - 1 {
      var init := ms[..|ms| - 1];
      NameMapLastWins(init, i);
    }
  }

  // ---------------------------------------------------------------------
  // The filter

  /** Filtering distributes over concatenation, so it keeps the order of its input. */
  lemma {:induction false} UnmatchedAppend(a: seq<Member>, b: seq<Member>, lookup: map<int, string>)
    ensures Unmatched(a + b, lookup) == Unmatched(a, lookup) + Unmatched(b, lookup)
  {
    if a == [] {
      assert a + b == b;
    } else {
      assert (a + b)[0] == a[0];
      assert (a + b)[1..] == a[1..] + b;
      UnmatchedAppend(a[1..], b, lookup);
    }
  }

  /** Duplicates are kept: every surviving member occurs as often as in the input. */
  lemma {:induction false} UnmatchedCount(ms: seq<Member>, lookup: map<int, string>, m: Member)
    ensures multiset(Unmatched(ms, lookup))[m] == if m.id in lookup then 0 else multiset(ms)[m]
  {
    if ms != [] {
      UnmatchedCount(ms[1..], lookup, m);
      assert ms == [ms[0]] + ms[1..];
    }
  }

  /** Only the keys of the lookup matter, never the names stored under them. */
  lemma {:induction false} UnmatchedKeysOnly(ms: seq<Member>, l1: map<int, string>, l2: map<int, string>)
    requires l1.Keys == l2.Keys
    ensures Unmatched(ms, l1) == Unmatched(ms, l2)
  {
    if ms != [] {
      UnmatchedKeysOnly(ms[1..], l1, l2);
    }
  }

  /** Filtering against an empty lookup keeps the whole roster. */
  lemma {:induction false} UnmatchedNothing(ms: seq<Member>)
    ensures Unmatched(ms, map[]) == ms
  {
    if ms != [] {
      UnmatchedNothing(ms[1..]);
    }
  }

  /** Filtering one more member appends it exactly when its id is not a key. */
  lemma UnmatchedSnoc(ms: seq<Member>, x: Member, lookup: map<int, string>)
    ensures Unmatched(ms + [x], lookup) == Unmatched(ms, lookup) + (if x.id in lookup then [] else [x])
  {
    UnmatchedAppend(ms, [x], lookup);
    assert [x][1..] == [];
  }

  /** The positions below `n` whose member survives the filter, in increasing order. */
  function KeptPositions(ms: seq<Member>, lookup: map<int, string>, n: nat): (r: seq<nat>)
    requires n <= |ms|
    ensures forall j :: 0 <= j < |r| ==> r[j] < n
    ensures forall j, k :: 0 <= j < k < |r| ==> r[j] < r[k]
  {
    if n == 0 then []
    else
      var below := KeptPositions(ms, lookup, n - 1);
      if ms[n - 1].id in lookup then below else below + [n - 1]
  }

  /** The kept positions are exactly those whose member's id the lookup lacks. */
  lemma {:induction false} KeptPositionsExactly(ms: seq<Member>, lookup: map<int, string>, n: nat)
    requires n <= |ms|
    ensures forall i: int :: i in KeptPositions(ms, lookup, n) <==> 0 <= i < n && ms[i].id !in lookup
  {
    if n > 0 {
      KeptPositionsExactly(ms, lookup, n - 1);
    }
  }

  /** `picked` is the subsequence of `ms` at the positions `at`. */
  ghost predicate PicksAt(picked: seq<Member>, ms: seq<Member>, at: seq<nat>)
  {
    |picked| == |at| && forall j :: 0 <= j < |at| ==> at[j] < |ms| && picked[j] == ms[at[j]]
  }

  lemma PicksAtExtend(picked: seq<Member>, ms: seq<Member>, at: seq<nat>, i: nat)
    requires PicksAt(picked, ms, at) && i < |ms|
    ensures PicksAt(picked + [ms[i]], ms, at + [i])
  {
    var p', a' := picked + [ms[i]], at + [i];
    forall j | 0 <= j < |a'| ensures a'[j] < |ms| && p'[j] == ms[a'[j]] {
      if j < |at| {
        assert p'[j] == picked[j] && a'[j] == at[j];
      } else {
        assert p'[j] == ms[i] && a'[j] == i;
      }
    }
  }

  /**
    The filter is exactly the subsequence of its input at the positions whose
    id the lookup lacks.
  */
  lemma {:induction false} UnmatchedIsSubsequence(ms: seq<Member>, lookup: map<int, string>, n: nat)
    requires n <= |ms|
    ensures PicksAt(Unmatched(ms[..n], lookup), ms, KeptPositions(ms, lookup, n))
  {
    if n > 0 {
      UnmatchedIsSubsequence(ms, lookup, n - 1);
      assert ms[..n] == ms[..n - 1] + [ms[n - 1]];
      UnmatchedSnoc(ms[..n - 1], ms[n - 1], lookup);
      if ms[n - 1].id !in lookup {
        PicksAtExtend(Unmatched(ms[..n - 1], lookup), ms, KeptPositions(ms, lookup, n - 1), n - 1);
      }
    }
  }

  // ---------------------------------------------------------------------
  // The diff

  /** Joined: the current members, in order with duplicates, whose id is not among the previous ids. */
  lemma JoinedIsSubsequence(current: seq<Member>, previous: seq<Member>)
    ensures var joined, kept := ComputeDiff(current, previous).joined, KeptPositions(current, NameMap(previous), |current|);
      && PicksAt(joined, current, kept)
      && (forall i: int :: i in kept <==> 0 <= i < |current| && current[i].id !in Ids(previous))
  {
    UnmatchedIsSubsequence(current, NameMap(previous), |current|);
    KeptPositionsExactly(current, NameMap(previous), |current|);
    assert current[..|current|] == current;
  }

  /** Left: the previous members, in order with duplicates, whose id is not among the current ids. */
  lemma LeftIsSubsequence(current: seq<Member>, previous: seq<Member>)
    ensures var left, kept := ComputeDiff(current, previous).left, KeptPositions(previous, NameMap(current), |previous|);
      && PicksAt(left, previous, kept)
      && (forall i: int :: i in kept <==> 0 <= i < |previous| && previous[i].id !in Ids(current))
  {
    UnmatchedIsSubsequence(previous, NameMap(current), |previous|);
    KeptPositionsExactly(previous, NameMap(current), |previous|);
    assert previous[..|previous|] == previous;
  }

  /** Nothing is reported exactly when both rosters carry the same set of ids. */
  lemma DiffEmptyIff(current: seq<Member>, previous: seq<Member>)
    ensures !Changed(ComputeDiff(current, previous)) <==> Ids(current) == Ids(previous)
  {
    var d := ComputeDiff(current, previous);
    if Changed(d) {
      if |d.joined| > 0 {
        var m := d.joined[0];
        assert m in d.joined;
        assert m.id in Ids(current) - Ids(previous);
      } else {
        var m := d.left[0];
        assert m in d.left;
        assert m.id in Ids(previous) - Ids(current);
      }
    } else {
      forall x | x in Ids(current) ensures x in Ids(previous) {
        var m :| m in current && m.id == x;
        assert m !in d.joined;
      }
      forall x | x in Ids(previous) ensures x in Ids(current) {
        var m :| m in previous && m.id == x;
        assert m !in d.left;
      }
    }
  }

  /** Renaming members of the previous roster changes neither who joined nor whether anything changed. */
  lemma DiffIgnoresNames(current: seq<Member>, p1: seq<Member>, p2: seq<Member>)
    requires Ids(p1) == Ids(p2)
    ensures ComputeDiff(current, p1).joined == ComputeDiff(current, p2).joined
    ensures Changed(ComputeDiff(current, p1)) <==> Changed(ComputeDiff(current, p2))
  {
    UnmatchedKeysOnly(current, NameMap(p1), NameMap(p2));
    DiffEmptyIff(current, p1);
    DiffEmptyIff(current, p2);
  }

  /** Against an empty previous roster every current member has joined and nobody has left. */
  lemma DiffAgainstEmpty(current: seq<Member>)
    ensures ComputeDiff(current, []) == Diff(current, [])
  {
    UnmatchedNothing(current);
  }

  /** An empty current roster means every previous member has left and nobody has joined. */
  lemma DiffFromEmpty(previous: seq<Member>)
    ensures ComputeDiff([], previous) == Diff([], previous)
  {
    UnmatchedNothing(previous);
  }

  /** A roster compared with itself yields no change. */
  lemma DiffWithSelf(ms: seq<Member>)
    ensures ComputeDiff(ms, ms) == Diff([], [])
  {
    DiffEmptyIff(ms, ms);
  }
}
