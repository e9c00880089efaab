/**
  The four cycles that `tests/verify.js` drives in sequence, stated on the
  model: a first run, a cycle without change, a member joining and a member
  leaving, each starting from the snapshot the previous one left behind.
*/
module Scenarios {

  import opened Wrappers
  import opened Roster
  import opened Notify
  import opened Reconcile

  const Alice: Member := Member(1, "Alice")
  const Bob: Member := Member(2, "Bob")
  const Charlie: Member := Member(3, "Charlie")

  /** The mock webhook the script configures. */
  const MockWebhook: Option<string> := Some("http://discord.mock/webhook")

  /** First run: the roster is saved and nobody is announced. */
  lemma FirstRunScenario()
    ensures Cycle(Body(Some([Alice, Bob])), Missing, MockWebhook) == CycleOutcome(true, [], Write([Alice, Bob]))
  {
  }

  /** Same roster again: no webhook call and no write. */
  lemma NoChangeScenario()
    ensures Cycle(Body(Some([Alice, Bob])), Saved([Alice, Bob]), MockWebhook) == CycleOutcome(true, [], Keep)
  {
    DiffWithSelf([Alice, Bob]);
  }

  /** The lookups of the rosters the script uses, built entry by entry. */
  lemma Lookups()
    ensures NameMap([Alice, Bob]) == map[1 := "Alice", 2 := "Bob"]
    ensures NameMap([Alice, Charlie]) == map[1 := "Alice", 3 := "Charlie"]
    ensures NameMap([Alice, Bob, Charlie]) == map[1 := "Alice", 2 := "Bob", 3 := "Charlie"]
  {
    assert [Alice, Bob][..1] == [Alice] && [Alice, Charlie][..1] == [Alice];
    assert [Alice, Bob, Charlie][..2] == [Alice, Bob];
    assert [Alice][..0] == [];
  }

  /** The script's webhook is usable. */
  lemma MockDeliveryEnabled()
    ensures DeliveryEnabled(MockWebhook)
  {
    assert |MockWebhook.value| != |Placeholder|;
  }

  lemma CharlieMessage()
    ensures Message(Joined, "Charlie") == "**Charlie** has joined the corporation."
  {
    assert "**" + "Charlie" == "**Charlie";
  }

  lemma BobMessage()
    ensures Message(Left, "Bob") == "**Bob** has left the corporation."
  {
    assert "**" + "Bob" == "**Bob";
  }

  lemma FilterAliceBobCharlie(lookup: map<int, string>)
    ensures Unmatched([Alice, Bob, Charlie], lookup)
         == (if 1 in lookup then [] else [Alice]) + (if 2 in lookup then [] else [Bob])
            + (if 3 in lookup then [] else [Charlie])
  {
    assert [Alice, Bob, Charlie][1..] == [Bob, Charlie] && [Bob, Charlie][1..] == [Charlie];
    assert [Charlie][1..] == [];
    assert Unmatched([Charlie], lookup) == if 3 in lookup then [] else [Charlie];
    assert Unmatched([Bob, Charlie], lookup)
        == (if 2 in lookup then [] else [Bob]) + (if 3 in lookup then [] else [Charlie]);
  }

  lemma FilterAliceWith(other: Member, lookup: map<int, string>)
    ensures Unmatched([Alice, other], lookup)
         == (if 1 in lookup then [] else [Alice]) + (if other.id in lookup then [] else [other])
  {
    assert [Alice, other][1..] == [other] && [other][1..] == [];
  }

  /** Adding Charlie to Alice and Bob: Charlie joined, nobody left. */
  lemma JoinDiff()
    ensures ComputeDiff([Alice, Bob, Charlie], [Alice, Bob]) == Diff([Charlie], [])
  {
    Lookups();
    FilterAliceBobCharlie(NameMap([Alice, Bob]));
    FilterAliceWith(Bob, NameMap([Alice, Bob, Charlie]));
  }

  /** Dropping Bob from Alice, Bob and Charlie: nobody joined, Bob left. */
  lemma LeaveDiff()
    ensures ComputeDiff([Alice, Charlie], [Alice, Bob, Charlie]) == Diff([], [Bob])
  {
    Lookups();
    FilterAliceWith(Charlie, NameMap([Alice, Bob, Charlie]));
    FilterAliceBobCharlie(NameMap([Alice, Charlie]));
  }

  /** Charlie appears: one post mentioning Charlie, and the three are saved. */
  lemma JoinScenario()
    ensures Cycle(Body(Some([Alice, Bob, Charlie])), Saved([Alice, Bob]), MockWebhook)
         == CycleOutcome(true, [Posted("**Charlie** has joined the corporation.")], Write([Alice, Bob, Charlie]))
  {
    CycleCompares(Body(Some([Alice, Bob, Charlie])), Saved([Alice, Bob]), MockWebhook);
    JoinDiff();
    MockDeliveryEnabled();
    CharlieMessage();
    assert Notifications(Joined, [Charlie], MockWebhook) == [Posted("**Charlie** has joined the corporation.")];
    assert Notifications(Left, [], MockWebhook) == [];
  }

  /** Bob disappears: one post mentioning Bob, and the two remaining are saved. */
  lemma LeaveScenario()
    ensures Cycle(Body(Some([Alice, Charlie])), Saved([Alice, Bob, Charlie]), MockWebhook)
         == CycleOutcome(true, [Posted("**Bob** has left the corporation.")], Write([Alice, Charlie]))
  {
    CycleCompares(Body(Some([Alice, Charlie])), Saved([Alice, Bob, Charlie]), MockWebhook);
    LeaveDiff();
    MockDeliveryEnabled();
    BobMessage();
    assert Notifications(Left, [Bob], MockWebhook) == [Posted("**Bob** has left the corporation.")];
    assert Notifications(Joined, [], MockWebhook) == [];
  }
}
