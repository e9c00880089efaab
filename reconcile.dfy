/**
  One reconciliation cycle of `checkMembers`, as a function of what the
  outside world supplied: the roster API's response, the state of the
  snapshot file and the configured webhook URL.

  The cycle yields whether the snapshot was read, the notifications in the
  order they are sent, and what happens to the snapshot file.
*/
module Reconcile {

  import opened Wrappers
  import opened Roster
  import opened Notify

  /** What the roster API request produced. */
  datatype Response =
    | Unreachable                            // the request threw: network error or non-2xx status
    | Body(characters: Option<seq<Member>>)  // a reply; `None` when `data` or `data.characters` is missing or falsy

  /** `fetchMembers`: `null` on failure, `[]` for a reply without `characters`, else the list. */
  function FetchMembers(response: Response): (r: Option<seq<Member>>)
    // only a request that threw yields `null`; any reply yields a roster
    ensures r.None? <==> response.Unreachable?
    // a reply carrying a list yields that list itself
    ensures response.Body? && response.characters.Some? ==> r == Some(response.characters.value)
    // a reply without one yields an empty roster, not a failure
    ensures response.Body? && response.characters.None? ==> r == Some([])
  {
    match response
    case Unreachable => None
    case Body(None) => Some([])
    case Body(Some(characters)) => Some(characters)
  }

  /** The snapshot file `data/members.json`. */
  datatype Store =
    | Missing                        // no file yet: the first run
    | Unreadable                     // the file exists but cannot be read or parsed
    | Saved(members: seq<Member>)    // the roster last written

  /** `loadPreviousMembers`: `null` when there is no file, `[]` when it is corrupt, else the roster. */
  function LoadPrevious(stored: Store): (r: Option<seq<Member>>)
    // `null`, the first-run signal, means exactly that there is no file
    ensures r.None? <==> stored.Missing?
    // a saved roster reads back as exactly that roster
    ensures stored.Saved? ==> r == Some(stored.members)
    // an unreadable file reads back as an empty roster
    ensures stored.Unreadable? ==> r == Some([])
  {
    match stored
    case Missing => None
    case Unreadable => Some([])
    case Saved(members) => Some(members)
  }

  /** What the cycle does to the snapshot file. */
  datatype SnapshotAction = Keep | Write(members: seq<Member>)

  /**
    How a `writeFileSync` call ended. It opens the file with flag `w`, which
    empties it, and then writes; an error at either step is only logged.
  */
  datatype WriteResult =
    | Written     // the whole roster is on disk
    | NotOpened   // the open failed: the old file is untouched
    | Truncated   // the write failed after the open: the file is empty or partial

  /**
    `saveMembers`: what the snapshot file holds afterwards. A proper prefix of
    a JSON array never parses, so a truncated file is `Unreadable`.
  */
  function Persist(stored: Store, action: SnapshotAction, write: WriteResult): (r: Store)
    // nothing to write, or a write that never opened the file, changes nothing
    ensures action.Keep? || write.NotOpened? ==> r == stored
    // a completed write is read back as exactly the roster written
    ensures action.Write? && write.Written? ==> LoadPrevious(r) == Some(action.members)
    // an interrupted write is read back as an empty roster
    ensures action.Write? && write.Truncated? ==> LoadPrevious(r) == Some([])
  {
    match action
    case Keep => stored
    case Write(members) =>
      match write
      case Written => Saved(members)
      case NotOpened => stored
      case Truncated => Unreadable
  }

  /** What one cycle did: whether it read the snapshot, what it sent, what it does to the file. */
  datatype CycleOutcome = CycleOutcome(loaded: bool, notices: seq<Notice>, action: SnapshotAction)

  /** The outcome of `checkMembers`. */
  function Cycle(response: Response, stored: Store, url: Option<string>): (o: CycleOutcome)
    // a failed fetch skips everything else
    ensures response.Unreachable? ==> !o.loaded && o.notices == [] && o.action == Keep
    ensures !response.Unreachable? ==> o.loaded
    // the only roster ever written is the fetched one, verbatim
    ensures o.action.Write? ==> FetchMembers(response) == Some(o.action.members)
    // the first run seeds the snapshot and reports nothing
    ensures !response.Unreachable? && stored.Missing? ==>
              o.notices == [] && o.action == Write(FetchMembers(response).value)
  {
    match FetchMembers(response)
    case None => CycleOutcome(false, [], Keep)
    case Some(current) =>
      match LoadPrevious(stored)
      case None => CycleOutcome(true, [], Write(current))
      case Some(previous) =>
        var d := ComputeDiff(current, previous);
        CycleOutcome(true,
                     Notifications(Joined, d.joined, url) + Notifications(Left, d.left, url),
                     if Changed(d) then Write(current) else Keep)
  }

  // ---------------------------------------------------------------------
  // Properties of a cycle

  /** The cycle past its two early returns: the diff decides both the notices and the write. */
  lemma CycleCompares(response: Response, stored: Store, url: Option<string>)
    requires FetchMembers(response).Some? && !stored.Missing?
    ensures var current := FetchMembers(response).value;
            var d := ComputeDiff(current, LoadPrevious(stored).value);
      Cycle(response, stored, url)
        == CycleOutcome(true,
                        Notifications(Joined, d.joined, url) + Notifications(Left, d.left, url),
                        if Changed(d) then Write(current) else Keep)
  {
  }

  /** The joined notices followed by the departed ones, each in its list's order. */
  lemma AnnouncedInOrder(joined: seq<Member>, left: seq<Member>, url: Option<string>)
    ensures var notices := Notifications(Joined, joined, url) + Notifications(Left, left, url);
      && |notices| == |joined| + |left|
      && (forall i :: 0 <= i < |joined| ==> notices[i].content == Message(Joined, joined[i].name))
      && (forall i :: 0 <= i < |left| ==> notices[|joined| + i].content == Message(Left, left[i].name))
  {
    var nj, nl := Notifications(Joined, joined, url), Notifications(Left, left, url);
    var notices := nj + nl;
    forall i | 0 <= i < |joined| ensures notices[i].content == Message(Joined, joined[i].name) {
      assert notices[i] == nj[i];
    }
    forall i | 0 <= i < |left| ensures notices[|joined| + i].content == Message(Left, left[i].name) {
      assert notices[|joined| + i] == nl[i];
    }
  }

  /**
    With a snapshot to compare against, one notice per change is sent: first
    every joined member in order, then every departed member in order.
  */
  lemma CycleAnnounces(response: Response, stored: Store, url: Option<string>)
    requires FetchMembers(response).Some? && !stored.Missing?
    ensures var d := ComputeDiff(FetchMembers(response).value, LoadPrevious(stored).value);
            var notices := Cycle(response, stored, url).notices;
      && |notices| == |d.joined| + |d.left|
      && (forall i :: 0 <= i < |d.joined| ==> notices[i].content == Message(Joined, d.joined[i].name))
      && (forall i :: 0 <= i < |d.left| ==> notices[|d.joined| + i].content == Message(Left, d.left[i].name))
  {
    var d := ComputeDiff(FetchMembers(response).value, LoadPrevious(stored).value);
    CycleCompares(response, stored, url);
    AnnouncedInOrder(d.joined, d.left, url);
  }

  /**
    With a snapshot to compare against, the snapshot is rewritten, and
    notices are sent, exactly when the fetched ids differ from the stored ids.
  */
  lemma CycleWritesIffChanged(response: Response, stored: Store, url: Option<string>)
    requires FetchMembers(response).Some? && !stored.Missing?
    ensures var current, previous := FetchMembers(response).value, LoadPrevious(stored).value;
            var o := Cycle(response, stored, url);
      && o.action == (if Ids(current) == Ids(previous) then Keep else Write(current))
      && (o.notices == [] <==> Ids(current) == Ids(previous))
  {
    var current, previous := FetchMembers(response).value, LoadPrevious(stored).value;
    DiffEmptyIff(current, previous);
    CycleAnnounces(response, stored, url);
  }

  /** A corrupt snapshot counts as an empty roster: every fetched member is reported as joined. */
  lemma CorruptSnapshotAllJoined(response: Response, url: Option<string>)
    requires FetchMembers(response).Some?
    ensures var current, o := FetchMembers(response).value, Cycle(response, Unreadable, url);
      && o.notices == Notifications(Joined, current, url)
      && o.action == (if current == [] then Keep else Write(current))
  {
    var current := FetchMembers(response).value;
    CycleCompares(response, Unreadable, url);
    DiffAgainstEmpty(current);
    assert Notifications(Left, [], url) == [];
  }

  /** A reply without a `characters` list behaves exactly like an empty roster. */
  lemma MalformedReplyIsEmptyRoster(stored: Store, url: Option<string>)
    ensures Cycle(Body(None), stored, url) == Cycle(Body(Some([])), stored, url)
  {
  }

  /**
    Because such a reply is an empty roster rather than a failure, it reports
    every stored member as departed and then overwrites the snapshot with `[]`.
  */
  lemma MalformedReplyReportsAllLeft(stored: Store, url: Option<string>)
    requires stored.Saved?
    ensures var o := Cycle(Body(None), stored, url);
      && o.notices == Notifications(Left, stored.members, url)
      && o.action == (if stored.members == [] then Keep else Write([]))
  {
    CycleCompares(Body(None), stored, url);
    DiffFromEmpty(stored.members);
    assert Notifications(Joined, [], url) == [];
  }

  /**
    After a cycle whose write succeeded, a second cycle on the same reply
    reports nothing and writes nothing.
  */
  lemma SecondCycleQuiet(response: Response, stored: Store, url: Option<string>)
    ensures var next := Persist(stored, Cycle(response, stored, url).action, Written);
            var o := Cycle(response, next, url);
      && o.notices == []
      && o.action == Keep
  {
    var next := Persist(stored, Cycle(response, stored, url).action, Written);
    if !response.Unreachable? {
      var current := FetchMembers(response).value;
      if next == Saved(current) {
        DiffWithSelf(current);
      } else {
        // nothing was written, so the first cycle found no change
        assert next == stored && !stored.Missing?;
        CycleWritesIffChanged(response, stored, url);
        CycleWritesIffChanged(response, next, url);
      }
    }
  }

  /** A write that never opened the file leaves the stale snapshot, so the next cycle repeats the same report. */
  lemma FailedSaveRepeats(response: Response, stored: Store, url: Option<string>)
    ensures var o := Cycle(response, stored, url);
      Cycle(response, Persist(stored, o.action, NotOpened), url) == o
  {
  }

  /**
    A write that failed after emptying the file leaves a snapshot that cannot
    be read, so the next cycle on the same reply announces every fetched
    member as joined.
  */
  lemma TruncatedSaveAllJoined(response: Response, stored: Store, url: Option<string>)
    requires Cycle(response, stored, url).action.Write?
    ensures var current := FetchMembers(response).value;
            var o := Cycle(response, Persist(stored, Cycle(response, stored, url).action, Truncated), url);
      && o.notices == Notifications(Joined, current, url)
      && o.action == (if current == [] then Keep else Write(current))
  {
    CorruptSnapshotAllJoined(response, url);
  }

  /** Two runs of notices carry the same messages, one for one. */
  ghost predicate SameMessages(n1: seq<Notice>, n2: seq<Notice>)
  {
    |n1| == |n2| && forall i :: 0 <= i < |n1| ==> n1[i].content == n2[i].content
  }

  lemma SameMessagesAppend(a1: seq<Notice>, b1: seq<Notice>, a2: seq<Notice>, b2: seq<Notice>)
    requires SameMessages(a1, a2) && SameMessages(b1, b2)
    ensures SameMessages(a1 + b1, a2 + b2)
  {
    forall i | 0 <= i < |a1 + b1| ensures (a1 + b1)[i].content == (a2 + b2)[i].content {
      if i >= |a1| {
        assert (a1 + b1)[i] == b1[i - |a1|] && (a2 + b2)[i] == b2[i - |a1|];
      }
    }
  }

  /**
    The webhook setting only decides between posting and logging: it changes
    neither which members are reported, nor in what words, nor the snapshot.
  */
  lemma DeliveryModeIrrelevant(response: Response, stored: Store, u1: Option<string>, u2: Option<string>)
    ensures var o1, o2 := Cycle(response, stored, u1), Cycle(response, stored, u2);
      && o1.loaded == o2.loaded
      && o1.action == o2.action
      && SameMessages(o1.notices, o2.notices)
  {
    if FetchMembers(response).Some? && !stored.Missing? {
      CycleCompares(response, stored, u1);
      CycleCompares(response, stored, u2);
      var d := ComputeDiff(FetchMembers(response).value, LoadPrevious(stored).value);
      SameMessagesAppend(Notifications(Joined, d.joined, u1), Notifications(Left, d.left, u1),
                         Notifications(Joined, d.joined, u2), Notifications(Left, d.left, u2));
    }
  }

  /** Without a usable webhook URL nothing is posted; every message is only logged. */
  lemma DryRunOnlyLogs(response: Response, stored: Store, url: Option<string>)
    requires !DeliveryEnabled(url)
    ensures var notices := Cycle(response, stored, url).notices;
      forall i :: 0 <= i < |notices| ==> notices[i].Logged?
  {
    if FetchMembers(response).Some? && !stored.Missing? {
      CycleCompares(response, stored, url);
      var d := ComputeDiff(FetchMembers(response).value, LoadPrevious(stored).value);
      var nj: seq<Notice>, nl: seq<Notice> := Notifications(Joined, d.joined, url), Notifications(Left, d.left, url);
      forall i | 0 <= i < |nj + nl| ensures (nj + nl)[i].Logged? {
        if i >= |nj| {
          assert (nj + nl)[i] == nl[i - |nj|];
        }
      }
    }
  }
}
