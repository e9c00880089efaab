/**
  The monitor process of `src/index.js`: it owns the snapshot file and,
  once per timer tick, runs `checkMembers`, which fetches the roster, reads
  the snapshot, sends one webhook call per change and rewrites the snapshot.

  The object records every call it makes to the outside world so that the
  effect of a cycle can be stated: the snapshot file, the notices sent, the
  number of snapshot reads and the rosters handed to `saveMembers`.
*/
module Service {

  import opened Wrappers
  import opened Roster
  import opened Notify
  import opened Reconcile

  lemma AppendAssociative<T>(a: seq<T>, b: seq<T>, c: seq<T>)
    ensures a + b + c == a + (b + c)
  {
  }

  class Monitor {
    /** `DISCORD_WEBHOOK_URL`, unset when the environment lacks it. */
    const webhookUrl: Option<string>
    /** The snapshot file `data/members.json`. */
    var store: Store
    /** Every call of `sendDiscordWebhook`, in the order made. */
    var outbox: seq<Notice>
    /** How many times the snapshot was read. */
    var loads: nat
    /** Every roster handed to `saveMembers`, whether or not the write succeeded. */
    var saves: seq<seq<Member>>

    constructor (webhookUrl: Option<string>, store: Store)
      ensures this.webhookUrl == webhookUrl && this.store == store
      ensures outbox == [] && loads == 0 && saves == []
    {
      this.webhookUrl := webhookUrl;
      this.store := store;
      outbox, loads, saves := [], 0, [];
    }

    /** `loadPreviousMembers`: reads the snapshot, changing nothing. */
    method LoadPreviousMembers() returns (previous: Option<seq<Member>>)
      modifies this`loads
      ensures previous == LoadPrevious(store)
      ensures previous.None? <==> store.Missing?
      ensures loads == old(loads) + 1
    {
      previous := LoadPrevious(store);
      loads := loads + 1;
    }

    /** `saveMembers`: overwrites the snapshot, or leaves it as a failed write leaves it. */
    method SaveMembers(members: seq<Member>, write: WriteResult)
      modifies this`store, this`saves
      ensures store == Persist(old(store), Write(members), write)
      ensures saves == old(saves) + [members]
    {
      if write.Written? {
        store := Saved(members);
      } else if write.Truncated? {
        store := Unreadable;
      }
      saves := saves + [members];
    }

    /** `sendDiscordWebhook`: posts the message, or only logs it when delivery is disabled. */
    method SendDiscordWebhook(content: string)
      modifies this`outbox
      ensures outbox == old(outbox) + [NoticeFor(content, webhookUrl)]
      ensures outbox[|outbox| - 1].Posted? <==> DeliveryEnabled(webhookUrl)
    {
      outbox := outbox + [NoticeFor(content, webhookUrl)];
    }

    /** `for (const member of ms) await sendDiscordWebhook(...)`: one call per member, in order. */
    method Announce(change: Change, ms: seq<Member>)
      modifies this`outbox
      ensures outbox == old(outbox) + Notifications(change, ms, webhookUrl)
    {
      for i := 0 to |ms|
        invariant outbox == old(outbox) + Notifications(change, ms[..i], webhookUrl)
      {
        NotificationsSnoc(change, ms, i, webhookUrl);
        ghost var notice := NoticeFor(Message(change, ms[i].name), webhookUrl);
        AppendAssociative(old(outbox), Notifications(change, ms[..i], webhookUrl), [notice]);
        SendDiscordWebhook(Message(change, ms[i].name));
      }
      assert ms[..|ms|] == ms;
    }

    /**
      `checkMembers`: one cycle. Its effect is the one `Cycle` describes:
      the notices are appended to the outbox, the snapshot is read unless
      the fetch failed, and the snapshot is rewritten only as `Cycle` says.
    */
    method CheckMembers(response: Response, write: WriteResult)
      modifies this`store, this`outbox, this`loads, this`saves
      ensures var o := Cycle(response, old(store), webhookUrl);
        && outbox == old(outbox) + o.notices
        && loads == old(loads) + (if o.loaded then 1 else 0)
        && saves == old(saves) + (if o.action.Write? then [o.action.members] else [])
        && store == Persist(old(store), o.action, write)
    {
      var current := FetchMembers(response);
      if current.None? {
        return;
      }

      var previous := LoadPreviousMembers();
      if previous.None? {
        SaveMembers(current.value, write);
        return;
      }

      CycleCompares(response, old(store), webhookUrl);
      var d := ComputeDiff(current.value, previous.value);

      ghost var before := outbox;
      Announce(Joined, d.joined);
      Announce(Left, d.left);
      ghost var nj, nl := Notifications(Joined, d.joined, webhookUrl), Notifications(Left, d.left, webhookUrl);
      AppendAssociative(before, nj, nl);

      if |d.joined| > 0 || |d.left| > 0 {
        SaveMembers(current.value, write);
      }
    }
  }
}
