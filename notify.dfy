/**
  Notification text and the delivery switch of `sendDiscordWebhook`.

  Each joined or departed member gets one message. When the webhook URL is
  unset, empty or still the placeholder from the sample configuration, the
  message is only logged (dry run); otherwise it is posted to the webhook.
*/
module Notify {

  import opened Wrappers
  import opened Roster

  /** Which way a member moved. */
  datatype Change = Joined | Left

  /** The text after the member's name. */
  function Tail(change: Change): string
  {
    match change
    case Joined => "** has joined the corporation."
    case Left => "** has left the corporation."
  }

  /** `**name** has joined the corporation.` or `**name** has left the corporation.` */
  function Message(change: Change, name: string): (r: string)
    ensures |r| >= 2 + |Tail(change)|
    ensures r[..2] == "**" && r[|r| - |Tail(change)|..] == Tail(change)
  {
    "**" + name + Tail(change)
  }

  /** The message mentions the member by name, right after the opening `**`. */
  lemma MessageMentions(change: Change, name: string)
    ensures |Message(change, name)| == 2 + |name| + |Tail(change)|
    ensures Message(change, name)[2..2 + |name|] == name
  {
    assert ("**" + name + Tail(change))[2..2 + |name|] == name;
  }

  /**
    The character as far from the end as the departed tail is long tells the
    two kinds apart: it opens the departed tail (`*`) but sits inside the
    longer joined tail (a space).
  */
  lemma MessageMarksChange(change: Change, name: string)
    ensures |Message(change, name)| >= |Tail(Left)|
    ensures Message(change, name)[|Message(change, name)| - |Tail(Left)|] == if change == Left then '*' else ' '
  {
    var s := Message(change, name);
    MessageMentions(change, name);
    assert s[2 + |name|..] == Tail(change);
    if change == Left {
      assert s[|s| - |Tail(Left)|] == Tail(Left)[0];
    } else {
      assert s[|s| - |Tail(Left)|] == Tail(Joined)[|Tail(Joined)| - |Tail(Left)|];
    }
  }

  /** Distinct members or distinct changes never share a message: the text determines both. */
  lemma MessageInjective(c1: Change, n1: string, c2: Change, n2: string)
    requires Message(c1, n1) == Message(c2, n2)
    ensures c1 == c2 && n1 == n2
  {
    var s := Message(c1, n1);
    MessageMarksChange(c1, n1);
    MessageMarksChange(c2, n2);
    assert c1 == c2;
    MessageMentions(c1, n1);
    MessageMentions(c2, n2);
    assert n1 == s[2..2 + |n1|] == n2;
  }

  /** The value of `.env.example` that means "not configured". */
  const Placeholder: string := "your_webhook_url_here"

  /** `sendDiscordWebhook` posts only when the URL is set, non-empty and not the placeholder. */
  predicate DeliveryEnabled(url: Option<string>)
  {
    url.Some? && url.value != "" && url.value != Placeholder
  }

  /** One call of `sendDiscordWebhook`: the message was posted, or only logged. */
  datatype Notice = Posted(content: string) | Logged(content: string)

  function NoticeFor(content: string, url: Option<string>): (r: Notice)
    ensures r.content == content
    ensures r.Posted? <==> DeliveryEnabled(url)
  {
    if DeliveryEnabled(url) then Posted(content) else Logged(content)
  }

  /**
    The calls made by `for (const member of ms) await sendDiscordWebhook(...)`:
    one per member, in order, each carrying that member's message, and posted
    exactly when delivery is enabled.
  */
  function Notifications(change: Change, ms: seq<Member>, url: Option<string>): (r: seq<Notice>)
    ensures |r| == |ms|
    ensures forall i :: 0 <= i < |ms| ==>
              r[i].content == Message(change, ms[i].name) && (r[i].Posted? <==> DeliveryEnabled(url))
  {
    if ms == [] then []
    else [NoticeFor(Message(change, ms[0].name), url)] + Notifications(change, ms[1..], url)
  }

  /** Notifying one more member appends exactly that member's notice. */
  lemma NotificationsSnoc(change: Change, ms: seq<Member>, i: nat, url: Option<string>)
    requires i < |ms|
    ensures Notifications(change, ms[..i + 1], url)
         == Notifications(change, ms[..i], url) + [NoticeFor(Message(change, ms[i].name), url)]
  {
    var a, b := Notifications(change, ms[..i + 1], url), Notifications(change, ms[..i], url);
    var c := b + [NoticeFor(Message(change, ms[i].name), url)];
    forall j | 0 <= j < |a| ensures a[j] == c[j] {
      if j < i {
        assert ms[..i + 1][j] == ms[..i][j];
      }
    }
  }
}
