/**
 * The meaning of one poll cycle of `check_alerts`: which alerts are posted,
 * to which channels, with what message content, and which alert ids are
 * marked as posted afterwards.  The upstream fetch is an input sequence and
 * every channel send is an oracle outcome; the imperative cycle in module
 * Bot is proved equal to these functions.
 */
module Alerts {

  /** An alert as the cycle reads it: `properties.id`, `properties.severity`
      and `properties.event`, each `""` when the field is missing. */
  datatype Alert = Alert(id: string, severity: string, event: string)

  /** What happened at one configured channel. */
  datatype SendOutcome =
    | Missing  // `get_channel` found no channel with that id
    | Sent     // `channel.send` returned normally
    | Failed   // `channel.send` raised a `DiscordException`

  /** One step of the fan-out: the alert at position `alert` of the fetched
      batch, the channel id looked up, the message content and the outcome. */
  datatype Delivery = Delivery(alert: nat, channel: int, content: string, outcome: SendOutcome)

  /** `send(i, j)` is the outcome of posting the alert at position `i` of the
      batch to the channel at position `j` of the channel list. */
  type SendOracle = (nat, nat) -> SendOutcome

  /** The message content that pings everyone. */
  const PingContent: string := "@everyone **SEVERE WEATHER ALERT**"

  /** Events that always ping, whatever their severity. */
  const PingEvents: seq<string> := ["Tornado Warning", "Flash Flood Warning", "Blizzard Warning"]

  /** The urgency decision: extreme severity or an always-urgent event. */
  predicate IsUrgent(a: Alert)
  {
    a.severity == "Extreme" || a.event in PingEvents
  }

  /** The `content` posted with an alert's embed. */
  function MessageContent(a: Alert): (content: string)
    ensures content == PingContent <==>
              a.severity == "Extreme" || a.event == "Tornado Warning"
              || a.event == "Flash Flood Warning" || a.event == "Blizzard Warning"
    ensures content != PingContent ==> content == ""
  {
    if IsUrgent(a) then PingContent else ""
  }

  /** The alert is posted in this cycle's loop: it has an id and that id is
      not yet in the posted set. */
  predicate IsNew(posted: set<string>, a: Alert)
  {
    a.id != "" && a.id !in posted
  }

  /** Some channel among the first `n` took the `i`-th alert. */
  predicate AnySent(send: SendOracle, i: nat, n: nat)
  {
    exists j: nat :: j < n && send(i, j) == Sent
  }

  /** The alert at position `i` carries `id` and some channel took it. */
  predicate SentAt(send: SendOracle, alerts: seq<Alert>, n: nat, id: string, i: nat)
  {
    i < |alerts| && alerts[i].id == id && AnySent(send, i, n)
  }

  /** The posted set after the cycle has handled `alerts` with `n` channels. */
  function PostedAfter(posted: set<string>, n: nat, alerts: seq<Alert>, send: SendOracle): set<string>
    decreases |alerts|
  {
    if alerts == [] then posted
    else
      var i := |alerts| - 1;
      var before := PostedAfter(posted, n, alerts[..i], send);
      if IsNew(before, alerts[i]) && AnySent(send, i, n) then before + {alerts[i].id} else before
  }

  /** The channel lookups made for the `i`-th alert: one per channel, in
      channel-list order. */
  function FanOut(send: SendOracle, i: nat, channels: seq<int>, content: string): (log: seq<Delivery>)
    ensures |log| == |channels|
    decreases |channels|
  {
    if channels == [] then []
    else
      var j := |channels| - 1;
      FanOut(send, i, channels[..j], content) + [Delivery(i, channels[j], content, send(i, j))]
  }

  /** Every lookup made while handling `alerts`, in order. */
  function CycleLog(posted: set<string>, channels: seq<int>, alerts: seq<Alert>, send: SendOracle): seq<Delivery>
    decreases |alerts|
  {
    if alerts == [] then []
    else
      var i := |alerts| - 1;
      var before := PostedAfter(posted, |channels|, alerts[..i], send);
      CycleLog(posted, channels, alerts[..i], send)
        + (if IsNew(before, alerts[i]) then FanOut(send, i, channels, MessageContent(alerts[i])) else [])
  }

  /** The `j`-th lookup of a fan-out is channel `j`, with its own outcome, whatever
      the outcomes at the other channels were. */
  lemma {:induction false} FanOutAt(send: SendOracle, i: nat, channels: seq<int>, content: string, j: nat)
    requires j < |channels|
    ensures FanOut(send, i, channels, content)[j] == Delivery(i, channels[j], content, send(i, j))
    decreases |channels|
  {
    var last := |channels| - 1;
    if j < last {
      assert channels[..last][j] == channels[j];
      FanOutAt(send, i, channels[..last], content, j);
    }
  }

  /** A fan-out has a successful lookup exactly when some channel took the alert. */
  lemma FanOutSucceeds(send: SendOracle, i: nat, channels: seq<int>, content: string)
    ensures (exists k :: 0 <= k < |channels| && FanOut(send, i, channels, content)[k].outcome == Sent)
              <==> AnySent(send, i, |channels|)
  {
    var log := FanOut(send, i, channels, content);
    forall k | 0 <= k < |channels| ensures log[k].outcome == send(i, k) {
      FanOutAt(send, i, channels, content, k);
    }
    if AnySent(send, i, |channels|) {
      var j: nat :| j < |channels| && send(i, j) == Sent;
      var k: int := j;
      assert 0 <= k < |channels| && FanOut(send, i, channels, content)[k].outcome == Sent;
    } else {
      forall k | 0 <= k < |channels| ensures log[k].outcome != Sent {
        var j: nat := k;
        assert !(j < |channels| && send(i, j) == Sent);
      }
    }
  }

  /** After the cycle, `id` is posted exactly when it was posted before, or it
      is non-empty and some occurrence of it in the batch reached a channel. */
  lemma {:induction false} PostedAfterExact(posted: set<string>, n: nat, alerts: seq<Alert>, send: SendOracle, id: string)
    ensures id in PostedAfter(posted, n, alerts, send) <==>
              id in posted || (id != "" && exists i: nat :: SentAt(send, alerts, n, id, i))
    decreases |alerts|
  {
    if alerts != [] {
      var last := |alerts| - 1;
      var front := alerts[..last];
      PostedAfterExact(posted, n, front, send, id);
      forall i: nat | i < last ensures SentAt(send, front, n, id, i) == SentAt(send, alerts, n, id, i) {
        assert front[i] == alerts[i];
      }
      if exists i: nat :: SentAt(send, alerts, n, id, i) {
        var i: nat :| SentAt(send, alerts, n, id, i);
        if i < last {
          assert SentAt(send, front, n, id, i);
        }
      }
      if exists i: nat :: SentAt(send, front, n, id, i) {
        var i: nat :| SentAt(send, front, n, id, i);
        assert SentAt(send, alerts, n, id, i);
      }
      if id == alerts[last].id && AnySent(send, last, n) {
        assert SentAt(send, alerts, n, id, last);
      }
    }
  }

  /** The cycle never forgets a posted id, and everything it adds is a
      non-empty id of the batch that some channel took. */
  lemma PostedAfterGrows(posted: set<string>, n: nat, alerts: seq<Alert>, send: SendOracle)
    ensures posted <= PostedAfter(posted, n, alerts, send)
    ensures forall id :: id in PostedAfter(posted, n, alerts, send) - posted ==>
              id != "" && exists i: nat :: SentAt(send, alerts, n, id, i)
  {
    forall id ensures id in PostedAfter(posted, n, alerts, send) <==>
                        id in posted || (id != "" && exists i: nat :: SentAt(send, alerts, n, id, i)) {
      PostedAfterExact(posted, n, alerts, send, id);
    }
  }

  /** With no channel configured nothing is posted and nothing is marked. */
  lemma {:induction false} NoChannelsNoEffect(posted: set<string>, alerts: seq<Alert>, send: SendOracle)
    ensures PostedAfter(posted, 0, alerts, send) == posted
    ensures CycleLog(posted, [], alerts, send) == []
    decreases |alerts|
  {
    if alerts != [] {
      NoChannelsNoEffect(posted, alerts[..|alerts| - 1], send);
    }
  }

  /** Handling a longer batch only extends the log of a shorter prefix. */
  lemma {:induction false} CycleLogPrefix(posted: set<string>, channels: seq<int>, alerts: seq<Alert>, send: SendOracle, k: nat)
    requires k <= |alerts|
    ensures CycleLog(posted, channels, alerts[..k], send) <= CycleLog(posted, channels, alerts, send)
    decreases |alerts|
  {
    if k < |alerts| {
      var front := alerts[..|alerts| - 1];
      assert front[..k] == alerts[..k];
      CycleLogPrefix(posted, channels, front, send, k);
    } else {
      assert alerts[..k] == alerts;
    }
  }

  /** Handling one more alert of the batch: how the posted set and the log
      of the longer prefix follow from those of the shorter one. */
  lemma CycleStep(posted: set<string>, channels: seq<int>, alerts: seq<Alert>, send: SendOracle, i: nat)
    requires i < |alerts|
    ensures var before := PostedAfter(posted, |channels|, alerts[..i], send);
            PostedAfter(posted, |channels|, alerts[..i + 1], send)
              == (if IsNew(before, alerts[i]) && AnySent(send, i, |channels|) then before + {alerts[i].id} else before)
            && CycleLog(posted, channels, alerts[..i + 1], send)
              == CycleLog(posted, channels, alerts[..i], send)
                 + (if IsNew(before, alerts[i]) then FanOut(send, i, channels, MessageContent(alerts[i])) else [])
  {
    assert alerts[..i + 1][..i] == alerts[..i];
  }

  /** Fan-out isolation: every alert that is new at its turn is looked up on
      every channel, each with its own outcome. */
  lemma CycleLogAttempts(posted: set<string>, channels: seq<int>, alerts: seq<Alert>, send: SendOracle, i: nat, j: nat)
    requires i < |alerts| && j < |channels|
    requires IsNew(PostedAfter(posted, |channels|, alerts[..i], send), alerts[i])
    ensures Delivery(i, channels[j], MessageContent(alerts[i]), send(i, j)) in CycleLog(posted, channels, alerts, send)
  {
    var upTo := alerts[..i + 1];
    assert upTo[..i] == alerts[..i];
    var fan := FanOut(send, i, channels, MessageContent(alerts[i]));
    FanOutAt(send, i, channels, MessageContent(alerts[i]), j);
    assert CycleLog(posted, channels, upTo, send) == CycleLog(posted, channels, alerts[..i], send) + fan;
    assert fan[j] in CycleLog(posted, channels, upTo, send);
    CycleLogPrefix(posted, channels, alerts, send, i + 1);
  }

  /** Every lookup in the log belongs to an alert that was new at its turn,
      carries that alert's content, and is one configured channel's outcome. */
  lemma {:induction false} CycleLogOnlyNew(posted: set<string>, channels: seq<int>, alerts: seq<Alert>, send: SendOracle, d: Delivery)
    requires d in CycleLog(posted, channels, alerts, send)
    ensures d.alert < |alerts|
    ensures IsNew(PostedAfter(posted, |channels|, alerts[..d.alert], send), alerts[d.alert])
    ensures d.content == MessageContent(alerts[d.alert])
    ensures exists j: nat :: j < |channels| && d.channel == channels[j] && d.outcome == send(d.alert, j)
    decreases |alerts|
  {
    var last := |alerts| - 1;
    var front := alerts[..last];
    var before := PostedAfter(posted, |channels|, front, send);
    var fan := if IsNew(before, alerts[last]) then FanOut(send, last, channels, MessageContent(alerts[last])) else [];
    if d in CycleLog(posted, channels, front, send) {
      CycleLogOnlyNew(posted, channels, front, send, d);
      assert front[d.alert] == alerts[d.alert];
      assert front[..d.alert] == alerts[..d.alert];
    } else {
      assert d in fan;
      var k :| 0 <= k < |fan| && fan[k] == d;
      FanOutAt(send, last, channels, MessageContent(alerts[last]), k);
    }
  }

  /** An id that occurs twice in one batch is posted again at its second
      occurrence only if its first occurrence was also posted and no channel
      took it. */
  lemma RepostOnlyAfterFailure(posted: set<string>, n: nat, alerts: seq<Alert>, send: SendOracle, first: nat, second: nat)
    requires first < second < |alerts| && alerts[first].id == alerts[second].id
    requires IsNew(PostedAfter(posted, n, alerts[..second], send), alerts[second])
    ensures IsNew(PostedAfter(posted, n, alerts[..first], send), alerts[first])
    ensures !AnySent(send, first, n)
  {
    var id := alerts[second].id;
    var upToSecond := alerts[..second];
    PostedAfterExact(posted, n, upToSecond, send, id);
    PostedAfterExact(posted, n, alerts[..first], send, id);
    assert alerts[..second][first] == alerts[first];
    assert AnySent(send, first, n) ==> SentAt(send, upToSecond, n, id, first);
    if exists i: nat :: SentAt(send, alerts[..first], n, id, i) {
      var i: nat :| SentAt(send, alerts[..first], n, id, i);
      assert alerts[..first][i] == alerts[..second][i];
      assert SentAt(send, alerts[..second], n, id, i);
    }
  }

  /** The send outcomes of a two-channel setup whose second channel fails
      every time. */
  function SecondChannelDown(i: nat, j: nat): (outcome: SendOutcome)
    ensures outcome == Failed <==> j == 1
  {
    if j == 1 then Failed else Sent
  }

  /** The batch of the outage scenario. */
  const OutageBatch: seq<Alert> := [Alert("a", "", ""), Alert("c", "", ""), Alert("d", "", "")]

  /** The store holds a and b and the fetch returns a, c and d, to two
      channels of which the second always fails: a is skipped, and c and d
      are marked posted because the first channel took them. */
  lemma OutageScenarioPosted()
    ensures PostedAfter({"a", "b"}, 2, OutageBatch[..1], SecondChannelDown) == {"a", "b"}
    ensures PostedAfter({"a", "b"}, 2, OutageBatch[..2], SecondChannelDown) == {"a", "b", "c"}
    ensures PostedAfter({"a", "b"}, 2, OutageBatch, SecondChannelDown) == {"a", "b", "c", "d"}
  {
    var send: SendOracle := SecondChannelDown;
    var alerts := OutageBatch;
    assert alerts[..1][..0] == [];
    assert alerts[..2][..1] == alerts[..1];
    assert alerts[..3][..2] == alerts[..2];
    assert alerts[..3] == alerts;
    assert send(1, 0) == Sent && send(2, 0) == Sent;
  }

  /** Posting to channels 10 and 20 while 20 is down: 10 takes the alert,
      20 fails, in that order. */
  lemma OutageFanOut(i: nat)
    ensures FanOut(SecondChannelDown, i, [10, 20], "") == [Delivery(i, 10, "", Sent), Delivery(i, 20, "", Failed)]
  {
    var channels := [10, 20];
    assert channels[..1][..0] == [] && channels[..2][..1] == channels[..1] && channels[..2] == channels;
  }

  /** In the same scenario with channels 10 and 20, c and d are each looked
      up on both channels in order, and a is never looked up. */
  lemma OutageScenarioLog()
    ensures CycleLog({"a", "b"}, [10, 20], OutageBatch, SecondChannelDown)
            == [Delivery(1, 10, "", Sent), Delivery(1, 20, "", Failed), Delivery(2, 10, "", Sent), Delivery(2, 20, "", Failed)]
  {
    var send: SendOracle := SecondChannelDown;
    var channels := [10, 20];
    var alerts := OutageBatch;
    OutageScenarioPosted();
    OutageFanOut(1);
    OutageFanOut(2);
    assert alerts[..0] == [];
    assert MessageContent(alerts[1]) == "" && MessageContent(alerts[2]) == "";
    assert !IsNew({"a", "b"}, alerts[0]);
    assert IsNew({"a", "b"}, alerts[1]) && IsNew({"a", "b", "c"}, alerts[2]);
    CycleStep({"a", "b"}, channels, alerts, send, 0);
    CycleStep({"a", "b"}, channels, alerts, send, 1);
    CycleStep({"a", "b"}, channels, alerts, send, 2);
    assert alerts[..3] == alerts;
  }
}
