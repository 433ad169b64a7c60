/**
 * The state-holding part of `NWSAlertBot`: the posted-alert set, the
 * server-config dict, the registry operations on it and one poll cycle of
 * `check_alerts`.  The files the bot writes are modelled by ghost logs of
 * what each save wrote.
 */
module Bot {
  import opened Wrappers
  import opened Registry
  import opened Dedup
  import opened Alerts

  class NWSAlertBot {
    /** `self.posted_alerts`: the ids already posted. */
    var postedAlerts: set<string>
    /** The keys of `self.server_config`, in the dict's iteration order. */
    var configOrder: seq<string>
    /** The records of `self.server_config`. */
    var serverConfig: map<string, GuildConfig>
    /** What each `save_posted_alerts` wrote, oldest first. */
    ghost var alertWrites: seq<set<string>>
    /** What each `save_server_config` wrote, oldest first: the dict's
        key/value pairs in iteration order. */
    ghost var configWrites: seq<seq<(string, GuildConfig)>>

    /** The two fields describe one Python dict. */
    ghost predicate Valid()
      reads this`configOrder, this`serverConfig
    {
      WellFormed(configOrder, serverConfig) && Listed(configOrder, serverConfig)
    }

    /** `__init__`: both stores are loaded from what their files held
        (`None` for a missing, unreadable or undecodable file). */
    constructor (persistedAlerts: Option<seq<string>>, persistedConfig: Option<seq<(string, GuildConfig)>>)
      ensures Valid()
      ensures postedAlerts == LoadPostedAlerts(persistedAlerts)
      ensures (configOrder, serverConfig) == LoadServerConfig(persistedConfig)
      ensures alertWrites == [] && configWrites == []
    {
      postedAlerts := LoadPostedAlerts(persistedAlerts);
      var loaded := LoadServerConfig(persistedConfig);
      configOrder, serverConfig := loaded.0, loaded.1;
      WellFormedListed(loaded.0, loaded.1);
      alertWrites, configWrites := [], [];
    }

    /** `save_posted_alerts`: writes the whole current set. */
    method SavePostedAlerts()
      modifies this`alertWrites
      ensures alertWrites == old(alertWrites) + [postedAlerts]
    {
      alertWrites := alertWrites + [postedAlerts];
    }

    /** `save_server_config`: writes the whole current dict, in order. */
    method SaveServerConfig()
      requires Valid()
      modifies this`configWrites
      ensures configWrites == old(configWrites) + [ConfigPairs(configOrder, serverConfig)]
    {
      configWrites := configWrites + [ConfigPairs(configOrder, serverConfig)];
    }

    /** `get_alert_channel`: the channel recorded for a guild, `None` for a
        guild without a record or with a record lacking a channel. */
    function GetAlertChannel(guildId: int): (channelId: Option<int>)
      reads this
      ensures GuildKey(guildId) !in serverConfig ==> channelId == None
      ensures channelId.Some? ==> GuildKey(guildId) in serverConfig
      ensures GuildKey(guildId) in serverConfig ==> channelId == serverConfig[GuildKey(guildId)].alertChannelId
    {
      var key := GuildKey(guildId);
      if key in serverConfig then serverConfig[key].alertChannelId else None
    }

    /** `set_alert_channel`: upserts the guild's record and saves.  The
        guild now reads back the new channel, every other guild reads back
        what it did before, and the guild is listed once. */
    method SetAlertChannel(guildId: int, channelId: int)
      requires Valid()
      modifies this`configOrder, this`serverConfig, this`configWrites
      ensures Valid()
      ensures serverConfig == old(serverConfig)[GuildKey(guildId) := GuildConfig(Some(channelId))]
      ensures configOrder == Upsert(old(configOrder), GuildKey(guildId))
      ensures GetAlertChannel(guildId) == Some(channelId)
      ensures forall g :: g != guildId ==> GetAlertChannel(g) == old(GetAlertChannel(g))
      ensures configWrites == old(configWrites) + [ConfigPairs(configOrder, serverConfig)]
    {
      var key := GuildKey(guildId);
      UpsertWellFormed(configOrder, serverConfig, key, GuildConfig(Some(channelId)));
      WellFormedListed(Upsert(configOrder, key), serverConfig[key := GuildConfig(Some(channelId))]);
      configOrder := Upsert(configOrder, key);
      serverConfig := serverConfig[key := GuildConfig(Some(channelId))];
      forall g | g != guildId ensures GuildKey(g) != key {
        GuildKeyInjective(g, guildId);
      }
      SaveServerConfig();
    }

    /** `remove_alert_channel`: deletes the guild's record and saves when it
        exists, and reports whether it existed. */
    method RemoveAlertChannel(guildId: int) returns (removed: bool)
      requires Valid()
      modifies this`configOrder, this`serverConfig, this`configWrites
      ensures Valid()
      ensures removed == (GuildKey(guildId) in old(serverConfig))
      ensures serverConfig == old(serverConfig) - {GuildKey(guildId)}
      ensures configOrder == Without(old(configOrder), GuildKey(guildId))
      ensures |configOrder| == if removed then |old(configOrder)| - 1 else |old(configOrder)|
      ensures GetAlertChannel(guildId) == None
      ensures forall g :: g != guildId ==> GetAlertChannel(g) == old(GetAlertChannel(g))
      ensures configWrites == if removed then old(configWrites) + [ConfigPairs(configOrder, serverConfig)] else old(configWrites)
    {
      var key := GuildKey(guildId);
      removed := key in serverConfig;
      WithoutDistinct(configOrder, key);
      WithoutWellFormed(configOrder, serverConfig, key);
      WellFormedListed(Without(configOrder, key), serverConfig - {key});
      forall g | g != guildId ensures GuildKey(g) != key {
        GuildKeyInjective(g, guildId);
      }
      if removed {
        configOrder := Without(configOrder, key);
        serverConfig := serverConfig - {key};
        SaveServerConfig();
      } else {
        assert serverConfig - {key} == serverConfig;
      }
    }

    /** `get_all_alert_channels`: every truthy channel id, in the dict's
        iteration order. */
    method GetAllAlertChannels() returns (channels: seq<int>)
      requires Valid()
      ensures channels == ChannelsOf(configOrder, serverConfig)
    {
      channels := [];
      var i := 0;
      while i < |configOrder|
        invariant 0 <= i <= |configOrder|
        invariant Listed(configOrder[..i], serverConfig)
        invariant channels == ChannelsOf(configOrder[..i], serverConfig)
      {
        var channelId := serverConfig[configOrder[i]].alertChannelId;
        assert configOrder[..i + 1][..i] == configOrder[..i];
        if Truthy(channelId) {
          channels := channels + [channelId.value];
        }
        i := i + 1;
      }
      assert configOrder[..i] == configOrder;
    }

    /** The body of `check_alerts`'s loop for the `i`-th alert of the batch:
        an alert with an id not yet posted is posted to every channel and, if
        some channel took it, marked as posted and saved. */
    method PostAlert(channels: seq<int>, i: nat, alert: Alert, send: SendOracle)
      returns (added: bool, deliveries: seq<Delivery>)
      modifies this`postedAlerts, this`alertWrites
      ensures added == (IsNew(old(postedAlerts), alert) && AnySent(send, i, |channels|))
      ensures postedAlerts == if added then old(postedAlerts) + {alert.id} else old(postedAlerts)
      ensures |postedAlerts| == if added then |old(postedAlerts)| + 1 else |old(postedAlerts)|
      ensures deliveries == if IsNew(old(postedAlerts), alert) then FanOut(send, i, channels, MessageContent(alert)) else []
      ensures alertWrites == if added then old(alertWrites) + [postedAlerts] else old(alertWrites)
    {
      added, deliveries := false, [];
      if alert.id != "" && alert.id !in postedAlerts {
        var content := MessageContent(alert);
        var postedSuccessfully;
        postedSuccessfully, deliveries := PostToChannels(channels, i, content, send);
        if postedSuccessfully {
          postedAlerts := postedAlerts + {alert.id};
          SavePostedAlerts();
          added := true;
        }
      }
    }

    /** The `for alert in alerts` loop of `check_alerts` over the channels
        `channels`: the posted set and the lookup log it leaves are the ones
        the cycle's specification in module Alerts gives, the set only grows,
        every id added is saved at once, and when the loop wrote at all its
        last write holds the final set. */
    method PostBatch(channels: seq<int>, alerts: seq<Alert>, send: SendOracle) returns (log: seq<Delivery>)
      modifies this`postedAlerts, this`alertWrites
      ensures postedAlerts == PostedAfter(old(postedAlerts), |channels|, alerts, send)
      ensures log == CycleLog(old(postedAlerts), channels, alerts, send)
      ensures old(postedAlerts) <= postedAlerts && old(alertWrites) <= alertWrites
      ensures |alertWrites| - |old(alertWrites)| == |postedAlerts| - |old(postedAlerts)|
      ensures SavedLast(alertWrites, |old(alertWrites)|, postedAlerts)
    {
      log := [];
      var i := 0;
      while i < |alerts|
        invariant 0 <= i <= |alerts|
        invariant postedAlerts == PostedAfter(old(postedAlerts), |channels|, alerts[..i], send)
        invariant log == CycleLog(old(postedAlerts), channels, alerts[..i], send)
        invariant old(postedAlerts) <= postedAlerts
        invariant old(alertWrites) <= alertWrites
        invariant |alertWrites| - |old(alertWrites)| == |postedAlerts| - |old(postedAlerts)|
        invariant SavedLast(alertWrites, |old(alertWrites)|, postedAlerts)
      {
        CycleStep(old(postedAlerts), channels, alerts, send, i);
        ghost var writesBefore, postedBefore := alertWrites, postedAlerts;
        var added, deliveries := PostAlert(channels, i, alerts[i], send);
        if added {
          assert alertWrites == writesBefore + [postedAlerts];
        } else {
          assert alertWrites == writesBefore && postedAlerts == postedBefore;
        }
        log := log + deliveries;
        i := i + 1;
      }
      assert alerts[..i] == alerts;
    }

    /** One run of `check_alerts`.  `upstream` is what `fetch_alerts` returns
        (empty on any fetch failure) and `send` tells what happens at each
        channel.  `fetched` says whether the fetch was made; without a
        configured channel nothing happens, otherwise the batch is posted to
        the channels `get_all_alert_channels` lists. */
    method CheckAlerts(upstream: seq<Alert>, send: SendOracle) returns (fetched: bool, log: seq<Delivery>)
      requires Valid()
      modifies this`postedAlerts, this`alertWrites
      ensures Valid()
      ensures fetched == (ChannelsOf(configOrder, serverConfig) != [])
      ensures !fetched ==> postedAlerts == old(postedAlerts) && log == [] && alertWrites == old(alertWrites)
      ensures fetched ==>
                postedAlerts == PostedAfter(old(postedAlerts), |ChannelsOf(configOrder, serverConfig)|, upstream, send)
                && log == CycleLog(old(postedAlerts), ChannelsOf(configOrder, serverConfig), upstream, send)
      ensures old(postedAlerts) <= postedAlerts && old(alertWrites) <= alertWrites
      ensures |alertWrites| - |old(alertWrites)| == |postedAlerts| - |old(postedAlerts)|
      ensures SavedLast(alertWrites, |old(alertWrites)|, postedAlerts)
    {
      var channels := GetAllAlertChannels();
      if channels == [] {
        return false, [];
      }
      fetched := true;
      log := PostBatch(channels, upstream, send);
    }
  }

  /** If anything was written after the first `since` writes, the last
      write holds `posted`. */
  ghost predicate SavedLast(writes: seq<set<string>>, since: nat, posted: set<string>)
  {
    |writes| > since ==> writes[|writes| - 1] == posted
  }

  /** The fan-out of `check_alerts` for the `i`-th alert: one lookup and,
      if the channel exists, one send per channel, in order; a missing
      channel or a failed send is logged and the loop goes on.  `posted` is
      the `posted_successfully` flag. */
  method PostToChannels(channels: seq<int>, i: nat, content: string, send: SendOracle)
    returns (posted: bool, deliveries: seq<Delivery>)
    ensures posted == AnySent(send, i, |channels|)
    ensures deliveries == FanOut(send, i, channels, content)
  {
    posted := false;
    deliveries := [];
    var j := 0;
    while j < |channels|
      invariant 0 <= j <= |channels|
      invariant posted == AnySent(send, i, j)
      invariant deliveries == FanOut(send, i, channels[..j], content)
    {
      var outcome := send(i, j);
      assert channels[..j + 1][..j] == channels[..j];
      deliveries := deliveries + [Delivery(i, channels[j], content, outcome)];
      match outcome {
        case Missing =>
        case Failed =>
        case Sent =>
          posted := true;
      }
      j := j + 1;
    }
    assert channels[..j] == channels;
  }

  /** Set twice, then remove: the second set wins, the guild is listed
      once, and removing it reports success and leaves no channel. */
  method RegistryScenario(guildId: int, first: int, second: int)
  {
    var bot := new NWSAlertBot(None, None);
    bot.SetAlertChannel(guildId, first);
    bot.SetAlertChannel(guildId, second);
    assert bot.GetAlertChannel(guildId) == Some(second);
    assert bot.configOrder == [GuildKey(guildId)];
    var removed := bot.RemoveAlertChannel(guildId);
    assert removed && bot.GetAlertChannel(guildId) == None;
    assert |bot.configWrites| == 3;
  }
}
