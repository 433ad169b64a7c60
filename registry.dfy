/**
 * The server-config registry: a Python dict from a guild key (`str(guild_id)`)
 * to the record `{"alert_channel_id": channel_id}`.  A Python dict iterates in
 * insertion order, so the dict is described by two values: `order`, its keys in
 * iteration order, and `config`, its contents.  This module holds the pure
 * meaning of the dict operations; the class in module Bot updates its fields
 * with them.
 */
module Registry {
  import opened Wrappers
  import Strings

  /** One guild's record.  A record without `alert_channel_id` and a JSON
      `null` both read back as `None` through `.get("alert_channel_id")`. */
  datatype GuildConfig = GuildConfig(alertChannelId: Option<int>)

  /** The key a guild's record is stored under: `str(guild_id)`. */
  function GuildKey(guildId: int): string
  {
    Strings.IntToString(guildId)
  }

  /** Different guilds never share a key. */
  lemma GuildKeyInjective(a: int, b: int)
    requires a != b
    ensures GuildKey(a) != GuildKey(b)
  {
    if GuildKey(a) == GuildKey(b) {
      Strings.IntToStringInjective(a, b);
    }
  }

  /** `order` lists each key of `config` exactly once. */
  ghost predicate WellFormed(order: seq<string>, config: map<string, GuildConfig>)
  {
    Distinct(order) && forall k :: k in config <==> k in order
  }

  /** Every key listed in `order` has a record in `config`. */
  ghost predicate Listed(order: seq<string>, config: map<string, GuildConfig>)
  {
    forall i :: 0 <= i < |order| ==> order[i] in config
  }

  /** The iteration order after `d[key] = value`: an existing key keeps its
      place, a new key goes last. */
  function Upsert(order: seq<string>, key: string): seq<string>
  {
    if key in order then order else order + [key]
  }

  /** After `d[key] = value` the dict is still well formed, and `key` is
      listed exactly once. */
  lemma UpsertWellFormed(order: seq<string>, config: map<string, GuildConfig>, key: string, value: GuildConfig)
    requires WellFormed(order, config)
    ensures WellFormed(Upsert(order, key), config[key := value])
    ensures exists i :: 0 <= i < |Upsert(order, key)| && Upsert(order, key)[i] == key
    ensures forall i, j :: 0 <= i < j < |Upsert(order, key)| ==> Upsert(order, key)[i] != Upsert(order, key)[j]
  {
    var r := Upsert(order, key);
    assert key in r;
  }

  /** The iteration order after `del d[key]`. */
  function Without(order: seq<string>, key: string): (r: seq<string>)
    ensures forall k :: k in r <==> k in order && k != key
    ensures |r| <= |order|
    ensures key !in order ==> r == order
    decreases |order|
  {
    if order == [] then []
    else if order[0] == key then Without(order[1..], key)
    else [order[0]] + Without(order[1..], key)
  }

  /** Deleting a listed key removes exactly one entry and keeps the rest
      distinct; deleting an unlisted key changes nothing. */
  lemma {:induction false} WithoutDistinct(order: seq<string>, key: string)
    requires Distinct(order)
    ensures Distinct(Without(order, key))
    ensures |Without(order, key)| == if key in order then |order| - 1 else |order|
    ensures key !in order ==> Without(order, key) == order
    decreases |order|
  {
    if order != [] {
      WithoutDistinct(order[1..], key);
      if order[0] != key {
        var rest := Without(order[1..], key);
        assert order[0] !in order[1..];
        assert order[0] !in rest;
        assert order == [order[0]] + order[1..];
      }
    }
  }

  /** Deleting a key listed once keeps every other key in its place
      relative to the others: the order loses exactly the entry at `p`. */
  lemma {:induction false} WithoutAt(order: seq<string>, key: string, p: nat)
    requires Distinct(order) && p < |order| && order[p] == key
    ensures Without(order, key) == order[..p] + order[p + 1..]
    decreases |order|
  {
    var rest := order[1..];
    assert Distinct(rest) by {
      forall i, j | 0 <= i < j < |rest| ensures rest[i] != rest[j] {
        assert rest[i] == order[i + 1] && rest[j] == order[j + 1];
      }
    }
    if p == 0 {
      assert key !in rest by {
        forall i | 0 <= i < |rest| ensures rest[i] != key {
          assert rest[i] == order[i + 1];
        }
      }
    } else {
      assert order[0] != key;
      WithoutAt(rest, key, p - 1);
      assert rest[..p - 1] == order[1..p] && rest[p..] == order[p + 1..];
      assert [order[0]] + order[1..p] == order[..p];
    }
  }

  /** After `del d[key]` of a present key the dict is still well formed. */
  lemma WithoutWellFormed(order: seq<string>, config: map<string, GuildConfig>, key: string)
    requires WellFormed(order, config)
    ensures WellFormed(Without(order, key), config - {key})
  {
    WithoutDistinct(order, key);
  }

  /** Python truthiness of a looked-up channel id: neither `None` nor `0`. */
  predicate Truthy(channelId: Option<int>)
  {
    channelId.Some? && channelId.value != 0
  }

  /** The list `get_all_alert_channels` builds: every truthy
      `alert_channel_id`, in the dict's iteration order. */
  function ChannelsOf(order: seq<string>, config: map<string, GuildConfig>): (channels: seq<int>)
    requires Listed(order, config)
    ensures |channels| <= |order|
    ensures forall j :: 0 <= j < |channels| ==> channels[j] != 0
    decreases |order|
  {
    if order == [] then []
    else
      var last := order[|order| - 1];
      var front := ChannelsOf(order[..|order| - 1], config);
      if Truthy(config[last].alertChannelId) then front + [config[last].alertChannelId.value] else front
  }

  /** Collecting channels over two consecutive runs of keys is collecting
      over each run in turn: the result follows iteration order. */
  lemma {:induction false} ChannelsOfAppend(front: seq<string>, back: seq<string>, config: map<string, GuildConfig>)
    requires Listed(front, config) && Listed(back, config)
    ensures Listed(front + back, config)
    ensures ChannelsOf(front + back, config) == ChannelsOf(front, config) + ChannelsOf(back, config)
    decreases |back|
  {
    var all := front + back;
    assert Listed(all, config) by {
      forall i | 0 <= i < |all| ensures all[i] in config {
        if i >= |front| { assert all[i] == back[i - |front|]; }
      }
    }
    if back != [] {
      assert all[..|all| - 1] == front + back[..|back| - 1];
      ChannelsOfAppend(front, back[..|back| - 1], config);
    } else {
      assert all == front;
    }
  }

  /** One key contributes its channel exactly when the channel is truthy. */
  lemma ChannelsOfSingle(key: string, config: map<string, GuildConfig>)
    requires key in config
    ensures Listed([key], config)
    ensures ChannelsOf([key], config) == if Truthy(config[key].alertChannelId) then [config[key].alertChannelId.value] else []
  {
    assert [key][..0] == [];
  }

  /** A channel is collected exactly when some listed guild has it as a
      truthy `alert_channel_id`. */
  lemma {:induction false} ChannelsOfMembership(order: seq<string>, config: map<string, GuildConfig>, c: int)
    requires Listed(order, config)
    ensures c in ChannelsOf(order, config) <==>
              c != 0 && exists i :: 0 <= i < |order| && config[order[i]].alertChannelId == Some(c)
    decreases |order|
  {
    if order != [] {
      var front := order[..|order| - 1];
      ChannelsOfMembership(front, config, c);
      if c != 0 && exists i :: 0 <= i < |order| && config[order[i]].alertChannelId == Some(c) {
        var i :| 0 <= i < |order| && config[order[i]].alertChannelId == Some(c);
        if i < |front| {
          assert front[i] == order[i];
        }
      }
      if exists i :: 0 <= i < |front| && config[front[i]].alertChannelId == Some(c) {
        var i :| 0 <= i < |front| && config[front[i]].alertChannelId == Some(c);
        assert order[i] == front[i];
      }
    }
  }

  /** The dict `json.load` builds from the file's key/value pairs, inserted
      in file order (a repeated key keeps its first place and its last value). */
  function FromPairs(pairs: seq<(string, GuildConfig)>): (r: (seq<string>, map<string, GuildConfig>))
    ensures WellFormed(r.0, r.1)
    ensures forall k :: k in r.1 <==> exists i :: 0 <= i < |pairs| && pairs[i].0 == k
    decreases |pairs|
  {
    if pairs == [] then ([], map[])
    else
      var front := FromPairs(pairs[..|pairs| - 1]);
      var last := pairs[|pairs| - 1];
      UpsertWellFormed(front.0, front.1, last.0, last.1);
      assert forall i :: 0 <= i < |pairs| - 1 ==> pairs[..|pairs| - 1][i] == pairs[i];
      (Upsert(front.0, last.0), front.1[last.0 := last.1])
  }

  /** A key's record is the value of its last pair in the file. */
  lemma {:induction false} FromPairsLastWins(pairs: seq<(string, GuildConfig)>, i: nat)
    requires i < |pairs|
    requires forall j :: i < j < |pairs| ==> pairs[j].0 != pairs[i].0
    ensures pairs[i].0 in FromPairs(pairs).1 && FromPairs(pairs).1[pairs[i].0] == pairs[i].1
    decreases |pairs|
  {
    if i < |pairs| - 1 {
      var front := pairs[..|pairs| - 1];
      assert front[i] == pairs[i];
      FromPairsLastWins(front, i);
    }
  }

  /** `load_server_config`: `parsed` is the file's parsed pairs, or `None`
      when the file is missing, unreadable or not valid JSON; then the
      registry starts empty. */
  function LoadServerConfig(parsed: Option<seq<(string, GuildConfig)>>): (r: (seq<string>, map<string, GuildConfig>))
    ensures WellFormed(r.0, r.1)
    ensures parsed.None? ==> r.0 == [] && r.1 == map[]
    ensures parsed.Some? ==> forall k :: k in r.1 <==> exists i :: 0 <= i < |parsed.value| && parsed.value[i].0 == k
  {
    match parsed
    case None => ([], map[])
    case Some(pairs) => FromPairs(pairs)
  }

  /** The key/value pairs `json.dump` writes for the dict: one per key, in
      the dict's iteration order. */
  function ConfigPairs(order: seq<string>, config: map<string, GuildConfig>): (pairs: seq<(string, GuildConfig)>)
    requires Listed(order, config)
    ensures |pairs| == |order|
    ensures forall i :: 0 <= i < |order| ==> pairs[i] == (order[i], config[order[i]])
    decreases |order|
  {
    if order == [] then []
    else
      var front := order[..|order| - 1];
      assert forall i :: 0 <= i < |front| ==> front[i] == order[i];
      ConfigPairs(front, config) + [(order[|order| - 1], config[order[|order| - 1]])]
  }

  /** Loading the pairs of a duplicate-free order gives back that order and
      the records of its keys. */
  lemma {:induction false} FromConfigPairs(order: seq<string>, config: map<string, GuildConfig>)
    requires Distinct(order) && Listed(order, config)
    ensures FromPairs(ConfigPairs(order, config)).0 == order
    ensures forall k :: k in FromPairs(ConfigPairs(order, config)).1 <==> k in order
    ensures forall k :: k in FromPairs(ConfigPairs(order, config)).1 ==> FromPairs(ConfigPairs(order, config)).1[k] == config[k]
    decreases |order|
  {
    if order != [] {
      var n := |order| - 1;
      var front, key := order[..n], order[n];
      assert forall i :: 0 <= i < n ==> front[i] == order[i];
      assert Distinct(front);
      FromConfigPairs(front, config);
      var pairs := ConfigPairs(order, config);
      assert pairs[..n] == ConfigPairs(front, config);
      var loaded := FromPairs(ConfigPairs(front, config));
      assert FromPairs(pairs) == (Upsert(loaded.0, key), loaded.1[key := config[key]]);
      assert key !in front;
      assert front + [key] == order;
    }
  }

  /** What `save_server_config` writes, `load_server_config` reads back as
      the same dict in the same iteration order, so a restart keeps both the
      records and the fan-out order. */
  lemma SaveLoadConfig(order: seq<string>, config: map<string, GuildConfig>)
    requires WellFormed(order, config)
    ensures Listed(order, config)
    ensures LoadServerConfig(Some(ConfigPairs(order, config))) == (order, config)
  {
    WellFormedListed(order, config);
    FromConfigPairs(order, config);
    SameRecords(FromPairs(ConfigPairs(order, config)).1, config, order);
  }

  /** Two dicts with the keys of `order` and the same record at each key
      are equal. */
  lemma SameRecords(m: map<string, GuildConfig>, config: map<string, GuildConfig>, order: seq<string>)
    requires forall k :: k in m <==> k in order
    requires forall k :: k in config <==> k in order
    requires forall k :: k in m ==> m[k] == config[k]
    ensures m == config
  {
  }

  /** A well-formed dict lists every key it holds. */
  lemma WellFormedListed(order: seq<string>, config: map<string, GuildConfig>)
    requires WellFormed(order, config)
    ensures Listed(order, config)
  {
  }
}
