/**
 * `Grpc\Channel`: the argument array is canonicalised (ChannelArgs), the
 * canonical text and the target are hashed into a cache key, and a
 * process-wide cache (ChannelsCache) maps that key to a gRPC channel so that
 * equal configurations reuse one channel. Locks are not modelled: every cache
 * operation is one atomic step, and the constructor's unlocked creation is the
 * gap between two such steps in which other constructors may run.
 */
module Channel {
  import opened Common
  import opened GrpcCore
  import opened Canonical
  import Decimal

  // ---------------------------------------------------------------------
  // ChannelArgs
  // ---------------------------------------------------------------------

  /** The value union of a `grpc_arg`; `Unset` is the zeroed slot `calloc` leaves. */
  datatype ArgValue = Unset | Integer(i: int) | Text(s: string)

  datatype GrpcArg = GrpcArg(key: string, value: ArgValue)

  /** The `grpc_arg` that `ChannelArgs::init` writes for a valid array element. */
  function ArgOf(e: Entry): GrpcArg
    requires ValidEntry(e)
  {
    GrpcArg(e.0.s, if e.1.PInt? then Integer(Decimal.ToInt32(e.1.i)) else Text(e.1.s))
  }

  /**
   * The checks of one element in the loop of `ChannelArgs::init`: a string
   * key with an integer value (truncated to int32) or a string value is
   * converted to its stored pair and its `grpc_arg`; anything else is rejected.
   */
  method ConvertElement(e: Entry) returns (stored: bool, pair: Pair, arg: GrpcArg)
    ensures stored == ValidEntry(e)
    ensures stored ==> pair == EntryPair(e) && arg == ArgOf(e)
  {
    var key, value := e.0, e.1;
    stored, pair, arg := false, ([], []), GrpcArg([], Unset);
    if key.PNull? || !key.PStr? {
      return;
    }
    if !value.PNull? {
      if value.PInt? {
        var valueInt := Decimal.ToInt32(value.i);
        stored, pair, arg := true, (key.s, Decimal.ToString(valueInt)), GrpcArg(key.s, Integer(valueInt));
      } else if value.PStr? {
        stored, pair, arg := true, (key.s, value.s), GrpcArg(key.s, Text(value.s));
      }
    }
  }

  class ChannelArgs {
    /** `m_ChannelArgs.args`: null, or an array of `numArgs` slots. */
    var args: array?<GrpcArg>
    /** `m_ChannelArgs.num_args` */
    var numArgs: nat
    /** `m_PHPData`: the (key, value text) pairs in array order. */
    var phpData: seq<Pair>
    /** `m_ConcatenatedArgs` */
    var concatenated: string
    /** `m_HashKey` */
    var hashKey: string

    /** The state `destroyArgs` leaves: no arguments, no data, empty key and text. */
    predicate IsReset()
      reads this
    {
      args == null && numArgs == 0 && phpData == [] && concatenated == [] && hashKey == []
    }

    constructor ()
      ensures IsReset()
    {
      args := null;
      numArgs := 0;
      phpData := [];
      concatenated := [];
      hashKey := [];
    }

    method DestroyArgs()
      modifies this
      ensures IsReset()
    {
      args := null;
      numArgs := 0;
      phpData := [];
      hashKey := [];
      concatenated := [];
    }

    /**
     * `ChannelArgs::init`: accepts the array exactly when every key is a
     * string and every value an integer or a string; then slot i holds the
     * i-th element, and the concatenated text is the canonical text. On a
     * rejection everything is reset.
     */
    method Init(a: seq<Entry>, sha1: string -> string) returns (ok: bool)
      modifies this
      ensures ok == AllValid(a)
      ensures !ok ==> IsReset()
      ensures ok ==> CanonicalText(a) == Some(concatenated) && hashKey == sha1(concatenated)
      ensures ok ==> numArgs == |a| && phpData == Pairs(a)
      ensures ok ==> (args == null <==> |a| == 0)
      ensures ok && args != null ==>
                fresh(args) && args.Length == |a| &&
                forall i :: 0 <= i < |a| ==> args[i] == ArgOf(a[i])
    {
      DestroyArgs();
      ok := StoreArgs(a);
      if ok {
        ConcatenateSorted(sha1);
      }
    }

    /** The loop of `init` over the array: checks each element and stores it in slot i and in `m_PHPData`. */
    method StoreArgs(a: seq<Entry>) returns (ok: bool)
      requires IsReset()
      modifies this
      ensures ok == AllValid(a)
      ensures !ok ==> IsReset()
      ensures ok ==> numArgs == |a| && phpData == Pairs(a) && concatenated == [] && hashKey == []
      ensures ok ==> (args == null <==> |a| == 0)
      ensures ok && args != null ==>
                fresh(args) && args.Length == |a| &&
                forall i :: 0 <= i < |a| ==> args[i] == ArgOf(a[i])
    {
      var elements := |a|;
      if elements > 0 {
        args := new GrpcArg[elements](_ => GrpcArg([], Unset));
        numArgs := elements;
        var count := 0;
        while count < elements
          invariant 0 <= count <= elements
          invariant args != null && fresh(args) && args.Length == elements && numArgs == elements
          invariant forall i :: 0 <= i < count ==> ValidEntry(a[i])
          invariant |phpData| == count
          invariant forall i :: 0 <= i < count ==> phpData[i] == EntryPair(a[i])
          invariant forall i :: 0 <= i < count ==> args[i] == ArgOf(a[i])
          invariant concatenated == [] && hashKey == []
        {
          var stored, pair, arg := ConvertElement(a[count]);
          if !stored {
            DestroyArgs();
            return false;
          }
          phpData := phpData + [pair];
          args[count] := arg;
          count := count + 1;
        }
        assert phpData == Pairs(a);
      } else {
        assert a == [];
      }
      ok := true;
    }

    /**
     * The tail of `init`: sorts the stored pairs in the documented key-then-value
     * order (not by the comparator as written; see `Canonical.LiteralLess`), appends
     * key‖value for each to the concatenated text, and hashes it.
     */
    method ConcatenateSorted(sha1: string -> string)
      requires concatenated == []
      modifies this`concatenated, this`hashKey
      ensures concatenated == Concat(Sort(phpData)) && hashKey == sha1(concatenated)
    {
      var sorted := Sort(phpData);
      var i := 0;
      while i < |sorted|
        invariant 0 <= i <= |sorted|
        invariant concatenated == Concat(sorted[..i])
      {
        assert sorted[..i + 1][..i] == sorted[..i];
        concatenated := concatenated + sorted[i].0 + sorted[i].1;
        i := i + 1;
      }
      assert sorted[..i] == sorted;
      hashKey := sha1(concatenated);
    }
  }

  // ---------------------------------------------------------------------
  // ChannelsCache
  // ---------------------------------------------------------------------

  class ChannelsCache {
    /** `m_ChannelMap`: cache key to channel. */
    var channelMap: map<string, Handle>

    /**
     * Every cached channel is alive, and no channel is cached under two keys
     * (each is registered once, by the constructor that created it).
     */
    ghost predicate Valid(core: Core)
      reads this, core
    {
      channelMap.Values <= core.liveChannels &&
      forall k1, k2 :: k1 in channelMap && k2 in channelMap && k1 != k2 ==> channelMap[k1] != channelMap[k2]
    }

    constructor ()
      ensures channelMap == map[]
    {
      channelMap := map[];
    }

    /**
     * `addChannel`: one insert-or-get-existing step. A new key is registered
     * and (true, handle) returned; an existing key wins: (false, cached
     * handle), and the map is left as it was.
     */
    method AddChannel(key: string, channel: Handle) returns (inserted: bool, registered: Handle)
      modifies this
      ensures inserted == (key !in old(channelMap))
      ensures inserted ==> channelMap == old(channelMap)[key := channel] && registered == channel
      ensures !inserted ==> channelMap == old(channelMap) && registered == old(channelMap)[key]
    {
      if key in channelMap {
        inserted, registered := false, channelMap[key];
      } else {
        channelMap := channelMap[key := channel];
        inserted, registered := true, channel;
      }
    }

    /** `getChannel`: null exactly when the key is not cached. */
    method GetChannel(channelHash: string) returns (channel: Option<Handle>)
      ensures channel.None? <==> channelHash !in channelMap
      ensures channel.Some? ==> channel.value == channelMap[channelHash]
    {
      if channelHash in channelMap {
        channel := Some(channelMap[channelHash]);
      } else {
        channel := None;
      }
    }

    method HasChannel(channelHash: string) returns (has: bool)
      ensures has <==> channelHash in channelMap
    {
      var channel := GetChannel(channelHash);
      has := channel.Some?;
    }

    /** `deleteChannel`: destroys and forgets the cached channel; a no-op for an absent key. */
    method DeleteChannel(channelHash: string, core: Core)
      requires core.Valid() && Valid(core)
      modifies this, core
      ensures core.Valid() && Valid(core)
      ensures channelMap == old(channelMap) - {channelHash}
      ensures channelHash in old(channelMap) ==> core.liveChannels == old(core.liveChannels) - {old(channelMap)[channelHash]}
      ensures channelHash !in old(channelMap) ==> core.liveChannels == old(core.liveChannels)
      ensures core.targets == old(core.targets) && core.liveCallCredentials == old(core.liveCallCredentials)
    {
      if channelHash in channelMap {
        core.DestroyChannel(channelMap[channelHash]);
        channelMap := channelMap - {channelHash};
      }
    }

    /** `numChannels` */
    method NumChannels() returns (n: nat)
      ensures n == |channelMap|
      ensures n == 0 <==> channelMap == map[]
    {
      n := |channelMap|;
    }

    /** The destructor: destroys every cached channel and empties the map. */
    method Teardown(core: Core)
      requires core.Valid() && Valid(core)
      modifies this, core
      ensures core.Valid() && Valid(core)
      ensures channelMap == map[]
      ensures core.liveChannels == old(core.liveChannels) - old(channelMap).Values
      ensures core.targets == old(core.targets) && core.liveCallCredentials == old(core.liveCallCredentials)
    {
      var remaining := channelMap.Keys;
      while remaining != {}
        invariant remaining <= channelMap.Keys && channelMap == old(channelMap)
        invariant core.Valid() && core.targets == old(core.targets) && core.liveCallCredentials == old(core.liveCallCredentials)
        invariant forall k :: k in remaining ==> channelMap[k] in core.liveChannels
        invariant core.liveChannels ==
                  old(core.liveChannels) - (set k | k in channelMap.Keys - remaining :: channelMap[k])
        decreases remaining
      {
        var k :| k in remaining;
        core.DestroyChannel(channelMap[k]);
        remaining := remaining - {k};
      }
      assert (set k | k in channelMap.Keys :: channelMap[k]) == channelMap.Values;
      channelMap := map[];
    }
  }

  // ---------------------------------------------------------------------
  // ChannelData
  // ---------------------------------------------------------------------

  /** The native data of a `Grpc\Channel` object. */
  class ChannelData {
    /** `m_pChannel`; None once closed. */
    var channel: Option<Handle>
    /** `m_Owned`: whether this object destroys the channel itself. */
    var owned: bool
    /** `m_HashKey`: the cache key the channel is registered under. */
    var hashKey: string

    /** An owned channel must still be alive for `destroy` to release it. */
    ghost predicate Valid(core: Core)
      reads this, core
    {
      owned && channel.Some? ==> channel.value in core.liveChannels
    }

    constructor ()
      ensures channel == None && !owned && hashKey == []
    {
      channel := None;
      owned := false;
      hashKey := [];
    }

    /** `destroy`: releases an owned channel and forgets the handle either way. */
    method Destroy(core: Core)
      requires core.Valid() && Valid(core)
      modifies this, core
      ensures core.Valid() && Valid(core)
      ensures channel == None && owned == old(owned) && hashKey == old(hashKey)
      ensures core.liveChannels ==
              if old(channel).Some? && old(owned) then old(core.liveChannels) - {old(channel).value}
              else old(core.liveChannels)
      ensures core.targets == old(core.targets) && core.liveCallCredentials == old(core.liveCallCredentials)
    {
      if channel.Some? {
        if owned {
          core.DestroyChannel(channel.value);
        }
        channel := None;
      }
    }

    /** `init`: destroys what it held, then takes the new channel, ownership flag and key. */
    method Init(newChannel: Option<Handle>, newOwned: bool, newHashKey: string, core: Core)
      requires core.Valid() && Valid(core)
      requires newOwned && newChannel.Some? ==>
                 newChannel.value in core.liveChannels && !(owned && channel == newChannel)
      modifies this, core
      ensures core.Valid() && Valid(core)
      ensures channel == newChannel && owned == newOwned && hashKey == newHashKey
      ensures core.liveChannels ==
              if old(channel).Some? && old(owned) then old(core.liveChannels) - {old(channel).value}
              else old(core.liveChannels)
      ensures core.targets == old(core.targets) && core.liveCallCredentials == old(core.liveCallCredentials)
    {
      Destroy(core);
      channel := newChannel;
      owned := newOwned;
      hashKey := newHashKey;
    }
  }

  // ---------------------------------------------------------------------
  // Channel::__construct
  // ---------------------------------------------------------------------

  /** The value stored under a string key, if the array has one (`Array::exists` / `operator[]`). */
  function Lookup(a: seq<Entry>, key: string): Option<PhpValue>
  {
    if a == [] then None
    else if a[0].0 == PStr(key) then Some(a[0].1)
    else Lookup(a[1..], key)
  }

  /** `Array::remove`: the array without the elements stored under the key. */
  function Remove(a: seq<Entry>, key: string): seq<Entry>
  {
    if a == [] then []
    else (if a[0].0 == PStr(key) then [] else [a[0]]) + Remove(a[1..], key)
  }

  /** After `remove`, the key is gone. */
  lemma {:induction false} RemoveDeletesKey(a: seq<Entry>, key: string)
    ensures Lookup(Remove(a, key), key) == None
  {
    if a != [] {
      RemoveDeletesKey(a[1..], key);
      LookupAppend((if a[0].0 == PStr(key) then [] else [a[0]]), Remove(a[1..], key), key);
    }
  }

  /** `remove` of one key leaves every other key's value where it was. */
  lemma {:induction false} RemoveKeepsOtherKeys(a: seq<Entry>, key: string, other: string)
    requires other != key
    ensures Lookup(Remove(a, key), other) == Lookup(a, other)
  {
    if a != [] {
      RemoveKeepsOtherKeys(a[1..], key, other);
      LookupAppend((if a[0].0 == PStr(key) then [] else [a[0]]), Remove(a[1..], key), other);
    }
  }

  lemma {:induction false} LookupAppend(x: seq<Entry>, y: seq<Entry>, key: string)
    ensures Lookup(x + y, key) == if Lookup(x, key).Some? then Lookup(x, key) else Lookup(y, key)
  {
    if x != [] {
      assert (x + y)[1..] == x[1..] + y;
      LookupAppend(x[1..], y, key);
    } else {
      assert x + y == y;
    }
  }

  /** What the constructor reads out of its argument array before canonicalising the rest. */
  datatype ConstructorArgs = ConstructorArgs(credentials: Option<PhpObject>, forceNew: bool, channelArgs: seq<Entry>)

  /**
   * The "credentials" and "force_new" handling of the constructor: a
   * credentials value that is an object must be a `Grpc\ChannelCredentials`;
   * force_new is honoured only when it is a boolean; both keys are removed.
   */
  function SplitConstructorArgs(a: seq<Entry>): (r: Result<ConstructorArgs, PhpException>)
    ensures r.Err? ==> r.error.InvalidArgumentException? &&
                       Lookup(a, "credentials").Some? && Lookup(a, "credentials").value.PObject?
    ensures r.Ok? ==> (r.value.credentials.Some? ==> r.value.credentials.value.ChannelCredentialsObject?)
    ensures r.Ok? ==> (r.value.credentials.Some? <==>
                       Lookup(a, "credentials").Some? && Lookup(a, "credentials").value.PObject?)
    ensures r.Ok? ==> (r.value.forceNew <==> Lookup(a, "force_new") == Some(PBool(true)))
    ensures r.Err? <==> Lookup(a, "credentials").Some? && Lookup(a, "credentials").value.PObject? &&
                        Lookup(a, "credentials").value.obj.OtherObject?
    ensures r.Ok? && r.value.credentials.Some? ==> r.value.credentials == Some(Lookup(a, "credentials").value.obj)
    ensures r.Ok? ==> r.value.channelArgs == Remove(Remove(a, "credentials"), "force_new")
  {
    RemoveKeepsOtherKeys(a, "credentials", "force_new");
    var creds := Lookup(a, "credentials");
    if creds.Some? && creds.value.PObject? && !creds.value.obj.ChannelCredentialsObject? then
      Err(InvalidArgumentException("credentials must be a Grpc\\ChannelCredentials object"))
    else
      var credentials := if creds.Some? && creds.value.PObject? then Some(creds.value.obj) else None;
      var rest := Remove(a, "credentials");
      var forceNew := Lookup(rest, "force_new");
      Ok(ConstructorArgs(credentials,
                         forceNew.Some? && forceNew.value.PBool? && forceNew.value.b,
                         Remove(rest, "force_new")))
  }

  /**
   * Neither "credentials" nor "force_new" reaches the channel arguments, and
   * every other key reaches them unchanged.
   */
  lemma SplitStripsReservedKeys(a: seq<Entry>, other: string)
    requires SplitConstructorArgs(a).Ok?
    requires other != "credentials" && other != "force_new"
    ensures var rest := SplitConstructorArgs(a).value.channelArgs;
            Lookup(rest, "credentials") == None && Lookup(rest, "force_new") == None &&
            Lookup(rest, other) == Lookup(a, other)
  {
    var rest := Remove(a, "credentials");
    RemoveDeletesKey(a, "credentials");
    RemoveKeepsOtherKeys(rest, "force_new", "credentials");
    RemoveDeletesKey(rest, "force_new");
    RemoveKeepsOtherKeys(a, "credentials", other);
    RemoveKeepsOtherKeys(rest, "force_new", other);
  }

  /** The full cache key: SHA1 of target‖canonical text, followed by the credentials' own key. */
  function FullCacheKey(sha1: string -> string, target: string, concatenated: string, credentials: Option<PhpObject>): (r: string)
    ensures sha1(target + concatenated) <= r
    ensures credentials.None? ==> r == sha1(target + concatenated)
    ensures credentials.Some? && credentials.value.ChannelCredentialsObject? ==>
              r[|sha1(target + concatenated)|..] == credentials.value.hashKey
  {
    sha1(target + concatenated) +
    (if credentials.Some? && credentials.value.ChannelCredentialsObject? then credentials.value.hashKey else [])
  }

  /**
   * What the constructor will do before it touches the cache: raise, or use
   * this cache key with this force_new flag.
   */
  function ConstructPlan(sha1: string -> string, target: string, a: seq<Entry>): (r: Result<(string, bool), PhpException>)
    ensures r.Err? ==> r.error.InvalidArgumentException?
    ensures r.Ok? ==> (r.value.1 <==> Lookup(a, "force_new") == Some(PBool(true)))
    ensures r.Ok? ==> !(Lookup(a, "credentials").Some? && Lookup(a, "credentials").value.PObject? &&
                        !Lookup(a, "credentials").value.obj.ChannelCredentialsObject?)
  {
    match SplitConstructorArgs(a)
    case Err(e) => Err(e)
    case Ok(split) =>
      match CanonicalText(split.channelArgs)
      case None => Err(InvalidArgumentException("invalid channel arguments"))
      case Some(text) => Ok((FullCacheKey(sha1, target, text, split.credentials), split.forceNew))
  }

  /**
   * Two argument arrays holding the same elements in any order plan the same
   * cache key (or the same exception).
   */
  lemma ConstructPlanOrderIndependent(sha1: string -> string, target: string, a: seq<Entry>, b: seq<Entry>)
    requires multiset(a) == multiset(b)
    requires Lookup(a, "credentials") == Lookup(b, "credentials")
    requires Lookup(Remove(a, "credentials"), "force_new") == Lookup(Remove(b, "credentials"), "force_new")
    ensures ConstructPlan(sha1, target, a) == ConstructPlan(sha1, target, b)
  {
    var restA, restB := Remove(a, "credentials"), Remove(b, "credentials");
    RemovePermutation(a, b, "credentials");
    RemovePermutation(restA, restB, "force_new");
    var argsA, argsB := Remove(restA, "force_new"), Remove(restB, "force_new");
    CanonicalOrderIndependent(argsA, argsB);
    var splitA, splitB := SplitConstructorArgs(a), SplitConstructorArgs(b);
    assert splitA.Err? <==> splitB.Err?;
    if splitA.Ok? {
      assert splitA.value.channelArgs == argsA && splitB.value.channelArgs == argsB;
      assert splitA.value.credentials == splitB.value.credentials;
      assert splitA.value.forceNew == splitB.value.forceNew;
    }
  }

  /** `remove` drops every copy of the elements under the key and keeps every other element. */
  lemma {:induction false} RemoveCount(a: seq<Entry>, key: string, e: Entry)
    ensures multiset(Remove(a, key))[e] == if e.0 == PStr(key) then 0 else multiset(a)[e]
  {
    if a != [] {
      RemoveCount(a[1..], key, e);
      assert a == [a[0]] + a[1..];
    }
  }

  lemma RemovePermutation(a: seq<Entry>, b: seq<Entry>, key: string)
    requires multiset(a) == multiset(b)
    ensures multiset(Remove(a, key)) == multiset(Remove(b, key))
  {
    forall e ensures multiset(Remove(a, key))[e] == multiset(Remove(b, key))[e] {
      RemoveCount(a, key, e);
      RemoveCount(b, key, e);
    }
  }

  /**
   * The create half of the constructor, run after a lookup missed (or with
   * force_new): create a channel, then register it with one insert-or-get
   * step. Whatever other constructors registered in between, the object ends
   * up holding the channel registered under the key, not owned; a channel
   * that lost the race is destroyed at once, so no channel is left alive
   * outside the cache.
   */
  method CreateAndRegister(data: ChannelData, cache: ChannelsCache, core: Core,
                           key: string, target: string, createFails: bool)
    returns (r: Result<(), PhpException>)
    requires core.Valid() && cache.Valid(core) && data.channel.None?
    modifies data, cache, core
    ensures core.Valid() && cache.Valid(core) && data.Valid(core)
    ensures createFails ==>
              r == Err(BadMethodCallException("failed to create channel")) &&
              cache.channelMap == old(cache.channelMap) && core.liveChannels == old(core.liveChannels) &&
              core.targets == old(core.targets) && core.nextHandle == old(core.nextHandle) &&
              data.channel.None?
    ensures !createFails ==> core.targets == old(core.targets)[old(core.nextHandle) := target]
    ensures core.liveCallCredentials == old(core.liveCallCredentials)
    ensures !createFails ==>
              r == Ok(()) && key in cache.channelMap &&
              data.channel == Some(cache.channelMap[key]) && !data.owned && data.hashKey == key &&
              cache.channelMap == old(cache.channelMap)[key := cache.channelMap[key]]
    ensures !createFails && key in old(cache.channelMap) ==>
              cache.channelMap == old(cache.channelMap) && core.liveChannels == old(core.liveChannels)
    ensures !createFails && key !in old(cache.channelMap) ==>
              cache.channelMap[key] == old(core.nextHandle) && cache.channelMap[key] !in old(core.targets) &&
              core.targets[cache.channelMap[key]] == target &&
              core.liveChannels == old(core.liveChannels) + {cache.channelMap[key]}
  {
    var created := core.CreateChannel(target, createFails);
    if created.None? {
      return Err(BadMethodCallException("failed to create channel"));
    }
    var channel := created.value;
    var inserted, registered := cache.AddChannel(key, channel);
    if !inserted {
      // another constructor registered first: delete the new channel and use the cached one
      core.DestroyChannel(channel);
      channel := registered;
    } else {
      assert cache.channelMap.Values <= core.liveChannels by {
        forall h | h in cache.channelMap.Values ensures h in core.liveChannels {
          var k :| k in cache.channelMap && cache.channelMap[k] == h;
          if k != key {
            assert old(cache.channelMap)[k] == h;
          }
        }
      }
      forall k1, k2 | k1 in cache.channelMap && k2 in cache.channelMap && k1 != k2
        ensures cache.channelMap[k1] != cache.channelMap[k2]
      {
        if k1 != key && k2 != key {
          assert old(cache.channelMap)[k1] != old(cache.channelMap)[k2];
        } else if k1 == key {
          assert old(cache.channelMap)[k2] in old(cache.channelMap.Values);
        } else {
          assert old(cache.channelMap)[k1] in old(cache.channelMap.Values);
        }
      }
    }
    data.Init(Some(channel), false, key, core);
    r := Ok(());
  }

  /**
   * `Channel::__construct` on a new object: reuse the channel cached under
   * the full key unless force_new is set; otherwise create one and register
   * it, adopting the cached one when a registration is already there.
   */
  method Construct(data: ChannelData, cache: ChannelsCache, core: Core, sha1: string -> string,
                   target: string, argsArray: seq<Entry>, createFails: bool)
    returns (r: Result<(), PhpException>)
    requires core.Valid() && cache.Valid(core) && data.channel.None?
    modifies data, cache, core
    ensures core.Valid() && cache.Valid(core) && data.Valid(core)
    ensures core.liveCallCredentials == old(core.liveCallCredentials)
    ensures ConstructPlan(sha1, target, argsArray).Err? ==>
              r == Err(ConstructPlan(sha1, target, argsArray).error) &&
              cache.channelMap == old(cache.channelMap) && core.liveChannels == old(core.liveChannels) &&
              core.targets == old(core.targets) && data.channel.None?
    ensures ConstructPlan(sha1, target, argsArray).Ok? ==>
              var (key, forceNew) := ConstructPlan(sha1, target, argsArray).value;
              (!forceNew && key in old(cache.channelMap) ==>
                 r == Ok(()) && data.channel == Some(old(cache.channelMap)[key]) &&
                 cache.channelMap == old(cache.channelMap) && core.liveChannels == old(core.liveChannels) &&
                 core.targets == old(core.targets)) &&
              ((forceNew || key !in old(cache.channelMap)) && createFails ==>
                 r == Err(BadMethodCallException("failed to create channel")) &&
                 cache.channelMap == old(cache.channelMap) && core.liveChannels == old(core.liveChannels) &&
                 core.targets == old(core.targets) && data.channel.None?) &&
              ((forceNew || key !in old(cache.channelMap)) && !createFails ==>
                 core.targets == old(core.targets)[old(core.nextHandle) := target]) &&
              (forceNew && key in old(cache.channelMap) && !createFails ==>
                 r == Ok(()) && data.channel == Some(old(cache.channelMap)[key]) &&
                 cache.channelMap == old(cache.channelMap) && core.liveChannels == old(core.liveChannels)) &&
              (key !in old(cache.channelMap) && !createFails ==>
                 r == Ok(()) && key in cache.channelMap && data.channel == Some(cache.channelMap[key]) &&
                 cache.channelMap == old(cache.channelMap)[key := cache.channelMap[key]] &&
                 cache.channelMap[key] == old(core.nextHandle) && cache.channelMap[key] !in old(core.targets) &&
                 core.targets[cache.channelMap[key]] == target &&
                 core.liveChannels == old(core.liveChannels) + {cache.channelMap[key]}) &&
              (r.Ok? ==> !data.owned && data.hashKey == key)
  {
    var plan := PlanConstruct(sha1, target, argsArray);
    if plan.Err? {
      return Err(plan.error);
    }
    var (fullCacheKey, forceNew) := plan.value;
    var cached := cache.GetChannel(fullCacheKey);
    if !forceNew && cached.Some? {
      data.Init(cached, false, fullCacheKey, core);
      r := Ok(());
    } else {
      r := CreateAndRegister(data, cache, core, fullCacheKey, target, createFails);
    }
  }

  /**
   * The first half of `Channel::__construct`: reads "credentials" and
   * "force_new", runs `ChannelArgs::init` on the rest and builds the full
   * cache key, or raises.
   */
  method PlanConstruct(sha1: string -> string, target: string, argsArray: seq<Entry>)
    returns (plan: Result<(string, bool), PhpException>)
    ensures plan == ConstructPlan(sha1, target, argsArray)
  {
    var split := SplitConstructorArgs(argsArray);
    if split.Err? {
      return Err(split.error);
    }
    var channelArgs := new ChannelArgs();
    var ok := channelArgs.Init(split.value.channelArgs, sha1);
    if !ok {
      return Err(InvalidArgumentException("invalid channel arguments"));
    }
    var fullCacheKey := FullCacheKey(sha1, target, channelArgs.concatenated, split.value.credentials);
    plan := Ok((fullCacheKey, split.value.forceNew));
  }

  /**
   * Two constructors race on one key: both look it up and miss, then each
   * creates a channel and registers it. Both objects end up with the same
   * channel, the cache holds one entry for the key, and the loser's channel
   * is destroyed.
   */
  method RacingConstructors(first: ChannelData, second: ChannelData, cache: ChannelsCache, core: Core,
                            key: string, target: string)
    returns (r1: Result<(), PhpException>, r2: Result<(), PhpException>)
    requires core.Valid() && cache.Valid(core)
    requires first != second && first.channel.None? && second.channel.None?
    requires key !in cache.channelMap
    modifies first, second, cache, core
    ensures r1.Ok? && r2.Ok? && key in cache.channelMap
    ensures first.channel == second.channel == Some(cache.channelMap[key])
    ensures cache.channelMap == old(cache.channelMap)[key := cache.channelMap[key]]
    ensures core.liveChannels == old(core.liveChannels) + {cache.channelMap[key]}
  {
    var miss1 := cache.GetChannel(key);
    var miss2 := cache.GetChannel(key);
    assert miss1.None? && miss2.None?;
    r1 := CreateAndRegister(first, cache, core, key, target, false);
    r2 := CreateAndRegister(second, cache, core, key, target, false);
  }

  /**
   * A constructor that registers a new channel, followed by `getTarget`:
   * the target reported is the one the constructor was given.
   */
  method ConstructThenGetTarget(data: ChannelData, cache: ChannelsCache, core: Core, key: string, target: string)
    returns (t: Result<string, PhpException>)
    requires core.Valid() && cache.Valid(core) && data.channel.None?
    requires key !in cache.channelMap
    modifies data, cache, core
    ensures t == Ok(target)
  {
    var r := CreateAndRegister(data, cache, core, key, target, false);
    t := GetTarget(data, core);
  }

  // ---------------------------------------------------------------------
  // Closed-state checks
  // ---------------------------------------------------------------------

  const AlreadyClosed: PhpException := BadMethodCallException("Channel already closed.")

  /** `Channel::getTarget`: the target the channel was created for, or an error once closed. */
  method GetTarget(data: ChannelData, core: Core) returns (r: Result<string, PhpException>)
    requires core.Valid()
    requires data.channel.Some? ==> data.channel.value in core.targets
    ensures data.channel.None? <==> r == Err(AlreadyClosed)
    ensures data.channel.Some? ==> r == Ok(core.targets[data.channel.value])
  {
    if data.channel.None? {
      return Err(AlreadyClosed);
    }
    r := Ok(core.targets[data.channel.value]);
  }

  /** `Channel::getConnectivityState`: the core's answer, or an error once closed. */
  method GetConnectivityState(data: ChannelData, coreState: int) returns (r: Result<int, PhpException>)
    ensures data.channel.None? <==> r == Err(AlreadyClosed)
    ensures data.channel.Some? ==> r == Ok(coreState)
  {
    if data.channel.None? {
      return Err(AlreadyClosed);
    }
    r := Ok(coreState);
  }

  /** `Channel::watchConnectivityState`: a stub that answers true while open. */
  method WatchConnectivityState(data: ChannelData) returns (r: Result<bool, PhpException>)
    ensures data.channel.None? <==> r == Err(AlreadyClosed)
    ensures data.channel.Some? ==> r == Ok(true)
  {
    if data.channel.None? {
      return Err(AlreadyClosed);
    }
    r := Ok(true);
  }

  /** `Channel::close`: marks the object closed; closing a closed channel is an error. */
  method Close(data: ChannelData, core: Core) returns (r: Result<(), PhpException>)
    requires core.Valid() && data.Valid(core)
    modifies data, core
    ensures core.Valid() && data.Valid(core)
    ensures r == (if old(data.channel).None? then Err(AlreadyClosed) else Ok(()))
    ensures data.channel.None?
    ensures old(data.channel).Some? && old(data.owned) ==>
              core.liveChannels == old(core.liveChannels) - {old(data.channel).value}
    ensures !(old(data.channel).Some? && old(data.owned)) ==> core.liveChannels == old(core.liveChannels)
    ensures core.targets == old(core.targets) && core.liveCallCredentials == old(core.liveCallCredentials)
    ensures r.Ok? ==> !data.owned && data.hashKey == []
    ensures r.Err? ==> data.owned == old(data.owned) && data.hashKey == old(data.hashKey)
  {
    if data.channel.None? {
      return Err(AlreadyClosed);
    }
    data.Init(None, false, [], core);
    r := Ok(());
  }
}
