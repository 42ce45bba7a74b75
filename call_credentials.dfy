/**
 * `Grpc\CallCredentials` and the metadata plugin bridge. A call that uses
 * plugin credentials registers its pending-metadata record (`MetaDataInfo`:
 * a one-shot promise and the id of the thread that issued the call) in a
 * process-wide registry keyed by the credentials object, holding it only
 * weakly. When the gRPC core asks the plugin for metadata, the bridge takes
 * the registration out; if the call is gone it does nothing, if the core asks
 * on the call's own thread it runs the PHP callback at once, and otherwise
 * it hands the request to the call's thread through the promise.
 */
module CallCredentials {
  import opened Common
  import opened GrpcCore

  /** The identity (address) of a `CallCredentialsData` object. */
  type CredentialsId = nat

  /** A `std::thread::id`: only compared for equality. */
  type ThreadId = nat

  /** `grpc_status_code`, the three values the bridge reports. */
  datatype StatusCode = StatusOk | StatusUnknown | StatusInvalidArgument

  /** `grpc_auth_metadata_context`; the service URL and method name may be null. */
  datatype AuthMetadataContext = AuthMetadataContext(serviceUrl: Option<string>, methodName: Option<string>, channelAuthContext: nat)

  /**
   * What the PHP callback returned. For an array, `converts` says whether
   * `MetadataArray::init` accepts it and `entries` is what it converts it to.
   */
  datatype CallbackResult = Null | NonArray | Array(converts: bool, entries: seq<(string, string)>)

  /** One call of the core's `grpc_credentials_plugin_metadata_cb`. */
  datatype MetadataCallbackCall = MetadataCallbackCall(
    cb: nat, userData: nat, metadata: seq<(string, string)>, numMetadata: nat, status: StatusCode)

  /** `plugin_state`: the PHP callback and the credentials object it belongs to. */
  datatype PluginState = PluginState(callback: nat, credentials: CredentialsId)

  /**
   * `plugin_get_metadata_params`: the request as published in the promise;
   * `completed` and `result` stay false for a request handed to the call's thread.
   */
  datatype MetadataParams = MetadataParams(
    state: PluginState, serviceUrl: string, methodName: string, authContext: nat,
    cb: nat, userData: nat, completed: bool, result: bool)

  /** The user callback's invocation: the service URL and method name it is given. */
  type UserCall = (string, string)

  // ---------------------------------------------------------------------
  // plugin_do_get_metadata
  // ---------------------------------------------------------------------

  /**
   * `plugin_do_get_metadata` after the PHP callback has returned `ret`: the
   * one call of `cb` it makes, and its boolean result.
   */
  function DoGetMetadata(ret: CallbackResult, cb: nat, userData: nat): (r: (MetadataCallbackCall, bool))
    ensures r.0.cb == cb && r.0.userData == userData
    ensures r.1 <==> r.0.status == StatusOk
    ensures r.0.status == StatusUnknown <==> !ret.Array?
    ensures r.0.status == StatusInvalidArgument <==> ret.Array? && !ret.converts
    ensures r.0.status == StatusOk ==> r.0.metadata == ret.entries && r.0.numMetadata == |ret.entries|
    ensures r.0.status != StatusOk ==> r.0.metadata == [] && r.0.numMetadata == 0
  {
    var call :=
      if ret.Null? || !ret.Array? then MetadataCallbackCall(cb, userData, [], 0, StatusUnknown)
      else if !ret.converts then MetadataCallbackCall(cb, userData, [], 0, StatusInvalidArgument)
      else MetadataCallbackCall(cb, userData, ret.entries, |ret.entries|, StatusOk);
    (call, call.status == StatusOk)
  }

  // ---------------------------------------------------------------------
  // MetaDataInfo and the registry
  // ---------------------------------------------------------------------

  /**
   * A call's pending-metadata record. The call owns it; `alive` is false once
   * the call has dropped it, which makes every weak reference to it expire.
   */
  class MetaDataInfo {
    /** The `MetadataPromise`: unset, or set once with the published request. */
    var promise: Option<MetadataParams>
    /** The thread that issued the call. */
    const threadId: ThreadId
    var alive: bool

    constructor (callThread: ThreadId)
      ensures promise.None? && alive && threadId == callThread
    {
      promise := None;
      threadId := callThread;
      alive := true;
    }

    /** `std::promise::set_value`: succeeds once; a second attempt fails and changes nothing. */
    method SetValue(params: MetadataParams) returns (ok: bool)
      modifies this`promise
      ensures ok == old(promise).None?
      ensures promise == if ok then Some(params) else old(promise)
    {
      ok := promise.None?;
      if ok {
        promise := Some(params);
      }
    }

    /** The call ends (finished, timed out or cancelled) and drops its record. */
    method Expire()
      modifies this`alive
      ensures !alive
    {
      alive := false;
    }
  }

  /** `weak_ptr::lock`: the record while some owner still holds it. */
  function Lock(w: Option<MetaDataInfo>): (r: Option<MetaDataInfo>)
    reads if w.Some? then {w.value} else {}
    ensures r.Some? <==> w.Some? && w.value.alive
    ensures r.Some? ==> r == w
  {
    if w.Some? && w.value.alive then w else None
  }

  /** `PluginMetadataInfo`: credentials object to a weak reference to its call's record. */
  class PluginMetadataInfo {
    var metaDataMap: map<CredentialsId, MetaDataInfo>

    constructor ()
      ensures metaDataMap == map[]
    {
      metaDataMap := map[];
    }

    /** `setInfo`: registers the record for the credentials, replacing an earlier one. */
    method SetInfo(credentials: CredentialsId, info: MetaDataInfo)
      modifies this
      ensures metaDataMap == old(metaDataMap)[credentials := info]
    {
      if credentials !in metaDataMap {
        metaDataMap := metaDataMap[credentials := info];
      } else {
        // a record is already registered: replace it
        metaDataMap := metaDataMap[credentials := info];
      }
    }

    /**
     * `getInfo`: takes the registration out. The reference returned is the
     * stored one, or empty when there was none; either way the credentials
     * are no longer registered, so asking again returns an empty reference.
     */
    method GetInfo(credentials: CredentialsId) returns (w: Option<MetaDataInfo>)
      modifies this
      ensures w == if credentials in old(metaDataMap) then Some(old(metaDataMap)[credentials]) else None
      ensures metaDataMap == old(metaDataMap) - {credentials}
      ensures credentials !in old(metaDataMap) ==> metaDataMap == old(metaDataMap)
    {
      w := None;
      if credentials in metaDataMap {
        w := Some(metaDataMap[credentials]);
        metaDataMap := metaDataMap - {credentials};
      }
    }

    /** `deleteInfo`: forgets the registration and reports whether there was one. */
    method DeleteInfo(credentials: CredentialsId) returns (existed: bool)
      modifies this
      ensures existed == (credentials in old(metaDataMap))
      ensures metaDataMap == old(metaDataMap) - {credentials}
    {
      if credentials in metaDataMap {
        metaDataMap := metaDataMap - {credentials};
        existed := true;
      } else {
        existed := false;
      }
    }

    /** The destructor. */
    method Clear()
      modifies this
      ensures metaDataMap == map[]
    {
      metaDataMap := map[];
    }
  }


  function Registered(m: map<CredentialsId, MetaDataInfo>, credentials: CredentialsId): Option<MetaDataInfo>
  {
    if credentials in m then Some(m[credentials]) else None
  }
  /** Taking a registration out twice: the second attempt finds nothing. */
  method GetInfoTwice(registry: PluginMetadataInfo, credentials: CredentialsId)
    returns (first: Option<MetaDataInfo>, second: Option<MetaDataInfo>)
    modifies registry
    ensures first == Registered(old(registry.metaDataMap), credentials)
    ensures second.None?
    ensures registry.metaDataMap == old(registry.metaDataMap) - {credentials}
  {
    first := registry.GetInfo(credentials);
    second := registry.GetInfo(credentials);
  }


  // ---------------------------------------------------------------------
  // plugin_get_metadata
  // ---------------------------------------------------------------------

  /** How a metadata request ended. `PromiseAlreadySet` is the `future_error` a second `set_value` throws. */
  datatype GetMetadataOutcome = Dropped | CompletedInline | Deferred | PromiseAlreadySet

  function OrEmpty(s: Option<string>): string
  {
    if s.Some? then s.value else []
  }

  /**
   * `plugin_get_metadata`, called by the core on `currentThread`. It takes
   * the registration for the state's credentials out of the registry, then:
   * - registration absent or expired: nothing else happens;
   * - same thread as the call: the PHP callback runs once, `cb` is called
   *   once, and the completed request with its result is published;
   * - another thread: neither runs, and the request is published for the
   *   call's thread to complete.
   * It returns what it did, the calls of `cb` and the calls of the PHP callback.
   */
  method PluginGetMetadata(registry: PluginMetadataInfo, state: PluginState, context: AuthMetadataContext,
                           cb: nat, userData: nat, currentThread: ThreadId,
                           userCallback: (string, string) -> CallbackResult)
    returns (outcome: GetMetadataOutcome, cbCalls: seq<MetadataCallbackCall>, userCalls: seq<UserCall>)
    modifies registry, if state.credentials in registry.metaDataMap then {registry.metaDataMap[state.credentials]} else {}
    ensures registry.metaDataMap == old(registry.metaDataMap) - {state.credentials}
    ensures var w := old(Registered(registry.metaDataMap, state.credentials));
            var url, name := OrEmpty(context.serviceUrl), OrEmpty(context.methodName);
            (w.None? || !old(w.value.alive) ==>
               outcome == Dropped && cbCalls == [] && userCalls == []) &&
            (w.Some? ==> w.value.alive == old(w.value.alive)) &&
            (w.Some? && !old(w.value.alive) ==> w.value.promise == old(w.value.promise)) &&
            (w.Some? && old(w.value.alive) && w.value.threadId == currentThread ==>
               var (call, result) := DoGetMetadata(userCallback(url, name), cb, userData);
               userCalls == [(url, name)] && cbCalls == [call] &&
               (old(w.value.promise).None? ==>
                  outcome == CompletedInline &&
                  w.value.promise == Some(MetadataParams(state, url, name, context.channelAuthContext, cb, userData, true, result))) &&
               (old(w.value.promise).Some? ==>
                  outcome == PromiseAlreadySet && w.value.promise == old(w.value.promise))) &&
            (w.Some? && old(w.value.alive) && w.value.threadId != currentThread ==>
               userCalls == [] && cbCalls == [] &&
               (old(w.value.promise).None? ==>
                  outcome == Deferred &&
                  w.value.promise == Some(MetadataParams(state, url, name, context.channelAuthContext, cb, userData, false, false))) &&
               (old(w.value.promise).Some? ==>
                  outcome == PromiseAlreadySet && w.value.promise == old(w.value.promise)))
  {
    cbCalls, userCalls := [], [];
    var weak := registry.GetInfo(state.credentials);
    var strong := Lock(weak);
    if strong.None? {
      // the call timed out or ended and its record was dropped before this request
      return Dropped, [], [];
    }
    var info := strong.value;
    var serviceUrl := OrEmpty(context.serviceUrl);
    var methodName := OrEmpty(context.methodName);
    var published: bool;
    if info.threadId == currentThread {
      var ret := userCallback(serviceUrl, methodName);
      userCalls := [(serviceUrl, methodName)];
      var (call, result) := DoGetMetadata(ret, cb, userData);
      cbCalls := [call];
      published := info.SetValue(MetadataParams(state, serviceUrl, methodName, context.channelAuthContext, cb, userData, true, result));
      outcome := if published then CompletedInline else PromiseAlreadySet;
    } else {
      published := info.SetValue(MetadataParams(state, serviceUrl, methodName, context.channelAuthContext, cb, userData, false, false));
      outcome := if published then Deferred else PromiseAlreadySet;
    }
  }

  /**
   * A call registers its record and then drops it (it timed out) before the
   * core asks for metadata: the request is dropped, nothing runs and the
   * promise stays unset.
   */
  method ExpiredCallIsDropped(registry: PluginMetadataInfo, state: PluginState, context: AuthMetadataContext,
                              cb: nat, userData: nat, callThread: ThreadId, currentThread: ThreadId,
                              userCallback: (string, string) -> CallbackResult)
    returns (info: MetaDataInfo, outcome: GetMetadataOutcome, cbCalls: seq<MetadataCallbackCall>, userCalls: seq<UserCall>)
    modifies registry
    ensures fresh(info) && info.promise.None?
    ensures outcome == Dropped && cbCalls == [] && userCalls == []
    ensures state.credentials !in registry.metaDataMap
  {
    info := new MetaDataInfo(callThread);
    registry.SetInfo(state.credentials, info);
    info.Expire();
    outcome, cbCalls, userCalls := PluginGetMetadata(registry, state, context, cb, userData, currentThread, userCallback);
  }

  // ---------------------------------------------------------------------
  // CallCredentialsData
  // ---------------------------------------------------------------------

  /** The native data of a `Grpc\CallCredentials` object. */
  class CallCredentialsData {
    /** `m_pCallCredentials` */
    var callCredentials: Option<CredentialsHandle>

    /** The held credentials are a reference the binding has not released yet. */
    ghost predicate Valid(core: Core)
      reads this, core
    {
      callCredentials.Some? ==> callCredentials.value in core.liveCallCredentials
    }

    constructor ()
      ensures callCredentials.None?
    {
      callCredentials := None;
    }

    /** `destroy`: releases the held credentials once; on an empty object it does nothing. */
    method Destroy(core: Core)
      requires core.Valid() && Valid(core)
      modifies this, core
      ensures core.Valid() && Valid(core)
      ensures callCredentials.None?
      ensures core.liveCallCredentials ==
              if old(callCredentials).Some? then old(core.liveCallCredentials) - {old(callCredentials).value}
              else old(core.liveCallCredentials)
      ensures core.liveChannels == old(core.liveChannels) && core.targets == old(core.targets)
    {
      if callCredentials.Some? {
        core.ReleaseCallCredentials(callCredentials.value);
        callCredentials := None;
      }
    }

    /** `init`: releases what it held, then takes ownership of the new credentials. */
    method Init(newCredentials: CredentialsHandle, core: Core)
      requires core.Valid() && Valid(core)
      requires newCredentials in core.liveCallCredentials && callCredentials != Some(newCredentials)
      modifies this, core
      ensures core.Valid() && Valid(core)
      ensures callCredentials == Some(newCredentials)
      ensures core.liveCallCredentials ==
              if old(callCredentials).Some? then old(core.liveCallCredentials) - {old(callCredentials).value}
              else old(core.liveCallCredentials)
      ensures core.liveChannels == old(core.liveChannels) && core.targets == old(core.targets)
    {
      Destroy(core);
      callCredentials := Some(newCredentials);
    }
  }

  /** Destroying twice releases once: the second `destroy` is a no-op. */
  method DestroyTwice(data: CallCredentialsData, core: Core)
    requires core.Valid() && data.Valid(core)
    modifies data, core
    ensures data.callCredentials.None?
    ensures core.liveCallCredentials ==
            if old(data.callCredentials).Some? then old(core.liveCallCredentials) - {old(data.callCredentials).value}
            else old(core.liveCallCredentials)
  {
    data.Destroy(core);
    data.Destroy(core);
  }

  /** A PHP value passed as the plugin callback: null, a callable, or anything else. */
  datatype CallbackArgument = NullCallback | Callable(id: nat) | NotCallable

  /**
   * `CallCredentials::createFromPlugin`: rejects a null or non-callable
   * callback, then wraps the plugin credentials the core creates.
   */
  method CreateFromPlugin(callback: CallbackArgument, core: Core, createFails: bool)
    returns (r: Result<CallCredentialsData, PhpException>)
    requires core.Valid()
    modifies core
    ensures core.Valid()
    ensures core.liveChannels == old(core.liveChannels) && core.targets == old(core.targets)
    ensures !callback.Callable? ==>
              r == Err(InvalidArgumentException("Callback argument is not a valid callback")) &&
              core.liveCallCredentials == old(core.liveCallCredentials)
    ensures callback.Callable? && createFails ==>
              r == Err(BadMethodCallException("failed to create call credntials plugin")) &&
              core.liveCallCredentials == old(core.liveCallCredentials)
    ensures callback.Callable? && !createFails ==>
              r.Ok? && fresh(r.value) && r.value.callCredentials.Some? &&
              r.value.callCredentials.value !in old(core.liveCallCredentials) &&
              core.liveCallCredentials == old(core.liveCallCredentials) + {r.value.callCredentials.value}
  {
    if !callback.Callable? {
      return Err(InvalidArgumentException("Callback argument is not a valid callback"));
    }
    var data := new CallCredentialsData();
    var created := core.CreateCallCredentials(createFails);
    if created.None? {
      return Err(BadMethodCallException("failed to create call credntials plugin"));
    }
    data.Init(created.value, core);
    r := Ok(data);
  }

  /** `CallCredentials::createComposite`: wraps the composite credentials the core creates. */
  method CreateComposite(core: Core, createFails: bool) returns (r: Result<CallCredentialsData, PhpException>)
    requires core.Valid()
    modifies core
    ensures core.Valid()
    ensures core.liveChannels == old(core.liveChannels) && core.targets == old(core.targets)
    ensures createFails ==>
              r == Err(BadMethodCallException("Failed to create call credentials composite")) &&
              core.liveCallCredentials == old(core.liveCallCredentials)
    ensures !createFails ==>
              r.Ok? && fresh(r.value) && r.value.callCredentials.Some? &&
              r.value.callCredentials.value !in old(core.liveCallCredentials) &&
              core.liveCallCredentials == old(core.liveCallCredentials) + {r.value.callCredentials.value}
  {
    var created := core.CreateCallCredentials(createFails);
    if created.None? {
      return Err(BadMethodCallException("Failed to create call credentials composite"));
    }
    var data := new CallCredentialsData();
    data.Init(created.value, core);
    r := Ok(data);
  }
}
