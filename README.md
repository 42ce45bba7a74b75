# HHVM gRPC binding: channel cache, plugin metadata bridge and slice wrapper

This project models three parts of the HHVM extension for gRPC in Dafny and proves properties about them.

- **`Grpc\Channel`** (`channel.dfy`, `canonical.dfy`, `decimal.dfy`, `string_order.dfy`).
  - `ChannelArgs::init` checks a PHP argument array, fills the `grpc_arg` array, and builds the canonical text: the (key, value) pairs sorted in the documented key-then-value order, concatenated with no separator. It then hashes that text.
  - `ChannelsCache` is the process-wide map from a cache key to a channel.
  - `ChannelData` is the native data of a channel object.
  - The constructor reuses the channel cached under the same key, or creates one and registers it. If it loses the registration race it adopts the registered channel.
  - `close`, `getTarget`, `getConnectivityState` and `watchConnectivityState` raise once the channel is closed.
- **`Grpc\CallCredentials`** (`call_credentials.dfy`).
  - The `PluginMetadataInfo` registry maps a credentials object to a weak reference to its call's pending-metadata record.
  - `plugin_get_metadata` drops the request, completes it on the call's thread, or defers it to the call's thread through a one-shot promise.
  - `plugin_do_get_metadata` turns the PHP callback's result into a status.
  - `CallCredentialsData` owns a `grpc_call_credentials` reference; `createFromPlugin` and `createComposite` create it.
- **`Slice`** (`slice.dfy`).
  - A wrapper over a reference-counted `grpc_slice`, with its constructors, copy and move construction and assignment, `destroy`, `increaseRef`, `data` and `string`.
  - The heap of buffers carries a ghost multiset of the wrappers that will release each buffer. `Balanced` says every count equals that number.

The gRPC core is the class `GrpcCore.Core` (`common.dfy`). It hands out channel and credentials handles, and records which are alive and each channel's target. Creation failure is an input.

SHA1 is a parameter `sha1: string -> string`. The PHP callback is a parameter `(string, string) -> CallbackResult`. The current thread and `MetadataArray::init`'s verdict are inputs too.

## Model

| member | source | states |
|---|---|---|
| Decimal.ToInt32 | src/php/ext/grpc/hhvm/channel.cpp:150 | the int32 conversion is in range, is the identity on int32 values and agrees with the input modulo 2^32 |
| Decimal.ParseToString | src/php/ext/grpc/hhvm/channel.cpp:151 | `std::to_string` text reads back as the same integer |
| Decimal.ToStringInjective | src/php/ext/grpc/hhvm/channel.cpp:151 | two integers with the same decimal text are equal |
| Decimal.ToString | src/php/ext/grpc/hhvm/channel.cpp:151 | the text is an optional '-' then digits, with no leading zero (and no "-0") |
| StringOrder.Less | src/php/ext/grpc/hhvm/channel.cpp:190 | a proper prefix sorts before the longer string |
| StringOrder.LessIsLexicographic | src/php/ext/grpc/hhvm/channel.cpp:190 | `<` holds exactly when the first string is a proper prefix of the second, or at the first differing position its character is smaller |
| StringOrder.Irreflexive | src/php/ext/grpc/hhvm/channel.cpp:190 | `std::string` `<` is irreflexive |
| StringOrder.Transitive | src/php/ext/grpc/hhvm/channel.cpp:190 | `std::string` `<` is transitive |
| StringOrder.Asymmetric | src/php/ext/grpc/hhvm/channel.cpp:190 | `std::string` `<` never holds both ways |
| StringOrder.Total | src/php/ext/grpc/hhvm/channel.cpp:190 | two different strings are ordered one way or the other |
| Canonical.DocumentedOrderIsStrictWeak | src/php/ext/grpc/hhvm/channel.cpp:183 | the key-then-value order named in the comment is a strict weak ordering, as `std::sort` requires |
| Canonical.PairLessTotal | src/php/ext/grpc/hhvm/channel.cpp:183 | two different pairs are ordered by key then value one way or the other |
| Canonical.PairLessEqAntisymmetric | src/php/ext/grpc/hhvm/channel.cpp:183 | pairs ordered both ways are equal |
| Canonical.LiteralLess | src/php/ext/grpc/hhvm/channel.cpp:184-198 | the comparator as written holds exactly when pair1's key is below pair1's value, or they are equal and pair2's key is below pair2's value; it never compares pair1 with pair2 |
| Canonical.LiteralComparatorNotStrictWeak | src/php/ext/grpc/hhvm/channel.cpp:184-198 | the comparator as written is not a strict weak ordering |
| Canonical.LiteralComparatorIgnoresSecond | src/php/ext/grpc/hhvm/channel.cpp:186-191 | when the first pair's key differs from its own value, the result does not depend on the second pair |
| Canonical.Insert | src/php/ext/grpc/hhvm/channel.cpp:199 | inserting into a sorted sequence keeps it sorted and adds exactly that pair |
| Canonical.SortedCons | src/php/ext/grpc/hhvm/channel.cpp:199 | a pair no greater than the head of a sorted sequence can go in front of it |
| Canonical.SortedConsInserted | src/php/ext/grpc/hhvm/channel.cpp:199 | the head of a sorted sequence stays first when a greater pair is inserted into the rest |
| Canonical.Sort | src/php/ext/grpc/hhvm/channel.cpp:199 | the sorted pairs are in key-then-value order and are a permutation of the input |
| Canonical.SortedUnique | src/php/ext/grpc/hhvm/channel.cpp:199 | two sorted permutations of the same pairs are the same sequence |
| Canonical.SortPermutationInvariant | src/php/ext/grpc/hhvm/channel.cpp:199 | permuted inputs sort to the same sequence |
| Canonical.Pairs | src/php/ext/grpc/hhvm/channel.cpp:134-180 | there is one stored pair per array element, and pair i is element i's key text and value text |
| Canonical.PermutationValid | src/php/ext/grpc/hhvm/channel.cpp:134-180 | a permutation of an array whose every element is valid has only valid elements |
| Canonical.MatchLast | src/php/ext/grpc/hhvm/channel.cpp:134-180 | in a permutation, the last element of one array sits at some index of the other, and the rest of the two arrays are again permutations |
| Canonical.PairsPermutationStep | src/php/ext/grpc/hhvm/channel.cpp:134-180 | removing matching elements from two valid arrays removes matching pairs |
| Canonical.PairsPermutation | src/php/ext/grpc/hhvm/channel.cpp:134-180 | permuting a valid array keeps it valid and permutes its pairs |
| Canonical.CanonicalOrderIndependent | src/php/ext/grpc/hhvm/channel.cpp:183-206 | arrays with the same elements in any order give the same canonical text, or are both rejected |
| Canonical.CanonicalRejects | src/php/ext/grpc/hhvm/channel.cpp:136-179 | any element with a non-string key, or a value other than an integer or a string, rejects the array |
| Canonical.IntegerMatchesItsDecimalString | src/php/ext/grpc/hhvm/channel.cpp:147-163 | an integer value and the string of its int32 decimal text give the same canonical text |
| Canonical.Concat | src/php/ext/grpc/hhvm/channel.cpp:201-206 | appending a pair only extends the text: the text without the last pair is a prefix of it |
| Canonical.ConcatPrefix | src/php/ext/grpc/hhvm/channel.cpp:201-206 | the text of every prefix of the pairs is a prefix of the whole text |
| Canonical.CanonicalText | src/php/ext/grpc/hhvm/channel.cpp:134-206 | there is no text exactly when some element has an invalid key or value |
| Canonical.SingleEntryText | src/php/ext/grpc/hhvm/channel.cpp:201-206 | a one-element array's text is its key followed by its value |
| Canonical.ConcatenationNotInjective | src/php/ext/grpc/hhvm/channel.cpp:205 | {"ab": "c"} and {"a": "bc"} are different arrays with the same canonical text |
| Channel.ChannelArgs.constructor | src/php/ext/grpc/hhvm/channel.cpp:107-111 | a new object has no arguments |
| Channel.ChannelArgs.DestroyArgs | src/php/ext/grpc/hhvm/channel.cpp:213-229 | the arguments, stored pairs, hash key and text are all cleared |
| Channel.ChannelArgs.Init | src/php/ext/grpc/hhvm/channel.cpp:118-211 | it succeeds exactly when every element is valid. On success, slot i holds element i, the text is the canonical text and the hash key is its SHA1. On failure everything is reset |
| Channel.ConvertElement | src/php/ext/grpc/hhvm/channel.cpp:136-176 | one element is accepted exactly when its key is a string and its value an integer or a string; the stored pair and the `grpc_arg` are then that element's (an integer truncated to int32) |
| Channel.ChannelArgs.StoreArgs | src/php/ext/grpc/hhvm/channel.cpp:123-181 | the loop stores element i in slot i and in the pair list, or resets everything at the first invalid element |
| Channel.ChannelArgs.ConcatenateSorted | src/php/ext/grpc/hhvm/channel.cpp:199-208 | the text is key‖value over the pairs sorted in the documented key-then-value order, and the hash key is its SHA1 |
| Channel.ChannelsCache.constructor | src/php/ext/grpc/hhvm/channel.cpp:235-237 | a new cache is empty |
| Channel.ChannelsCache.AddChannel | src/php/ext/grpc/hhvm/channel.cpp:255-264 | an absent key is inserted and (true, channel) returned. A present key returns (false, cached channel) and leaves the map unchanged |
| Channel.ChannelsCache.GetChannel | src/php/ext/grpc/hhvm/channel.cpp:266-279 | the result is null exactly when the key is absent, and otherwise the cached channel |
| Channel.ChannelsCache.HasChannel | src/php/ext/grpc/hhvm/channel.cpp:281-284 | true exactly when the key is cached |
| Channel.ChannelsCache.DeleteChannel | src/php/ext/grpc/hhvm/channel.cpp:286-298 | only that key is removed and its channel destroyed. An absent key changes nothing. Targets and call credentials are unchanged |
| Channel.ChannelsCache.NumChannels | src/php/ext/grpc/hhvm/channel.cpp:300-304 | the number of cached keys |
| Channel.ChannelsCache.Teardown | src/php/ext/grpc/hhvm/channel.cpp:239-247 | every cached channel is destroyed, nothing else is, and the map ends empty. Targets and call credentials are unchanged |
| Channel.ChannelData.constructor | src/php/ext/grpc/hhvm/channel.cpp:63-65 | a new object holds no channel and has an empty key; its `owned` flag is false, which nothing reads while the channel is null |
| Channel.ChannelData.Destroy | src/php/ext/grpc/hhvm/channel.cpp:91-101 | an owned channel is destroyed, a borrowed one is not, and the handle is forgotten either way. Targets and call credentials are unchanged |
| Channel.ChannelData.Init | src/php/ext/grpc/hhvm/channel.cpp:81-89 | the old channel is released as by `destroy`, then the new channel, owned flag and key are stored. Targets and call credentials are unchanged |
| Channel.RemoveDeletesKey | src/php/ext/grpc/hhvm/channel.cpp:362 | after `remove`, the key has no value |
| Channel.RemoveKeepsOtherKeys | src/php/ext/grpc/hhvm/channel.cpp:362 | `remove` leaves every other key's value unchanged |
| Channel.RemovePermutation | src/php/ext/grpc/hhvm/channel.cpp:362 | removing a key from two permutations of an array leaves permutations |
| Channel.SplitConstructorArgs | src/php/ext/grpc/hhvm/channel.cpp:345-376 | it raises, with InvalidArgumentException, exactly when the value under "credentials" is an object that is not a `ChannelCredentials`. Credentials are kept exactly when the value is an object, and are then that very `ChannelCredentials` object. The channel arguments are the array with "credentials" and then "force_new" removed. force_new is set exactly when the array holds the boolean true under "force_new" |
| Channel.SplitStripsReservedKeys | src/php/ext/grpc/hhvm/channel.cpp:345-376 | neither "credentials" nor "force_new" reaches the channel arguments, and every other key reaches them unchanged |
| Channel.FullCacheKey | src/php/ext/grpc/hhvm/channel.cpp:384-389 | the key starts with SHA1(target‖text); channel credentials append their own hash key, and no credentials append nothing |
| Channel.ConstructPlan | src/php/ext/grpc/hhvm/channel.cpp:345-389 | every exception is an InvalidArgumentException, and a credentials object that is not a `ChannelCredentials` always raises; a plan's force_new flag is set exactly when the array holds true under "force_new" |
| Channel.PlanConstruct | src/php/ext/grpc/hhvm/channel.cpp:345-389 | reading the reserved keys, running `ChannelArgs::init` and building the key raises or yields exactly what `ConstructPlan` describes |
| Channel.ConstructPlanOrderIndependent | src/php/ext/grpc/hhvm/channel.cpp:345-389 | arrays with the same elements and the same reserved values give the same cache key and force_new flag, or the same exception |
| Channel.CreateAndRegister | src/php/ext/grpc/hhvm/channel.cpp:409-439 | a failed creation raises "failed to create channel" and changes no core state. Otherwise the core records the new channel's target, and the object holds the channel registered under the key, not owned. A channel that lost the race is destroyed, so exactly one new channel stays alive, and only when the key was new. Call credentials are never touched |
| Channel.Construct | src/php/ext/grpc/hhvm/channel.cpp:335-442 | it raises the plan's exception. It reuses the cached channel unless force_new is set. Otherwise it creates and registers, adopting the cached channel when the key is present. Only a created channel adds a target to the core, and call credentials are never touched. The object never owns the channel |
| Channel.RacingConstructors | src/php/ext/grpc/hhvm/channel.cpp:390-439 | two constructors that both miss the lookup end with the same channel; the cache holds one entry and one new channel stays alive |
| Channel.ConstructThenGetTarget | src/php/ext/grpc/hhvm/channel.cpp:332-335 | a channel constructed for a new key reports the target it was constructed with |
| Channel.GetTarget | src/php/ext/grpc/hhvm/channel.cpp:448-462 | it raises "Channel already closed." exactly when closed, and otherwise returns the channel's target |
| Channel.GetConnectivityState | src/php/ext/grpc/hhvm/channel.cpp:469-485 | it raises exactly when closed, and otherwise returns the core's state |
| Channel.WatchConnectivityState | src/php/ext/grpc/hhvm/channel.cpp:494-526 | it raises exactly when closed, and otherwise returns true |
| Channel.Close | src/php/ext/grpc/hhvm/channel.cpp:532-545 | closing a closed channel raises and leaves the object as it was. Otherwise the object is marked closed, not owned and with an empty key, releasing an owned channel. Targets and call credentials are unchanged |
| CallCredentials.DoGetMetadata | src/php/ext/grpc/hhvm/call_credentials.cpp:246-284 | `cb` is called once. UNKNOWN exactly for a non-array result, INVALID_ARGUMENT exactly for an unconvertible array, both with no entries. Otherwise OK with the converted entries. True exactly when OK |
| CallCredentials.MetaDataInfo.constructor | src/php/ext/grpc/hhvm/call_credentials.cpp:298-301 | a new record has no promise value, is alive and belongs to the calling thread |
| CallCredentials.MetaDataInfo.Expire | src/php/ext/grpc/hhvm/call_credentials.cpp:329-334 | after the call drops its record, the weak reference no longer yields it |
| CallCredentials.MetaDataInfo.SetValue | src/php/ext/grpc/hhvm/call_credentials.cpp:316 | the promise is set only if it was unset, and the result says whether it was |
| CallCredentials.Lock | src/php/ext/grpc/hhvm/call_credentials.cpp:298 | the weak reference yields the record exactly when it is present and its call is still alive |
| CallCredentials.PluginMetadataInfo.constructor | src/php/ext/grpc/hhvm/call_credentials.cpp:59-63 | the process-wide registry starts empty |
| CallCredentials.PluginMetadataInfo.SetInfo | src/php/ext/grpc/hhvm/call_credentials.cpp:65-75 | the entry refers to the new record whether or not one existed, and the others are unchanged |
| CallCredentials.PluginMetadataInfo.GetInfo | src/php/ext/grpc/hhvm/call_credentials.cpp:77-94 | it returns the stored reference, or an empty one, and removes the entry. An absent key leaves the map unchanged |
| CallCredentials.GetInfoTwice | src/php/ext/grpc/hhvm/call_credentials.cpp:77-94 | a second `getInfo` for the same credentials returns an empty reference |
| CallCredentials.PluginMetadataInfo.DeleteInfo | src/php/ext/grpc/hhvm/call_credentials.cpp:96-111 | the result is true exactly when an entry existed, and afterwards there is none |
| CallCredentials.PluginMetadataInfo.Clear | src/php/ext/grpc/hhvm/call_credentials.cpp:53-57 | the destructor empties the map |
| CallCredentials.PluginGetMetadata | src/php/ext/grpc/hhvm/call_credentials.cpp:286-335 | The entry is always taken out. If it is absent or expired, nothing runs and no promise is set. On the call's thread, the callback and `cb` each run once and a completed record carrying the result is published. On another thread, neither runs and a deferred record is published. A promise already set is left as it was |
| CallCredentials.ExpiredCallIsDropped | src/php/ext/grpc/hhvm/call_credentials.cpp:329-334 | a request for a call that has already dropped its record does nothing |
| CallCredentials.CallCredentialsData.constructor | src/php/ext/grpc/hhvm/call_credentials.cpp:130-132 | a new object holds no credentials |
| CallCredentials.CallCredentialsData.Destroy | src/php/ext/grpc/hhvm/call_credentials.cpp:153-160 | held credentials are released once and the pointer cleared; on an empty object nothing happens |
| CallCredentials.DestroyTwice | src/php/ext/grpc/hhvm/call_credentials.cpp:153-160 | a second `destroy` releases nothing more |
| CallCredentials.CallCredentialsData.Init | src/php/ext/grpc/hhvm/call_credentials.cpp:144-151 | the held credentials are released before the new ones are taken; no channel state changes |
| CallCredentials.CreateFromPlugin | src/php/ext/grpc/hhvm/call_credentials.cpp:205-239 | a null or non-callable callback raises InvalidArgumentException. A core failure raises BadMethodCallException. Otherwise a new object owns the fresh credentials. No channel state changes |
| CallCredentials.CreateComposite | src/php/ext/grpc/hhvm/call_credentials.cpp:172-198 | a core failure raises BadMethodCallException. Otherwise a new object owns credentials the binding did not hold before, and they are now live. No channel state changes |
| Slices.Held | src/php/ext/grpc/hhvm/slice.cpp:126-129 | the accounting of the destructor's one release: a wrapper counts as holding at most one reference, and exactly to its own buffer; the empty slice holds none |
| Slices.SliceHeap.CopyBytes | src/php/ext/grpc/hhvm/slice.cpp:34-38 | a copy of non-empty bytes is a fresh buffer with count 1; no bytes give the empty slice; counts stay balanced |
| Slices.SliceHeap.Ref | src/php/ext/grpc/hhvm/slice.cpp:131-134 | the buffer's count grows by one, the empty slice is untouched, and counts stay balanced |
| Slices.SliceHeap.Unref | src/php/ext/grpc/hhvm/slice.cpp:126-129 | the buffer's count drops by one and the buffer is freed at zero; the empty slice is untouched; counts stay balanced |
| Slices.SliceHeap.Release | src/php/ext/grpc/hhvm/slice.cpp:126-129 | a live buffer loses one reference and one holder and is freed when that was its last; counts stay balanced |
| Slices.SliceHeap.Free | src/php/ext/grpc/hhvm/slice.cpp:126-129 | dropping the last reference removes the buffer and its bytes |
| Slices.SliceHeap.Decrement | src/php/ext/grpc/hhvm/slice.cpp:126-129 | dropping one of several references lowers the count by one and keeps the bytes |
| Slices.BalancedAfterAlloc | src/php/ext/grpc/hhvm/slice.cpp:34-38 | a fresh buffer with count 1 and its one holder keeps every count equal to its holders |
| Slices.BalancedAfterRef | src/php/ext/grpc/hhvm/slice.cpp:131-134 | one more reference for one more holder keeps the counts balanced |
| Slices.BalancedAfterUnref | src/php/ext/grpc/hhvm/slice.cpp:126-129 | one reference fewer for one holder fewer keeps the counts balanced while others remain |
| Slices.BalancedAfterFree | src/php/ext/grpc/hhvm/slice.cpp:126-129 | freeing a buffer when its last holder lets go keeps the counts balanced |
| Slices.HeldIsLive | src/php/ext/grpc/hhvm/slice.cpp:126-129 | under balanced counts a buffer some wrapper holds is live, with a count equal to its holders |
| Slices.ExtraHolderUnbalances | src/php/ext/grpc/hhvm/slice.cpp:76-79 | a second holder of a held buffer without a new reference breaks the balance |
| Slices.WellFormedAfterAlloc | src/php/ext/grpc/hhvm/slice.cpp:34-38 | a fresh buffer gets an identity not yet in use, and adding it with count 1 keeps the heap well formed |
| Slices.WellFormedAfterRecount | src/php/ext/grpc/hhvm/slice.cpp:131-134 | changing a live buffer's count to any positive number keeps the heap well formed |
| Slices.WellFormedAfterFree | src/php/ext/grpc/hhvm/slice.cpp:126-129 | removing a buffer with its bytes keeps the heap well formed |
| Slices.UpToNul | src/php/ext/grpc/hhvm/slice.cpp:42 | the copied C string is the prefix before the first NUL |
| Slices.UpToNulTerminated | src/php/ext/grpc/hhvm/slice.cpp:42 | a NUL-terminated string gives back exactly the bytes before its terminator |
| Slices.Flatten | src/php/ext/grpc/hhvm/slice.cpp:61 | the read-back bytes are empty exactly when every chunk is empty |
| Slices.Slice.FromHostString | src/php/ext/grpc/hhvm/slice.cpp:34-38 | the slice holds the string's bytes in a fresh buffer with count 1; no other buffer's bytes change, and an empty string leaves the heap unchanged |
| Slices.Slice.FromCString | src/php/ext/grpc/hhvm/slice.cpp:40-44 | a null pointer gives the empty slice; otherwise the bytes before the NUL. Only the new buffer's bytes are added |
| Slices.Slice.FromBuffer | src/php/ext/grpc/hhvm/slice.cpp:46-50 | a null pointer gives the empty slice whatever the length; otherwise the first `length` bytes. Only the new buffer's bytes are added |
| Slices.Slice.FromByteBuffer | src/php/ext/grpc/hhvm/slice.cpp:52-63 | a null buffer or a failed reader gives the empty slice; otherwise all the buffer's bytes. Only the new buffer's bytes are added |
| Slices.Slice.Copy | src/php/ext/grpc/hhvm/slice.cpp:70-74 | the copy shares the buffer, whose count grows by exactly one; no bytes change |
| Slices.Slice.MoveAsWritten | src/php/ext/grpc/hhvm/slice.cpp:76-79 | the handle is copied with no count change and the source keeps it, so counts are no longer balanced |
| Slices.Slice.Move | src/php/ext/grpc/hhvm/slice.cpp:76-79 | the intended move: the handle is taken over and the source emptied, with no count change |
| Slices.Slice.Destroy | src/php/ext/grpc/hhvm/slice.cpp:126-129 | the wrapper's reference is dropped and the buffer freed at zero; releasing a freed buffer is recorded as a use after free. The bytes go only when the buffer is freed |
| Slices.Slice.IncreaseRef | src/php/ext/grpc/hhvm/slice.cpp:131-134 | the wrapper's buffer gains exactly one reference |
| Slices.Slice.CopyAssign | src/php/ext/grpc/hhvm/slice.cpp:81-93 | self-assignment changes nothing. Otherwise the old buffer loses a reference and the right-hand buffer is shared with one more; counts stay balanced. Only the old buffer's bytes may go, and the target then reads the right-hand side's bytes |
| Slices.Slice.MoveAssign | src/php/ext/grpc/hhvm/slice.cpp:95-103 | the two handles are swapped, no count changes, and self-assignment is a no-op |
| Slices.Slice.Length | src/php/ext/grpc/hhvm/slice.cpp:123 | the number of bytes the slice refers to |
| Slices.Slice.Data | src/php/ext/grpc/hhvm/slice.cpp:107-113 | never null; the static empty string exactly when the slice has no bytes, and otherwise the start of its buffer |
| Slices.Slice.String | src/php/ext/grpc/hhvm/slice.cpp:121-124 | `length()` bytes read from `data()`, which are exactly the slice's bytes |
| Slices.HostStringRoundTrip | src/php/ext/grpc/hhvm/slice.cpp:34-38 | a host string copied into a slice reads back unchanged through `string()` |
| Slices.MoveAsWrittenThenDestroyBoth | src/php/ext/grpc/hhvm/slice.cpp:65-79 | moving the only wrapper of a buffer and destroying both wrappers releases a freed buffer |
| Slices.MoveThenDestroyBoth | src/php/ext/grpc/hhvm/slice.cpp:65-79 | with the intended move, destroying both wrappers drops exactly the source's reference, and counts stay balanced |

## Left out

- SHA1 is a parameter with no properties. Hash collisions are not considered, so a cache key is treated as determining its inputs only where a lemma says so.
- Locks (`ReadLock`, `WriteLock`, `std::mutex`) and threads are not modelled. Every cache and registry operation is one atomic step. The constructor's race is the interleaving in `RacingConstructors`.
- The gRPC core is abstract: channel and credentials creation, `grpc_channel_destroy`, `grpc_channel_get_target`, connectivity checks and `grpc_call_credentials_release`. Creation failure is an input.
- Channel.Construct: the object starts without a channel, as a freshly constructed PHP object does.
- The `ChannelData(grpc_channel*)` constructor (channel.cpp:67-69) is not modelled. Like `ChannelData(void)`, it sets only `m_pChannel`. The model's `owned := false` in `Channel.ChannelData.constructor` is a choice: nothing reads `m_Owned` while the channel is null.
- HHVM plumbing is not modelled: `Native::data`, `getClass`, `VMRegGuard`, trace scopes and `sweep`. `SystemLib` exceptions become `Err` results carrying the same class and message.
- PHP arrays are sequences of (key, value) elements. PHP's normalisation of numeric string keys to integer keys is not modelled; such a key is an integer key in the input.
- `MetadataArray::init` is the `converts` flag and `entries` list of `CallbackResult`. `vm_call_user_func` is the `userCallback` parameter.
- CallCredentials.PluginGetMetadata: the completed or deferred record is published, but the call's thread that consumes it is not modelled. Setting an already-set promise is the outcome `PromiseAlreadySet` (the `future_error` that `set_value` throws).
- CallCredentials.CreateComposite: the two input credentials objects are not modelled; only the creation and ownership of the result are.
- CallCredentials.CreateFromPlugin: the `plugin_state` it builds (callback and a pointer to the new object, call_credentials.cpp:218-220) is not returned. `PluginGetMetadata` takes that state as an input, so nothing in the model ties its `credentials` key to the object `CreateFromPlugin` creates.
- `plugin_destroy_state` is not modelled. It only frees the plugin state. `createFromPlugin` leaks that state when creation fails, and the model does not track it.
- Slices: `grpc_slice` internals (inlined small slices, refcount objects) are not modelled. Every non-empty copy is a counted buffer, and the empty slice has no count.
- Slices: `byteBuffer()` / `grpc_raw_byte_buffer_create` and the byte-buffer reader are not modelled. The reader's result is the concatenation of the buffer's chunks, and its initialisation result is an input.
- Slices: releasing or referencing a freed buffer is undefined behaviour in C. The model records it in `useAfterFree` and changes nothing else.
- Channel.ChannelArgs.ConcatenateSorted: it sorts in the documented key-then-value order (the comment at channel.cpp:183), not by the comparator written at lines 184-198, whose order `std::sort` leaves unspecified (see Findings).
- Strings are Dafny `string` values of Unicode characters. PHP strings and `std::string` hold bytes, compared as `unsigned char`. The model's order and lengths are the same only for text whose characters all fit in one byte.
- Slices.Slice.Move: it has no counterpart in the source. It is the corrected move constructor for the finding below.
- `src/hhvm/ext/grpc/ext_grpc.cpp` registers classes and constants and calls `grpc_init`. It is not part of this model.

## Findings

| source | as written | input that shows it | evidently intended | confidence | as-written member | corrected member |
|---|---|---|---|---|---|---|
| src/php/ext/grpc/hhvm/channel.cpp:184-198 | the sort comparator compares each pair's key with that same pair's value, never pair1 with pair2 | pair1 = pair2 = ("a", "b"): the comparator says it is less than itself, which breaks `std::sort`'s strict-weak-ordering precondition | order pairs by key, then by value (the comment on line 183) | high, not executed | Canonical.LiteralComparatorNotStrictWeak | Canonical.CanonicalOrderIndependent |
| src/php/ext/grpc/hhvm/slice.cpp:76-79 | the move constructor copies `m_Slice` but does not empty the source, so both wrappers will unref one reference | a host string longer than gRPC's inline slice size (shorter strings are stored inline and not counted) moved out of its only wrapper: destroying the source frees the buffer, and destroying the target unrefs it again | leave the source empty (`grpc_empty_slice()`) so only the target releases the buffer | high, not executed | Slices.MoveAsWrittenThenDestroyBoth | Slices.MoveThenDestroyBoth |

The canonical text is also not injective, because key‖value has no separator (`Canonical.ConcatenationNotInjective`). Two different argument arrays can therefore share a cache key, and a constructor can receive a channel created with different arguments. This is listed as an observation, not a finding: the source may rely on it being rare.
