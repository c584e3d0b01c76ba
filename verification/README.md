# Mainflux: a verified model of its codecs, services and parsers

The project models the parts of Mainflux where state or bytes have to agree across several
operations, and proves what each part promises over all inputs and all runs. `dafny verify
dfyconfig.toml` checks everything.

**The wire codec** (`message.pb.go`, `authn.pb.go`; Protocol Buffers encoding, "Base 128 Varints",
"Message Structure", "Last One Wins"). `Varint` has the byte-level encoder and decode loop with its
64-bit and 32-bit truncation. `Wire` has the record decoder and the skipper for unknown records with
its group depth. `WireGrammar` says what a record is, as syntax trees, and `WireMeaning` what the
trees mean for a message; both leave the decoder out of their definitions, and the decoder is proved
to follow them on every input. `Records` and `WireLaws` hold the laws of the codec. All theorems are
stated for every message type of at most 15 string, bytes or uint32 fields. `MessagePb` and
`AuthnPb` are the generated classes: buffers filled backwards in place, decode loops that move an
index and assign fields. Machine integers are written out: a 10-byte varint is truncated to 64 bits,
a field number to int32.

**The things service** (`things/`). `ThingsModel` gives the tables with their keys, foreign keys and
cascades, the two Redis caches and the event stream, and what each service call does to all of them.
`ThingsService` is the imperative form. `ThingsCalls` says when each call succeeds, what it changes and
who is let in or refused afterwards. `ThingsRepository`, `ThingsRuns` and `ThingsEvents` prove the
constraints, the agreement of caches and tables over every run, and what replaying the stream shows
of the tables; `ThingsStale` says what becomes of cached keys, replaced ones included. A service call
is one atomic step, ids are always new, and cache operations succeed.

**The bootstrap service** (`bootstrap/`). Two stores, its own tables and the connections kept by the
things service, driven by diffing loops. SDK calls may fail at any point, so a step is a relation
between worlds; it tells a failed SDK call, after which the repository is not called, from a failed
transaction after all SDK calls have succeeded. `BootstrapCalls` adds the record of the SDK calls:
which are made, in which order, which one fails and what the caller is told. The things service shows
a channel to its owner only, and refuses a connection that exists.

**Authentication keys** (`authn/`). Issue, derive, expire, revoke and revoke-on-use, over a clock that
never goes back and tokens that cannot be forged. A token is an abstract signed value.

**Topics, packets and observers.** The translation between NATS messages and MQTT topics
(`mqtt/aedes/mqtt.js`), the password that nginx takes out of a CONNECT packet
(`docker/ssl/authorization.js`; MQTT 3.1.1, sections 2.2.3 and 3.1), and the CoAP observer table
(`coap/`).

## Where the code falls short of what it is for

Each of these is proved with the exact condition under which the code is right, and with an input or a
reachable state in which it is not.

- `UpdateKey` leaves the cache alone. Directly afterwards `Identify` refuses the replaced key if and only
  if it was not cached, and `CanAccessByKey` if and only if the key or the channel's member was not
  cached (`ThingsStale.ReplacedKeyExact`). From then on a cached key keeps its answer, whatever becomes
  of it in the repository, until one of two calls: `RemoveThing` for a thing that it was the last key
  to be cached for, or a `CanAccessByKey` that does not find the cached thing in the channel's cache and
  is granted by the repository (`ThingsStale.CachedStep`, `ThingsStale.StaleKeyExact`). So a replaced
  key that is given to another thing still stands for the old one
  (`ThingsExamples.RegivenKeyMisleads`); and one that is given to none, once a newer key has been cached
  for its thing, is answered for ever, even when the thing is gone (`ThingsStale.UnknownKeyExact`,
  `ThingsStale.UndyingExact`, `ThingsExamples.RemovedThingServed`).
- A cached member goes on being granted to `CanAccessByID` when its thing is gone
  (`ThingsRuns.CanAccessByIDExact`, `ThingsExamples.RemovedThingServed`).
- `RemoveThing` and `RemoveChannel` announce a removal even when the caller owns nothing of that id;
  such a call, and no other, makes the stream diverge (`ThingsEvents.StepRebuilds`,
  `ThingsExamples.ForeignRemovalBreaks`). Over every run the replayed view then lacks exactly the
  entities so announced that their owners have not removed since, and at most their connections
  (`ThingsEvents.StreamExact`).
- An empty list passed to the bootstrap `UpdateConnections` disconnects the thing while the table goes
  on listing its channels (`BootstrapRuns.UpdateLinkedExact`, `BootstrapExamples.EmptyListDisconnects`).
  `NOT IN ($3)` compares with the text of the whole array, so all rows of the config are replaced; both
  are modelled as the code does it.
- The bootstrap `DisconnectThing` deactivates every config (`BootstrapRuns.DisconnectThingExact`,
  `BootstrapExamples.DisconnectDeactivatesOther`).
- `updateList` adds an id again when a current channel is listed twice (`BootstrapModel.AddedExact`).
  The request's validation lets such a list through; connecting is then refused, after the
  disconnections have been made, the call fails and the table goes on listing the channels that were
  cut (`BootstrapRuns.StaleListRefused`, `BootstrapExamples.RepeatedListStrands`). On a things service
  that disconnects reliably and refuses only connections that exist, an update leaves every Active
  config connected if and only if it does not take a channel from one with such a list, with an empty
  one, or with one that has a new channel the thing is connected to already
  (`BootstrapRuns.HealthyUpdateExact`, `BootstrapCalls.HealthyUpdate`).
- `authn/README.md` line 11 says that an API key without expiry never expires; `Key.Expired` makes it
  expired from the start (`AuthnRuns.ApiExact`, `AuthnRuns.NoExpiryRefused`). The model follows the code.
- `parseTopic` takes the wrong channel when an element after the channel starts with "control"
  (`MqttTopicLaws.ChannelExact`, `MqttTopicLaws.ControlMisleads`), and the content-type encoding is not
  always invertible (`MqttTopicLaws.TypeRoundTrip`, `MqttTopicLaws.UnderscoreLost`).
- `calcLen` is wrong for a nonzero high byte with a low byte in 2..15, and a remaining-length byte of
  exactly 128 ends that loop early (`MqttConnect.FieldsFoundExact`, `MqttConnect.RefusedExact`,
  `MqttConnect.LoginRefused`, `MqttConnect.LoginCut`).

## Model

| member | source | states |
|---|---|---|
| Varint.EncodeVarint | message.pb.go:234-244 | writes exactly the canonical 7-bit groups in front of the offset and nothing else |
| Varint.SovIsLength | message.pb.go:289-291 | the size computed from the bit length is the number of groups, at least one |
| Varint.DecodeVarint | message.pb.go:301-314 | or-ing shifted groups into a register computes the exact value modulo its width, with the loop's overflow and end-of-input errors |
| Varint.RoundTrip64 | message.pb.go:234-244 | every uint64, encoded and followed by anything, decodes to itself and the loop stops right after it |
| Varint.Local | message.pb.go:301-314 | the result depends only on the bytes consumed |
| Varint.Shortest | message.pb.go:234-244 | no accepted input for a number is shorter than its encoding |
| Records.SizeIsLength | message.pb.go:245-287 | the size summed field by field is the length of the encoding |
| Wire.SkipRecord | message.pb.go:607-684 | the loop terminates on every input and computes the skipper's length or error, depth never negative |
| Wire.SkipTurn | message.pb.go:612-675 | one turn: tag, payload by wire type, group depth up or down, and the errors |
| Wire.SkipLocal | message.pb.go:607-684 | the skipper looks only at the bytes it passes over |
| Wire.ReadTag | message.pb.go:301-322 | field number truncated to int32, wire type, and the rejected tags |
| Wire.ReadBytes | message.pb.go:328-355 | the length-prefixed bytes, with the negative-length, overflow and end-of-input checks |
| Wire.ReadNumber | authn.pb.go:1543-1557 | the value modulo 2 to the 32, also when the number is cut short |
| Wire.ReadUnknown | message.pb.go:582-598 | hands out exactly the bytes of the skipped record |
| Wire.PutField | message.pb.go:175-181 | content, length and tag go just in front of the fields written before; the rest of the buffer keeps |
| WireLaws.WholeInput | message.pb.go:295-606 | on every byte string the loop stops within it, and succeeds if and only if it has consumed all of it |
| WireLaws.RoundTrip | message.pb.go:151-606 | Unmarshal of Marshal into an empty message gives the message back if and only if its unknown bytes are records the decoder skips |
| WireLaws.LastOneWins | message.pb.go:295-606 | decoding b1 ++ b2 is decoding b2 into the result of b1: same success, same message |
| WireLaws.Canonical | message.pb.go:582-684 | Marshal after Unmarshal decodes to the same message, is never longer, and its unknown bytes decode to themselves |
| WireLaws.UnknownLenLocal | message.pb.go:607-684 | a skipped record is skippable alone and before anything |
| WireLaws.RecordShrinks | message.pb.go:298-600 | a record never grows the encoding by more than its own length |
| WireGrammar.VarintExact | message.pb.go:301-314 | the decode loop takes n bytes if and only if they are one to ten bytes with the high bit on all but the last, and reads their groups |
| WireGrammar.VarintFails | message.pb.go:301-314 | it fails exactly on high bytes only: an overflow at ten, an unexpected end before |
| WireGrammar.SkipExact | message.pb.go:607-684 | the skipper passes over n bytes if and only if they are one record of the grammar, for every wire type and nesting of groups |
| WireMeaning.Int32Exact | message.pb.go:315 | the field number is the one int32 congruent to the tag |
| WireMeaning.RecordExact | message.pb.go:299-599 | one turn accepts exactly the accepted records, and sets the field or keeps the record as they mean |
| WireMeaning.TagRefused | message.pb.go:315-331 | exactly which tags are refused as end of group, illegal tag or wrong wire type |
| WireMeaning.SkipRefused | message.pb.go:628-676 | an end of no group, a negative length and wire types 6 and 7 are refused, each with its error |
| WireMeaning.UnmarshalExact | message.pb.go:295-606 | Unmarshal accepts exactly the concatenations of accepted records, and leaves the message as their reading says |
| WireMeaning.RecordCut | message.pb.go:299-599 | an accepted record cut short anywhere is refused as an unexpected end, groups included |
| WireMeaning.CutExact | message.pb.go:295-606 | the front of an accepted message is accepted exactly at the end of a record; elsewhere the error is an unexpected end |
| WireMeaning.RoundTripExact | message.pb.go:151-606 | Unmarshal of Marshal gives the message back if and only if its unknown bytes are records of the grammar, none of a declared field |
| WireMeaning.MarshalExact | message.pb.go:166-232 | Marshal writes the fields that are not zero, each as one record with its number, wire type and value, by number, and then the unknown bytes |
| MessagePb.Message.constructor | message.pb.go:40 | a new message is the empty one |
| MessagePb.Message.Size | message.pb.go:245-287 | the length of the encoding |
| MessagePb.Message.MarshalToSizedBuffer | message.pb.go:166-232 | fills exactly the end of the buffer with the encoding, and leaves everything in front as it was |
| MessagePb.Message.Marshal | message.pb.go:151-159 | the front slice of a buffer of Size() bytes is the whole encoding |
| MessagePb.Message.UnmarshalRecord | message.pb.go:299-599 | one turn of the loop is the record decoder on all eight fields and the unknown bytes |
| MessagePb.Message.Unmarshal | message.pb.go:295-606 | the loop is the record-by-record decoding, with the fields set before an error kept |
| MessagePb.PublishAndReceive | message.pb.go:151-606 | a message marshalled by one service and unmarshalled by another is the same in all eight fields and the unknown bytes |
| AuthnPb.IssueReq.Size | authn.pb.go:959-976 | the length of the encoding, with a uint32 field |
| AuthnPb.IssueReq.MarshalToSizedBuffer | authn.pb.go:836-858 | fills exactly the end of the buffer |
| AuthnPb.IssueReq.Marshal | authn.pb.go:821-829 | the encoding |
| MessagePb.Message.UnmarshalField | message.pb.go:323-599 | the switch: the one field is set only when complete, or the unknown record is kept |
| AuthnPb.IssueReq.UnmarshalRecord | authn.pb.go:1482-1575 | one turn of the loop, Type accumulated in place also on an error |
| AuthnPb.IssueReq.Unmarshal | authn.pb.go:1478-1582 | the record-by-record decoding |
| AuthnPb.SendAndReceive | authn.pb.go:821-1582 | a request arrives with the issuer, type and unknown bytes it was sent with |
| ThingsRepository.InsertThingsExact | things/postgres/things.go:38-75 | saving things succeeds exactly when every id and key is new, and then adds exactly the rows |
| ThingsRepository.CreateThingsExact | things/service.go:137-160 | a successful CreateThings adds exactly one thing of the caller for each id, with the given key or the new one; a failed one changes nothing |
| ThingsRepository.InsertKeepsUnique | things/postgres/init.go:51-58 | keys stay unique |
| ThingsRepository.InsertConnectionsExact | things/postgres/channels.go:247-287 | the inserts succeed exactly when all rows are distinct, new and refer to stored rows |
| ThingsRepository.ProductMembers | things/postgres/channels.go:256-280 | the nested loops visit exactly the pairs of the two lists |
| ThingsRepository.ProductDistinct | things/postgres/channels.go:256-280 | the pairs are distinct exactly when both lists are |
| ThingsRepository.ConnectExact | things/postgres/channels.go:247-287 | Connect is all or nothing: exactly when the caller may connect the lists it adds exactly their product, otherwise nothing changes |
| ThingsCalls.CreateThingsStep | things/service.go:137-160 | exactly when CreateThings succeeds; then one thing, key and event for each id, otherwise no change |
| ThingsCalls.CreateChannelsStep | things/service.go:222-238 | the same for channels |
| ThingsCalls.UpdateKeyStep | things/postgres/things.go:110-144 | exactly when UpdateKey answers not found, conflict or done; only the one key changes |
| ThingsCalls.UpdateKeyGrants | things/service.go:173-183 | afterwards the new key is the thing's and every other key keeps its thing |
| ThingsCalls.ConnectStep | things/service.go:287-294 | Connect is done exactly when a list is empty or the caller may connect them; then every pair is connected, with one event each, otherwise nothing changes |
| ThingsCalls.ConnectGrants | things/service.go:287-333 | from then on each listed thing is let in to each listed channel by id and by key, and no other pair changes |
| ThingsCalls.DisconnectStep | things/service.go:296-304 | the one connection goes or is not found; the cached member goes in either case |
| ThingsCalls.DisconnectRefuses | things/service.go:296-333 | from then on the thing is refused on that channel by id and by its key |
| ThingsCalls.DeleteThingStep | things/service.go:212-220 | the owner's row with its connections, the cache entry whoever calls, and one event |
| ThingsCalls.DeleteThingRefuses | things/service.go:212-348 | from then on the thing is refused by its key everywhere, and by id except where it is a cached member; other things are as they were |
| ThingsCalls.DeleteChannelStep | things/service.go:277-285 | the owner's row with its connections, the cached members whoever calls, and one event |
| ThingsCalls.DeleteChannelRefuses | things/service.go:277-333 | from then on nobody is let in to the channel; other channels are as they were |
| ThingsCalls.CanAccessByKeyStep | things/service.go:306-320 | an answer is remembered in both caches, a refusal changes nothing |
| ThingsCalls.CanAccessByIDStep | things/service.go:322-333 | grants members and connections, and remembers the grant |
| ThingsCalls.IdentifyStep | things/service.go:335-348 | an answer is remembered in the thing cache, a refusal changes nothing |
| ThingsRuns.StepInv | things/service.go:137-361 | every call keeps the constraints and the agreement of both caches with the tables |
| ThingsRuns.ReachableConsistent | things/postgres/init.go:51-74 | in every reachable state a connection joins a stored channel and thing of one owner, and keys are unique |
| ThingsRuns.IdentifyAgrees | things/service.go:335-348 | over every run Identify answers what the repository would, for every key never replaced |
| ThingsRuns.CanAccessByKeyAgrees | things/service.go:306-320 | over every run CanAccessByKey grants what the repository would, for every key never replaced |
| ThingsRuns.CanAccessByIDExact | things/service.go:322-333 | grants exactly the current connections and cached members whose thing is gone; agrees with the repository for registered things |
| ThingsStale.ReplacedKeyExact | things/service.go:173-183 | directly after UpdateKey, exactly when Identify and when CanAccessByKey refuse the old key |
| ThingsStale.CachedStep | things/service.go:173-348 | one call takes a cached key out exactly when it removes a thing it was the last key cached for, and changes its thing only by a granted request for a channel that does not know the cached one |
| ThingsStale.StaleKeyExact | things/service.go:173-348 | over every run, until the first such call, Identify answers a cached key with the thing it was cached for, and CanAccessByKey does for a cached member and asks the repository otherwise |
| ThingsStale.UnknownKeyExact | things/service.go:173-348 | for a key that no thing has or is given, both calls answer exactly when it was cached and no such removal has happened, CanAccessByKey only for a cached member |
| ThingsStale.UndyingExact | things/service.go:173-220 | such a key is answered for ever, also after its thing is removed, if and only if another key has been cached for the thing since |
| ThingsExamples.RegivenKeyMisleads | things/service.go:306-348 | a reachable state in which Identify and CanAccessByKey answer an old thing for a key that the repository gives to another |
| ThingsExamples.RemovedThingServed | things/service.go:212-220 | a reachable state in which a replaced key, and the thing's id, open the channel of a removed thing |
| ThingsRuns.RemoveThingKeeps | things/service.go:212-220 | removing the cache entry before the row keeps the agreement, whoever calls |
| ThingsRuns.UpdateKeyKeeps | things/postgres/things.go:110-144 | changing a key spoils the agreement for that old key only |
| ThingsEvents.StepRebuilds | things/redis/streams.go:34-229 | a call keeps the stream complete if and only if it does not remove somebody else's entity |
| ThingsExamples.ForeignRemovalBreaks | things/redis/streams.go:97-113 | a reachable state in which somebody else's removal changes no table and makes the stream wrong |
| ThingsEvents.StreamRebuilds | things/redis/streams.go:34-229 | in every state of a run with removals by owners, replaying the stream gives exactly the things, channels and connections |
| ThingsEvents.StepLacks | things/redis/streams.go:34-229 | every call keeps account of what the stream lacks: a removal by somebody else adds the entity, one by the owner settles it |
| ThingsEvents.StreamExact | things/redis/streams.go:34-229 | over every run the replayed view shows exactly the things and channels nobody else has removed, and all connections between them; it is complete if and only if there are no others |
| ThingsService.Database.SaveThings | things/postgres/things.go:38-75 | the insert loop in a transaction is the specified save, rolled back on a conflict |
| ThingsService.Database.SaveChannels | things/postgres/channels.go:39-73 | the same for channels |
| ThingsService.Database.UpdateKey | things/postgres/things.go:110-144 | not found, conflict or exactly the one row changed |
| ThingsService.Database.RetrieveByKey | things/postgres/things.go:168-180 | the id of the one thing with the key |
| ThingsService.Database.RemoveThing | things/postgres/things.go:304-312 | the row and, by cascade, its connections |
| ThingsService.Database.RemoveChannel | things/postgres/channels.go:237-245 | the row and, by cascade, its connections |
| ThingsService.Database.Connect | things/postgres/channels.go:247-287 | the nested loops in a transaction are the specified connect |
| ThingsService.Database.Disconnect | things/postgres/channels.go:289-315 | the one row, or not found |
| ThingsService.Database.HasThing | things/postgres/channels.go:317-348 | the thing of the key if it is connected to the channel |
| ThingsService.RedisThingCache.Save | things/redis/things.go:32-40 | both directions are set |
| ThingsService.RedisThingCache.Remove | things/redis/things.go:52-62 | both directions are deleted, found through the id |
| ThingsService.RedisChannelCache.Connect | things/redis/channels.go:27-30 | the member is added |
| ThingsService.RedisChannelCache.Disconnect | things/redis/channels.go:37-40 | the member is removed |
| ThingsService.Service.CreateThings | things/service.go:137-160 | fills ids, owner and missing keys, saves all or nothing and announces each thing |
| ThingsService.Service.CreateChannels | things/service.go:222-238 | the same for channels |
| ThingsService.Service.UpdateKey | things/service.go:173-183 | changes the repository only |
| ThingsService.Service.RemoveThing | things/service.go:212-220 | cache entry, row and announcement |
| ThingsService.Service.RemoveChannel | things/service.go:277-285 | cached set, row and announcement |
| ThingsService.Service.Connect | things/service.go:287-294 | connects in the repository and announces every pair |
| ThingsService.Service.AnnounceConnections | things/redis/streams.go:189-210 | one event for each pair, in loop order |
| ThingsService.Service.Disconnect | things/service.go:296-304 | the cached member goes even when the repository refuses |
| ThingsService.Service.CanAccessByKey | things/service.go:306-320 | cache first, then repository, whose answer is cached |
| ThingsService.Service.CanAccessByID | things/service.go:322-333 | cache first, then repository, whose answer is cached |
| ThingsService.Service.Identify | things/service.go:335-348 | cache first, then repository, whose answer is cached |
| ThingsService.Service.HasThing | things/service.go:350-361 | answers only when both caches agree |
| BootstrapModel.AddedExact | bootstrap/service.go:412-434 | the ids to add are new minus current if and only if no current id is listed twice |
| BootstrapRuns.SaveExact | bootstrap/postgres/configs.go:43-90 | saving leaves no dangling channel if and only if every inserted channel is in the connection list |
| BootstrapRuns.UpdateExact | bootstrap/postgres/configs.go:285-313 | the new connections of the config, nothing else changed, no dangling channel although cleanup runs only after a deletion |
| BootstrapRuns.RemoveConfigsKeeps | bootstrap/postgres/configs.go:315-326 | removing configs keeps every channel referenced and every connection stored |
| BootstrapRuns.RemoveChannelKeeps | bootstrap/postgres/configs.go:451-456 | so does removing a channel |
| BootstrapRuns.DisconnectThingExact | bootstrap/postgres/configs.go:458-464 | other configs stay as they are if and only if there is no such connection or they were inactive |
| BootstrapRuns.StepInv | bootstrap/postgres/configs.go:285-590 | every call and event, successful or not, keeps the tables sound and free of dangling channels |
| BootstrapRuns.RunInv | bootstrap/postgres/configs.go:285-590 | so they are after every prefix of every run |
| BootstrapRuns.StoresExact | bootstrap/postgres/configs.go:285-313 | with the channels not stored yet, the transaction of a non-empty list succeeds if and only if the list has no repetitions and no other owner's channel |
| BootstrapRuns.MakesDistinct | bootstrap/service.go:219-235 | when all SDK calls for a connected config succeed, the new list has no repetitions |
| BootstrapRuns.UpdateStores | bootstrap/service.go:187-238 | when all SDK calls for an Active, connected config succeed, the transaction does, too |
| BootstrapRuns.UpdateLinkedExact | bootstrap/service.go:187-238 | an update whose SDK calls all succeed, whatever the repository answers, leaves Active configs connected if and only if it does not empty an Active config |
| BootstrapRuns.StepLinkedExact | bootstrap/service.go:187-321 | the same for every call and event in which no SDK call fails part-way |
| BootstrapRuns.RunLinked | bootstrap/service.go:187-434 | over every run in which no SDK call fails part-way and no update empties an Active config, each Active config's thing is connected to all its channels after each call |
| BootstrapRuns.StaleListRefused | bootstrap/service.go:219-235 | a list with a repetition, or with a new channel the thing is connected to, makes an SDK call of an update of a connected Active config fail |
| BootstrapRuns.HealthyUpdateExact | bootstrap/service.go:187-238 | when SDK calls fail only for links that exist, an update keeps Active configs connected if and only if it does not take a channel from one with an empty list or such a list, or is refused beforehand |
| BootstrapRuns.HealthyStepExact | bootstrap/service.go:187-321 | the same for every call and event |
| BootstrapRuns.HealthyRunLinked | bootstrap/service.go:187-434 | over every run of that kind without such updates each Active config's thing is connected to all its channels after each call |
| BootstrapCalls.CalledIsStep | bootstrap/service.go:113-321 | whatever SDK calls fail, every call is a step of the runs |
| BootstrapCalls.UpdateBlames | bootstrap/service.go:203-235 | an update reports a failure of the things service if and only if an SDK call failed; that was the last, the error tells which, and the table is left alone |
| BootstrapCalls.UpdateDone | bootstrap/service.go:187-238 | when no SDK call fails, an update succeeds if and only if the list is empty or storable; then the config has exactly the list, and an Active config's links fit it |
| BootstrapCalls.AddDone | bootstrap/service.go:113-157 | when no channel is refused, a config is added if and only if it is new and its list storable; Inactive, with exactly that list |
| BootstrapCalls.ChangeDone | bootstrap/service.go:287-321 | the new state if and only if no SDK call fails, with the links that go with it; only the config's own links are touched |
| BootstrapCalls.HealthyUpdate | bootstrap/service.go:187-238 | on a healthy things service the answer of an update, and whether every Active config stays connected, are told exactly by the state before the call |
| BootstrapCalls.HealthyCallsLinked | bootstrap/service.go:187-434 | over every run on such a service in which no update strands an Active config, each Active config's thing is connected to all its channels |
| BootstrapCalls.RemoveDone | bootstrap/postgres/configs.go:315-326 | the caller's config goes, and nobody else's |
| BootstrapCalls.ThingRemovedDone | bootstrap/postgres/configs.go:428-437 | the thing's config goes, whoever owns it, with its links |
| BootstrapCalls.ChannelRemovedDone | bootstrap/postgres/configs.go:451-456 | the channel leaves every list |
| BootstrapCalls.ThingDisconnectedDone | bootstrap/postgres/configs.go:458-464 | exactly when every config becomes Inactive; the lists stay |
| BootstrapExamples.RepeatedListStrands | bootstrap/api/requests.go:99-109 | a run in which an update with a repeated channel fails and leaves an Active config disconnected from a listed channel |
| BootstrapExamples.EmptyListDisconnects | bootstrap/postgres/configs.go:546-549 | a run of successful calls after which an Active config lists a channel its thing is not connected to |
| BootstrapExamples.DisconnectDeactivatesOther | bootstrap/postgres/configs.go:458-464 | a run after which an untouched config is inactive |
| BootstrapService.Sdk.ConnectThing | bootstrap/service.go:228-235 | may fail, and fails for a connection that exists; the call and its answer are recorded |
| BootstrapService.Sdk.DisconnectThing | bootstrap/service.go:219-226 | may fail; not found means there is no such connection; the call and its answer are recorded |
| BootstrapService.ConfigRepository.Save | bootstrap/postgres/configs.go:43-90 | all three inserts or none |
| BootstrapService.ConfigRepository.RetrieveByID | bootstrap/postgres/configs.go:92-143 | the state of the config and its channels, each once, in any order |
| BootstrapService.ConfigRepository.ListExisting | bootstrap/postgres/configs.go:348-377 | the listed channels already stored for the owner |
| BootstrapService.ConfigRepository.UpdateConnections | bootstrap/postgres/configs.go:285-313 | the transaction as specified |
| BootstrapService.ConfigRepository.Delete | bootstrap/postgres/configs.go:315-326 | deletion with cascade and cleanup |
| BootstrapService.ConfigRepository.RemoveChannel | bootstrap/postgres/configs.go:451-456 | deletion with cascade |
| BootstrapService.ConfigRepository.ChangeState | bootstrap/postgres/configs.go:328-346 | the one row, or not found |
| BootstrapService.ConfigRepository.DisconnectThing | bootstrap/postgres/configs.go:458-464 | all rows become inactive if the connection exists |
| BootstrapService.InsertRows | bootstrap/postgres/configs.go:524-544 | the rows built in the loop, inserted with one statement |
| BootstrapService.Service.UpdateList | bootstrap/service.go:412-434 | add is the list without consumed current ids; remove is current minus new |
| BootstrapService.Service.ConnectionChannels | bootstrap/service.go:379-406 | fetches exactly the listed channels that are not stored yet, each once, up to the first that is refused |
| BootstrapService.Service.Relink | bootstrap/service.go:219-235 | cuts and then makes, up to the first failure, whose error it returns |
| BootstrapService.Service.DisconnectAll | bootstrap/service.go:219-226 | disconnects from the listed channels one by one, up to the first failure |
| BootstrapService.Service.ConnectAll | bootstrap/service.go:228-235 | connects to the listed channels one by one, up to the first failure, which it hands on |
| BootstrapService.Service.Add | bootstrap/service.go:113-157 | makes the fetches of an Add and no other SDK call, and answers as their record and the repository say |
| BootstrapService.Service.UpdateConnections | bootstrap/service.go:187-238 | fetches, cuts and makes what the diff says, in this order, up to the first failure; then answers as the record of the SDK calls says, or else the repository |
| BootstrapService.Service.ChangeState | bootstrap/service.go:287-321 | connects to or disconnects from every listed channel up to the first failure, and answers as the record says |
| AuthnRuns.StepInv | authn/service.go:70-197 | every call keeps the history invariant: what each token says, and which keys are stored |
| AuthnRuns.IssueExact | authn/service.go:70-181 | Issue succeeds exactly for a key with an issue time and, where needed, a working login key; only API keys are stored, under the new id and with the expiry asked for |
| AuthnRuns.LoginExact | authn/service.go:183-197 | a token is good for deriving and revoking exactly when it is a valid login key issued for a named user |
| AuthnRuns.RevokeIsFinal | authn/service.go:84-91 | a user revokes an API key of theirs: it succeeds, and the key is refused at once and ever after |
| AuthnRuns.RevokeByOthers | authn/service.go:84-91 | a caller who is not the key's user, or names another id, changes nothing about the key |
| AuthnRuns.IdentifyIsGranted | authn/service.go:102-128 | Identify answers e only for a token issued for e, derived keys through a login key issued for e and valid then |
| AuthnRuns.TemporaryExact | authn/service.go:130-155 | login keys work for 36000 seconds and recovery keys for 300, to the second |
| AuthnRuns.ApiExact | authn/service.go:102-120 | an API key works exactly until its expiry or its revocation; without an expiry it never works |
| AuthnRuns.NoExpiryRefused | authn/keys.go:40-42 | a reachable state in which an API key without an expiry, revoked by nobody, is refused at once |
| AuthnRuns.RefusalIsFinal | authn/service.go:102-128 | a token refused for expiry or revocation is never accepted again |
| AuthnRuns.LoginIsGranted | authn/service.go:183-197 | a login key that works was issued for the user it names |
| AuthnService.KeyRepository.Save | authn/mocks/keys.go:27-37 | stores a new id, refuses a known one |
| AuthnService.KeyRepository.Retrieve | authn/mocks/keys.go:38-47 | the key if it belongs to the issuer |
| AuthnService.KeyRepository.Remove | authn/mocks/keys.go:48-55 | removes the key if it belongs to the issuer |
| AuthnService.Service.Issue | authn/service.go:70-82 | dispatches on the key type; the specified key and repository |
| AuthnService.Service.TempKey | authn/service.go:145-155 | issuer, expiry and token set on the key |
| AuthnService.Service.UserKey | authn/service.go:157-181 | an API key for the user of the login key, saved under its new id |
| AuthnService.Service.Login | authn/service.go:183-197 | only a login key of a named user |
| AuthnService.Service.Revoke | authn/service.go:84-91 | removes a key of the caller only |
| AuthnService.Service.Identify | authn/service.go:102-128 | the user, or the refusal with the expired key removed |
| Strings.SwapBack | mqtt/aedes/mqtt.js:148 | replacing the first a by b and back is the identity if and only if no b stands before the first a |
| MqttTopic.AuthorizePublish | mqtt/aedes/mqtt.js:174-230 | channel, elements, content type, subtopic and NATS subject of a published topic, or the two refusals |
| MqttTopic.ParseSubtopic | http/api/transport.go:63-90 | the loop returns the non-empty elements joined by dots, or refuses a wildcard beside another character |
| MqttTopic.NormalisedIs | coap/api/transport.go:159-184 | an accepted subtopic is a list of normal elements |
| MqttTopic.NormaliseOnce | http/api/transport.go:63-90 | normalising again changes nothing |
| MqttPublish.MatchExact | mqtt/aedes/mqtt.js:162-172 | the match of the regular expression is the shortest channel with which the topic reads channels/, channel, /word and a rest on one line |
| MqttPublish.PublishExact | mqtt/aedes/mqtt.js:174-230 | for every list of elements, the refusal exactly for a wildcard beside another character, and otherwise channel, subtopic, content type and subject |
| MqttPublish.NormalisedExact | http/api/transport.go:63-90 | the adapters refuse exactly the same and join the elements by dots |
| MqttTopicLaws.TypeRoundTrip | mqtt/aedes/mqtt.js:210 | decoding undoes encoding if and only if no '_' precedes the first '/' and no '-' the first '+' |
| MqttTopicLaws.ChannelExact | mqtt/aedes/mqtt.js:162-172 | the topic gives its channel back if and only if it has no line terminator and no later element starts with "control" |
| MqttTopicLaws.ControlMisleads | mqtt/aedes/mqtt.js:162-172 | every element that starts with "control" gives a topic that is taken for another channel's |
| MqttTopicLaws.OccursInPart | mqtt/aedes/mqtt.js:162-172 | a slash before a word stands in a string exactly when a part after the first starts with the word |
| MqttTopicLaws.TopicParts | mqtt/aedes/mqtt.js:147-153 | the parts of a built topic |
| MqttTopicLaws.TypeExact | mqtt/aedes/mqtt.js:206-212 | exactly which content types come back beside their subtopic |
| MqttTopicLaws.RoundTrip | mqtt/aedes/mqtt.js:141-230 | topic building and parsing give back channel, subtopic, content type and subject if and only if the message survives, a condition on the message alone |
| MqttTopicLaws.AdapterRoundTrip | http/api/transport.go:63-115 | the same for every subtopic an adapter accepted |
| MqttConnect.LengthExact | docker/ssl/authorization.js:156-162 | calcLen gives the big-endian value if and only if the high byte is 0 or the low byte is outside 2..15 |
| MqttConnect.ContinuedExact | docker/ssl/authorization.js:86-93 | the bytes counted are those above 128 from position 1 on, at most four |
| MqttConnect.LengthSize | docker/ssl/authorization.js:86-93 | the loop counts the leading bytes above 128 among positions 1 to 4 |
| MqttConnect.ReadFields | docker/ssl/authorization.js:115-123 | the loop goes through the specified spans and keeps the last, or throws |
| MqttConnect.ParsePackage | docker/ssl/authorization.js:44-127 | the specified outcome for every byte string: password, refusal or exception |
| MqttConnect.FieldsFoundExact | docker/ssl/authorization.js:86-123 | in every well-formed packet, every field is found where it is if and only if no remaining-length byte is 128 and every prefix is readable |
| MqttConnect.PasswordFound | docker/ssl/authorization.js:44-127 | for those packets exactly the password comes out, with or without a will, whatever follows |
| MqttConnect.PasswordExact | docker/ssl/authorization.js:115-126 | given the earlier prefixes, exactly when the password's own prefix is readable |
| MqttConnect.RefusedExact | docker/ssl/authorization.js:86-103 | an MQTT 3.1.1 packet is refused if and only if a remaining-length byte is 128 |
| MqttConnect.CredentialsExact | docker/ssl/authorization.js:95-103 | where the flags are found, a packet is refused exactly when a credential flag is missing |
| MqttConnect.CutExact | docker/ssl/authorization.js:44-127 | of a readable packet that has not all arrived, exactly when the call throws and what it takes of the password |
| MqttConnect.LoginRefused | docker/ssl/authorization.js:86-103 | a well-formed MQTT 3.1.1 packet of remaining length 128 is refused |
| MqttConnect.LoginCut | docker/ssl/authorization.js:156-162 | of a well-formed packet with a password of 258 bytes only a part comes out |
| CoapObservers.ClosedExactlyOnLeaving | coap/adapter.go:89-110 | over every run each Cancel channel is closed at most once, and exactly if its observer is no longer in the table; one open observer per id |
| CoapObservers.CancelledByLeaving | coap/adapter.go:89-110 | in one step a Cancel channel is closed exactly when its observer leaves the table |
| CoapObservers.SubscribeReplaces | coap/adapter.go:137-145 | an accepted subscription is the only open one of its id; other ids keep their entries and records |
| CoapObservers.GivenUp | coap/api/transport.go:285-287 | after a timeout, option 1 or a reset the id is not in the table and each of its observers has been cancelled once; other ids keep entries and records |
| CoapObservers.SubscribeRefused | coap/adapter.go:137-145 | a subscription the broker refuses changes nothing unless it is a reset, too |
| CoapObservers.RequestIgnored | coap/api/transport.go:285-301 | any other request changes nothing |
| CoapObservers.CancelledDrains | coap/api/transport.go:307-311 | a cancelled observer is drained once, and nothing else changes |
| CoapObservers.StepSound | coap/api/transport.go:278-311 | every request, ping timeout and cancellation keeps the table sound |
| CoapObservers.MessageIdRepeats | coap/observer.go:62-68 | two message ids are equal if and only if the calls are a multiple of 65536 apart |
| CoapService.Observer.LoadMessageID | coap/observer.go:62-68 | the next id modulo 65536 |
| CoapService.Observer.Transmit | coap/api/transport.go:370-378 | pings until the first acknowledgement, at most four times |
| CoapService.PingsExact | coap/api/transport.go:370-378 | pings go on up to and with the first acknowledged one |
| CoapService.AdapterService.Put | coap/adapter.go:89-99 | the previous holder is cancelled, never twice, and replaced |
| CoapService.AdapterService.Remove | coap/adapter.go:101-110 | the holder is cancelled, never twice, and taken out |
| CoapService.AdapterService.Acknowledge | coap/adapter.go:113-122 | clears the flag of the id's observer only |
| CoapService.AdapterService.Subscribe | coap/adapter.go:137-145 | registers only when the broker accepts |
| CoapService.AdapterService.Unsubscribe | coap/adapter.go:147-149 | takes the id out |
| CoapService.AdapterService.Observe | coap/api/transport.go:285-301 | reset or option 1 removes, option 0 subscribes, in this order |
| CoapService.AdapterService.Cancel | coap/api/transport.go:307-311 | Messages is closed once, after Cancel |
| CoapService.AdapterService.Ping | coap/api/transport.go:360-383 | gives the id up exactly when the observer had not expired and no wait saw an acknowledgement |

## Left out

- Wire codec: nil and empty byte slices are one value; slices are shorter than 2^63 bytes, as in Go.
- Wire codec: `AccessByKeyReq`, `AccessByIDReq`, `ThingID`, `Token` and the other messages of the two files have no class of their own; the theorems of `WireLaws` hold for their field lists.
- Wire codec: `XXX_Marshal` into a caller's larger buffer, descriptors, getters and gRPC stubs.
- Things: names, metadata, column widths and malformed UUIDs, so `UpdateThing`, `UpdateChannel` and the listings have no state to change.
- Things: cache and stream failures, trimming of the stream, and interleaving inside one call; agreement does not survive a read between the cache removal and the repository removal.
- Things: Redis keys carry prefixes; the two key families and the channel sets are separate maps.
- ThingsEvents.Rebuilds: keys are never sent over the stream, so they are not compared.
- Bootstrap: `unknown_configs`, certificates, content, names, the encrypted `Bootstrap` call, and `Add`'s creation and deletion of things through the SDK, which is a parameter here.
- Bootstrap: the transaction that `UpdateConnections` leaves open when the config is missing is modelled as no change.
- BootstrapRuns.HealthyRunLinked: says nothing of runs in which the things service fails for reasons of its own part-way through an update or a deactivation; the links are then somewhere between those before and after (`UpdateStep`, `ChangeStep`).
- Bootstrap: connections that users make or cut in the things service by themselves, other than the events it announces; a channel id belongs to one owner for ever.
- Authn: signing is abstract and Postgres rounding of times is not modelled; `Retrieve` for users repeats the repository lookup.
- MQTT: `CanAccessByKey`, publishing, subscriptions and the event stream of the adapter; the WebSocket adapter's subtopic code is that of HTTP.
- MQTT: percent-decoding of an HTTP subtopic is a parameter of `ParseSubtopic`.
- MqttTopicLaws.RoundTrip: channels with a slash or an empty name are not considered; channel ids are UUIDs.
- CONNECT: nginx hands the packet over as a string with one character for each byte.
- MqttConnect.PasswordFound: when an earlier prefix is unreadable the parser may still hit the password by coincidence; `FieldsFoundExact` is the exact statement about the fields.
- CoAP: sockets, tickers and wait times; the goroutines are steps that come in any order. Sending on a closed Messages channel is a race outside these steps.
- LoRa and OPC-UA route maps: saving an id again with a new partner leaves stale reverse keys, and beyond that they are two-way maps like the thing cache.
- Readers, writers, SDK, CLI, provisioning, logging, metrics and tracing: they pass values on to databases, HTTP or the services above and keep no state of their own that several operations must agree on.
