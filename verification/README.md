# NexusGo in Dafny

NexusGo is an instant-messaging system: a Gateway that keeps WebSocket connections, a Logic service that stores messages, an Agent, and GrowRPC, the system's own RPC layer. This project models the parts with real state machines or algorithms and proves what they guarantee over every run or every input.

| file | part of the system |
|---|---|
| `Upload.dfy`, `UploadLedger.dfy` | the upload pipeline Gateway, RabbitMQ, Logic, MySQL, with crashes and redeliveries, and its books |
| `Messages.dfy`, `BatchFlush.dfy`, `FlushRun.dfy` | the messages table, the batch worker's flush, and the flush as a run of the pipeline |
| `History.dfy` | from the server_ack to the reader's history |
| `Pool.dfy` | the GrowRPC connection pool |
| `RpcClient.dfy` | the GrowRPC client multiplexer |
| `Wire.dfy` | frames, handshake and the server's read loop |
| `Ring.dfy`, `Discovery.dfy` | the consistent-hash ring and etcd membership |
| `Snowflake.dfy`, `Fusion.dfy`, `Paging.dfy`, `RateLimit.dfy`, `Chunker.dfy` | self-contained algorithms |
| `Options.dfy` | the optional value |

`dafny verify dfyconfig.toml` checks everything.

## How the concurrent parts are modelled

A stretch of code under a mutex, or one command to the broker, the database or Redis, is one step. For the pool and the client, each such stretch is a function on the fields that the mutex protects; a class implements it on real fields and is proved equal to the function; and a transition system interleaves the same functions for any number of callers. The system has events, a condition under which an event can happen, and the state after it. A run is a list of states and the events between them. Main results quantify over every run.

What the environment decides is a parameter of an event and unrestricted: which connections have expired, whether a factory call, a write, a publish or an insert fails, whether a failed insert was nevertheless committed, which response headers the server sends, when a process dies, how TCP cuts the bytes, what the clock shows.

## Where the code falls short

These are results about the code as it is. Each has a concrete case and a condition that says exactly when the property holds.

- Pool: a failing factory call gives its slot back without notifying, so that a waiting Get can be left beside a free slot (`LostWakeupExample`). No wake-up is lost in a run if and only if every failing factory call came while the pool was closed, nobody waited, or an announcement was to spare (`NoLostWakeupExactlyWhen`).
- Pool: Put panics after Close has closed the wait channel (`PanicExample`), and only then (`PanicsExactlyOnReturnAfterClose`), although a comment on Close says that such connections are simply closed.
- Pool: a Get that is closing a stale connection while Close runs does not look at `closed` again, and can make a connection in the closed pool (`ServedAfterCloseExample`). Every other caller is turned away (`ClosedPoolServesNobody`).
- Upload: `isDuplicateKey` looks for the digits 1062 anywhere in the error text. A database that refuses connections on port 10620 makes the worker ack a message that was never stored (`MisreadErrorLosesMessage`, `RefusedConnectionReadsAsDuplicate`). No message is ever lost after its server_ack if and only if no other error text of the database reads as a duplicate key (`NeverLosesExactlyWhenTextsAreClear`).
- Codec: a Write whose body is not a proto message or does not marshal leaves its header in the buffer, and the reader takes the next header for the missing body (`StaleHeaderTakesNextFrame`). After a successful write, the connection carries the successful writes alone if and only if no such Write came before (`ConnectionIsCleanExactlyWhen`).
- Server: a method registered with a request type that is not a proto message loses the frame alignment, and nothing else does (`IterationConsumesOnePairExactlyWhen`).
- Ring: an address and the same address with a 1 in front share virtual labels under every hash function, so that routing depends on the order of the servers (`PrefixedAddressesCollide`). The order has no influence if and only if no two servers share a point (`OrderIsIrrelevantExactlyWhen`).
- Snowflake: `ParseSnowflakeID` adds an epoch that `Generate` never subtracts; its timestamp is never the real one (`ParseRecovers`).
- Paging: with a limit above 200 the query uses 20 and HasMore is never set (`ReplacedLimitShowsAllExactlyWhen`). The same holds for limits of 0 and below, which the Gateway replaces by 20 (apps/gateway/api/chat_api/chat_handler.go:53) and only a direct RPC can carry; limit 0 on an empty result is an index out of range (`BuildReply`).
- Limiter: requests with equal timestamps count once. On a new key any number of them pass (`SameInstantIsNeverLimited`); after any history a repetition passes if and only if its instant and the accepted ones in the window are fewer than five (`RepeatsPassExactlyWhen`). Accepted requests are counted truly if and only if no two of them in the window share a timestamp (`WindowCountsRequestsExactlyWhen`).

## Model

| member | source | states |
|---|---|---|
| Upload.ServerAckedIsNeverLost | apps/gateway/ws/chat.go:122-171 | in every run with honest duplicate-key reports, a payload with a server_ack, other than group and AI chats, is queued, in an unsettled delivery or dead-lettered, or else stored and pushed; a row under its MsgId has its seqId, sender, receiver, groupId and content |
| Upload.RunKeepsInv | apps/logic/service/upload_consumer.go:63-269 | the invariant behind it holds in every reachable state: payloads travel unchanged, jobs match their deliveries, what is pushed is stored |
| Upload.NeverLosesExactlyWhenTextsAreClear | apps/logic/service/upload_consumer.go:282-289 | for any set of error texts of the database: in every run with faults from it every server_acked single-chat payload is safe, if and only if no text in it reads as a duplicate key |
| Upload.SingleKeepsPushesStoredExactlyWhenHonest | apps/logic/service/upload_consumer.go:152-167 | a single insert leaves only stored messages in the push stage if and only if it does not fail with a text that reads as a duplicate key while the row is missing and is not committed |
| Upload.MisreadErrorLosesMessage | apps/logic/service/upload_consumer.go:282-289 | for every payload and every error text that merely looks like a duplicate key there is a run with no other fault text that loses the payload after its server_ack |
| Upload.RefusedConnectionReadsAsDuplicate | apps/logic/service/upload_consumer.go:283-289 | a refused connection on port 10620 is such a text |
| Upload.CrashAfterInsertRecovers | apps/logic/service/upload_consumer.go:152-159 | for every payload there is a run with a crash between insert and ack, after which the redelivered message is recognised as stored, pushed and acked, with one row and nothing left in the broker |
| Upload.EveryDeliverySettledOnce | apps/logic/service/upload_consumer.go:226-269 | in every run each delivery is in exactly one of: still in memory, settled by exactly one Ack or Nack, lost with its process |
| Upload.StoredStays | apps/logic/dao/messages.go:8-22 | no later step of any run changes or removes a stored row |
| Upload.StepKeepsDeliverySafe | apps/pkg/mq/rabbitmq.go:232-269 | a delivery that a step settles is requeued, dead-lettered, or stored and pushed |
| UploadLedger.PushedExactlyWhen | apps/logic/service/upload_consumer.go:248-256 | in every run a payload counts as pushed if and only if a push of a job with this payload succeeded |
| UploadLedger.FailedPushIsRequeued | apps/logic/service/upload_consumer.go:250-254 | a failed push puts the delivered message back into the queue and records nothing as pushed |
| UploadLedger.ServerAckFollowsConfirm | apps/gateway/ws/chat.go:158-168 | every server_ack follows the broker's confirmation of that very message |
| UploadLedger.RecordsExactlyWhen | apps/pkg/mq/rabbitmq.go:190-224 | a payload is confirmed, or server_acked, if and only if the event happened |
| UploadLedger.OpenExactlyWhen | apps/pkg/mq/rabbitmq.go:232-269 | a delivery awaits its settlement if and only if it was handed out, not taken back, and not acked, requeued or rejected |
| UploadLedger.BodiesConserved | apps/logic/service/upload_consumer.go:63-269 | conservation: every copy of a body that entered the queue is queued, in an open delivery, dead-lettered or acked, in one place only; what is dead-lettered is what could not be parsed or inserted |
| UploadLedger.RowsExactlyWhen | apps/logic/dao/messages.go:8-22 | a message is in the table if and only if an insert of it took effect |
| Messages.InsertingTwiceIsInsertingOnce | apps/logic/dao/messages.go:13-22 | redelivering a whole batch changes nothing |
| Messages.InsertEachKeepsAndCovers | apps/logic/dao/messages.go:8-11 | one-by-one inserts overwrite no row, leave a row for every item, and add nothing else |
| Messages.StoredMeaning | apps/logic/service/upload_consumer.go:74-76 | a row is a payload's own if and only if they agree in sequence number, users, group and content |
| Messages.BatchIsAllOrNothing | apps/logic/dao/messages.go:13-22 | the batch statement is applied as a whole or not at all, exactly when no key repeats and the database did not fail before the commit |
| Messages.BatchFitsExactlyWhen | apps/logic/dao/messages.go:13-22 | a batch has no repeated key if and only if it adds as many rows as it has items |
| Messages.DuplicateKeyMeaning | apps/logic/service/upload_consumer.go:283-289 | an error counts as a duplicate key if and only if 1062 or Duplicate entry occurs in its text |
| BatchFlush.BatchWorker.Flush | apps/logic/service/upload_consumer.go:111-178 | the flush leaves the table, the pushes with their addresses and the rejected items that its specification gives, and an empty buffer |
| BatchFlush.BatchWorker.InsertOneByOne | apps/logic/service/upload_consumer.go:152-168 | the fallback loop against its specification under any per-item failures |
| BatchFlush.BatchWorker.SpawnPushes | apps/logic/service/upload_consumer.go:173-176 | after a successful batch every item is pushed to its own receiver's address |
| BatchFlush.LookupRoutes | apps/logic/service/upload_consumer.go:123-147 | one lookup per distinct receiver gives every item the address its own lookup would give; a failed lookup gives none |
| BatchFlush.PushAddresses | apps/logic/service/upload_consumer.go:173-176 | each push goes to the address that Redis holds for the item's own receiver, and has none exactly when Redis holds none or could not be asked |
| BatchFlush.FlushRefinesOneByOne | apps/logic/service/upload_consumer.go:149-176 | with duplicate keys as the only database error, the batched flush has the table, addresses and rejections of item-by-item handling |
| BatchFlush.FlushSettlesEachItemOnce | apps/logic/service/upload_consumer.go:149-176 | under any failures every item gets exactly one of a push and a rejection |
| BatchFlush.FallbackStoresWhatItPushes | apps/logic/service/upload_consumer.go:152-167 | under any failures no row is overwritten, and with true duplicate reports every pushed item has a row |
| FlushRun.FlushIsRun | apps/logic/service/upload_consumer.go:111-178 | the flush of buffered jobs, under any failures, is one batch insert of the pipeline, with a single insert per item if it fails; it ends with the table, the pushing jobs, the settlements and the dead letters of the flush's specification, and changes nothing else |
| FlushRun.FallbackIsRun | apps/logic/service/upload_consumer.go:152-168 | the fallback loop is the run of its single inserts, with the same outcome |
| History.AckedMessageIsShown | apps/logic/service/chat_service.go:100-119 | in every honest run, a server_acked single-chat message that is neither queued, in work nor dead-lettered is shown, with its content and users, to either user that follows the cursor to the end |
| History.StoredMessageIsShown | apps/logic/service/chat_service.go:100-119 | the same for every stored message |
| PoolModel.RunKeepsInv | apps/pkg/GrowRPC/pool/pool.go:78-265 | in every reachable state: active = lent + in creation, active + idle within maxActive, idle within maxIdle, ownership, and slots announced up to the number of factory failures |
| PoolModel.NoLostWakeup | apps/pkg/GrowRPC/pool/pool.go:127-136 | before Close and without factory errors, while a Get waits, free slots are at most tokens plus woken callers that have not decided; so a waiter is never stranded beside an idle connection or a free slot |
| PoolModel.NoLostWakeupExactlyWhen | apps/pkg/GrowRPC/pool/pool.go:112-118 | in every run, with factory errors or without: slots are announced in all states so far if and only if every failing factory call came while the pool was closed, nobody waited, or an announcement was to spare |
| PoolModel.LostWakeupExample | apps/pkg/GrowRPC/pool/pool.go:112-118 | a run that leaves a waiter beside a free slot with no token and no woken caller |
| PoolModel.ConnectionsConserved | apps/pkg/GrowRPC/pool/pool.go:88-175 | a connection is idle, lent or removed if and only if the factory made it |
| PoolModel.RemovalIsFinal | apps/pkg/GrowRPC/pool/pool.go:240-265 | after Close the idle stack is empty for ever, and a removed connection is never idle or lent again |
| PoolModel.PanicsExactlyOnReturnAfterClose | apps/pkg/GrowRPC/pool/pool.go:142-184 | a run contains a panicking Put if and only if a Put follows the closing of waitCh |
| PoolModel.PanicExample | apps/pkg/GrowRPC/pool/pool.go:142-184 | a run with such a panicking Put |
| PoolModel.ChannelClosedExactlyAfterFinish | apps/pkg/GrowRPC/pool/pool.go:262-264 | waitCh is closed exactly from the last step of Close on |
| PoolModel.PutThenGetCancels | apps/pkg/GrowRPC/pool/pool.go:88-104 | LIFO: the connection put back last is lent next and the two regions cancel out but for the token |
| PoolModel.StepKeepsOwnership | apps/pkg/GrowRPC/pool/pool.go:88-104 | every step keeps each connection in one of idle (once), lent, removed |
| PoolModel.StepKeepsAccounting | apps/pkg/GrowRPC/pool/pool.go:101-118 | every step keeps the counter exact and the limits |
| PoolModel.StepKeepsAnnounced | apps/pkg/GrowRPC/pool/pool.go:177-184 | every step keeps the number of missing announcements, except that a factory failure may add one |
| PoolModel.CleanKeepsHealthyInOrder | apps/pkg/GrowRPC/pool/pool.go:221-231 | the filter keeps connections at increasing positions of the old stack |
| PoolModel.HealthyPositions | apps/pkg/GrowRPC/pool/pool.go:224-230 | a position is kept if and only if its connection is neither expired nor unavailable |
| PoolModel.CleanSplitsIdle | apps/pkg/GrowRPC/pool/pool.go:222-237 | kept and closed connections together are the old stack |
| PoolModel.Pool.CleanIdle | apps/pkg/GrowRPC/pool/pool.go:214-238 | the in-place compaction on the shared array equals the filter and returns the rest |
| PoolModel.Pool.GetRegion | apps/pkg/GrowRPC/pool/pool.go:81-128 | one locked region of Get on the slice equals the step of the transition system, whose decisions the next rows describe |
| PoolModel.GetLendsOnlyHealthy | apps/pkg/GrowRPC/pool/pool.go:88-104 | in every run Get lends exactly the top connection, and exactly if it is neither expired nor unavailable; one that is goes to be closed |
| PoolModel.GetWaitsOnlyWhenFull | apps/pkg/GrowRPC/pool/pool.go:107-128 | a caller waits exactly when there is no idle connection and no free slot, and creates exactly when there is no idle one and a free slot; not if it is turned away |
| PoolModel.NobodyWaitsWithoutLimit | apps/pkg/GrowRPC/pool/pool.go:107-107 | with maxActive 0 nobody ever waits |
| PoolModel.ClosedPoolServesNobody | apps/pkg/GrowRPC/pool/pool.go:83-86 | after Close a caller that was not inside Get never obtains or makes a connection and never waits: its decision changes nothing but its leaving |
| PoolModel.CloseReleasesWaiters | apps/pkg/GrowRPC/pool/pool.go:262-264 | after Close has finished every waiting caller can wake, and leaves at its next decision |
| PoolModel.ServedAfterCloseExample | apps/pkg/GrowRPC/pool/pool.go:95-98 | a run in which a Get that Close interrupted makes a connection in the closed pool |
| PoolModel.CancelledCallerLeaves | apps/pkg/GrowRPC/pool/pool.go:133-135 | a caller whose context ends leaves and changes nothing else |
| PoolModel.PutDecides | apps/pkg/GrowRPC/pool/pool.go:142-175 | a connection that is put back stays exactly when the pool is open, it is available and there is room, and is closed otherwise; a token is added up to the channel's capacity |
| PoolModel.WakeupsComeFromPuts | apps/pkg/GrowRPC/pool/pool.go:177-184 | before the end of Close every wake-up is owed to a Put of its own |
| PoolModel.Pool.Put | apps/pkg/GrowRPC/pool/pool.go:142-175 | Put on the slice equals the step, including when it panics |
| PoolModel.Pool.AppendIdle | apps/pkg/GrowRPC/pool/pool.go:167-167 | append with or without growing keeps the stack and adds the connection on top |
| PoolModel.Pool.Notify | apps/pkg/GrowRPC/pool/pool.go:179-184 | a token is added unless the channel is full or closed |
| PoolModel.Pool.CloseBegin | apps/pkg/GrowRPC/pool/pool.go:242-252 | the first Close takes all idle connections; a second one fails and changes nothing |
| RpcClient.CompletedAtMostOnce | apps/pkg/GrowRPC/client.go:93-160 | for any stream of headers, failures, cancellations and terminations each Done channel is sent to at most once, and an answer carried the never-reused number of its own call |
| RpcClient.TerminateSettlesEverything | apps/pkg/GrowRPC/client.go:117-128 | after terminateCalls every call that entered send was completed exactly once or cancelled, and none is registered later |
| RpcClient.CloseTurnsCallsAway | apps/pkg/GrowRPC/client.go:75-106 | after Close no call is registered, and each later one is completed exactly once, with the rejection |
| RpcClient.LoopEndsExactlyOnError | apps/pkg/GrowRPC/client.go:131-160 | the receive loop has ended if and only if a header or a body could not be read, and it takes no header afterwards |
| RpcClient.StoppedLoopTerminates | apps/pkg/GrowRPC/client.go:158-160 | after an error the sender can always release its lock, and with the lock free terminateCalls can run |
| RpcClient.RegisteredExactlyWhen | apps/pkg/GrowRPC/client.go:93-106 | a call gets a number if and only if it was sent before any Close and any termination |
| RpcClient.PendingExactlyWhen | apps/pkg/GrowRPC/client.go:93-115 | a number is pending if and only if a call was registered under it and since then no header carried it, its call was not cancelled and its write did not fail |
| RpcClient.CompletedExactlyWhen | apps/pkg/GrowRPC/client.go:117-160 | each completion has its reason and each reason its completion: refused, write failed, answer read, pending at termination |
| RpcClient.HandsHold | apps/pkg/GrowRPC/client.go:138-156 | the receive loop and the sender take up a call exactly when its number was pending, and keep it until they complete it |
| RpcClient.CancelledCallIsNotAnswered | apps/pkg/GrowRPC/client.go:328-344 | after a cancellation the number is never pending again, and a header that carries it is read over |
| RpcClient.LateAnswerExample | apps/pkg/GrowRPC/client.go:328-344 | a run with such a late answer |
| RpcClient.RunKeepsInv | apps/pkg/GrowRPC/client.go:109-160 | the invariant behind it: numbering, single ownership of open calls, nothing forgotten |
| RpcClient.TerminateKeepsOnce | apps/pkg/GrowRPC/client.go:118-128 | terminateCalls under the sending lock completes nothing that was or will be completed otherwise |
| RpcClient.StepKeepsAccounted | apps/pkg/GrowRPC/client.go:255-284 | no step forgets a call that entered send |
| RpcClient.Client.RegisterCall | apps/pkg/GrowRPC/client.go:93-106 | the locked region equals the step: the call waits under the next number or is refused |
| RpcClient.Client.RemoveCall | apps/pkg/GrowRPC/client.go:109-115 | the locked region equals the step: the number is free and its call is returned |
| RpcClient.Client.TerminateCalls | apps/pkg/GrowRPC/client.go:118-128 | each pending call is completed once, in some order of the map, and stays in the map |
| RpcClient.Client.Close | apps/pkg/GrowRPC/client.go:75-83 | only the first Close succeeds; nothing else changes |
| Wire.ConnectionRoundTrip | apps/pkg/GrowRPC/server.go:80-116 | a handshake line and any pairs that the codec writes successfully, cut anywhere by TCP, are read back as exactly those pairs |
| Wire.CallsArrive | apps/pkg/GrowRPC/codec/protobuf.go:61-143 | every list of successfully written pairs is served as it was sent |
| Wire.RequestsStayAligned | apps/pkg/GrowRPC/server.go:120-138 | the n-th request is the n-th pair of frames, whatever bytes are in them, up to the first undecodable header |
| Wire.IterationConsumesOnePairExactlyWhen | apps/pkg/GrowRPC/server.go:171-196 | an iteration consumes exactly one header and one body frame if and only if the request type is not a non-proto type |
| Wire.WriteAll | apps/pkg/GrowRPC/codec/protobuf.go:61-95 | the codec's bytes on the connection after any list of writes: all of them when the last write succeeds, else all but a part of one buffer |
| Wire.ConnectionIsCleanExactlyWhen | apps/pkg/GrowRPC/codec/protobuf.go:70-95 | after a last successful write the connection carries the frames of the successful writes alone if and only if no header was followed by a body that is not a proto message or does not marshal |
| Wire.BufferIsCleanExactlyWhen | apps/pkg/GrowRPC/codec/protobuf.go:70-95 | the same for what is handed to the buffered writer, for any list of writes |
| Wire.StaleHeaderTakesNextFrame | apps/pkg/GrowRPC/codec/protobuf.go:85-92 | after such a failure the failed call is read with the next header as its body |
| Wire.FrameRoundTrip | apps/pkg/GrowRPC/codec/protobuf.go:98-135 | a frame below 4 GiB is read back exactly and leaves the rest |
| Wire.FrameLayout | apps/pkg/GrowRPC/codec/protobuf.go:119-135 | a frame is the length in four bytes, most significant first, and the data |
| Wire.ProtobufCodec.Write | apps/pkg/GrowRPC/codec/protobuf.go:61-95 | what is handed to the buffer and whether it succeeds; a success has flushed everything |
| Wire.ProtobufCodec.WriteMessage | apps/pkg/GrowRPC/codec/protobuf.go:119-135 | appends one frame |
| Wire.BufReader.ReadLine | apps/pkg/GrowRPC/server.go:83-91 | the first line is taken and every byte after it stays in the stream, also those already buffered |
| Wire.BufReader.ReadFull | apps/pkg/GrowRPC/codec/protobuf.go:106-110 | exactly n bytes under any chunking, or a failure that has consumed everything |
| Wire.BufReader.ReadMessage | apps/pkg/GrowRPC/codec/protobuf.go:98-117 | reads one frame of the stream or fails |
| Wire.BufReader.Read | apps/pkg/GrowRPC/server.go:71-78 | no byte is lost or repeated between buffer and connection |
| Wire.Server.NextRequest | apps/pkg/GrowRPC/server.go:171-196 | one iteration against its specification; the body of an unknown method is drained |
| Wire.Server.ServeCodec | apps/pkg/GrowRPC/server.go:120-138 | the loop serves exactly the requests of the stream |
| Wire.Server.ServeConn | apps/pkg/GrowRPC/server.go:80-116 | the handshake takes one line, and the requests are those of the bytes after it |
| Ring.Map.Get | apps/pkg/GrowRPC/xclient/consistent_hash.go:61-76 | a key goes to the owner of the clockwise successor of its hash; an empty ring gives the empty name |
| Ring.Map.Search | apps/pkg/GrowRPC/xclient/consistent_hash.go:69-72 | binary search finds the first point at or after the hash |
| Ring.SearchFindsSuccessor | apps/pkg/GrowRPC/xclient/consistent_hash.go:69-75 | the found position, taken around the ring, is the clockwise successor |
| Ring.Map.Add | apps/pkg/GrowRPC/xclient/consistent_hash.go:41-58 | owners after adding; the points stay sorted and are those of the owners |
| Ring.ItoaIsNumeral | apps/pkg/GrowRPC/xclient/consistent_hash.go:47-50 | the label's number, read back digit by digit, is the number of the virtual node, for every number |
| Ring.LabelsAreDistinct | apps/pkg/GrowRPC/xclient/consistent_hash.go:47-50 | the labels of one server are pairwise distinct |
| Ring.SortIntsSorts | apps/pkg/GrowRPC/xclient/consistent_hash.go:57-57 | the points become a sorted permutation |
| Ring.OwnAllMeaning | apps/pkg/GrowRPC/xclient/consistent_hash.go:45-56 | a point belongs to an added server that has it, or stays with its former owner |
| Ring.RouteIsUnique | apps/pkg/GrowRPC/xclient/consistent_hash.go:61-76 | a key has one route |
| Ring.AddMovesKeysOnlyToAddedServers | apps/pkg/GrowRPC/xclient/consistent_hash.go:41-76 | adding servers changes a route only to an added server, even with hash collisions |
| Ring.RemovalMovesOnlyItsKeys | apps/pkg/GrowRPC/xclient/consistent_hash.go:41-76 | rebuilding without a server moves only its own keys when the remaining servers do not collide |
| Ring.RemovalIsLocalExactlyWhen | apps/pkg/GrowRPC/xclient/consistent_hash.go:41-76 | for all listings before and after this holds if and only if no two remaining servers share a point |
| Ring.OrderIsIrrelevantExactlyWhen | apps/pkg/GrowRPC/xclient/consistent_hash.go:41-76 | all listings of a set of servers give the same ring, and the same route for every key, if and only if no two of the servers share a point |
| Ring.RouteExists | apps/pkg/GrowRPC/xclient/consistent_hash.go:61-76 | every key has a route |
| Ring.PrefixedAddressesCollide | apps/pkg/GrowRPC/xclient/consistent_hash.go:47-54 | two addresses that collide under every hash, and a key that the two orders route differently |
| Discovery.RoutingFollowsStoreExactlyWhen | apps/pkg/GrowRPC/xclient/discovery_etcd.go:46-81 | after any snapshots and events, routing is that of every fresh ring on the live addresses if and only if no two live addresses share a point |
| Discovery.ServersFollowStore | apps/pkg/GrowRPC/xclient/discovery_etcd.go:101-157 | the server list holds each live non-empty address of the processed revision exactly once |
| Discovery.RemovedMeaning | apps/pkg/GrowRPC/xclient/discovery_etcd.go:144-152 | swap-removal takes out the address and keeps all others once |
| Discovery.SnapshotLists | apps/pkg/GrowRPC/xclient/discovery_etcd.go:101-115 | a snapshot lists the live addresses once |
| Discovery.EventLists | apps/pkg/GrowRPC/xclient/discovery_etcd.go:117-133 | a PUT or DELETE keeps the list equal to the store |
| Discovery.ParseAddrMeaning | apps/pkg/GrowRPC/xclient/discovery_etcd.go:154-157 | the address is what follows the prefix; a key without the prefix is left as it is |
| Discovery.EtcdDiscovery.HandleEvent | apps/pkg/GrowRPC/xclient/discovery_etcd.go:117-133 | the new list, with a ring that is fresh on it |
| Discovery.EtcdDiscovery.UpdateServersFromKVs | apps/pkg/GrowRPC/xclient/discovery_etcd.go:101-115 | the new list, with a ring that is fresh on it |
| Discovery.EtcdDiscovery.Remove | apps/pkg/GrowRPC/xclient/discovery_etcd.go:144-152 | the in-place swap-removal against its specification |
| Discovery.EtcdDiscovery.Contains | apps/pkg/GrowRPC/xclient/discovery_etcd.go:135-142 | true exactly for listed addresses |
| Discovery.EtcdDiscovery.GetByKey | apps/pkg/GrowRPC/xclient/discovery_etcd.go:174-199 | in the consistent-hash mode: an error without servers or key, else the route on a fresh ring |
| Snowflake.IdsIncrease | apps/pkg/utils/snowflake.go:58-89 | one generator's IDs strictly increase for every sequence of clock readings |
| Snowflake.NodesNeverShareIds | apps/pkg/utils/snowflake.go:87-88 | generators with different node IDs never make the same ID, on any two clocks |
| Snowflake.GeneratedIsLater | apps/pkg/utils/snowflake.go:62-85 | a call ends on a reading it used, never goes back, and numbers a millisecond from 0 without gaps |
| Snowflake.GeneratedIsPrompt | apps/pkg/utils/snowflake.go:62-80 | a call ends with its first reading exactly when it need not wait, and otherwise with the first later reading past the last timestamp; it waits on only without one |
| Snowflake.ParseRecovers | apps/pkg/utils/snowflake.go:102-109 | node and sequence come back, the timestamp comes back as ms + 1288834974657, never as ms; IDs are positive |
| Snowflake.WordsCompose | apps/pkg/utils/snowflake.go:87-88 | the source's shifts and ors, bit by bit on words, are the sum that the model uses |
| Snowflake.WordsParse | apps/pkg/utils/snowflake.go:102-109 | the source's shifts and masks, bit by bit, are the fields of Parse and the next sequence number |
| Snowflake.ShiftAndMask | apps/pkg/utils/snowflake.go:72-74 | a shift and a mask of k bits are quotient and remainder by 2^k, for every k |
| Snowflake.Generator.Generate | apps/pkg/utils/snowflake.go:58-89 | the wait loops and updates against the specification |
| Snowflake.Generator.WaitPast | apps/pkg/utils/snowflake.go:66-69 | waits for the first reading past the last timestamp |
| Fusion.FuseRankedIDs | apps/agent/retrieval/fusion.go:109-168 | each distinct ID once, with the sum of 1/(k + first rank), its sources and best rank, in the comparator's order |
| Fusion.FuseMessages | apps/agent/retrieval/fusion.go:43-106 | the same fusion of two lists, each ID with the first message seen |
| Fusion.FusionIsUnique | apps/agent/retrieval/fusion.go:144-156 | map iteration order has no influence, and the two functions agree |
| Fusion.DominatingComesFirst | apps/agent/retrieval/fusion.go:82-90 | an ID that every list holding another one ranks better comes before it |
| Fusion.DominatingScoresHigher | apps/agent/retrieval/fusion.go:132-132 | such an ID has the higher score |
| Fusion.BeforeIsStrictTotalOrder | apps/agent/retrieval/fusion.go:148-156 | the comparator is a strict total order on distinct IDs |
| Fusion.AddList | apps/agent/retrieval/fusion.go:119-137 | a list counts each of its IDs once, at its first rank |
| Fusion.SmoothingMeaning | apps/agent/retrieval/fusion.go:110-112 | a positive k is used, any other becomes 60 |
| Fusion.ShareMeaning | apps/agent/retrieval/fusion.go:132-132 | a list's share times (k + first rank) is 1, and a list without the ID has none |
| Fusion.BestRankMeaning | apps/agent/retrieval/fusion.go:127-136 | the best rank is the least of the first ranks |
| Fusion.OrderMeaning | apps/agent/retrieval/fusion.go:148-156 | the result is ordered by falling score, then rising best rank, then rising ID |
| Fusion.FusedMessageMeaning | apps/agent/retrieval/fusion.go:50-77 | a fused message names exactly the retrievers that found it, and is the full-text one if there is one |
| Fusion.KeptMeaning | apps/agent/retrieval/fusion.go:58-66 | the kept message is the first one seen with its ID |
| Paging.ClientSeesHistoryOnce | apps/logic/service/chat_service.go:100-119 | for limits 1 to 200, a client that follows NextCursor while HasMore is set gets, from the changing table, the messages of the chat at the start, each once, newest first, in floor(N/limit)+1 replies |
| Paging.ClientSeesRows | apps/logic/service/chat_service.go:104-115 | each with the row that it had at the start |
| Paging.ConversationMeaning | apps/logic/dao/messages.go:66-66 | the history of two users is the messages outside groups that one of them sent to the other |
| Paging.StoredInBothHistories | apps/logic/dao/messages.go:66-66 | a stored single-chat message is in both users' histories with its users and content |
| Paging.WalkShowsEverythingOnce | apps/logic/service/chat_service.go:100-119 | for limits 1 to 200, following the cursor shows the messages present at the start, each once, newest first, in floor(N/limit)+1 pages, while newer ones arrive |
| Paging.WalkEnds | apps/logic/service/chat_service.go:116-119 | HasMore is unset after at most floor(N/limit)+1 pages |
| Paging.BelowIsTail | apps/logic/dao/messages.go:61-72 | the query below a message returns what follows it in the order |
| Paging.DescendingMeaning | apps/logic/dao/messages.go:70-70 | the order holds each message once, strictly descending |
| Paging.ReplacedLimitShowsAllExactlyWhen | apps/logic/dao/messages.go:62-64 | with a replaced limit, 0 included, the first page is everything if and only if there are at most 20 messages, and HasMore is not set |
| Paging.BuildReply | apps/logic/service/chat_service.go:104-119 | rows in order, HasMore and NextCursor; an index out of range exactly for limit 0 and an empty page |
| RateLimit.ScriptDecidesLikeReference | apps/agent/middleware/rate_limit.go:39-73 | for every clock that does not go back a request is rejected if and only if five distinct accepted timestamps lie in the 60 seconds up to its own, trimming and expiry included |
| RateLimit.KeyExpiresAfterLastAccepted | apps/agent/middleware/rate_limit.go:45-46 | the key lives for sixty seconds after the last accepted request, and rejected ones do not prolong it |
| RateLimit.WindowHoldsAtMostFive | apps/agent/middleware/rate_limit.go:55-61 | for strictly increasing times no 60-second window, open at its start, holds more than five accepted requests |
| RateLimit.WindowHoldsFiveTimestamps | apps/agent/middleware/rate_limit.go:55-61 | for every clock that does not go back no such window holds more than five distinct accepted timestamps |
| RateLimit.WindowCountsRequestsExactlyWhen | apps/agent/middleware/rate_limit.go:45-45 | the accepted requests of a window are as many as the counted timestamps if and only if no two share one, and never fewer |
| RateLimit.RepeatsPassExactlyWhen | apps/agent/middleware/rate_limit.go:41-47 | after any history, a request that repeats an instant passes if and only if that instant and the accepted ones in the window are fewer than five |
| RateLimit.SameInstantIsNeverLimited | apps/agent/middleware/rate_limit.go:45-45 | on a new key any number of requests with one timestamp all pass |
| RateLimit.Limiter.CheckRateLimit | apps/agent/middleware/rate_limit.go:39-48 | one call is one run of the script |
| Chunker.ChunksRebuildContents | apps/agent/graph/chunker.go:24-64 | for every constructor argument and every content, the first chunk and the new parts of the others are the content |
| Chunker.ChunkSizes | apps/agent/graph/chunker.go:53-62 | every chunk is at most the chunk size, and all but the last are exactly that |
| Chunker.ConstructorUsesArguments | apps/agent/graph/chunker.go:24-35 | a positive size and an overlap below it are what the chunks use; the size is 512 by default, and any other overlap is 50, or none if that does not fit |
| Chunker.ChunksOverlap | apps/agent/graph/chunker.go:48-51 | every chunk begins with the end of the one before and adds something |
| Chunker.Chunk | apps/agent/graph/chunker.go:41-64 | the loop terminates and puts out the windows of its specification |

## Left out

- Group and AI chats, beyond the fact that their handlers add rows and settle the delivery: redelivery is not idempotent there.
- Friend deletion and group dissolution, which delete rows.
- Unread counters, the conversation table and the first-page cache: the code does not keep the intended equalities.
- The delivery from Logic to the receiver's WebSocket, and unread synchronisation.
- Expiry times and client availability in the pool: `isExpired` and `IsAvailable` are an arbitrary verdict at every moment, which covers every clock.
- The pool's caller is assumed to Put a connection at most once, to the pool that lent it; `XClient` reopening pools under the same address is not modelled.
- MsgIds are assumed unique across gateways; `Snowflake.NodesNeverShareIds` and `Snowflake.IdsIncrease` give this for distinct node IDs while no generator restarts: a new generator begins at timestamp 0 and may repeat IDs if the clock went back meanwhile.
- The upload queue is assumed to be bound before anything is published: a confirmed publish is not mandatory and would be dropped without a binding.
- Client sequence numbers after 2^64 registrations: runs are assumed to stay below that.
- Connection errors inside a codec Write, and frames of 4 GiB or more, whose length field wraps around.
- The JSON and magic-number checks of the handshake are an arbitrary predicate on the line; the Gob and JSON codecs, HTTP CONNECT, handler timeouts and interceptors are not modelled.
- The random and round-robin modes of discovery, and the HTTP registry.
- Rounding: fusion scores are real numbers, and the limiter's scores are exact although Redis stores doubles. The limiter's clock and Redis' clock are taken to agree and not to go back.
- Fusion sources are sets; the source returns them as sorted lists. `OrderMessagesByIDs` would add easy members.
- Runes are numbers; how Go decodes invalid UTF-8 is not modelled.
- Scheduled messages, memory compression, the reranker, and everything that talks to language models or vector stores.
