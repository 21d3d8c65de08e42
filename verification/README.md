# A verified model of the chat core

This project models the part of Tryst Core that carries a two-peer chat, in Dafny 4.11, and proves
properties of the model over all inputs, all runs and all interleavings. `dafny verify dfyconfig.toml`
checks the whole project. Nothing of the original program is executed.

Five pieces are modelled.

* **Connections.** `Connection.dfy` has the object a peer keeps for its remote peer, one method per
  write-lock section. `PeerPair.dfy` puts two of them beside the physical connections between them,
  with the spawned tasks that have not run yet kept in sets, so that any order of them is a run.
  `Glare.dfy` says what two peers that dial each other converge to.
* **Storage.** `ChangeGraph.dfy` has documents as finite sets of changes that hold their own history,
  and the theorem that the heads of a document generate it. `Store.dfy` has the two tables of a chat,
  `Repository.dfy` the repository object with its incremental log, `Loader.dfy` concurrent loads,
  appends and compaction.
* **Replication.** `Replication.dfy` has any number of peers that add, exchange, fail to save and
  restart; `MessageLists.dfy` the message list of each peer as every replica reads it.
* **History.** `Ordering.dfy` and `Pagination.dfy` have windowed reading and its agreement with "sort
  everything, then slice from the end", `Window.dfy` exactly when they agree, `History.dfy` the one
  history of a set of messages and the receiver of message batches.
* **Messages.** `Postcard.dfy` and `Framing.dfy` have the payload encoding and the length-prefixed
  frames under arbitrary chunking, `Manager.dfy` the answering of synchronisation messages,
  `Routing.dfy` the managers of the application actor.

What a library or the network does is stated here, not proved: a document applies a change exactly when
the history of the change is at hand (the change-set view of Automerge); a change hash stands for the
whole history below it; cancelling either end of a connection closes both; UUIDs are fresh; the two
endpoint ids differ; row ids grow. A write-lock section, a query and a transaction are atomic steps.

Where the code and its comments differ, the model follows the code.

* The head of `src/protocols/chat.rs` says the peer with the higher id dials. The code prefers the dial
  of the peer with the lower id.
* The comment on `read_lp` says that the end of the stream without a partial message reads as `None`.
  The code reads a partial length prefix as `None` too, and panics in `split_to` on a partial body.
* The head of `src/persistence.rs` says the log is truncated when it exceeds its limit. The code does
  this only when a chat is loaded.

Five promises do not hold on all inputs. For each of them the project has the exact condition and an
input or a run that breaks it.

* A message whose INSERT failed can still be sent by the periodic synchronisation and be forgotten by a
  restart; the author's list is then created a second time in other replicas (`UnsavedSendForgets`). A
  run forgets nothing that was sent exactly if every peer that restarts has saved by then what it sent
  (`ForgetsNothingIff`), and the message lists keep their properties as long as this holds of each
  peer's own messages (`PrefixProperty`, `OneReading`, `ListCreatedOnce`). A peer has all it ever added
  exactly if it has saved its own messages before each restart (`HasAllSaidIff`). All that was sent is
  in the tables at every moment exactly if no message carries a change that is still to be saved
  (`SentSavedIffCareful`).
* Two loaders of one chat at a time can lose changes (`TwoLoadersLose`). With any number of loaders, a
  run loses nothing exactly if every compaction has read the whole snapshot it overwrites and could
  apply what it read, rows it leaves alone excepted (`StepLosesIff`, `RunLosesNothingIff`). Runs in
  which no loader is reading while another compacts are among these (`CompactionLosesNothing`), and so
  are runs with one loader at a time (`ExclusiveIsUndisturbed`).
* A page is not always the slice of the sorted history. `add_message` stamps milliseconds of a clock
  that may be set back, and a random id, so a list need not be in order, and the newest message may lie
  beyond the depth looked at (`SameMillisecond`). The page is right exactly if there is nothing to
  show or no message beyond the depth of its list is among the newest `offset + limit`
  (`PageIsFullPageIff`), as in lists that are in order (`PageIsFullPage`). The application itself only calls `get_all_messages`, which is always
  right (`AllMessages`).
* A page whose `offset + limit` overflows can be empty where there are messages (`OverflowHides`); it is
  the right one exactly under the condition of `OverflowingPage`. The offset of `get_all_messages` is
  0, so the application does not get there.
* A frame longer than 32 bits can say is cut (`FourGigabytes`), and its message is read back exactly if
  it was not (`MessageSurvivesIff`). The application bounds messages by 1 MiB, so it does not get there.

## Model

| member | source | states |
|---|---|---|
| Connection.ShouldSwitch | src/protocols/chat.rs:248-297 | a new handle is refused exactly if a connection of the other origin is held and the new origin is not the preferred one: Dial at the lower endpoint id, Accept at the higher |
| Connection.ChatConnection.constructor | src/protocols/chat.rs:83-95 | a new connection is disconnected, publishes that, and has shut down nothing |
| Connection.ChatConnection.Accepted | src/protocols/chat.rs:108-121 | a connection made from an accepted handle is connected with it and publishes its id |
| Connection.ChatConnection.UpdateHandle | src/protocols/chat.rs:242-338 | a handle of the other origin that is not the preferred one is shut down and the held one gets a new id; any other takes its place and the held one is shut down; either way one notification publishes the id held |
| Connection.ChatConnection.Close | src/protocols/chat.rs:341-366 | whatever the state, the peer is disconnected afterwards, a held handle is shut down, and a change is published |
| Connection.ChatConnection.DisconnectIfIdMatches | src/protocols/chat.rs:368-395 | a disconnect with the current id shuts the held handle down and publishes it; any other changes nothing |
| Connection.ChatConnection.SetReconnectingIfDisconnected | src/protocols/chat.rs:397-417 | a dial is claimed exactly if the peer is disconnected; it is then reconnecting, and this is published; otherwise nothing changes |
| Connection.ChatConnection.SetDisconnectedIfReconnecting | src/protocols/chat.rs:419-438 | a failed dial disconnects exactly a reconnecting peer, and publishes it; otherwise nothing changes |
| Connection.MirrorsIsPublish | src/protocols/chat.rs:451-461 | the public state is disconnected, reconnecting or connected exactly as the guarded one, with the id of the handle held |
| PeerPair.StepKeepsInv | src/protocols/chat.rs:162-438 | every step of either peer, of a spawned task or of the transport keeps the invariant: fresh handles, conservation, accounted ends, harmless notices, backed dials, mirrored state |
| PeerPair.QuiescentAgreement | src/protocols/chat.rs:242-395 | in every run, when no handle and no close detection is pending, both peers are unconnected or both hold the two ends of one connection |
| PeerPair.HandleConservation | src/protocols/chat.rs:299-319 | in every run, of all handles given to a peer exactly the current one is not shut down; a spawned disconnect has an effect only on the current id of an already closed connection |
| PeerPair.NeverStuckReconnecting | src/protocols/chat.rs:192-239 | in every run, a reconnecting peer has a dial outstanding, and whatever comes of any outstanding dial ends the reconnecting |
| PeerPair.StartLeavesDisconnected | src/protocols/chat.rs:192-204 | `reconnect` makes a disconnected peer reconnecting and leaves any other alone |
| PeerPair.OneDialAtATime | src/protocols/chat.rs:192-239 | between two claims of one peer, a dial of it came back without a connection, a handle reached it, or it was closed |
| PeerPair.PublishedMirrors | src/protocols/chat.rs:299-331 | in every run, what is published tells the state of the peer and the id it holds |
| PeerPair.NoMissedResync | src/manager.rs:199-239 | in every run, a manager that has seen the latest notification of a connected peer last reset its synchronisation for the current id |
| PeerPair.ObserveCatchesUp | src/manager.rs:226-239 | in every run, looking at the notification leaves the manager with the latest one seen and a reset for the id the peer holds |
| PeerPair.EveryHandleIsNews | src/protocols/chat.rs:312-331 | every handle given to a peer, taken or refused, publishes an id that was not current and that no notice carries |
| PeerPair.SettlesInBoundedSteps | src/protocols/chat.rs:242-395 | without new dials and failures, the number of deliveries and disconnects in any order is bounded by what was pending |
| PeerPair.UnsettledCanStep | src/protocols/chat.rs:162-189 | a state with something pending can always settle further |
| PeerPair.CanSettle | src/protocols/chat.rs:162-395 | every reachable state can come to rest by itself, without another dial |
| Glare.DecisiveTaken | src/protocols/chat.rs:263-293 | a dial of the decisive peer is taken at both ends, and no other connection displaces it |
| Glare.GlareStep | src/protocols/chat.rs:242-338 | every step keeps: a peer holds the last decisive connection it processed until it is closed, and such a connection is closed exactly if a peer has gone on to a later one |
| Glare.GlareConverges | src/protocols/chat.rs:242-338 | in every run without transport failures that has come to rest, both peers are on the last decisive connection if both processed the same one last, and on no decisive connection otherwise |
| Glare.SettlesConverged | src/protocols/chat.rs:242-395 | however a run without transport failures goes on by itself, without new dials, until it rests, it converges |
| Glare.CanConverge | src/protocols/chat.rs:242-395 | every run without transport failures in which the decisive peer has connected can go on by itself to a converged state |
| Glare.SameOrderConverges | src/protocols/chat.rs:242-338 | if both peers process the decisive dials in one order, both end on the last of them |
| ChangeGraph.HeadsGenerate | src/persistence.rs:355 | every change of a document is in the history of one of its heads |
| ChangeGraph.HeadsAreLeast | src/persistence.rs:355 | no head is in the history of another, and whatever generates the document has all of them |
| ChangeGraph.SaveAfterComplements | src/persistence.rs:344 | `save_after` returns exactly the changes that the given heads do not stand for |
| ChangeGraph.IntegrateIsLargest | src/persistence.rs:474-475 | applying changes loses none, keeps the document closed, and applies all whose history is there |
| ChangeGraph.OnTop | src/persistence.rs:159-169 | a change committed on a document is new to it and has exactly the document in its history |
| ChangeGraph.ListsPrefix | src/persistence/schema.rs:88-96 | two readings of a chain and of a part that holds its own history agree as far as the shorter goes |
| Store.RowsAboveCut | src/persistence.rs:493-499 | deleting up to any id leaves exactly the rows with larger ids, the end of the log |
| Store.CompactionKeepsContent | src/persistence.rs:480-501 | compaction removes exactly the rows read and keeps snapshot and log as a set of changes, whatever was appended after the read |
| Repository.LoadKeeps | src/persistence.rs:458-506 | loading returns exactly what the tables hold and keeps it there |
| Repository.LoadCreates | src/persistence.rs:507-534 | loading a missing chat stores and returns its set-up change |
| Repository.LoadBoundsLog | src/persistence.rs:477-501 | after loading, the log is empty if it was longer than 512 rows, and untouched otherwise |
| Repository.NothingToSave | src/persistence.rs:344-346 | there is nothing to insert exactly if the tables hold the document |
| Repository.PersistIsExact | src/persistence.rs:341-359 | a successful save makes the tables equal to the document, including what earlier failures left; a failed one changes nothing |
| Repository.LogIsExact | src/persistence.rs:143-176 | after any sequence of adds, receives, failed or successful INSERTs and resets, the tables hold exactly what the saved heads stand for, never more than the document, never less than before |
| Repository.ChatRepository.constructor | src/persistence.rs:115-136 | a repository starts from what its tables hold |
| Repository.ChatRepository.LoadPersisted | src/persistence.rs:444-543 | one loader: the document is exactly what the tables held, a log of more than 512 rows is emptied and any other kept, a missing chat is created |
| Repository.ChatRepository.PersistChat | src/persistence.rs:341-359 | one row with exactly the changes the tables do not have is appended, or nothing changes; success means the tables hold the document |
| Repository.ChatRepository.Add | src/persistence.rs:143-176 | the document gets one change: the given message in the name of the peer, with all of the document in its history, creating the list exactly if the peer had none; it is saved exactly if the INSERT succeeds |
| Repository.ChatRepository.Receive | src/persistence.rs:244-256 | the document gets the largest part of the changes that can be applied, saved or not; a rejected message changes nothing |
| Repository.ChatRepository.ResetDocStateToPersisted | src/persistence.rs:362-373 | the document becomes exactly what the tables hold, and they keep it; a load that fails changes nothing |
| Loader.InitialDocumentRace | src/persistence.rs:450-543 | for any number of concurrent creators, at most one initial document is stored, no loop runs more than twice, and every returned document holds the initial change that was stored |
| Loader.RunKeepsBase | src/persistence.rs:450-543 | in every run with any number of loaders and repositories, which may die after any step, lossy or not: snapshots read are closed, rows left up to the largest id read are among the rows read, the tables hold nothing that was not written |
| Loader.StepLosesIff | src/persistence.rs:480-501 | in every run with any number of loaders, a step loses something exactly if it is a compaction whose loader has not read all of the snapshot it overwrites, or could not apply something it read, rows it leaves alone excepted |
| Loader.RunLosesNothingIff | src/persistence.rs:451-506 | a run keeps all that was ever written, at every moment, exactly if each of its compactions meets that condition |
| Loader.LoadIsCompleteIff | src/persistence.rs:451-475 | a load returns all that the tables hold when it reads the log exactly if what it read is closed and includes the snapshot of that moment; as long as nothing was lost, exactly if it includes that snapshot |
| Loader.CompactionLosesNothing | src/persistence.rs:451-506 | if no loader is reading while another compacts, then through any load, append and compaction cycles the tables hold exactly what was ever written, and a load has all that was written before it read the log |
| Loader.LoadReturns | src/persistence.rs:458-506 | in these runs, the document a load returns is exactly what had been written when it read the log |
| Loader.ExclusiveIsUndisturbed | src/persistence.rs:444-543 | one loader at a time meets that, also when earlier loads failed or died part-way |
| Loader.TwoLoadersLose | src/persistence.rs:451-501 | a run with two loaders at once, in which one repository adds and saves messages one after another, and saved messages are lost |
| Replication.SendSafeIff | src/persistence.rs:274-292 | sending leaves everything sent in the tables exactly if nothing in the message is still to be saved |
| Replication.SentSavedIffCareful | src/persistence.rs:274-292 | in every run, all that was sent is in the tables of its sender at every moment exactly if no message carried a change that was still to be saved |
| Replication.SavingIsCareful | src/persistence.rs:171-173 | if every INSERT succeeds, every message carries only saved changes |
| Replication.CrashConsistency | src/persistence.rs:244-272 | in every run with careful messages and restarts at any step, all a peer ever sent is in its tables and comes back with a reload |
| Replication.ForgetsNothingIff | src/persistence.rs:362-373 | in every run, every peer still has what it sent (or its own messages among it) at every moment exactly if every peer that restarts has saved it by then |
| Replication.CarefulKeeps | src/persistence.rs:341-359 | runs that send only saved changes are among these |
| Replication.SaidIsAdded | src/persistence.rs:151-168 | in every run, the changes a peer committed for messages of its own carry exactly the messages it was given, in order |
| MessageLists.SayKeepsOwn | src/persistence/schema.rs:25-42 | an append extends the author's chain, and creates the list exactly if the author had none |
| MessageLists.PrefixProperty | src/persistence.rs:143-176 | as long as every peer that restarted had saved the messages of its own that it had sent, what a replica reads of a peer's list is a prefix of what the peer itself reads |
| MessageLists.OneReading | src/persistence/schema.rs:88-96 | in the same runs, every replica has exactly one reading of every list |
| MessageLists.HasAllSaidIff | src/persistence.rs:143-176 | in every run, every peer reads in its own list exactly the messages it was given to add, in order, at every moment, if and only if every peer that restarts has saved the messages of its own |
| MessageLists.SavingKeepsOwn | src/persistence.rs:171-173 | if every INSERT succeeds, it has |
| MessageLists.PrefixOfAllSaid | src/persistence.rs:143-176 | in these runs, the messages a replica reads in a peer's list are a prefix of the messages the peer was given to add |
| MessageLists.ListCreatedOnce | src/persistence/schema.rs:32-40 | as long as every peer that restarted had saved the messages of its own that it had sent, a peer's list is created in every replica by its first append and by no other |
| MessageLists.UnsavedSendForgets | src/manager.rs:174-181 | a run of two peers that sends an unsaved message and restarts its author: the author has forgotten it, its list is created twice in the other replica, and no reading there is a prefix of the author's |
| Ordering.LastOfTails | src/persistence.rs:209-220 | the largest elements of several sorted lists are among the largest of each |
| Pagination.PageIsFullPage | src/persistence.rs:192-231 | for lists in order by time and id with unique ids, the page is the slice of the fully sorted history |
| Pagination.PageTimes | src/persistence.rs:192-231 | for lists in order by time only, the page shows the times of that slice |
| Pagination.PageLength | src/persistence.rs:222-230 | for any lists, the page has min(limit, max(0, total - offset)) messages |
| Pagination.OverflowingPage | src/persistence.rs:201 | when offset + limit wraps around, the page is right exactly if the wrapped depth covers every list or nothing is left to show |
| Pagination.OverflowHides | src/persistence.rs:201 | offset 1 and the largest limit on two messages give an empty page, where the full page has one |
| Pagination.PagesJoin | src/persistence.rs:187-231 | consecutive pages join to the end of the sorted history without gap or repetition |
| Pagination.PagesJoinToAll | src/persistence.rs:183-231 | as many pages as cover the history join to what `get_all_messages` returns |
| Pagination.InOrderIs | src/persistence.rs:216-220 | lists are in order exactly if each is oldest first by creation time, and by id within one time |
| Pagination.NewestPage | src/persistence.rs:187-231 | for lists in order, no message left out of the newest page is later than one shown |
| Pagination.AllMessages | src/persistence.rs:183-185 | exactly all messages are returned, oldest first, whatever the order inside the lists |
| Pagination.CollectCandidates | src/persistence.rs:200-214 | the candidates are the last messages of each list up to the depth |
| Pagination.GetMessages | src/persistence.rs:192-231 | the page shows stored messages, oldest first; for lists in order it is the full page, and the newest page leaves out nothing later than what it shows |
| Window.KeptIsWithout | src/persistence.rs:200-220 | the sorted candidates are the sorted history without the messages left out |
| Window.PageIsFullPageIff | src/persistence.rs:192-231 | for any lists with unique ids, the page is the slice of the fully sorted history exactly if the limit is 0, the offset skips everything, or no message beyond the depth of its list is among the newest offset + limit |
| Window.PageRanks | src/persistence.rs:187-231 | if so, each message of the page is the one with exactly as many later messages in the chat as are skipped and stand after it on the page |
| Window.SameMillisecond | src/persistence.rs:147-148 | two messages of one millisecond, the larger id first: the newest page of one shows the wrong one |
| Window.PagesJoinIff | src/persistence.rs:187-231 | for any lists with unique ids, consecutive pages join to the end of the sorted history exactly if that condition holds for each of them |
| History.HistoryIsCanonical | src/persistence.rs:183-231 | replicas with the same messages return the same history, however the messages lie in lists |
| History.Receiver.ProcessMessages | src/manager.rs:577-596 | the messages are oldest first; none is lost, none comes from elsewhere, every id of the batch is there, and none twice |
| History.ReceiverEndsCanonical | src/manager.rs:577-596 | any batching, repetition and reordering of a replica's messages ends in the history the replica returns |
| Postcard.VarintRoundTrip | src/protocols/chat/message.rs:3-10 | a variable-length integer that fits its type is read back, whatever follows |
| Postcard.DecodeEncode | src/protocols/chat/utils.rs:28-35 | decoding gives back the encoded message, whatever follows |
| Postcard.DecodeIff | src/protocols/chat/utils.rs:63-65 | bytes decode to a message exactly if they begin with an encoding of it: variant number, option tag, and for a payload its length and bytes |
| Postcard.TruncatedFails | src/protocols/chat/utils.rs:63-65 | a message that was cut short never decodes, not even to another message |
| Framing.FrameRoundTrip | src/protocols/chat/utils.rs:56-99 | a frame the writer accepts is read back whole, with nothing left in the buffer |
| Framing.FrameSurvivesIff | src/protocols/chat/utils.rs:29-36 | the body of an accepted frame is read back exactly if its length fits 32 bits |
| Framing.MessageSurvivesIff | src/protocols/chat/utils.rs:28-99 | the message of an accepted frame is read back if its length fits 32 bits, and fails to decode otherwise |
| Framing.FourGigabytes | src/protocols/chat/utils.rs:34-35 | a payload of 2^32 bytes is written without an error and cannot be read |
| Framing.FramingRoundTrip | src/protocols/chat/utils.rs:22-99 | reading all accepted frames gives exactly the messages written, then the end, with an empty buffer |
| Framing.ReceivesFirst | src/protocols/chat/protocol_handler.rs:219-238 | whatever follows accepted frames, their messages are received first, and the rest as if nothing had come before |
| Framing.TooLargeEnds | src/protocols/chat/utils.rs:88-90 | a prefix above the maximum ends the receive loop with that error, after exactly the messages before it |
| Framing.CutEnds | src/protocols/chat/utils.rs:81-98 | a stream that ends inside a prefix ends the loop as at its end; one that ends inside a body is fatal |
| Framing.Writer.WriteMessage | src/protocols/chat/utils.rs:22-39 | a message is refused exactly if it is not shorter than the maximum; otherwise its frame is appended, so that the stream holds the frames of all messages written |
| Framing.Writer.SendAll | src/protocols/chat/protocol_handler.rs:240-250 | the send loop writes the messages up to the first one that is refused |
| Framing.Transfer | src/protocols/chat/protocol_handler.rs:219-250 | from send loop to receive loop, however the bytes are chunked: the messages before the first one that is too large arrive, in order, then the end, with an empty buffer |
| Framing.Reader.Fill | src/protocols/chat/utils.rs:92-97 | however the bytes are chunked, as many as asked for are read, or all that are left |
| Framing.Reader.ReadLp | src/protocols/chat/utils.rs:76-99 | a prefix above the maximum is refused, after four bytes and with the buffer kept; a body that is all there is returned, with its length as announced; one that is not is fatal; none of it depends on the chunking |
| Framing.Reader.ReadMessage | src/protocols/chat/utils.rs:56-68 | the end is read exactly if fewer than four bytes are left, a length above the maximum is refused, and a message is what the announced body decodes to |
| Framing.Reader.ReceiveAll | src/protocols/chat/protocol_handler.rs:219-238 | the receive loop delivers the messages up to the first result that is none |
| Manager.Actor.ObserveConnectionState | src/manager.rs:226-239 | looking at a connected state resets the synchronisation for its id |
| Manager.Actor.HandleIncoming | src/manager.rs:271-340 | an accepted message clears the reset flag, is left unanswered exactly if it is empty and there is nothing to send, and is answered with changes exactly if there are some; a rejected one is answered, after a reset, exactly if no reset is outstanding; garbage and failed resets change nothing |
| Manager.StepBalance | src/persistence.rs:264-269 | a step takes one message, and adds one with a payload or an empty one exactly as it answers |
| Manager.StepCosts | src/persistence.rs:264-269 | an empty message is sent only for one with a payload |
| Manager.ExchangeDrains | src/persistence.rs:233-272 | receiving alone goes on for at most two steps per payload in flight or generated, and one per empty message |
| Manager.RestsAtEmptyMessages | src/persistence.rs:258-271 | over every run of accepted messages, the number in flight falls only where an empty message finds nothing to send, so the exchange is at rest exactly when that has happened once for each message in flight at the start |
| Manager.ChangesAreSent | src/persistence.rs:264-271 | over every run of accepted messages, changes are sent exactly as often as there are changes to send |
| Manager.AnswersGoAcross | src/manager.rs:304-309 | over every run, what is on its way to a side is what was, less what it received, and what the other side answered |
| Manager.ResetIsOneShot | src/manager.rs:310-336 | a side resets its document at most once per accepted message, plus once |
| Manager.ResetsAlternate | src/manager.rs:300-336 | over every run, resets and acceptances alternate exactly: a reset leaves the flag set until a message is accepted, and each accepted message clears it |
| Routing.AppActor.Lookup | src/app.rs:415-422 | an existing manager gets the handle and is returned |
| Routing.AppActor.Enter | src/app.rs:429-456 | a manager is built only for a chat without one; the handle goes to the chat's manager; no other entry and no other route changes |
| Routing.ManagerNeverReplaced | src/app.rs:429-456 | in every run of overlapping calls, a chat keeps its manager |
| Routing.CallsReturn | src/app.rs:415-456 | a call for a chat with a manager returns it at once; one that had to load returns the manager its chat has got meanwhile, or the next one built |
| Routing.HandlesRoutedOnce | src/app.rs:405-459 | one manager is built per chat, and the handle of a call is routed exactly once, to the manager the call returns, exactly if it returns |

## Left out

- Automerge, autosurgeon, iroh and QUIC internals: only the change-set and two-ended-connection views above.
- The queue in which Automerge keeps changes whose history is missing: such changes are not applied, may arrive again, and are not part of a snapshot saved by compaction. What `TwoLoadersLose` loses was never read by the loader that overwrites it, so it is lost either way.
- The bytes of stored documents: tables hold sets of changes.
- `extract_new_messages_from_patches`: it depends on the shape of Automerge's patches.
- The content of synchronisation messages and the Bloom filters that choose it: a message carries any changes of the document.
- The sync status notification: it records only whether the last generated message was empty.
- `list_chats_remote_peers_ids` and the display of `ChatId`: they format and split id strings and touch neither documents nor connections.
- The close-reason codes, the tryst protocol, logging, error conversion, the UniFFI surface and the benchmarks: tables, stubs and glue.
- Timers and channel capacities: ticks are steps that may happen at any time, and queues are unbounded.
- Message ids as strings: they are numbers, since only their order and equality matter.
- Shutdown of the whole application, which cancels every connection at once.
- Pagination.GetMessages: an overflowing `offset + limit` wraps around, as in a release build; the panic of a debug build is not modelled.
- Framing.Writer.WriteMessage: I/O errors of the stream are not modelled.
- Repository.ChatRepository.LoadPersisted: queries that fail are not modelled here; concurrent loads, and loads that fail or die at any step, are in `Loader.dfy`.
