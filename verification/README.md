# A verified model of the chat server

The repository is a multi-threaded chat server for Windows. A main thread accepts logins, gives
each client a slot of a table and a handler thread, reaps handler threads that have finished, and
in the end raises an exit flag. Handler threads parse what their clients send and put messages on
a queue: a doubly linked list under a mutex. They then set an auto-reset event. One sender thread
takes messages off the queue, waits on the event when there is none, and sends each message to
the slots it is for. Messages travel as a 5-byte header (type, length in network byte order, as in
Appendix B of RFC 791) and a body, over sockets that move any part of what they are asked to.

`dafny verify dfyconfig.toml` checks everything.

## How the model is built

Code that works in place is modelled in place: the linked list, the queue, the client table and
the sockets are classes, the loops are loops, and every method is proved against functions on
values (`Recipients`, `Login`, `Decode`, `Meaning`, ...), about which the theorems are stated.

| file | models |
|---|---|
| `Common`, `ByteOrder` | bytes, C strings and memory comparison; 32-bit words and their byte orders |
| `Sockets` | `server/common/SocketSendRecvTools.c`; a socket is the stream it was sent and the stream it has still to deliver, and its calls move an arbitrary positive part |
| `Protocol` | `server/common/Protocol.c` |
| `MessageParser`, `MessageSpelling` | `server/common/MessageParser.c`; the second file says what a message means in terms of its bytes alone |
| `LinkedList`, `SynchronizedQueue` | the two files of those names, as classes |
| `QueueMicroSteps`, `QueueCalls` | the same code run by any number of threads that interleave between steps, each with at most one write to the list; the second file is about the calls of a run: that they end, and do what they were called for |
| `ClientTable` | the client table as a value: slots, names, validation, routing |
| `ClientsContainer` | the table in place: `server/Server.c` and the sending loop of `server/Sender.c` |
| `Sender`, `ClientHandler` | the two kinds of thread, each one alone, against the real queue, table and sockets |
| `SystemMessages` | the welcome, joined and left messages |
| `ChatServer` | the whole server as a transition system over all its threads |
| `Invariants`, `Delivery` | what every step keeps; the second file is about who is sent what |
| `ServerRuns`, `LoginRuns` | what holds over all runs; the second file is about logins: from one to its reaping, and refused ones |
| `Termination` | a bound on every run, and what a run that cannot go on has come to |
| `Counterexamples` | a run in which a message goes to the wrong client, and one in which a client that quits stops the sender |
| `Agreement`, `HandlerRuns` | the methods on the real table, queue and sockets, up to a whole turn of the main loop, do what the steps of the transition system say |

A state of `ChatServer` holds the table, the counter, the queue, the event, the exit flag, a
program counter for every thread, and histories: everything enqueued, everything delivered, and
for every session its name, whether the server closed its socket, and what was sent to its client.
A run is any interleaving of enabled steps; the number of sessions is not bounded and slots are
reused. Any send may fail, and then the sender has ended; a send on a closed socket can only fail.

## Where the code departs from its intent

The model does what the code does.

- A refused login is meant to end there (`server/Server.c:112-115`, `server/Server.c:634`), but its
  socket is closed (`server/Server.c:628`) and control goes on to `server/Server.c:635`. With a free
  slot it takes that slot, without a name; with a full table, the second reply fails on the closed
  socket and takes the main thread out of its loop. `LoginRuns.LoginEndsAsIntendedIff` says exactly
  when a login ends as intended, with an input for each of the two failures in
  `RefusedNameTakesSlot` and `RefusedAtFullTableAborts`. A slot taken this way stops the sender
  (`RefusedSlotStopsSender`), and the server never again ends by itself (`RefusalNeverFinishes`).
- A client that quits has its socket closed (`server/ClientHandler.c:102`) while its slot is still
  valid. A message for that slot then ends the sender. `ServerRuns.SenderDrainsIff` says exactly when
  the sender can empty its queue, and `Counterexamples.QuitStopsSender` gives a run in which it cannot.
- Routing compares names, and a name can be taken again while messages of its former owner are still
  queued. `LoginRuns.SentAsMeantFromLoginIff` says exactly when a client is sent what is meant for it,
  and `Counterexamples.WelcomeGoesToNamesake` gives a run in which it is not.
- A command is recognised by its prefix, so "/quitting" quits, against the comment at
  `server/common/MessageParser.c:14-15`. `MessageParser.CommandIsSpelledExactly` gives the exact
  condition and `QuittingIsTakenForQuit` an input.
- Names are compared over as many bytes as one of the two has. `ClientTable.BroadcastIsExactIff`
  says exactly when a broadcast still reaches everybody but its sender, `PrefixNameMissesBroadcast`
  gives a table in which it does not, and `BroadcastIsExact` shows that names as the client program
  sends them (`client/client.c:273-274`, with their terminator) are not confused within a table.
- A name is refused as the server's own when it only starts with "server"
  (`ClientTable.LoginVerdictIsExact`).
- The transfer loops take the length as an `int`, so a body of 2^31 bytes or more arrives as zeros;
  `Protocol.CarriedExactly` says exactly which messages arrive as sent.
- The parser leaves the body length at -1 and sets the broadcast flag for private messages
  (`server/common/MessageParser.c:62`, `server/common/MessageParser.c:147-185`); the model keeps
  both values, and no property rests on them.

## Model

| member | source | states |
|---|---|---|
| ServerRuns.NoLostWakeUp | server/Sender.c:54-79 | In every reachable state, a sender that waits beside a non-empty queue has its event set, or some handler has yet to set it; covers the login that enqueues twice and signals once |
| ServerRuns.Conservation | server/Sender.c:51-102 | Over every run, with any number of producers: enqueued = delivered, then the message in flight, then the queue |
| ServerRuns.TableAccounting | server/Server.c:777-831 | In every reachable state the counter equals the number of valid slots and logins minus finalisations, lies within the table, and a free slot exists exactly when it is below the size |
| ServerRuns.NamesAreUnique | server/Server.c:716-774 | In no reachable state do two named clients hold the same 16 bytes, whatever bytes the logins brought |
| ServerRuns.PositionOfSession | server/Server.c:866-874 | A session not yet reaped is at exactly one position of the wait array |
| ServerRuns.FinishedThreadIsFound | server/Server.c:844-894 | Every finished thread is at exactly one position of the wait array, from which the main loop can reap it |
| ServerRuns.SessionSpeaksInOrder | server/ClientHandler.c:51-124 | What each session enqueues is a prefix of welcome, joined, left |
| ServerRuns.WireIsSubsequence | server/Sender.c:112-179 | What a client was sent is a subsequence, in order and at increasing positions, of everything enqueued, even with slots reused |
| ServerRuns.JoinedBeforeLeft | server/ClientHandler.c:51-124 | In a history that keeps to the script, "joined" stands before "left" |
| ServerRuns.NobodySeesLeftFirst | server/ClientHandler.c:51-124 | No client ever sees a session's "left" before its "joined" |
| ServerRuns.NothingOwedAtExit | server/Server.c:216-258 | When the sender has left, nothing is in flight, every handler was reaped, and whatever is still queued has no recipient |
| ServerRuns.ShutdownIsBounded | server/Server.c:258-270 | Once no client is left, every run under every interleaving is bounded by a measure linear in the queue |
| ServerRuns.ShutdownStep | server/Server.c:258-270 | During shutdown every step of every thread lowers that measure and keeps the server shutting down |
| ServerRuns.ShutdownIsNeverStuck | server/Server.c:258-270 | Until main has finished, main or the sender can take a step |
| ServerRuns.ShutdownEnds | server/Server.c:258-270 | A shutdown that cannot go on has main's wait returned and the sender ended |
| ServerRuns.ExitSignalIsSeen | server/Server.c:258-265 | After main has signalled, the flag is up and the event is set, or the sender is at its exit check, or it has ended |
| Termination.StepWorks | server/Server.c:216-270 | Every step of every thread, but a connection and an ignored message, takes away from a measure that is linear in the queue and the sessions; a connection brings the work of one session |
| Termination.RunIsBounded | server/Server.c:216-270 | Every run from any reachable state, under every interleaving, is bounded by the work at its start and what its connections and ignored messages bring |
| Termination.StuckHasEnded | server/Server.c:216-270 | A state in which only a connection could go on has main finished or aborted, or still waiting for the first connection |
| ServerRuns.SenderDrainsIff | server/Sender.c:51-102 | With idle handlers and the flag down, the sender alone can empty its queue exactly when nothing in hand or queued is for a socket the server has closed, and then within steps linear in the queue; otherwise all that is left, within that number, is a send that fails |
| ServerRuns.DrainedServesEverybody | server/Sender.c:51-155 | In every state with nothing in hand or queued, every live client was sent all that it is due, each message once and in order |
| Delivery.OwedBecomesSent | server/Sender.c:126-155 | A step of the sender moves messages from what a client is owed to what it was sent, in order, and changes their concatenation for nobody |
| Delivery.AccountedKept | server/Sender.c:51-155 | Every step of every thread keeps: what a live client was sent, then what it is owed, is exactly what it is due |
| Delivery.NameKept | server/ClientHandler.c:157-222 | Every step keeps: a live session's name is the one in its slot, and every message enqueued is the one for its kind and the name of its origin |
| Delivery.ClosedKept | server/Server.c:628 | Every step keeps: the closed sockets are those of refused logins and of clients that quit, and a refused session never ends well |
| Delivery.MeetKept | server/Server.c:716-774 | Every step keeps: while a named client lives nobody else enqueues under its name |
| Delivery.SentAsMeantIff | server/Sender.c:126-155 | In a state whose accepted names are proper, a live client was sent and is owed what is meant for it exactly when no message of a namesake was coming at its login |
| LoginRuns.SentAndOwedIsDue | server/Sender.c:51-155 | From a client's login to its reaping, over every interleaving of logins, handlers, sender and failures: sent and still owed are the messages coming at the login and enqueued since that pass its name test, each once and in order |
| LoginRuns.SentAsMeantFromLoginIff | server/Sender.c:126-155 | Over every such run with proper names, these are its own welcome and everybody else's joined and left exactly when no message under its name was coming at its login |
| LoginRuns.WireHasTheRightNames | server/Sender.c:134-135 | In every reachable state with proper names, a log holds a welcome only under its session's own name, and joined and left only under other names |
| Counterexamples.WelcomeGoesToNamesake | server/Sender.c:134-135 | For any two proper names, a run with all logins proper and accepted in which the welcome of one client is sent to a later one of the same name |
| Counterexamples.QuitStopsSender | server/ClientHandler.c:100-109 | For any two proper names, a run with all logins proper and accepted in which a client quits while its welcome is queued: no number of sender steps empties the queue, and a send that must fail is reached |
| LoginRuns.LoginEndsAsIntendedIff | server/Server.c:601-683 | A login ends as intended exactly when it is neither a name that clashes with "server" nor one that a client answers to |
| LoginRuns.RefusedNameTakesSlot | server/Server.c:601-643 | The name "server", refused, takes a slot without a name and with a closed socket |
| LoginRuns.RefusedAtFullTableAborts | server/Server.c:601-681 | A name asked for again at a full table takes the main thread out of its loop |
| LoginRuns.RefusedSessionStays | server/ClientHandler.c:80-86 | A refused session is sent nothing, is never reaped, and keeps the main thread from raising the exit flag |
| LoginRuns.RefusalNeverFinishes | server/Server.c:216-258 | After a refused login got a slot, every run stays in the main loop or leaves it by an error |
| LoginRuns.RefusedSlotStopsSender | server/Sender.c:134-141 | At such a slot every message passes the test, and the only step the sender has is to fail |
| ServerRuns.StepKeepsInv | server/Server.c:216-270 | Every step of every thread keeps the table, conservation, wake-up, exit, name, order, log, accounting and delivery invariants |
| Invariants.TableInvKept | server/Server.c:552-831 | Every step keeps slots, sessions and the counter in one-to-one agreement |
| Invariants.WakeInvKept | server/Sender.c:64-84 | Every step keeps: a waiting sender with work has a signal set or on its way |
| Invariants.ExitInvKept | server/Server.c:258-265 | Every step keeps: the flag is raised only with no client, and its signal is not lost to an earlier one |
| Invariants.OrderKept | server/ClientHandler.c:127-259 | Every step keeps each session's messages in step with the state of its thread |
| Invariants.WireKept | server/Sender.c:126-155 | Every step keeps each client's log made of delivered messages at increasing positions |
| QueueMicroSteps.NeverUnsafe | server/common/LinkedList.c:26-139 | No interleaving dereferences NULL or a freed node |
| QueueMicroSteps.StepKeepsInv | server/common/SynchronizedQueue.c:86-168 | Every step, with at most one write to the list, keeps mutual exclusion and the exact shape the list has at that point of the operation |
| QueueMicroSteps.StepRefines | server/common/SynchronizedQueue.c:86-168 | Every micro-step is one step of an atomic FIFO queue or leaves it as it is |
| QueueMicroSteps.RunsRefineAtomicQueue | server/common/SynchronizedQueue.c:86-168 | Every run of any number of threads is a run of the atomic queue; one thread at a time is in the critical section, and the list is well formed whenever the mutex is free |
| QueueMicroSteps.AtomicQueueIsFifo | server/common/SynchronizedQueue.c:86-168 | Over every run of the atomic queue, the values got are the values put, in order, short of those still queued |
| QueueMicroSteps.RunsAreFifo | server/common/SynchronizedQueue.c:86-168 | The same for every interleaving of pointer steps |
| QueueCalls.CallsTakeEffect | server/common/SynchronizedQueue.c:77-179 | Every run of any number of threads is at most 8 steps a call; what each thread has put in the queue is the data of its own Enqueue calls, in order, short of at most its last one, and all of it when the run cannot go on without a new call |
| QueueCalls.PushedIsCalled | server/common/SynchronizedQueue.c:77-127 | The same history, from any state that the invariant admits |
| QueueCalls.RunIsBounded | server/common/SynchronizedQueue.c:77-179 | From any such state a run is bounded by what its threads have still to do and 8 steps for each call made in it |
| QueueCalls.NeverDeadlocked | server/common/SynchronizedQueue.c:86-168 | While a thread is in a call, the owner of the mutex, or that thread when it is free, has a step that brings it nearer to its return |
| QueueCalls.OnlyOneStep | server/common/SynchronizedQueue.c:86-168 | What a thread in a call does next is determined, up to the address of a new node |
| QueueCalls.EnqueueAlone | server/common/SynchronizedQueue.c:77-127 | An Enqueue that runs alone from any state with the mutex free can always go on until it returns, within 7 steps, has then appended its data and freed the mutex |
| QueueCalls.DequeueAlone | server/common/SynchronizedQueue.c:129-179 | A Dequeue that runs alone likewise returns, with the head taken off and handed out, or with the queue reported empty |
| QueueMicroSteps.ListAtRest | server/common/LinkedList.c:26-139 | With the mutex free, the walk from head gives the queue, the walk from tail its mirror, and no node is leaked |
| LinkedList.LinkedList.Add | server/common/LinkedList.c:26-57 | Appends one entry on a fresh node and keeps every other node; a null entry changes nothing |
| LinkedList.LinkedList.Delete | server/common/LinkedList.c:59-99 | Removes the first entry with that identity and its node only; fails exactly when there is none |
| LinkedList.LinkedList.FindFirst | server/common/LinkedList.c:70-78 | The walk stops at the first node with that entry, or finds that there is none |
| LinkedList.LinkedList.Unlink | server/common/LinkedList.c:70-95 | Taking one node out of the chain leaves it linked both ways |
| LinkedList.LinkedList.RemoveFirst | server/common/LinkedList.c:101-139 | Pops the head, and reports emptiness exactly |
| LinkedList.LinkedList.Free | server/common/LinkedList.c:141-162 | Frees every node exactly once, in order |
| LinkedList.LinkedList.WalksMirror | server/common/LinkedList.c:26-139 | The chain is acyclic, and the backward walk from tail is the reverse of the forward walk from head |
| SynchronizedQueue.SynchronizedQueue.Enqueue | server/common/SynchronizedQueue.c:77-127 | Appends at the end and leaves the mutex free |
| SynchronizedQueue.SynchronizedQueue.Dequeue | server/common/SynchronizedQueue.c:129-179 | Takes the oldest entry, or reports the queue empty |
| Sockets.SendBuffer | server/common/SocketSendRecvTools.c:17-38 | Ends for every schedule of partial sends; success means exactly the n bytes went out, failure a proper part of them |
| Sockets.ReceiveBuffer | server/common/SocketSendRecvTools.c:70-93 | Ends for every schedule; success means exactly the next n bytes of the stream and no more taken; a disconnection only if the stream ended before n bytes |
| ByteOrder.SwapTwice | server/common/Protocol.c:43 | Swapping a length twice restores every 32-bit value |
| ByteOrder.SwapIsNetworkOrder | server/common/Protocol.c:43 | A swapped length lies in memory most significant byte first |
| Protocol.BuildChatMessage | server/common/Protocol.c:21-78 | The outgoing message stands for the given type and body; refused exactly for a null body |
| Protocol.SendChatMessage | server/common/Protocol.c:95-133 | Success means exactly one frame went out, failure a proper part of one |
| Protocol.ReceiveChatMessage | server/common/Protocol.c:136-207 | Exactly one decoding step of the stream for every chunking; on a reliable socket it fails exactly when no whole frame is there |
| Protocol.HeaderThenBodyIsFrame | server/common/Protocol.c:95-133 | The header as it lies in memory and the body are the frame of the message |
| Protocol.FrameDecodes | server/common/Protocol.c:136-207 | A frame decodes to its message and takes no byte of what follows |
| Protocol.FrameByBytes | server/common/Protocol.c:95-133 | Byte for byte, a frame is the type, the four digits of the length from the highest on, and the body, if its length is below 2^31 |
| Protocol.StreamRoundTrip | server/common/Protocol.c:95-207 | Receiving after sending any list of messages yields that list, as it is carried, and then whatever follows |
| Protocol.StreamIdentity | server/common/Protocol.c:95-207 | Below 2^31 bytes the list comes back unchanged, with nothing left |
| Protocol.CarriedExactly | server/common/SocketSendRecvTools.c:17-38 | A message arrives as sent exactly when its body is below 2^31 bytes or all zero |
| Protocol.NoPrefixDecodes | server/common/Protocol.c:160-188 | No proper prefix of a frame decodes as a message |
| Protocol.CutStream | server/common/Protocol.c:160-188 | A stream cut at any byte yields exactly its whole messages and leaves the rest |
| Protocol.WholeFramesBounds | server/common/Protocol.c:160-188 | The messages counted as whole are all that end before the cut, and only those |
| Protocol.LeftoverIsCutShort | server/common/Protocol.c:160-188 | What is left when receiving stops holds no message |
| Protocol.FramesAreUnambiguous | server/common/Protocol.c:95-207 | Equal streams carry equal lists of messages |
| MessageParser.ParseMessage | server/common/MessageParser.c:50-243 | For every message that can be received (below 2^31 bytes, or zeros as longer bodies arrive): rejected exactly on an empty body, stopped exactly where a copy would run past its buffer, and otherwise the offsets and copies yield the meaning of the syntax |
| MessageParser.FindChar | server/common/MessageParser.c:265-276 | The first occurrence among the first bytes, or -1 exactly when there is none |
| MessageParser.FindCommand | server/common/MessageParser.c:115-135 | The search of the command table gives the command the word starts with |
| MessageParser.RequestIsGrammar | server/common/MessageParser.c:97-203 | For every message the request is that of a declarative grammar over slash, command and number of spaces |
| MessageParser.ReadTiles | server/common/MessageParser.c:97-186 | The parts a message is split in concatenate back to it |
| MessageParser.ReadOfPrint | server/common/MessageParser.c:97-186 | Every well-formed syntax is read back from its printed form, so the grammar is unambiguous |
| MessageParser.PrivateTiles | server/common/MessageParser.c:147-186 | Slash, command, space, user, space and body of a private message are the original bytes, and only private messages have a user |
| MessageParser.PrivateRoundTrip | server/common/MessageParser.c:147-186 | A private message written out is parsed to the same space-free user and body |
| MessageSpelling.WordsDecide | server/common/MessageParser.c:97-203 | Whatever follows them, "/quit" and "/active_users" are taken for these commands exactly with at most one space, "/private_message" exactly with two or more, and are invalid otherwise |
| MessageSpelling.OtherWordsAreInvalid | server/common/MessageParser.c:115-135 | A message that starts with a slash and none of these three words is invalid |
| MessageSpelling.PlainIsBroadcast | server/common/MessageParser.c:139-186 | Without a slash the whole message is for everybody |
| MessageSpelling.PrivateAsSpelled | server/common/MessageParser.c:147-186 | "/private_message ", a space-free user, a space and any text are parsed to that user and text |
| MessageSpelling.FitsByPositions | server/common/MessageParser.c:115-180 | A copy runs past its buffer exactly when the first space of a command has more than 20 bytes between it and the slash, or the first two spaces of a private message more than 17 between them |
| MessageParser.CommandIsSpelledExactly | server/common/MessageParser.c:14-15 | A word is taken for the command it spells, and no other, exactly when only the end of the string follows a command it starts with |
| MessageParser.QuittingIsTakenForQuit | server/common/MessageParser.c:124-129 | "quitting" is taken for "quit" |
| ClientTable.ValidSlotsBijective | server/Server.c:866-874 | The map from wait positions to slots is strictly increasing, onto the valid slots |
| ClientTable.FirstFree | server/Server.c:777-793 | The lowest free slot, and none exactly when all are taken |
| ClientTable.FreeSlotExists | server/Server.c:777-793 | A slot can be had exactly when the counter is below the size |
| ClientTable.LoginKeepsNames | server/Server.c:716-774 | A login with any bytes keeps the names of the table different |
| ClientTable.VerdictByBytes | server/Server.c:716-774 | For any bytes: malformed exactly with another type than 0 or more than 16 bytes; else refused exactly when they start "server", start with it, or start the name field of a client; else accepted as they are |
| ClientTable.LoginVerdictIsExact | server/Server.c:731-769 | Among proper names a login is refused exactly when somebody has that very name or it starts with "server" |
| ClientTable.CompareIsEquality | server/Sender.c:134-135 | For proper names the length-limited comparison is equality of strings |
| ClientTable.BroadcastIsExactIff | server/Sender.c:126-155 | For any bytes, a broadcast reaches everybody but its sender exactly when no other name starts the sender's and none concerned is all NUL |
| ClientTable.BroadcastIsExact | server/Sender.c:126-155 | Among proper names a broadcast goes to every valid slot except its sender's |
| ClientTable.AddressedIsExact | server/Sender.c:126-155 | Among proper names an addressed message goes to the one slot of that name, or to none |
| ClientTable.PrefixNameMissesBroadcast | server/Sender.c:134-135 | "ab" and then "abc", both accepted without terminators into an empty table: "ab" misses the broadcasts of "abc" |
| SystemMessages.SessionWords | server/ClientHandler.c:157-222 | The three messages of a client with a proper name, word for word, as messages of type 2 |
| SystemMessages.PassesAsMeant | server/ClientHandler.c:157-222 | A proper name passes the test for a session's message exactly as meant: the welcome of its own name, the announcements of every other, also of refused clients |
| SystemMessages.SessionMessagesReach | server/ClientHandler.c:157-222 | Among proper names the welcome reaches its client only, the announcements everybody else |
| ClientsContainer.ClientsContainer.constructor | server/Server.c:420-504 | A fresh table is all free slots, with counter 0, event and flag down, and an empty queue |
| ClientsContainer.ClientsContainer.AllocateClientContainer | server/Server.c:777-793 | The lowest free slot, counted; succeeds exactly below the size |
| ClientsContainer.ClientsContainer.GetClientByUsername | server/ClientHandler.c:545-614 | The first valid slot that answers to the bytes, and none exactly when no slot does |
| ClientsContainer.ClientsContainer.ValidateLoginRequest | server/Server.c:716-774 | The early exits and the search give the verdict the lemmas on names are about |
| ClientsContainer.ClientsContainer.TakeSlot | server/Server.c:635-664 | Filling the allocated slot step by step makes the table of a login |
| ClientsContainer.ClientsContainer.HandleNewConnection | server/Server.c:552-713 | Success means a whole request, and no byte more, taken off the stream that is accepted, or refused with a free slot: the slot taken, the reply sent, and the socket closed after a reply; a failure changes nothing in the table; on a reliable socket it fails exactly for a cut or malformed request, or a refused one at a full table, and then has sent nothing, or the one refusal |
| ClientsContainer.ServeFrame | server/Server.c:552-713 | From the bytes of one message on a reliable connection: with another type than 0 or more than 16 bytes it fails and changes nothing; an accepted name and its length fill the lowest free slot, zeros behind it, and exactly the frame is taken off the stream; a refused one takes that slot without a name, is answered and closed; with a full table either is answered and closed, and only the refused one fails |
| ClientsContainer.ClientsContainer.HandleThreadFinalization | server/Server.c:796-831 | A thread that succeeded frees its slot and is discounted; one that failed changes nothing |
| ClientsContainer.ClientsContainer.FillWaitArrays | server/Server.c:844-874 | Exactly positions 1 to the number of clients are filled, with the valid slots in order and their threads, within the arrays |
| ClientsContainer.ClientsContainer.WaitForEvent | server/Server.c:834-911 | A wait that does not fail reports the listener exactly when there is a connection; else the lowest slot whose thread has finished; and goes on only when there is neither |
| ClientsContainer.ClientsContainer.SendMsgToDests | server/Sender.c:112-179 | Success sends one frame to every recipient, none of them closed, and nothing to anybody else; a failure is at a recipient whose connection is down, and nobody has more than a first part of that |
| Sender.RunSender | server/Sender.c:27-109 | Everything queued goes to exactly its recipients in queue order before the thread blocks or ends; how it ends for every event and flag; with reliable connections a send fails exactly when a queued message is for a closed socket |
| Sender.ClientReceivesItsMessages | server/Sender.c:112-179 | From the queue through frames and chunks to a client: it decodes exactly the messages that are for its slot, in order |
| ClientHandler.HandleSuccessfulLogin | server/ClientHandler.c:127-259 | Two messages, in order, and one signal |
| ClientHandler.HandleQuitCommand | server/ClientHandler.c:340-370 | One message and one signal |
| ClientHandler.HandleClient | server/ClientHandler.c:51-124 | What a handler enqueues, and whether it closes its socket, is fixed by how it ends, and on a reliable open socket that is a function of its client's bytes, for every chunking; it never ends well on other bytes or a closed socket |
| ClientHandler.HandledByBytes | server/ClientHandler.c:80-116 | By its bytes alone: a message is ignored, quits, fails the handler or runs past a buffer exactly as the grammar and the positions of its first two spaces say |
| ClientHandler.EndIsDecided | server/ClientHandler.c:80-116 | For all bytes a client may send, the first of its messages that is not ignored decides: the handler succeeds exactly when that is a quit, and runs past a buffer exactly when that does |
| ClientHandler.EndOfMessages | server/ClientHandler.c:80-116 | The same from the client's side, for any list of messages it sends and any cut-off start of another one |
| ServerRuns.ExitNeedsConnection | server/Server.c:216-258 | In every run, the exit flag is raised only after a connection was handled |
| Agreement.WaitStep | server/Server.c:834-911 | What the wait answers is what the main thread can do in the transition system: the lowest position it can reap from, with the slot of that position, and a wait that goes on only when there is none |
| Agreement.MainTurn | server/Server.c:216-248 | A turn of the main loop, wait and branch together, is one step of the main thread of the transition system, a connection first; it waits on exactly when there is nothing to do, and leaves the loop exactly when the step, or the wait, fails |
| Agreement.RequestOfFrame | server/Server.c:585-597 | The request a connection brings is the type, the length and the bytes of its first message |
| Agreement.ConnectionStep | server/Server.c:552-713 | The method on the real table and socket is the main thread's step for the request the connection brings, also when that is malformed or refused, and for a failure only when the connection is down; it succeeds exactly when the step stays in the main loop, and closes the sockets that the step says |
| Agreement.FinalizationStep | server/Server.c:796-831 | The method is the step that reaps the thread |
| Agreement.SenderRun | server/Sender.c:27-109 | With reliable connections the sender method is the drain of the transition system: it fails exactly when that cannot be completed, and otherwise sends every live client the frames of what the drain puts on its log |
| HandlerRuns.HandlerRun | server/ClientHandler.c:51-124 | For all bytes of a client, a run of its handler's steps in the transition system that ends as the method does, and what it enqueues |
| HandlerRuns.HandledByBytes | server/ClientHandler.c:80-116 | In the transition system too, the bytes decide whether a message is ignored, says goodbye or fails the handler |
| HandlerRuns.HandlerThread | server/ClientHandler.c:51-124 | The handler method, on a reliable connection, queues the same messages, closes the socket or not, and ends the same way as that run |
| Agreement.SenderAgrees | server/Sender.c:112-179 | What the sender method sends to a live session's socket is, message for message, what the transition system says the session is due of the queue |

## Left out

- Windows: threads, mutexes, events and sockets are primitives. A mutex and an auto-reset event are fields, a thread is a program counter, and `WaitForMultipleObjects` returns the lowest signalled position, or none as long as there is none, or a failure unless the wait is said to be reliable. The event of the listener is not made or closed.
- The main thread changes the table without `clients_mutex`. Each login and each finalisation is one atomic step of `ChatServer`; what is seen of a half-written slot is not modelled.
- The visit of one slot by the sender is one step of `ChatServer`, and so are parsing a quit message and enqueuing "left". Queue operations are one step each, which `QueueMicroSteps` justifies; that module and `ChatServer` are not composed into one transition system.
- A wire log of `ChatServer` holds messages, not bytes, and a failed send leaves nothing on it; the bytes, and the part of a frame that a failed send may leave, are in `Protocol` and `Sender`.
- Sender.RunSender: models the thread alone, up to where it would block, with nothing enqueued and no slot changed meanwhile. `Agreement.SenderRun` makes it a run of `ChatServer`, where other threads interleave with those steps.
- ClientHandler.HandleClient: models the thread alone, up to its end or to a message that runs past a buffer, so that its messages stand together in the queue. `HandlerRuns.HandlerThread` makes it a run of `ChatServer`, where other threads interleave with those steps.
- A closed socket is never handed out again. On Windows a later `accept` may return the same value while the old slot is still valid, and what is sent to that slot would then reach the new client.
- HandlerRuns.HandlerThread: asks that no message of the client runs past a buffer of the parser.
- MessageParser.ParseMessage: stops where the first space of a command lies beyond the 20 bytes of the command buffer, or the user of a private message does not fit its field; the code checks neither and what it does then is undefined. `ChatServer` takes such a message as if it had fitted. A body of 2^31 bytes or more that is not all zero, which cannot be received, is not modelled. The bytes of `dest_user` after the user, which the code leaves unset, are not modelled.
- ClientsContainer.ClientsContainer.HandleNewConnection: takes the text of the "already taken" reply as a parameter, since the code formats it from a buffer it has not filled (server/Server.c:605). A failed creation of the thread is not modelled.
- LinkedList.LinkedList.Delete: identity of entries is equality of the type parameter.
- The 17th byte of name fields, which the code never compares; a name without a NUL ends at 16 bytes when it is formatted.
- Failures of memory allocation, of the mutex and of the event, with the clean-up that follows them; sizes of heap buffers.
- Command-line parsing, but for the bound of 1 to 63 clients that the constructor asks for.
- Handlers that are stubs (private, broadcast and active-users requests) and the commands that are not compiled in.
- `SendString` and `ReceiveString`, exit codes, the client program, and logging, also the line that reads a name through a null pointer when the table is full (server/Server.c:666).
