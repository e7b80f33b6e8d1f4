# Soprano in Dafny

A model of the parts of the Soprano RDF framework whose correctness rests on more than one function, and
proofs about it.  `dafny verify dfyconfig.toml` checks the whole project.

| files | what they model |
|---|---|
| MultiMutex | the re-entrant read / single-write lock of the redland backend, every statement an atomic step of one of any number of threads |
| Bytes, Rdf, BindingSet, Codec, DataStream | the binary codec: what is written, what is read, and the streams that do it |
| Transport | the loops that move bytes in pieces over a device and a socket |
| Protocol, ModelPool, Server, ServerConnection | the commands, the model ids, the server's dispatcher and its three iterator tables |
| ClientConnection, Session, ClientModel | the client's stubs, a whole exchange, whole sessions, and the lists of open iterators |
| Backend, Transparency | what the calls behind the server mean, and that a client gets over the wire what direct calls give |
| Document, IndexState, CLuceneIndex, IndexFilter, IndexFilterModel | the documents of the full-text index, its write-back cache and transactions, and the model that keeps it beside a store |
| LanguageTag | matching and lookup of language tags |
| QtText, N3, DateTime | printing and parsing of literals, blank nodes, dates and times |
| NRL | cardinality restrictions and named graphs |
| Wrappers | an option type |

Code that changes state in the source is a class or a method with loops here; each is proved against a function
on values, and the theorems about runs, sessions and round trips are proved about those functions.  What the
source takes from outside is a parameter: what the backend answers and the random numbers drawn during a
command, how a device fragments its bytes, the order in which a model lists statements, what queries mean and
which calls fail, the rows of the restriction query, the calendar, and the conversion of printed literal values.

The layers of the protocol are proved apart and composed: Transport shows that both transports deliver exactly
the bytes asked for however they are fragmented (the predicate `Bytes.Delivers`), which is the contract of the
primitive read of DataStream; Codec shows that reading undoes writing whatever follows; Server shows that serving
the bytes of a request is performing it; Session follows whole sequences of exchanges; and Transparency compares
them, value by value and error by error, with the same calls made directly on a backend.

## Where the code departs from its documentation or its standards

The model follows the code; the rows below name the members.

- Lookup of language tags accepts prefix matches where section 3.4 of RFC 4647 asks for equality
  (LanguageTag.LookupDeparts); the two agree exactly for choices that hold their own prefixes first
  (LanguageTag.EqualityAgreesExactly), and on the lone wildcard only if there is no choice at all
  (LanguageTag.LoneWildcard).
- The N3 printer escapes eight characters and the parser knows four of the escapes, so that tabs, backspaces,
  form feeds and apostrophes come back as their escape sequences (N3.DecodeRecoversExactly).
- Fractions of a second with more than three digits are not rounded but misread, except for zeros
  (DateTimes.LongFractionsAreMisread, DateTimes.LongFractionsAreRightIfZero).
- An offset moves the time of day without moving the date, which is right exactly within the day
  (DateTimes.DateTimeReads, DateTimes.OffsetsAreRightWithinTheDay).
- A payload command on a dead model id leaves its payload in the stream (Server.AlignedExactly), which can cost an
  iterator (Sessions.StrandedPayloadBreaksAgreement); and a binding set with a repeated name announces more
  entries than it writes (Codec.BindingsReadExactly).
- A literal that comes back with a datatype of its own can lose it on the next trip (Codec.SecondTripLosesDatatype).
- Removing an unknown model name removes whatever has id 0 (ModelPools.RemoveKeepsConsistent).
- Within the first transaction of a new index, removed statements stay indexed (IndexFilters.CarelessRemovalIsLost),
  and a pattern removal that the parent model refuses has changed the index already (IndexFilters.HappenKeepsExact).
- A statement that is refused as invalid still clears what it stands for under a limit of 1, and removing the graph
  of an empty URL empties the store (NRL.InvalidRemovesUnderLimitOne, NRL.RemovingNoGraphRemovesAll).

## Model

| member | source | states |
|---|---|---|
| MultiMutex.ReachableInv | backends/redland/multimutex.cpp:59-99 | Any number of threads, any interleaving of single statements: every thread's program point, the two mutexes, the read/write lock and the three shared fields agree in every reachable state, although two fields are written without lockMutex |
| MultiMutex.MutualExclusion | backends/redland/multimutex.cpp:59-99 | No reader beside a writer, at most one reading and one writing thread, and lockedForWrite only while some thread writes |
| MultiMutex.HeldIsBalance | backends/redland/multimutex.cpp:59-99 | What a thread holds is the number of its lock calls minus its unlock calls, up to the call in flight |
| MultiMutex.LockCountIsNestingDepth | backends/redland/multimutex.cpp:61-72 | lockCnt is the nesting depth of lockingThread, counted from that thread's own calls, and every reading thread is lockingThread |
| MultiMutex.BalancedRunRestores | backends/redland/multimutex.cpp:59-99 | After any interleaving in which every lock call has been matched by an unlock, the lock is as it was created |
| MultiMutex.HolderNeverBlocks | backends/redland/multimutex.cpp:61-98 | The holder of lockMutex always has an enabled statement; a nested read lock never waits for readMutex or mainMutex |
| MultiMutex.DeadlockFree | backends/redland/multimutex.cpp:59-99 | In every reachable state with a busy thread some thread can move or is inside its critical section, whether waiting writers hold back readers or not |
| MultiMutex.SettlingIsBounded | backends/redland/multimutex.cpp:59-99 | Once no thread asks for further locks every schedule ends: the statements and unlocks that can follow are bounded by what is left to do |
| MultiMutex.NobodyIsStuck | backends/redland/multimutex.cpp:59-99 | From every reachable state some continuation, in which holders unlock and nobody asks for a lock, ends every call and leaves the lock as it was created: nobody is stuck for good |
| MultiMutex.Mutex.LockForRead | backends/redland/multimutex.cpp:59-73 | The whole new lock state of a read lock that is granted, nested or not |
| MultiMutex.Mutex.LockForWrite | backends/redland/multimutex.cpp:76-80 | From a granted write lock on, no other thread is granted a read lock and no thread a write lock, and the unlock by its holder restores every field |
| MultiMutex.Mutex.Unlock | backends/redland/multimutex.cpp:83-99 | The whole new lock state of an unlock: of the write lock, of one nested read lock, of the last one, or of nothing held; nothing changes for a thread that is not registered while no writer holds the lock |
| MultiMutex.Mutex.NestReads | backends/redland/multimutex.cpp:59-99 | n nested read locks and n unlocks leave every field as it was |
| MultiMutex.UninterruptedCall | backends/redland/multimutex.cpp:59-99 | The three methods are runs of the interleaved statements: in every reachable state a grantable call has a legal run with exactly the methods' outcome, unless waiting writers hold back readers and one is waiting |
| MultiMutex.ForeignUnlockBreaksExclusion | backends/redland/multimutex.cpp:83-99 | A thread that unlocks what another thread holds lets two writers in: the discipline of the callers is needed |
| MultiMutex.ForeignUnlockStep | backends/redland/multimutex.cpp:83-99 | Disciplined or not, and whatever the other threads do meanwhile: an unlock that found no writer, by a thread that is not lockingThread, changes nothing but lockMutex until it returns |
| MultiMutex.ForeignUnlockChangesNothing | backends/redland/multimutex.cpp:83-99 | After every legal run, such an unlock, uninterrupted, leaves the lock and all threads as they were |
| MultiMutex.ReadThenWriteDeadlocks | backends/redland/multimutex.cpp:59-80 | A reader that asks for the write lock blocks for good, with nobody inside |
| Bytes.BlobRoundTrip | soprano/datastream.cpp:47-60 | Reading a byte array, string or URL behind which anything follows yields it and leaves exactly what follows |
| Bytes.U16RoundTrip | soprano/datastream.cpp:86-94 | The same for 16-bit integers |
| Bytes.U32RoundTrip | soprano/datastream.cpp:96-104 | The same for 32-bit integers |
| Bytes.I32RoundTrip | soprano/datastream.cpp:106-114 | The same for signed integers, over the whole range |
| Codec.LiteralRoundTrip | soprano/datastream.cpp:163-200 | Every literal value is read back as its normal form, with exactly the rest left, for every conversion of printed values |
| Codec.NormalFormIsIdempotent | soprano/datastream.cpp:163-200 | Exactly the canonical literals come back unchanged: canonical datatype for string, int, bool and byte-array values, and whole seconds within 32 bits for times; a second trip changes nothing for values sent in binary form, and for values sent in printed form exactly if what the text is parsed to is canonical |
| Codec.ThirdTripChangesNothing | soprano/datastream.cpp:163-200 | A third trip changes nothing, except exactly where the first came back as a printed value that is parsed to something not canonical |
| Codec.SecondTripLosesDatatype | soprano/datastream.cpp:442-514 | A conversion that keeps the given datatype loses it on the second trip |
| Codec.WhatIsKept | soprano/datastream.cpp:163-226 | Kind and value of every node survive a trip; times survive exactly if they are whole seconds of 32 bits, and others become the largest such time |
| Codec.NodeRoundTrip | soprano/datastream.cpp:203-226 | Every node that the constructors can make is read back as its normal form with exactly the rest left |
| Codec.StatementRoundTrip | soprano/datastream.cpp:229-238 | The same for statements, node by node |
| Codec.CanonicalIsKept | soprano/datastream.cpp:229-238 | A statement comes back as it was if and only if each of its nodes does, in its own place |
| Codec.NodePartsAreShort | soprano/datastream.cpp:517-549 | No proper part of the bytes of a node is read as a node |
| Codec.StatementPartsAreShort | soprano/datastream.cpp:552-565 | No proper part of the bytes of a statement is read as a statement |
| Codec.StrangeBytesRead | soprano/datastream.cpp:442-549 | What no writer sends: unknown node kinds and empty names read as empty nodes, a URL for a value as no literal, other flags as true and other error codes as the unknown error |
| Codec.ErrorCodeRoundTrip | soprano/datastream.cpp:116-119 | The same for error codes; the defined codes are unchanged and others become the unknown error |
| Codec.LocatorRoundTrip | soprano/datastream.cpp:128-134 | The same for parser locations |
| Codec.ErrorRoundTrip | soprano/datastream.cpp:137-160 | The same for errors; an error is changed only if it is no parser error, has no message and a predefined code, and then only its message |
| Codec.ErrorPartsAreShort | soprano/datastream.cpp:395-439 | No proper part of the bytes of an error is read as an error |
| Codec.BindingsRoundTrip | soprano/datastream.cpp:241-254 | A binding set with distinct names is read back entry by entry, with exactly the rest left |
| Codec.DuplicateNamesRunShort | soprano/datastream.cpp:241-254 | With a repeated name more entries are announced than written: reading fails or eats into what follows, and fails if nothing does |
| Codec.BindingsReadExactly | soprano/datastream.cpp:241-254 | Whatever follows, a binding set is read back with exactly the rest left if and only if no name was inserted twice |
| Codec.BindingsPartsAreShort | soprano/datastream.cpp:568-585 | No proper part of the bytes of a binding set with distinct names is read as a binding set |
| Codec.ErrorIsNoEndOfItself | soprano/datastream.cpp:395-439 | No proper end of the bytes of an error is read as the whole error |
| DataStreams.DataStream.WriteByteArray | soprano/datastream.cpp:47-60 | Appends the length and the bytes |
| DataStreams.DataStream.WriteLiteralValue | soprano/datastream.cpp:163-200 | Appends exactly the encoding of the literal, for every kind |
| DataStreams.DataStream.WriteNode | soprano/datastream.cpp:203-226 | Appends exactly the encoding of the node |
| DataStreams.DataStream.WriteStatement | soprano/datastream.cpp:229-238 | Appends exactly the encodings of subject, predicate, object and context |
| DataStreams.DataStream.WriteError | soprano/datastream.cpp:137-160 | Appends the parser flag, the code, the message and, for parser errors, the location |
| DataStreams.DataStream.WriteBindingSet | soprano/datastream.cpp:241-254 | Appends the number of names and as many entries as count() says |
| DataStreams.DataStream.ReadByteArray | soprano/datastream.cpp:257-267 | Decodes one byte array and consumes exactly it, or fails with the stream drained |
| DataStreams.DataStream.ReadError | soprano/datastream.cpp:395-439 | Decodes one error, with the location of parser errors |
| DataStreams.DataStream.ReadLiteralValue | soprano/datastream.cpp:442-514 | Decodes one literal value by flag and kind |
| DataStreams.DataStream.ReadNode | soprano/datastream.cpp:517-549 | Decodes one node; empty URIs, empty identifiers and invalid literals give empty nodes |
| DataStreams.DataStream.ReadStatement | soprano/datastream.cpp:552-565 | Decodes one statement, which stays empty if any node fails |
| DataStreams.DataStream.ReadBindingSet | soprano/datastream.cpp:568-585 | Decodes as many entries as announced, inserting each |
| BindingSets.BindingSet.Insert | soprano/bindingset.cpp:117-121 | The three parallel structures stay coherent: names and values by position, and the hash gives the last position of each name |
| BindingSets.BindingSet.Value | soprano/bindingset.cpp:93-102 | The node last inserted under the name, or the empty node |
| BindingSets.BindingSet.Replace | soprano/bindingset.cpp:132-139 | Changes exactly the value under the name, and nothing for an unknown name |
| BindingSets.CountIsNames | soprano/bindingset.cpp:111-114 | count() is the number of names exactly when no name was inserted twice, and never more |
| Transport.ServerRead | server/serverdatastream.cpp:38-67 | For every fragmentation: on success exactly the next bytes in order and nothing more consumed; success exactly when enough bytes come, without failures and timeouts; the loop ends |
| Transport.ServerWrite | server/serverdatastream.cpp:70-84 | On success exactly the bytes in order, below the bound of the 32-bit counter; otherwise a prefix of them; the loop ends after finitely many zero-length writes |
| Transport.Socket.Read | client/socket.cpp:101-131 | Reads through interruptions, stops at the end of the stream, and leaves an error exactly if fewer bytes than asked were read |
| Transport.Socket.Write | client/socket.cpp:134-164 | Writes a prefix of the buffer through interruptions, all of it if no call fails or writes nothing, and leaves an error exactly if some bytes were not written |
| Transport.ClientRead | client/socketstream.cpp:46-59 | The verdict taken from the last error alone: success means exactly the next bytes |
| Transport.ClientWrite | client/socketstream.cpp:61-74 | The verdict taken from the last error alone: success means exactly the bytes in order |
| ModelPools.GenerateUniqueId | server/modelpool.cpp:42-48 | The first drawn number that is not taken |
| ModelPools.OpenKeepsConsistent | server/modelpool.cpp:83-102 | The two tables stay inverse to each other, the name has an id afterwards, and no other id changes |
| ModelPools.RemoveKeepsConsistent | server/modelpool.cpp:105-110 | The tables stay inverse exactly if the name is known or no model has id 0, which unknown names read as; a known name gives up exactly its id |
| ModelPools.ModelPool.IdForModelName | server/modelpool.cpp:83-102 | Known names keep their id, models that do not open have id 0, new ones a fresh id in both tables |
| ModelPools.ModelPool.RemoveModel | server/modelpool.cpp:105-110 | The name is gone and every other model keeps its id; the two tables stay inverse exactly if the name is known or no model has id 0 |
| Server.CloseRemovesOne | server/serverconnection.cpp:707-741 | Closing an id removes exactly that iterator from the three tables, which stay disjoint |
| Server.PerformReplies | server/serverconnection.cpp:325-806 | Whatever the backend answers, the reply has the form the client reads for that command, and can be read back exactly if no binding set in it repeats a name |
| Server.PayloadIsRead | server/serverconnection.cpp:384-549 | The arguments after the model id are read as written, in normal form |
| Server.PlainIsRead | server/serverconnection.cpp:325-381 | The commands without a model id are told apart and their arguments read as written |
| Server.ServeRequest | server/serverconnection.cpp:167-286 | Serving the bytes of a request is performing that request, with exactly the bytes behind it left, or, for a payload command on a dead model id, the payload as well |
| Server.AlignedExactly | server/serverconnection.cpp:384-402 | The bytes of a request are consumed exactly, if and only if it is no payload command on a dead model id |
| Server.UnknownCommandCloses | server/serverconnection.cpp:167-276 | Exactly the numbers of the twenty-one commands keep the connection open; any other, or bytes that run out before it, closes it, changes nothing else and gets no reply |
| Server.CutModelIdsAreRefused | server/serverconnection.cpp:277-286 | A model id that is cut short is refused, even if there is a model 0 |
| Server.CutIteratorIdsReadAsZero | server/serverconnection.cpp:600-806 | An iterator id that is cut short reads as 0 |
| Server.ServeKeepsDisjoint | server/serverconnection.cpp:167-322 | Whatever bytes arrive, the three tables keep disjoint ids |
| Server.IteratorLifetime | server/serverconnection.cpp:289-322 | A new iterator's id was unused, is found by every command for its kind, and closing it restores the tables exactly |
| Server.ModelLifetime | server/serverconnection.cpp:325-360 | A created model's id was unused and names it; removing it restores the server exactly |
| Server.BackendIsAskedOnce | server/serverconnection.cpp:384-598 | The backend is asked for each request exactly one call, or none if the id is unknown, and the pool changes only with models created or removed |
| ServerConnections.ServerConnection.GetModel | server/serverconnection.cpp:277-286 | Reads the model id and finds it exactly if it was complete and is live |
| ServerConnections.ServerConnection.MapIterator | server/serverconnection.cpp:289-322 | The iterator is added to its own table under the first drawn id that no table has |
| ServerConnections.ServerConnection.ReadNextCommand | server/serverconnection.cpp:167-806 | Dispatch and all handlers: a command is served exactly as specified in state, unread bytes and reply; an unknown one closes the connection; nothing happens while a command is being served |
| Protocol.ReplyRoundTrip | client/clientconnection.cpp:96-101 | Every reply to every command is read by the client's stub as its normal form, with exactly the rest left |
| Protocol.ReplyPartsAreShort | client/clientconnection.cpp:96-101 | The client takes no proper part of a reply for the reply |
| Protocol.RequestIsKept | client/clientconnection.cpp:171-186 | The server reads the request that was sent if and only if the nodes of its statement come back as they were |
| Protocol.RequestsOnTheWire | server/commands.h:43-64 | The bytes of requests: the command, the id with its lowest byte first, the arguments in order |
| Protocol.StatementsOnTheWire | soprano/datastream.cpp:203-238 | The bytes of a statement: subject, predicate, object and context, each behind its kind |
| Protocol.ErrorsOnTheWire | soprano/datastream.cpp:128-160 | The bytes of an error: flag, code, message, line, column, offset and file |
| Protocol.RepeatedNameGarbles | client/clientconnection.cpp:656-687 | A reply whose binding set repeats a name never reaches the client as it is, whatever error goes with it |
| ClientConnections.ClientConnection.Send | client/clientconnection.cpp:171-186 | Every stub writes exactly the bytes of its request |
| ClientConnections.ClientConnection.Receive | client/clientconnection.cpp:195-202 | Every stub reads exactly its reply and keeps its error, with the code and, unless it is success, everything else of the error that the server sent; the version check leaves success exactly if the version is supported |
| ClientConnections.Connection.Call | client/clientconnection.cpp:69-853 | A stub called on an idle connection, through the client's writes, the server's handler and the client's reads, for an aligned request: the server performs the request as read, the caller gets the reply as read with the error that the server reported as last error, and both streams are empty again |
| Sessions.ExactlyIfAligned | client/clientconnection.cpp:69-853 | One exchange over quiet streams: the server performs the request as read, the client reads the reply as sent and nothing is left over, if and only if the request strands no payload and its reply repeats no name |
| Sessions.SessionAlignment | client/clientconnection.cpp:69-853 | Over every session, every exchange is as it should be if and only if no payload command names a dead model and no binding set that is sent repeats a name; the session is then its requests performed in order and its replies in normal form, with both streams empty throughout |
| Sessions.BackendSeesTheSession | client/clientconnection.cpp:69-853 | Over a session the backend is asked for every request on a live model, once and in order |
| Transparency.RequestIsTransparent | server/serverconnection.cpp:325-806 | With a backend of statement sets and remaining rows behind the server: the reply to every request, as the client reads it, is the value and the error of the call that the request stands for, or a refusal with false, -1, 0 or something empty; and the ids afterwards stand for what they should. Neither is stated by the tables, the replies or the calls of the server |
| Transparency.SessionIsTransparent | client/clientconnection.cpp:69-853 | Over every aligned session over the wire, every reply arrives, and is what direct calls on the backend give, request by request, with the models and iterators that the ids stand for |
| Transparency.FirstSessionIsTransparent | client/clientconnection.cpp:69-853 | The same from the start of a server: no id stands for anything but what a reply of the session gave it for |
| Transparency.ModelValueIsShown | server/serverconnection.cpp:384-598 | The reply to a command on a model shows what the model returns: changes, containment, count, emptiness, blank nodes |
| Transparency.IteratorValueIsShown | server/serverconnection.cpp:600-806 | The reply to a command on an iterator shows what the iterator returns: whether there is a next row, the current statement, node or bindings, and the type as the client reads its number |
| Backends.AnswersExist | server/serverconnection.cpp:384-598 | Every call on every such backend has a truthful answer |
| Backends.ChangesAreSeen | soprano/model.h:107-299 | What was added is contained and what was removed is not, by statement and by pattern, and no other model changes |
| Backends.ListingIsIterated | soprano/model.h:173-181 | The iterator of a listing gives exactly the matching statements in the order of the listing, and then ends |
| Sessions.IdsAreUnambiguous | server/serverconnection.cpp:289-322 | In every state that any sequence of inputs can reach, an id denotes at most one open iterator |
| Sessions.AgreementHolds | client/clientmodel.cpp:45-242 | Over every run over the wire of calls, closings, creations and destructions of client models, in which no call strands a payload or has a garbled reply: the streams are quiet after every event, the open lists are disjoint and their union is the set of non-zero ids open at the server |
| Sessions.StrandedPayloadBreaksAgreement | server/serverconnection.cpp:447-466 | Alignment is needed: a listing on a dead model whose statement the server then takes for a command leaves an iterator open, on an open connection, that the client has closed |
| Sessions.DestroyClosesOwn | client/clientmodel.cpp:45-58 | Destroying a client model, one exchange for each id, closes exactly the iterators in its list and leaves every other model's open |
| Sessions.CallKeepsAgreement | client/clientmodel.cpp:79-165 | An aligned call over the wire opens at most one iterator, and records it in its own list unless its id is 0 |
| Sessions.CloseKeepsAgreement | client/clientmodel.cpp:228-242 | Closing removes the id from the model's list and the server together, and does nothing for an id not in the list |
| ClientModels.ClientModel.OpenIterator | client/clientmodel.cpp:79-165 | listContexts, executeQuery and listStatements over the connection: the id is recorded exactly if it is greater than 0, even if the reply carries an error |
| ClientModels.ClientModel.CloseIterator | client/clientmodel.cpp:228-242 | closeIterator over the connection: new list, new server state, and the last error in both cases |
| ClientModels.ClientModel.Destroy | client/clientmodel.cpp:45-58 | The destructor closes the list at the server, one after the other |
| IndexStates.LoadKeepsViews | index/cluceneindex.cpp:196-234 | Loading a document into the cache changes no view, a view being the cached document or else the committed one |
| IndexStates.CommitKeepsViews | index/cluceneindex.cpp:237-265 | Committing changes no view; afterwards the committed documents are the views, none is empty and the cache is, and there is an index exactly if there was one or a document to write |
| IndexStates.AddInsertsOne | index/cluceneindex.cpp:436-478 | addStatement inserts one (field, text) for its subject and nothing else; an empty text nothing |
| IndexStates.RemoveDeletesAllCopies | index/cluceneindex.cpp:481-524 | removeStatement deletes all copies of one (field, text) for its subject alone; without an index it takes effect exactly if there was nothing to delete |
| IndexStates.TransactionsKeepViews | index/cluceneindex.cpp:387-433 | Beginning and ending a transaction change no view; ending leaves an empty cache |
| CLuceneIndexes.StoredIsProjection | index/cluceneindex.cpp:161-176 | Looking up a resource finds its only document, and none exactly if it has none |
| CLuceneIndexes.CLuceneIndex.GetIndexReader | index/cluceneindex.cpp:77-88 | A reader is opened only with the writer closed |
| CLuceneIndexes.CLuceneIndex.GetIndexWriter | index/cluceneindex.cpp:90-102 | A writer is opened only with reader and searcher closed, and creates a missing index |
| CLuceneIndexes.CLuceneIndex.GetDocument | index/cluceneindex.cpp:196-234 | The cached document, or a copy of the committed one's properties under the resource's id |
| CLuceneIndexes.CLuceneIndex.Commit | index/cluceneindex.cpp:237-265 | The cached documents replace those on disk, in any order of the hash: at most one document for each resource, none empty, and an empty cache |
| CLuceneIndexes.CLuceneIndex.StartTransaction | index/cluceneindex.cpp:387-405 | Starts a transaction, or answers 0 if one is open |
| CLuceneIndexes.CLuceneIndex.CloseTransaction | index/cluceneindex.cpp:408-433 | Commits and ends the transaction with that id; nothing for any other id |
| CLuceneIndexes.CLuceneIndex.AddStatement | index/cluceneindex.cpp:436-478 | The whole new index; committed at once outside transactions; literals keep the default search in agreement with the values |
| CLuceneIndexes.CLuceneIndex.RemoveStatement | index/cluceneindex.cpp:481-524 | The whole new index; nothing without an index or text; literals keep the default search in agreement with the values |
| CLuceneIndexes.CLuceneIndex.Search | index/cluceneindex.cpp:566-588 | A search needs an index, and changes nothing but the handles |
| Documents.DocumentWrapper.AddProperty | index/clucenedocumentwrapper.cpp:56-92 | One more property; the default search finds its text unless it is a URI, so that agreement with the values is kept exactly by literals |
| Documents.DocumentWrapper.RemoveFromField | index/clucenedocumentwrapper.cpp:95-117 | The survivors of the field are put back: all copies of one text go and every other property stays |
| Documents.DocumentWrapper.RebuildText | index/clucenedocumentwrapper.cpp:119-136 | Rebuilding makes the default search find exactly the property values, whatever it found before |
| Documents.DocumentWrapper.RemoveProperty | index/clucenedocumentwrapper.cpp:95-137 | Both steps together, for literals and for URIs |
| Documents.DocumentWrapper.CopyProperties | index/cluceneindex.cpp:217-228 | Reloading a committed document keeps its properties, re-adds all of them as literals, and so brings the default search into agreement |
| CLuceneIndexes.CLuceneIndex.DocEmpty | index/cluceneindex.cpp:182-194 | A document is empty exactly if it has no property |
| IndexFilters.HappenKeepsBatched | index/indexfiltermodel.cpp:48-66 | After any operation an open transaction has at least one and fewer than cache-size updates and no more cached documents than updates; a Lucene query starts with nothing uncommitted |
| IndexFilters.BatchesStayBounded | index/indexfiltermodel.cpp:48-66 | The bound holds over every run, resizing included, with no condition on the run |
| IndexFilters.IndexAddViews | index/indexfiltermodel.cpp:134-139 | One update by adding: exactly one entry more in the view of the subject |
| IndexFilters.IndexRemoveViews | index/indexfiltermodel.cpp:154-163 | One update by removing: the entry is gone exactly if there is an index or nothing was indexed, and no other entry changes |
| IndexFilters.RemoveTakesEffect | index/indexfiltermodel.cpp:150-164 | removeStatement reaches the index exactly if there is one, or if it knew nothing of the statement |
| IndexFilters.ListedEntries | index/indexfiltermodel.cpp:167-191 | removeAllStatements deletes nothing as long as the first transaction on a missing index is open, and exactly the entries of the listed statements after the commit that it brings about itself, across all transactions on the way |
| IndexFilters.HappenCopies | index/indexfiltermodel.cpp:117-222 | How often an entry is indexed after any operation, as a function of the operation and of the removals that are still lost, with no condition on the run |
| IndexFilters.IndexStaysBacked | index/indexfiltermodel.cpp:117-191 | Over every careful run, everything indexed under a predicate that is not index-only comes from a stored, indexable statement |
| IndexFilters.HappenKeepsExact | index/indexfiltermodel.cpp:117-191 | An operation keeps the index exact if and only if it is no pattern removal that the parent model refuses after indexed statements were listed |
| IndexFilters.IndexStaysExact | index/indexfiltermodel.cpp:117-191 | If no two statements of a careful run share an entry, and no pattern removal of indexed statements is refused by the parent model, the index is exactly the projection of the stored, indexable statements with a text |
| IndexFilters.BacksByKind | index/indexfiltermodel.cpp:75-78 | What is indexed, by object kinds: a literal if it has a text; a resource or blank node, by its name, only under a forced predicate |
| IndexFilters.OnlyStoredTextsAreIndexed | index/indexfiltermodel.cpp:69-191 | Over every careful run from a new model, an entry whose predicate is not index-only has a text and is indexed only if a stored literal has that text or, under a forced predicate, a stored resource or blank node that name |
| IndexFilters.ExactlyStoredTextsAreIndexed | index/indexfiltermodel.cpp:69-191 | If moreover no two statements are indexed alike and no refused pattern removal touches the index, an entry is indexed once if there is such a literal, resource or blank node in the store, and not at all otherwise |
| IndexFilters.UpdatesAreCommittedTogether | index/indexfiltermodel.cpp:48-66 | Every cache-size updates are committed together: after any number of updates exactly the remainder is uncommitted, and no transaction is open if there is none |
| IndexFilters.PresentIsCareful | index/indexfiltermodel.cpp:150-191 | A run is careful if the index exists at the start |
| IndexFilters.UnbatchedIsCareful | index/indexfiltermodel.cpp:150-191 | A run is careful if the cache size stays 1 |
| IndexFilters.CarelessRemovalIsLost | index/indexfiltermodel.cpp:150-164 | Otherwise a removal within the first transaction is lost: the statement stays indexed with nothing stored behind it |
| IndexFilters.SharedEntryIsLost | index/indexfiltermodel.cpp:150-164 | Injectivity is needed: removing one of two statements with one entry removes it for both |
| IndexFilterModels.IndexFilterModel.StartTransaction | index/indexfiltermodel.cpp:48-56 | Opens a transaction of the index if batching is on and none is open, and counts the update |
| IndexFilterModels.IndexFilterModel.CloseTransaction | index/indexfiltermodel.cpp:59-66 | Commits when the cache size is reached |
| IndexFilterModels.IndexFilterModel.AddStatement | index/indexfiltermodel.cpp:117-147 | New index and counters; the store gains the statement unless its predicate is index-only or the parent model fails; statements that are stored already are not indexed again; an error exactly if the parent model fails or a forced object has no text; literals keep the default search in agreement |
| IndexFilterModels.IndexFilterModel.RemoveStatement | index/indexfiltermodel.cpp:150-164 | New index and counters; the store loses exactly that statement, or nothing if the parent model fails |
| IndexFilterModels.IndexFilterModel.RemoveAllStatements | index/indexfiltermodel.cpp:167-191 | New index and counters, for every order in which the parent lists the statements; the store loses exactly what matches, or nothing if the parent model fails; literals keep the default search in agreement |
| IndexFilterModels.IndexFilterModel.ExecuteLuceneQuery | index/indexfiltermodel.cpp:194-215 | Everything is committed, no transaction is open and the cache is empty before the search |
| IndexFilterModels.IndexFilterModel.SetTransactionCacheSize | index/indexfiltermodel.cpp:218-222 | The given size, or 1 below that; a transaction that is now full is committed |
| LanguageTag.SubTagsRoundTrip | soprano/languagetag.cpp:474-477 | Splitting loses nothing and leaves no delimiter in a subtag |
| LanguageTag.MatchBasic | soprano/languagetag.cpp:99-116 | The loop decides the prefix relation on subtags, with the lone wildcard |
| LanguageTag.BasicFormsAgree | soprano/languagetag.cpp:75-116 | Basic matching of strings equals basic matching of their subtags, for all strings |
| LanguageTag.MatchExtended | soprano/languagetag.cpp:128-168 | The greedy matcher answers true exactly if the first subtags agree and the rest of the range can be placed in order with no one-character subtag skipped (section 3.3.2 of RFC 4647) |
| LanguageTag.FirstSubTagDecides | soprano/languagetag.cpp:128-168 | The first subtags must be equal, or the range's the wildcard, which stands for whatever the tag has |
| LanguageTag.OneCharacterBlocks | soprano/languagetag.cpp:128-168 | Extended matching never looks past a one-character subtag that the range does not name |
| LanguageTag.OthersAreSkipped | soprano/languagetag.cpp:128-168 | It looks past any other subtag: one more, anywhere behind the first, loses no match |
| LanguageTag.LaterWildcardsAreIgnored | soprano/languagetag.cpp:128-168 | A wildcard anywhere behind the first subtag makes no difference |
| LanguageTag.BasicImpliesExtended | soprano/languagetag.cpp:99-168 | Basic matching implies extended matching for ranges without a wildcard |
| LanguageTag.SelfMatch | soprano/languagetag.cpp:119-126 | The shortcut for equal strings is redundant exactly for tags with no wildcard subtag before another subtag |
| LanguageTag.Matches | soprano/languagetag.cpp:336-346 | The scheme chooses the relation; unknown schemes match nothing |
| LanguageTag.TruncatedIsNext | soprano/languagetag.cpp:395-400 | Truncation finds the next shorter prefix that does not end in a one-character subtag |
| LanguageTag.TriedLengths | soprano/languagetag.cpp:348-404 | The ranges tried are exactly the full tag and those prefixes, longest first |
| LanguageTag.Lookup | soprano/languagetag.cpp:348-404 | The first priority that any choice matches, its longest tried prefix that any choice matches, and the smallest choice that matches it; -1 exactly if no choice matches any. Tried are the whole range and, with fallback alone, its prefixes that do not end in a one-character subtag; the empty tag and the lone wildcard are no choices |
| LanguageTag.WholeRangesAlone | soprano/languagetag.cpp:395 | Without fallback a choice must match the whole range, and the smallest that does is the answer |
| LanguageTag.MatchSurvivesTruncation | soprano/languagetag.cpp:395-400 | A match survives truncation of the range |
| LanguageTag.FailsOnShortest | soprano/languagetag.cpp:348-404 | With fallback the answer is -1 exactly if no priority's shortest range is matched by an eligible choice |
| LanguageTag.EqualityAgreesExactly | soprano/languagetag.cpp:348-404 | For fixed choices, basic lookup answers as the lookup by equality of section 3.4 of RFC 4647 for every priority list without the lone wildcard, if and only if every proper prefix of a choice, in whole subtags and other than the lone wildcard, is a choice at a smaller index |
| LanguageTag.LoneWildcard | soprano/languagetag.cpp:99-116 | The lone wildcard finds the smallest choice there is, and equals none |
| LanguageTag.LookupDeparts | soprano/languagetag.cpp:348-404 | "en" finds "en-US", which it does not equal |
| LanguageTag.Valid | soprano/languagetag.cpp:437-471 | The loop decides length, alphabet and the place of one-character subtags |
| N3.LiteralToN3 | soprano/node.cpp:430-457 | The buffer is the escaped text between quotes, with the language tag |
| N3.ScanStopsAtClosingQuote | soprano/n3nodeparser.cpp:34-60 | Scanning a printed literal stops at its closing quote, whatever the text and whatever follows |
| N3.ScanStream | soprano/n3nodeparser.cpp:34-60 | The loop with its escape flag computes the scan from any stream position |
| N3.DecodeLiteral | soprano/n3nodeparser.cpp:62-81 | Decoding in place with a moving position computes the decoded text |
| N3.DecodeRecoversExactly | soprano/n3nodeparser.cpp:62-81 | Decoding the printed text recovers it exactly if it has no tab, backspace, form feed or apostrophe |
| N3.PrintedIsStandard | soprano/node.cpp:430-457 | A reader of the string escape sequences of RDF 1.1 Turtle recovers every printed text |
| N3.DecodesAsStandard | soprano/n3nodeparser.cpp:62-81 | Decoding agrees with that reader on every text without the four escape sequences that only the grammar has |
| N3.ParseNode | soprano/n3nodeparser.cpp:123-194 | The parser's verdict on literals and blank nodes, from the stream |
| N3.PlainLiteralRoundTrip | soprano/n3nodeparser.cpp:164-181 | Printed plain literals come back exactly if no character is lost, and their language tag exactly if it has no white space |
| N3.BlankNodeRoundTrip | soprano/n3nodeparser.cpp:150-162 | Printed blank nodes come back exactly if the identifier has no white space |
| N3.LeadingSpaceIsSkipped | soprano/n3nodeparser.cpp:123-130 | White space in front of a node makes no difference |
| N3.BrokenLiteralsAreEmpty | soprano/n3nodeparser.cpp:164-194 | A literal without its closing quote, or with anything but white space, a language tag or a datatype behind it, is no node |
| DateTimes.TimeToString | soprano/datetime.cpp:210-221 | Hours, minutes and seconds, the fraction with trailing zeros trimmed in a loop, and Z |
| DateTimes.TimeFromString | soprano/datetime.cpp:55-149 | The parser's verdict on every string, with or without a zone |
| DateTimes.TimeRoundTrip | soprano/datetime.cpp:55-221 | Every time with milliseconds comes back from its printed form |
| DateTimes.TimeWithoutOffset | soprano/datetime.cpp:106-107 | A time without a zone is read as it stands, and so is one with a Z, whatever follows the Z |
| DateTimes.OtherZonesAreNoTime | soprano/datetime.cpp:110-147 | Any other zone is a sign and five characters with two numbers among them, or there is no time |
| DateTimes.CommaIsPoint | soprano/datetime.cpp:89-99 | A fraction can be set off by a comma as well as by a point |
| DateTimes.ClockDenotes | soprano/datetime.cpp:210-221 | A printed clock shows hour, minute and second with two digits each, which add up to the time but for its milliseconds |
| DateTimes.OffsetShifts | soprano/datetime.cpp:106-147 | An explicit offset shifts the time of day by exactly that offset, modulo one day |
| DateTimes.OffsetHidesInvalidTime | soprano/datetime.cpp:100-147 | A clock out of range is no time, but with an offset it is read as midnight and shifted |
| DateTimes.LongFractionsAreMisread | soprano/datetime.cpp:86-100 | Fractions of more than three digits are taken as that many milliseconds, and from 1000 on make the time invalid, for digits of any number |
| DateTimes.LongFractionsAreRightIfZero | soprano/datetime.cpp:86-100 | A fraction of more than three digits is read as the milliseconds it denotes if and only if it is all zeros |
| DateTimes.DateReads | soprano/datetime.cpp:152-179 | A printed date is read back whatever follows it, for years of any size and sign |
| DateTimes.DateRoundTrip | soprano/datetime.cpp:152-234 | Every date of any calendar comes back from its printed form |
| DateTimes.DateDenotes | soprano/datetime.cpp:224-234 | A printed date shows the year, then month and day with two digits each |
| DateTimes.DateTimeReads | soprano/datetime.cpp:182-207 | A date with T or a space and a time with any zone: the offset shifts the time and never the date |
| DateTimes.DateTimeWithoutOffset | soprano/datetime.cpp:182-207 | Without a zone, and with a Z and anything behind it, date and time are read as they stand |
| DateTimes.OffsetsAreRightWithinTheDay | soprano/datetime.cpp:182-207 | A date and time with an explicit offset is read as the instant it denotes if and only if the shift does not leave the day |
| DateTimes.DateTimeRoundTrip | soprano/datetime.cpp:182-241 | Every UTC date and time comes back from its printed form |
| DateTimes.DateAloneIsMidnight | soprano/datetime.cpp:182-207 | A date alone is midnight of that date |
| QtText.PrintedReads | soprano/datetime.cpp:224-234 | Zero-padded numbers with a sign printed apart are read back as integers |
| QtText.SpaceAndPlusAreIgnored | soprano/datetime.cpp:60-83 | White space around a number and a plus sign are accepted by QString::toInt |
| NRL.LimitIsDeclared | soprano/nrlmodel.cpp:178-214 | The number that is enforced, by the rows alone: 1 if the last cardinality or the last maximum is 1, else the last cardinality from 2 on, else the last maximum from 2 on if no cardinality from 1 on is last, else none; a row that binds a minimum gives no maximum |
| NRL.LimitOneLeavesExactlyOne | soprano/nrlmodel.cpp:201-209 | If the rows declare 1, the new statement is the only one of its subject and predicate, exactly if it is valid |
| NRL.FullSetIsRejected | soprano/nrlmodel.cpp:212-245 | If the rows declare more than 1, a set of that many is full: it is rejected with the store unchanged; with room the statement is added and nothing lost |
| NRL.NothingDeclaredAddsAll | soprano/nrlmodel.cpp:246-256 | Where the rows declare nothing every valid statement is added |
| NRL.OthersAreUntouched | soprano/nrlmodel.cpp:163-260 | A valid statement changes nothing of other subjects and predicates |
| NRL.InvalidRemovesUnderLimitOne | soprano/nrlmodel.cpp:201-209 | An invalid statement is never added, but under a limit of 1 it removes everything it stands for first |
| NRL.RunsStayWithinLimits | soprano/nrlmodel.cpp:163-260 | Over every run of additions, valid or not, a subject never gets more values of a predicate than the rows declare, if it had no more |
| NRL.RunsTouchOnlyTheirOwn | soprano/nrlmodel.cpp:163-260 | Over every run of valid additions, what no addition is about is unchanged |
| NRL.RemoveGraphUndoesCreate | soprano/nrlmodel.cpp:263-293 | Removing a graph undoes its creation and everything added in it, exactly if nothing older is in the graph or in what is said to be its metadata graph |
| NRL.RemovingNoGraphRemovesAll | soprano/nrlmodel.cpp:280-293 | Removing the graph of an empty URL removes every statement |
| NRL.NRLModel.AddNrlStatement | soprano/nrlmodel.cpp:163-260 | The loop over the restriction rows and all branches: new store and result; under a declared 1 the statement is left alone, under a declared k it is refused exactly if there are k, and a refused valid statement changes nothing |
| NRL.NRLModel.CreateGraph | soprano/nrlmodel.cpp:263-277 | Exactly four statements are added, all in the metadata graph, which is linked to the graph; removing the graph restores the store exactly if nothing older is in either |
| NRL.NRLModel.RemoveGraph | soprano/nrlmodel.cpp:280-293 | Everything in the graph and its metadata graphs, and nothing else |
| NRL.NRLModel.RemoveAllStatements | soprano/nrlmodel.cpp:333-344 | A pattern with nothing but a context removes a graph, any other what it matches |

## Left out

- Strings as Unicode: the codec works on the UTF-8 bytes of strings and the encoded bytes of URLs, taken as given; N3, dates and language tags work on characters, with ASCII digits and letters.
- Language tags are taken after case folding; conversion from and to locales and pretty printing only add easy members.
- LiteralValue::fromString and the printing of numbers, dates and doubles inside literal values are one parameter of the codec; the round trips hold for every such conversion, and what a second and third trip do is stated by what the conversion answers.
- Byte arrays of 2^31 bytes and more, for which Qt's signed sizes matter, and hosts that are not little-endian.
- `++lockCnt` and `--lockCnt` count as single steps, as every statement does; the processor's memory model is not modelled, and neither is the fairness of the locks.
- Real sockets, select, timeouts, reconnects, Qt's threads and event loop, D-Bus and plugins; DataStream.Read and DataStream.Write stand for both transports on a connection without failures.
- Errors of a transport in the middle of a command, after which the client closes its socket.
- Termination of the random retry loops: the draws of a command are assumed to hold an id that is not taken.
- Removing a model on one connection while another uses it; a session has one connection and one pool.
- The backend behind the server is a set of statements for every model and the remaining rows of every iterator; how it orders listings, what its queries mean, which blank node names it makes and which calls fail are parameters, and nobody else uses it during a session.
- Client stubs are one method that writes and one that reads, by command, instead of twenty-one alike; the calls of a client model that only forward are not repeated.
- Clients without a connection, whose calls only set an error.
- Handles to iterators: the lists of open ids are modelled, the objects that hold an id are not.
- CLucene: analysis, scoring, tokenizing, locks and what an open searcher sees; the index is a list of documents found by id, and its exceptions are not modelled.
- Documents are values in the cache of CLuceneIndex, and the order of their fields is not claimed.
- rebuildIndex, clear, optimize and opening an index directory, which depend on queries or on the file system.
- Resources are identified with the ids of their documents, and no predicate is named like the id field or the default search field.
- The parent of the index model is a set of statements with contexts: containing a statement means being that statement, and whether a change succeeds is given.
- Objects of the indexed statements are told apart by kind and text; datatypes and languages do not matter to the index.
- Full N3: URIs in angle brackets, typed literals, prefixed names and bare tokens are one unmodelled result; typed output depends on a process-wide cache.
- Digits of other scripts and the default locale in QString::toInt, and QDate's range of years, which is a parameter.
- addNrlStatement with contexts taken into account, whose listing passes the context as the object.
- The redland model is a set of statements that refuses invalid ones; in NRL the restrictions stay fixed during a run.
- Creating graph URIs and reading the clock, which are parameters of createGraph; prefix expansion of queries.
- Inference, parsers, serializers, ontology loading, the virtuoso backend, query languages, code generation, settings and command-line tools.
