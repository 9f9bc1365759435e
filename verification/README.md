# A model of the message board and its proofs

A message board is kept by any number of servers (`msgserv`). Each holds the newest messages in a ring,
stamped with a logical clock; it pushes every message that is published at it to all its peers over TCP, and
hands its ring to a server that joins. Clients (`rmb`) publish and read over UDP and move on to another
server when theirs falls silent, keeping a ban list. An identity server (`idserv`) keeps the registry from
which both get their lists of servers.

The project models these programs in Dafny and proves what they are for. Code that changes things in place is
modelled by classes and loops (the ring, the server, the linked lists, the ban list, the client's choice of a
server, the probe), each proved against a specification on values; the laws are proved about the
specification, for every input, every run and every schedule.

| file | contents |
|---|---|
| `CText.dfy` | `strtok`, `%[^;]`, decimal printing and `atoi`, `snprintf` |
| `Boards.dfy`, `Packets.dfy` | a server's unbounded history and clock; what servers send each other and what a batch does |
| `Matrices.dfy`, `Messages.dfy` | the ring, and the listing of its newest messages |
| `Wire.dfy`, `Lines.dfy`, `Reassembly.dfy` | the text formats between servers, the reference reading of a stream as lines, and the token loop that puts lines together from chunks |
| `Commands.dfy` | the datagrams of clients and their replies |
| `Formats.dfy` | the texts of all formats written out, and the limits in numbers |
| `MsgServers.dfy`, `Delivery.dfy` | the server class with its handlers; batches and state transfer from bytes to boards |
| `Replication.dfy`, `Causality.dfy` | the protocol as steps of a network, its clocks, and which runs respect causality |
| `Traffic.dfy` | what each step of the protocol does to each link and server, and that nothing is made up |
| `Mesh.dfy`, `Newcomers.dfy`, `DeliveryOrder.dfy` | what a static full mesh conserves, a server that joins one, and in which meshes messages are stored behind those that led to them |
| `Refinement.dfy`, `ByteRuns.dfy` | the server class as a node of the protocol, and whole runs on bytes beside runs of the protocol |
| `LinkedLists.dfy`, `Servers.dfy`, `Pruning.dfy`, `Joining.dfy` | the counted list, the removal of bad servers while walking it, and the join |
| `Bans.dfy`, `Failover.dfy`, `RmbClients.dfy`, `Probes.dfy` | the client: bans, choice of a server on values and on the lists, and the liveness probe |
| `Registry.dfy`, `Rendezvous.dfy` | the registry as text and its two readers, and the channel of the identity server |

`dafny verify dfyconfig.toml` checks the whole project.

## Where the code differs from its documents, or fails its purpose

- A received message is stored at the greater of the own clock and the incoming one (`src/msgserv/message.c:168-173`);
  `Checklist.md:19` asks for one more than the greater. `ReceivedAboveBoth` shows that it gets that clock exactly if its
  incoming clock has been passed already, and `FirstKeepsClock` a message that keeps its clock. Causality between
  publications does not depend on it.
- An empty text can be published, is stored at its origin, and is dropped by every peer together with its clock. And
  a server whose join failed may ask for a board when it has received messages; its request carries no clock.
  `CausalityTheorem` shows that these are the only two things that break causality, the first among two servers and
  more, the second among three and more; `EmptyTextBreaksCausality` and `RetryBreaksCausality` are runs in which they
  do. `AgreementAtRest` shows that only empty texts prevent agreement.
- With more than two servers a message can be stored in front of one that led to it: `StoringOrderTheorem`.
- The token loop mishandles two kinds of chunk boundaries: a chunk that begins with the newline of an open line, and a
  chunk that ends an open line and holds nothing further while another line follows. `ChunkingTheorem` shows that the
  lines are right exactly when neither occurs; `HeldTwice` and `BreakSkipped` show what is read instead.
- A server's own reader of the registry does not advance past a malformed line (`src/msgserv/identity.c:348-351`):
  `ServerReaderEnds` shows that it ends exactly on lists without one, and `RegistryRead` that for a printed registry
  this means: without a server whose name or address is empty, which the identity server does not refuse.
- The failover block keeps `err` set when it finds a server (`src/rmb/main.c:163-170`). `FoundIsKept` shows that a server
  that is found is kept exactly if no error was pending, and `ErrorBansAll` that with one pending every server of the
  list is banned before a new list is fetched. `PassesUntilFetch` bounds this by the length of the list.
- `create_matrix` does not set the overflow flag. It may start as anything: `VisitedIsWindow` holds for both values.
- The client's documentation says that banning a server again restores its time; the code does so only after
  the ban has expired (`src/rmb/ban.c:50-58`). `BanRestores` shows when a ban leaves the full time, and `NotRestored` a
  ban that does not.
- A board is sent as it is exactly if every line and the whole text stay below the limits that cut them:
  `BoardTextExact`. `ListingFits` gives a length of text that always does; `FullBoardCut` shows that rings full of texts
  of 140 characters do not, when they have one place, or 65 and more.

## Model

| member | source | states |
|---|---|---|
| CText.AtoiPrinted | src/msgserv/message.c:168 | reading a printed clock back is the identity |
| CText.AtoiOf | src/msgserv/message.c:83 | atoi reads blanks, a sign and a number, whatever follows |
| CText.AtoiNone | src/msgserv/message.c:83 | anything else reads as 0 |
| CText.PrintedInt | src/msgserv/message.c:70-71 | any integer reads back |
| CText.Int32Cut | src/utils/struct_message.c:15-17 | a clock passed through an int is the same up to multiples of 2^32, and the same below 2^31 |
| CText.TokensOfLine | src/msgserv/message.c:221-224 | strtok yields the line in front of a newline, or skips it when empty, and then the tokens of the rest |
| Matrices.CellsHoldWindow | src/utils/util_matrix.c:22-37 | after any history of additions at index `size`, each of the last `capacity` items is found at its index |
| Matrices.ElementOfHistory | src/utils/util_matrix.c:22-24 | reading an index of the window gives that item of the history; above the size, before the first round, NULL |
| Matrices.VisitedIsWindow | src/utils/struct_message.c:29-79 | for every history, capacity, count and value of the overflow flag, the messages visited are exactly the last n, oldest first |
| Matrices.Matrix.constructor | src/utils/util_matrix.c:39-58 | an empty ring, with an overflow flag of any value |
| Matrices.Matrix.GetElement | src/utils/util_matrix.c:22-24 | whatever history the ring holds: the item with the given index, as long as it is among the last, and NULL above the size in the first round |
| Matrices.Matrix.AddElement | src/utils/util_matrix.c:26-37 | exactly one cell changes, the size counts up, and a ring that holds a history holds the history with the item appended |
| Messages.GetFirstNMessages | src/utils/struct_message.c:19-82 | NULL exactly on an empty ring; otherwise the listing of the visited messages, each line cut as the code's length limits cut it, in both modes |
| Messages.ListingComplete | src/utils/struct_message.c:37-77 | no line is cut when texts fit and, with clocks, the listing fits its buffer |
| Messages.RenderLength | src/utils/struct_message.c:37-77 | a listing is shorter than the unabridged one if and only if one of its lines was cut |
| Boards.ReceiveAllClocks | src/msgserv/message.c:168-173 | whatever clocks arrive, stored clocks increase strictly and the next unused one is one above the last |
| Boards.ReceivedCopy | src/msgserv/message.c:168-173 | every received message is stored in its turn, at no less than the clock it came with, and the next clock ends above it |
| Boards.ReceivedAboveBoth | src/msgserv/message.c:168-173 | a received message gets one more than the greater of both clocks, and one above its own, if and only if its clock has been passed already |
| Boards.FirstKeepsClock | src/msgserv/message.c:168-173 | the first message of an empty server keeps its clock |
| Boards.ReceiveAllAscending | src/utils/struct_message.c:91-101 | increasing clocks from the own clock on are stored unchanged |
| Packets.BatchEffect | src/msgserv/message.c:247-261 | a whole batch in closed form: everything accepted is received in order; only requests in front of the first record header are answered, with the board as it was before the batch |
| Packets.AcceptedWhole | src/msgserv/message.c:162-166 | everything is accepted if and only if nothing gets lost |
| Packets.AcceptedLast | src/msgserv/message.c:162-173 | with increasing clocks, the last accepted entry has the last clock if and only if the last entry is accepted |
| Packets.MapHandleAll | src/msgserv/message.c:247-261 | handling a batch commutes with forgetting part of what messages carry |
| Wire.RecordRoundTrip | src/msgserv/message.c:156-176 | a printed record reads back with the same clock and text, semicolons included; an empty text reads as nothing |
| Wire.RecordLine | src/msgserv/message.c:162-168 | which lines are records, exactly, and what they say: a field that is not empty, a semicolon, and at least one character in front of the next newline, of which at most 140 are kept |
| Wire.NoSemicolonNoRecord | src/msgserv/message.c:162-166 | a line without a semicolon is no record |
| Wire.AnyClockRead | src/msgserv/message.c:70-71 | a clock of any size comes back as the int it was printed from, read as an unsigned number |
| Wire.WireRoundTrip | src/msgserv/message.c:247-261 | the line handler on any concatenation of requests, shared messages and boards does exactly what they say; repeated headers and blank lines contribute nothing |
| Wire.NoiseIgnored | src/msgserv/message.c:252-261 | in front of a header, whatever is not one is passed over |
| Wire.MalformedIgnored | src/msgserv/message.c:247-251 | behind a header, whatever is not a record is passed over, requests and headers included |
| Wire.ShareTextIsPacket | src/msgserv/message.c:65-71 | the length limit of a shared message never cuts it |
| Wire.BoardTextExact | src/msgserv/message.c:7-18 | a board is sent as it is if and only if no line exceeds the limit for a line and the text stays below the limit for the reply |
| Wire.FittingIsWhole | src/utils/struct_message.c:24-77 | a listing that fits its buffer is sent whole |
| Wire.ListingFits | src/utils/struct_message.c:24-77 | with texts of up to 133 characters and five-digit clocks the listing always fits |
| Wire.FullBoardCut | src/utils/struct_message.c:24-77 | a ring full of texts of 140 characters is never sent as it is when it has one place, or 65 and more |
| Reassembly.ChunkEffect | src/msgserv/message.c:215-244 | what one chunk hands on and leaves held back, in terms of the reference reading of the chunk |
| Reassembly.LostLine | src/msgserv/message.c:221 | an open line completed by a newline at the start of a chunk is always lost |
| Reassembly.SpoiledLine | src/msgserv/message.c:225-244 | held text that is longer than the open line always spoils the reading |
| Reassembly.StaleHold | src/msgserv/message.c:233-238 | held text that was not cleared is harmless exactly if only newlines follow |
| Reassembly.ChunkingTheorem | src/msgserv/message.c:205-266 | for every newline-terminated stream of lines that fit and every way of cutting it, the lines handed on are the non-empty lines of the stream if and only if every boundary is harmless |
| Reassembly.HeldTwice | src/msgserv/message.c:233-238 | the chunks a, b-newline, c-newline are read as the lines ab and ac |
| Reassembly.BreakSkipped | src/msgserv/message.c:221-244 | the chunks a, newline, c-newline are read as the line ac |
| Reassembly.LongLineCut | src/msgserv/message.c:227 | a line put together from 423 characters or more keeps its first 422 |
| Commands.PublishRoundTrip | src/msgserv/message.c:142 | a text published by a client arrives unchanged if and only if it does not begin with a blank |
| Commands.CommandInParts | src/msgserv/message.c:142 | any datagram of blanks, a word, blanks and a line reads as the word and at most 140 characters of the line |
| Commands.CommandAlone | src/msgserv/message.c:142 | a word with nothing behind it, or with white space other than a blank, has no argument |
| Commands.NoCommand | src/msgserv/message.c:142 | white space alone is no command |
| Commands.CommandTextFits | src/msgserv/message.c:125-148 | whatever datagram arrives, the text taken from it has at most 140 characters, no newline and no NUL |
| Commands.ReplyComplete | src/msgserv/message.c:91-107 | the reply to a request for messages is header and texts, complete, and below its buffer length |
| Commands.ClientReadsWindow | src/rmb/message.c:169-178 | what the client prints from a reply are exactly the non-empty texts of the window, in order |
| Commands.RequestTheorem | src/rmb/message.c:102-110 | a client that asks for n messages gets a reply, and prints exactly the non-empty texts among the last n that the ring can show, oldest first |
| Commands.NegativeRequest | src/msgserv/message.c:83-89 | a negative count shows the whole ring |
| Formats.LimitsInNumbers | src/utils/utils.h:35 | the limits in numbers, the ban time of five among them |
| Formats.PacketFormats | src/msgserv/message.c:70-71 | the texts of a request, a share, and boards of no and of one message |
| Formats.HistoryFormat | src/msgserv/message.c:15-17 | a board is sent one record after the other |
| Formats.ReplyFormats | src/msgserv/message.c:95 | the reply to a client, one text a line |
| Formats.CommandFormats | src/rmb/message.c:79 | what a client sends is read as what it meant |
| Formats.RegistryFormat | src/idserv/main.go:118-121 | the list that the identity server prints |
| MsgServers.MsgServer.Store | src/utils/struct_message.c:91-101 | the history grows by the text, cut to 140 characters, at the next clock; the ring follows |
| MsgServers.MsgServer.HandlePublish | src/msgserv/message.c:119-123 | the text is appended, and the code tells the caller to share |
| MsgServers.MsgServer.ParseMessage | src/msgserv/message.c:156-176 | a record is received by the clock rule; anything else changes nothing |
| MsgServers.MsgServer.Newest | src/utils/struct_message.c:19-82 | the listing of the last n messages of the history |
| MsgServers.MsgServer.HandleSgetMessages | src/msgserv/message.c:3-19 | the reply is the board text of the window of the whole ring, also when it is empty |
| MsgServers.MsgServer.ShareLastMessage | src/msgserv/message.c:59-75 | what goes to the peers is the newest message |
| MsgServers.MsgServer.HandleGetMessages | src/msgserv/message.c:78-117 | the reply shows the last min(n, capacity, size) messages; no reply exactly if n reads as 0 |
| MsgServers.MsgServer.HandleClientComms | src/msgserv/message.c:125-154 | there is a reply if and only if the datagram asks for messages with a count that does not read as 0, and none to a publication; only a publication changes the board and returns 2 |
| MsgServers.MsgServer.ServeClient | src/msgserv/main.c:255-260 | the reply, if and only if messages are asked for; something is shared exactly after a publication, and it is that publication |
| MsgServers.MsgServer.Analyze | src/msgserv/message.c:247-261 | one line through the two-state handler |
| MsgServers.MsgServer.TreatCommunications | src/msgserv/message.c:179-268 | board and replies after any chunks are those of the line handler on the lines the token loop puts together |
| Delivery.BatchDelivered | src/msgserv/message.c:205-266 | packets encoded, concatenated and cut at harmless places have the effect the packets call for |
| Delivery.StateTransferExact | src/msgserv/message.c:3-34 | an empty server that receives the board of a well-clocked server, sent whole, stores exactly the non-empty messages with their clocks and in their order: the whole window if and only if no text in it is empty; its next clock is the sender's if and only if the newest text is not empty |
| Delivery.WindowReceived | src/msgserv/message.c:156-176 | what an empty server makes of any window of a well-clocked one |
| Replication.ClockTheorem | src/msgserv/message.c:156-176 | in every run stored clocks increase strictly, the next one is one above the last, and no copy has a clock below that of its publication |
| Replication.RunDominates | src/utils/struct_message.c:91-101 | in every run without empty texts, every server's next clock is above everything in its causal past |
| Replication.PostsTheorem | src/utils/struct_message.c:91-101 | on every run no two publications are the same post: origin and clock identify a publication |
| Traffic.PublishTraffic | src/msgserv/message.c:59-75 | a publication is stored at its server alone and is on its way to exactly the peers it is shared with, behind everything else, unless it is empty |
| Traffic.DeliverTraffic | src/msgserv/message.c:205-268 | a delivery stores exactly what the front of its link carries; boards handed over go on the way back; nothing else moves |
| Traffic.AskTraffic | src/msgserv/identity.c:116-126 | a request goes on one link and carries no message |
| Traffic.CutTraffic | src/msgserv/message.c:49-55 | a lost connection loses exactly what is on its link |
| Traffic.WhatCanHappen | src/msgserv/main.c:175-262 | when each step can be taken |
| Traffic.PublishCauses | src/utils/struct_message.c:91-101 | a publication follows from everything its server knew, and its share from that and the publication |
| Traffic.DeliverCauses | src/msgserv/message.c:156-176 | after a delivery a server knows what it knew and what led to each parcel |
| Traffic.ReplyCauses | src/msgserv/message.c:252-257 | a board that is handed over follows from what the server knew and from the requests up to the one it answers |
| Traffic.AskCauses | src/msgserv/identity.c:116-126 | a request follows from everything its server knows |
| Traffic.NothingMadeUp | src/msgserv/message.c:156-176 | on every run, whatever is stored or carried anywhere has been published |
| Causality.CausalityTheorem | src/msgserv/message.c:156-176 | for every number of servers and kind of text, with and without repeated joins: all such runs order causally related publications strictly by clock, through shares and state transfers over any number of hops, if and only if there is at most one server, or the kind does not include the empty text and, from three servers on, no server that has messages asks for a board |
| Causality.PairRun | src/msgserv/main.c:223-228 | the invariant between two servers: a request tells the server that is asked nothing but what was published there |
| Causality.EmptyTextBreaksCausality | src/msgserv/message.c:162-166 | the run of three steps in which an empty text breaks causality |
| Causality.RetryBreaksCausality | src/msgserv/main.c:223-228 | the run of five steps in which a repeated join breaks causality |
| Mesh.DeliveredMesh | src/msgserv/main.c:255-262 | a delivery moves what its batch carries to the end of the receiver's history and sends nothing on |
| Mesh.StepKeepsMesh | src/msgserv/main.c:255-262 | every step of a static full mesh keeps the account of what each server has and what is on its way to it |
| Mesh.Conserved | src/msgserv/message.c:59-75 | each post occurs in a server's history and in flight to it together exactly as often as it was published, empty posts of others excepted |
| Mesh.AgreementAtRest | src/msgserv/message.c:119-176 | with empty links all histories are equal as multisets if and only if no published text was empty |
| Mesh.MeshTheorem | src/msgserv/main.c:255-262 | over every run of a mesh of any size: publication order everywhere, nothing lost or doubled, agreement at rest |
| Newcomers.RestTheorem | src/msgserv/main.c:255-262 | from any mesh at rest, whatever its servers hold: stored and in flight together are what was held and what has been published since, equally often |
| Newcomers.JoinTheorem | src/msgserv/identity.c:116-206 | a server that joins a mesh at rest brings in exactly the non-empty messages of its peer's window, with their clocks and in their order, and from then on it and all others store what is published exactly once, as far as it has arrived |
| DeliveryOrder.StoringOrderTheorem | src/msgserv/message.c:59-75 | in all runs of a static full mesh every server stores a message behind all that led to it, if and only if the mesh has at most two servers |
| DeliveryOrder.RunOrdered | src/msgserv/message.c:156-176 | the invariant behind it: on a link, what led to a message has arrived or travels in front of it |
| DeliveryOrder.ThirdServerBreaksOrder | src/msgserv/main.c:255-262 | the run of five steps in which a third server stores an answer in front of what it answers |
| Refinement.BytesHaveStepEffect | src/msgserv/message.c:179-268 | the bytes of a batch have the effect of the delivery step of the protocol, replies included |
| Refinement.DeliverBytes | src/msgserv/message.c:179-268 | a server object that mirrors a node still does after treating the bytes of a delivery |
| Refinement.PublishBytes | src/msgserv/main.c:255-260 | a published datagram has the effect of the publication step, and the bytes shared are the packet on the links |
| ByteRuns.ByteRunTheorem | src/msgserv/main.c:175-262 | every run on bytes with clocks of at most five characters in which the boards that are handed over are sent whole, with any datagrams, chunks cut at harmless places, requests and lost connections, has a run of the protocol beside it with the same boards, and the same packets on the links |
| ByteRuns.RunSimulated | src/msgserv/main.c:175-262 | the same from any two states that mirror each other |
| ByteRuns.StaticAnsweredWhole | src/msgserv/message.c:252-257 | in a static mesh no board is ever handed over, so the limits of a reply do not matter |
| ByteRuns.BytesAgree | src/msgserv/main.c:255-262 | in every run on bytes of a static full mesh without empty texts and with clocks of at most five characters: once everything written has been read, all servers hold the same texts, equally often |
| LinkedLists.List.PushItem | src/utils/util_list.c:40-58 | the item stands in front; the size field stays the length of the chain |
| LinkedLists.List.RemoveHead | src/utils/util_list.c:153-164 | the first node goes, if there is one |
| LinkedLists.List.RemoveNextNode | src/utils/util_list.c:166-179 | exactly the node behind the given one goes, if there is one; the size field stays the length of the chain |
| Servers.DifferentMeans | src/utils/struct_server.c:117-124 | servers differ exactly if they differ in address or in one of the ports |
| Servers.SameIdentity | src/utils/struct_server.c:117-124 | the identity keeps exactly address and ports |
| Pruning.SweepTheorem | src/msgserv/identity.c:209-248 | a pass keeps every good server in order and at most half of the bad ones |
| Pruning.RunOfBadServers | src/msgserv/identity.c:224-240 | of a run of bad servers a pass leaves exactly half, rounded down |
| Pruning.PassesReachGood | src/msgserv/main.c:192-193 | with unchanged statuses, fewer than 2^k bad servers are gone after k passes |
| Pruning.RemoveBadServers | src/msgserv/identity.c:209-248 | the list becomes what the pass keeps, where bad means descriptor -1 or the address and both ports of the server itself; the descriptors set are exactly the positive ones of the survivors, and the maximum returned is the greatest of them and the one passed in |
| Joining.ConnectToOldServer | src/msgserv/identity.c:128-185 | descriptor, status and request for every outcome of the network |
| Joining.FirstReachable | src/msgserv/identity.c:187-206 | the first server whose connection and sending succeed |
| Joining.JoinOutcome | src/msgserv/identity.c:128-206 | only the first server that can be reached is asked, and none if there is none; a server ends at -1 exactly if its connection failed or, with nobody asked before it, the request did, and otherwise with its connection; the own entry keeps its descriptor |
| Joining.JoinToOldServers | src/msgserv/identity.c:187-206 | the request goes to exactly the first eligible server that can be reached, or to none, where eligible means another address or port and descriptor -2; the walk stops early exactly at a socket that cannot be made |
| Joining.HandleJoin | src/msgserv/identity.c:367-385 | the whole join: the error for each way to fail, who is asked, and the descriptor of every server afterwards, in terms of the reply of the identity server and the answers of the network alone |
| Joining.EligibleAfterParsing | src/msgserv/identity.c:353-358 | freshly listed servers are connected to unless they have the address and both ports of the server itself; those listed before keep their standing |
| Bans.BanLasts | src/rmb/ban.c:50-69 | a server banned while unlisted or expired answers true to exactly its next five queries, whatever happens to others and however often it is banned again meanwhile |
| Bans.BanRestores | src/rmb/ban.c:50-58 | a ban leaves the full time if and only if the server was unlisted, expired, or has its full time |
| Bans.NotRestored | src/rmb/ban.c:50-69 | banned, asked about and banned again, a server has four queries left |
| Bans.OthersUnaffected | src/rmb/ban.c:50-69 | operations on other servers do not affect a counter |
| Bans.AlwaysBounded | src/rmb/ban.c:50-69 | no counter ever exceeds the ban time |
| Bans.BanList.IsServerInList | src/rmb/ban.c:8-32 | an entry with the same address and ports is found, or none has them |
| Bans.BanList.BanServer | src/rmb/ban.c:50-58 | the list, read as a map from identities to counters, changes as the map does; no identity is listed twice |
| Bans.BanList.IsBanned | src/rmb/ban.c:60-69 | the counter goes down, and the answer is whether it was positive |
| Failover.SearchChooses | src/rmb/main.c:153-161 | for all random picks: nothing is chosen and the list is empty, or a member that is absent from the ban list or expired |
| Failover.SearchAccounts | src/rmb/main.c:153-161 | every counter went down once for each entry dropped and once for the choice; only servers with a running ban are dropped |
| Failover.ExhaustedIff | src/rmb/main.c:153-171 | a list is run through without a choice if and only if every server's ban covers its number of entries, whatever the picks |
| Failover.RoundsExact | src/rmb/main.c:133-187 | exactly how many copies of a list that is returned at every fetch are run through, for all picks and with duplicate entries |
| Failover.AtMostFiveRounds | src/rmb/main.c:133-187 | with the same list at every fetch, at most five are run through before a server is chosen |
| Failover.SearchUses | src/rmb/main.c:153-161 | a search uses up exactly as many true answers of the bans together as it drops servers |
| Failover.ListsBounded | src/rmb/main.c:133-187 | with any non-empty lists, different from one fetch to the next: no more of them are run through than the bans together can still answer queries with true |
| Failover.ListsOfOne | src/rmb/main.c:133-187 | with the same list at every fetch these are exactly the copies counted before |
| Failover.PassKeepsSane | src/rmb/main.c:139-186 | the block never removes a NULL server, and leaves a member that is not banned or a fetched list with the error cleared |
| Failover.PassAccounts | src/rmb/main.c:139-171 | every server's counter after a run through the block: a selected server that did not answer is banned for five queries unless its ban was running, no other server is, and each query costs one |
| Failover.SilentIsBanned | src/rmb/main.c:143-147 | a selected server that did not answer is banned afterwards, for at least five queries less one for each further entry |
| Failover.SilentNotChosen | src/rmb/main.c:139-161 | without a further entry in the list it is not chosen from it again |
| Failover.PassesUntilFetch | src/rmb/main.c:163-172 | with an error pending, the block fetches a new list after at most as many runs as the list has servers |
| Failover.FoundIsKept | src/rmb/main.c:163-170 | a server that is found is kept if and only if no error was pending |
| Failover.ErrorBansAll | src/rmb/main.c:139-172 | with an error pending every server of the list is banned before a new list is fetched |
| Failover.DroppedIsBanned | src/rmb/main.c:153-161 | what is dropped and not chosen leaves with its ban running |
| Failover.PassShrinks | src/rmb/main.c:133-187 | the measure that every run through the block decreases |
| Failover.Choose | src/rmb/main.c:133-187 | with any non-empty lists, the loop ends with a selected server and nothing pending |
| Failover.ListsStep | src/rmb/main.c:171-186 | each run after a fetch finds a server, or uses up one list and as many true answers as the list has entries |
| Failover.SpentWithError | src/rmb/main.c:133-187 | exactly how many runs and fetches a pending error costs |
| Failover.ChoiceCosts | src/rmb/main.c:133-187 | what a choice costs from every state and with any lists, exactly: the runs until no error is pending, and one for each list run through and one that finds |
| Failover.ChoiceIsQuick | src/rmb/main.c:133-187 | with the same list at every fetch, from every state: at most six lists are fetched, and the block is run through at most six times more than the list has entries (once more if it has none) |
| RmbClients.SelectServer | src/rmb/message.c:26-40 | the walk stops on the member that the random number says; NULL exactly on an empty list |
| RmbClients.RemAwolServer | src/rmb/message.c:42-65 | exactly the first entry with the address and ports goes, or none; all other entries stay, in order |
| RmbClients.FetchServers | src/rmb/identity.c:98-145 | new and different objects, which say what the lines of the reply say, names included |
| RmbClients.FetchedRegistry | src/idserv/main.go:113-125 | a printed registry is fetched up to the first server without a name or an address, names included, in reverse order |
| RmbClients.RmbClient.SearchList | src/rmb/main.c:153-161 | the loop on the two lists refines the search on values, for every sequence of random numbers |
| RmbClients.RmbClient.React | src/rmb/main.c:139-151 | a silent server is banned and its first entry removed |
| RmbClients.RmbClient.ReactAndSearch | src/rmb/main.c:139-161 | what is pending is dealt with, and then the search on the two lists is that on values |
| RmbClients.RmbClient.Conclude | src/rmb/main.c:163-185 | a found server clears only the silence; otherwise a list is fetched and the error cleared |
| RmbClients.RmbClient.PassBlock | src/rmb/main.c:139-186 | one run through the block on the two lists is a pass on values; a selected server that did not answer is banned afterwards |
| RmbClients.RmbClient.ChooseServer | src/rmb/main.c:133-187 | the loop ends, and with the choice on values; a selected server that did not answer and has no further entry is not chosen again unless a list is fetched |
| Probes.TestMeans | src/rmb/message.c:170-231 | on every trace, the first flag says whether an answer is outstanding |
| Probes.LastTestMeans | src/rmb/message.c:205-231 | on every trace, the second flag says whether the previous tick reported a running test, with no cancellation since |
| Probes.ReportTheorem | src/rmb/message.c:216-231 | on every trace, a tick reports that the server does not answer if and only if an answer is outstanding and the previous tick reported a running test with no cancellation since |
| Probes.ReportedInTime | src/rmb/message.c:205-231 | a request that is never answered or cancelled is reported by the second tick after it at the latest |
| Probes.Probe.HandleReply | src/rmb/message.c:170-189 | a right answer ends the test, a wrong one keeps it running |
| Probes.Probe.ExecServerTest | src/rmb/message.c:216-231 | the report is the one the trace calls for |
| Registry.LineRead | src/rmb/identity.c:112-113 | a printed line reads back as the same server |
| Registry.PrintedWellFormed | src/rmb/identity.c:112-118 | a printed line is read back if and only if neither the name nor the address is empty |
| Registry.FieldsRead | src/rmb/identity.c:112-113 | a line with two fields that are not empty and two numbers is read, whatever follows; ports are saturated and cut to sixteen bits |
| Registry.FewSemicolons | src/rmb/identity.c:112-118 | a line with fewer than three semicolons is malformed |
| Registry.PortBitsMean | src/rmb/identity.c:112-113 | the sixteen bits that are stored of a number of any size and sign |
| Registry.SignedPortRead | src/rmb/identity.c:112-113 | blanks and a plus sign in front of a port do not matter, a minus sign negates |
| Registry.NoPort | src/rmb/identity.c:112-118 | without a digit behind blanks and a sign there is no port |
| Registry.PrintedTokens | src/idserv/main.go:118-121 | the lines of a printed registry, header first |
| Registry.ParseForClient | src/rmb/identity.c:98-131 | new and different objects with descriptor -2: the reverse of the lines up to the first malformed one |
| Registry.ParseForServer | src/msgserv/identity.c:322-365 | a wrong header changes nothing; otherwise the servers read stand in front of the list, in reverse order, as new and different objects with descriptor -2 |
| Registry.ServerReaderEnds | src/msgserv/identity.c:344-361 | the loop ends if and only if every line is well formed |
| Registry.StuckOnMalformed | src/msgserv/identity.c:348-351 | with a malformed line, lines remain after any number of turns |
| Registry.RegistryRoundTrip | src/idserv/main.go:118-121 | a printed registry that fits one buffer reads back as the same servers, header and every line accepted |
| Registry.RegistryRead | src/idserv/main.go:118-121 | a printed registry with any names and addresses: the client reads it up to the first server without a name or an address; the server's reader ends if and only if there is none |
| Registry.LongReplyCut | src/rmb/identity.c:79-91 | of a longer reply only the first 512 characters are read |
| Registry.ReversedAt | src/utils/util_list.c:40-58 | pushing in front turns the order round |
| Rendezvous.StepCounts | src/idserv/main.go:65-84 | every step keeps: the main loop stands at its send exactly while one handler is between its send and its receive |
| Rendezvous.RunCounts | src/idserv/main.go:65-84 | over every run: one registry for each reply, one nil for each crossing of two handlers, and no request lost |
| Rendezvous.ReplyHasPartner | src/idserv/main.go:81-83 | the send of the main loop always has exactly one partner |
| Rendezvous.NeverStuck | src/idserv/main.go:113-117 | as long as a handler waits, some pair can communicate |
| Rendezvous.AllAnswered | src/idserv/main.go:113-117 | whatever pairs the scheduler forms, after at most two communications a request all handlers are done and the main loop is back |
| Rendezvous.AnswersHaveOrigin | src/idserv/main.go:113-117 | over any run, for every handler that waits at its start or arrives in it: one that ends with a registry got the one current at its reply; one that ends with nil crossed with another handler |
| Rendezvous.RunRegistry | src/idserv/main.go:66-80 | the registry after a run holds exactly the servers that registered since the last wipe, in order |
| Rendezvous.RegisteredAt | src/idserv/main.go:80 | as many as there are registrations, and in the place of each the server that it names |
| Rendezvous.ServerRuns | src/idserv/main.go:56-84 | for every run of the identity server from its start: replies, crossings and requests balance, and a handler that was answered has exactly the registrations between the last wipe and its answer, in order |

## Left out

- Sockets, `select`, timers, signals, options, prompts, colours, verbose output and name resolution: inputs and outcomes of the network are parameters.
- Short writes (`src/msgserv/message.c:21-30`, `src/msgserv/message.c:44-56`) and failed sends of replies: one write sends everything, and a link that breaks loses what is on it (`Cut`).
- Raw memory: allocation, freeing, and writes beyond a buffer. Where the code has a buffer that its input can exceed (the five-digit clock field, the word in front of a command's argument, `src/msgserv/message.c:127`, the listing buffer, the name and address fields, the text held back), the round trips are stated for inputs that fit.
- Wrap-around of the 64-bit clock and size, and underflow of the ban counters. The `int` through which clocks are printed and the `unsigned` into which counts and clocks are read are modelled.
- Framing across two calls of `server_treat_communications`: the state of the line handler is local to a call, so a batch is a number of whole packets treated in one call.
- The end of a connection: `recv` returning 0 and `close_communication`; a call gets the chunks that arrive before it.
- Replication.Enabled: a server asks for a board only while nothing has been published at it, because joining comes before service (`src/msgserv/main.c:182-190`).
- Mesh.MeshTheorem: only for a static full mesh; when joins race with publications or two servers connect to each other, copies are not recognised and exactly-once delivery does not hold.
- Messages.GetFirstNMessages: the total size of the buffer that the listing is appended to, 141 characters for each message asked for. A clocked listing of that length or more is written beyond it (`src/utils/struct_message.c:24`, `src/utils/struct_message.c:77`); the model lets the text grow, and what `BoardTextExact`, `FullBoardCut` and `StateTransferExact` say of such listings is said of that text. `FittingIsWhole` and `ListingFits` name those that fit. Counts are between 1 and the capacity, to which both callers clamp.
- Matrices.Matrix.AddElement: capacity above 0, as the division by it requires.
- Reassembly.ChunkingTheorem: streams without NUL whose lines fit the analysis buffer of 423 characters.
- MsgServers.MsgServer.HandleClientComms: a datagram that does not arrive, and a reply that cannot be sent.
- Joining.JoinToOldServers: printing the port number does not fail. That the entries are different objects is shown of what the parser makes; `HandleJoin` keeps it.
- Bans.BanList.IsServerInList: the head, which the code checks on its own, is part of the loop.
- RmbClients.RmbClient.ChooseServer: the identity server answers every fetch, with a list that is not empty; when it does not answer, the client exits, and an empty list is fetched again without end. The waiting before each run and the messages to the user are not modelled.
- Registry.ParseForServer: for replies on which the loop ends and that have a first line; the code does not check for one. The same holds of `HandleJoin`.
- Parsing of registrations, uniqueness and expiry in the identity server (`src/idserv/main.go:70-80`, `src/idserv/main.go:87-111`): registrations and wipes are steps that may happen at any time. Go's slices are values here, so a registry that is written while a handler still prints an older one is not captured.
- Registration of a server, accepted connections (`tcp_new_comm`), and the user commands that list servers and messages.
- ByteRuns.ByteRunTheorem: runs in which clocks stay at most 100000, as `parse_message` has room for five digits, and in which a board that is handed over is sent whole (`BoardTextExact`); a call of the line handler gets whole packets.
- `merge_lists`, which nothing calls.
